/** String helpers with Python's semantics: whitespace, strip, the `\s+`
    collapse, substring search, str.split / str.join and decimal numerals. */
module Text {
  import opened Wrappers

  /** Python's `str.isspace()`: the characters that `\s` matches in a str
      pattern and that `str.strip()` removes. */
  predicate IsSpace(c: char) {
    ('\t' <= c <= '\r') || ('\U{1C}' <= c <= '\U{1F}') || c == ' '
    || c == '\U{85}' || c == '\U{A0}' || c == '\U{1680}'
    || ('\U{2000}' <= c <= '\U{200A}') || c == '\U{2028}' || c == '\U{2029}'
    || c == '\U{202F}' || c == '\U{205F}' || c == '\U{3000}'
  }

  function Min(a: int, b: int): int { if a <= b then a else b }

  function Max(a: int, b: int): int { if a <= b then b else a }

  /** The length of `s[:e]` for a sequence of length `n`: a negative end
      counts from the back. */
  function SliceEnd(n: nat, e: int): (k: nat)
    ensures k <= n
  {
    if e >= 0 then Min(e, n) else Max(0, n + e)
  }

  /** Python's `s[:e]`. */
  function Take<T>(s: seq<T>, e: int): (r: seq<T>)
    ensures r <= s
    ensures 0 <= e ==> |r| == Min(e, |s|)
    ensures e < 0 ==> |r| == Max(0, |s| + e)
  {
    s[..SliceEnd(|s|, e)]
  }

  // ---------------------------------------------------------------------
  // strip / lstrip / rstrip

  /** `s.lstrip()` */
  function StripLeft(s: string): (r: string)
    ensures |r| <= |s| && r == s[|s| - |r|..]
    ensures r == [] || !IsSpace(r[0])
    ensures forall i | 0 <= i < |s| - |r| :: IsSpace(s[i])
  {
    if s != [] && IsSpace(s[0]) then StripLeft(s[1..]) else s
  }

  /** `s.rstrip()` */
  function StripRight(s: string): (r: string)
    ensures |r| <= |s| && r == s[..|r|]
    ensures r == [] || !IsSpace(r[|r| - 1])
    ensures forall i | |r| <= i < |s| :: IsSpace(s[i])
  {
    if s != [] && IsSpace(s[|s| - 1]) then StripRight(s[..|s| - 1]) else s
  }

  /** `s.strip()` */
  function Strip(s: string): string {
    StripRight(StripLeft(s))
  }

  // ---------------------------------------------------------------------
  // re.sub(r"\s+", " ", s).strip()

  /** The only whitespace is a plain space, and no two spaces are adjacent. */
  predicate SingleSpaced(s: string) {
    && (forall i | 0 <= i < |s| :: IsSpace(s[i]) ==> s[i] == ' ')
    && (forall i | 0 < i < |s| :: s[i] == ' ' ==> s[i - 1] != ' ')
  }

  /** What a whitespace-collapsed, stripped title looks like. */
  predicate IsClean(s: string) {
    SingleSpaced(s) && (s != [] ==> !IsSpace(s[0]) && !IsSpace(s[|s| - 1]))
  }

  /** Drops the leading run of whitespace. */
  function DropSpaces(s: string): (r: string)
    ensures |r| <= |s| && r == s[|s| - |r|..]
    ensures r == [] || !IsSpace(r[0])
    ensures s != [] && IsSpace(s[0]) ==> |r| < |s|
    ensures forall i | 0 <= i < |s| - |r| :: IsSpace(s[i])
  {
    if s != [] && IsSpace(s[0]) then DropSpaces(s[1..]) else s
  }

  /** `re.sub(r"\s+", " ", s)`: every maximal run of whitespace becomes one space. */
  function Squeeze(s: string): (r: string)
    ensures SingleSpaced(r)
    ensures r == [] <==> s == []
    ensures r != [] ==> (r[0] == ' ' <==> IsSpace(s[0]))
    ensures r != [] ==> (r[|r| - 1] == ' ' <==> IsSpace(s[|s| - 1]))
    decreases |s|
  {
    if s == [] then []
    else if IsSpace(s[0]) then [' '] + Squeeze(DropSpaces(s))
    else [s[0]] + Squeeze(s[1..])
  }

  /** `re.sub(r"\s+", " ", s).strip()` */
  function Collapse(s: string): (r: string)
    ensures IsClean(r)
  {
    var q := Squeeze(s);
    StripSingleSpaced(q);
    Strip(q)
  }

  lemma StripSingleSpaced(s: string)
    requires SingleSpaced(s)
    ensures IsClean(Strip(s))
  {
    var l := StripLeft(s);
    SuffixSingleSpaced(s, |s| - |l|);
    var r := StripRight(l);
    PrefixSingleSpaced(l, |r|);
  }

  lemma SuffixSingleSpaced(s: string, k: nat)
    requires SingleSpaced(s) && k <= |s|
    ensures SingleSpaced(s[k..])
  {
    var l := s[k..];
    forall i | 0 < i < |l| && l[i] == ' ' ensures l[i - 1] != ' ' {
      assert l[i] == s[k + i] && l[i - 1] == s[k + i - 1];
    }
  }

  lemma PrefixSingleSpaced(s: string, k: nat)
    requires SingleSpaced(s) && k <= |s|
    ensures SingleSpaced(s[..k])
  {
  }

  /** A single-spaced string is left alone by the whitespace collapse. */
  lemma {:induction false} SqueezeSingleSpaced(s: string)
    requires SingleSpaced(s)
    ensures Squeeze(s) == s
    decreases |s|
  {
    if s == [] {
    } else {
      assert SingleSpaced(s[1..]) by {
        forall i | 0 < i < |s[1..]| && s[1..][i] == ' ' ensures s[1..][i - 1] != ' ' {
          assert s[1..][i] == s[i + 1];
        }
      }
      if IsSpace(s[0]) {
        assert s[1..] == [] || !IsSpace(s[1]);
        assert DropSpaces(s) == s[1..];
      }
      SqueezeSingleSpaced(s[1..]);
    }
  }

  /** A clean string is its own collapse. */
  lemma CollapseClean(s: string)
    requires IsClean(s)
    ensures Collapse(s) == s
  {
    SqueezeSingleSpaced(s);
  }

  /** Cutting a clean string and stripping the piece keeps a clean prefix. */
  lemma StripPrefixOfClean(s: string, p: string)
    requires IsClean(s) && p <= s
    ensures Strip(p) == StripRight(p)
    ensures StripRight(p) <= s
    ensures IsClean(StripRight(p))
  {
    assert p == [] || !IsSpace(p[0]);
    var r := StripRight(p);
    assert r == p[..|r|];
  }

  /** A string made only of whitespace collapses to the empty string. */
  lemma {:induction false} CollapseAllSpace(s: string)
    requires forall i | 0 <= i < |s| :: IsSpace(s[i])
    ensures Collapse(s) == []
  {
    if s != [] {
      assert Squeeze(s) == [' '];
    }
  }

  // ---------------------------------------------------------------------
  // s.split() and " ".join(s.split()): an independent account of the collapse

  /** `s.split()`: the maximal runs of characters that are not whitespace,
      read from the front one character at a time. */
  function Words(s: string): (ws: seq<string>)
    ensures s != [] && !IsSpace(s[0]) ==> ws != []
    decreases |s|
  {
    if s == [] then []
    else if IsSpace(s[0]) then Words(s[1..])
    else
      var rest := Words(s[1..]);
      if |s| > 1 && !IsSpace(s[1]) then [[s[0]] + rest[0]] + rest[1..]
      else [[s[0]]] + rest
  }

  /** A leading whitespace character starts no word. */
  lemma WordsSpaceCons(c: char, x: string)
    requires IsSpace(c)
    ensures Words([c] + x) == Words(x)
  {
    assert ([c] + x)[1..] == x;
  }

  /** A leading character that is not whitespace starts the first word. */
  lemma WordsCons(c: char, x: string)
    requires !IsSpace(c)
    ensures x != [] && !IsSpace(x[0]) ==> Words([c] + x) == [[c] + Words(x)[0]] + Words(x)[1..]
    ensures !(x != [] && !IsSpace(x[0])) ==> Words([c] + x) == [[c]] + Words(x)
  {
    assert ([c] + x)[1..] == x;
  }

  /** Dropping leading whitespace keeps the words. */
  lemma {:induction false} WordsDropSpaces(s: string)
    ensures Words(DropSpaces(s)) == Words(s)
    decreases |s|
  {
    if s != [] && IsSpace(s[0]) {
      WordsDropSpaces(s[1..]);
    }
  }

  /** The collapse of whitespace runs keeps the words. */
  lemma {:induction false} WordsSqueeze(s: string)
    ensures Words(Squeeze(s)) == Words(s)
    decreases |s|
  {
    if s == [] {
    } else if IsSpace(s[0]) {
      var d := DropSpaces(s);
      assert Squeeze(s) == [' '] + Squeeze(d);
      WordsSqueeze(d);
      WordsSpaceCons(' ', Squeeze(d));
      WordsDropSpaces(s);
    } else {
      var x := s[1..];
      var q := Squeeze(x);
      assert Squeeze(s) == [s[0]] + q;
      assert s == [s[0]] + x;
      assert (q != [] && !IsSpace(q[0])) <==> (x != [] && !IsSpace(x[0])) by {
        if q != [] {
          assert IsSpace(q[0]) ==> q[0] == ' ';
        }
      }
      WordsSqueeze(x);
      WordsCons(s[0], q);
      WordsCons(s[0], x);
    }
  }

  /** Trailing whitespace adds no word. */
  lemma {:induction false} WordsTrailing(a: string, sp: string)
    requires forall i | 0 <= i < |sp| :: IsSpace(sp[i])
    ensures Words(a + sp) == Words(a)
    decreases |a| + |sp|
  {
    if a == [] {
      assert a + sp == sp;
      if sp != [] {
        WordsSpaceCons(sp[0], sp[1..]);
        WordsTrailing([], sp[1..]);
        assert sp == [sp[0]] + sp[1..] && [] + sp[1..] == sp[1..];
      }
    } else {
      var x := a[1..];
      assert a + sp == [a[0]] + (x + sp) && a == [a[0]] + x;
      WordsTrailing(x, sp);
      if IsSpace(a[0]) {
        WordsSpaceCons(a[0], x + sp);
        WordsSpaceCons(a[0], x);
      } else {
        WordsCons(a[0], x + sp);
        WordsCons(a[0], x);
        if x == [] {
          assert x + sp == sp;
        } else {
          assert (x + sp)[0] == x[0];
        }
      }
    }
  }

  /** Stripping keeps the words. */
  lemma WordsStrip(x: string)
    ensures Words(Strip(x)) == Words(x)
  {
    DropSpacesIsStripLeft(x);
    WordsDropSpaces(x);
    WordsStripRight(StripLeft(x));
  }

  /** Right-stripping keeps the words. */
  lemma WordsStripRight(l: string)
    ensures Words(StripRight(l)) == Words(l)
  {
    var r := StripRight(l);
    var sp := l[|r|..];
    assert l == r + sp;
    forall i | 0 <= i < |sp| ensures IsSpace(sp[i]) {
      assert sp[i] == l[|r| + i];
    }
    WordsTrailing(r, sp);
  }

  lemma {:induction false} DropSpacesIsStripLeft(s: string)
    ensures DropSpaces(s) == StripLeft(s)
    decreases |s|
  {
    if s != [] && IsSpace(s[0]) {
      DropSpacesIsStripLeft(s[1..]);
    }
  }

  /** Joining with a prefix on the first line prefixes the join. */
  lemma JoinPrefixFirst(a: string, ws: seq<string>, sep: char)
    requires ws != []
    ensures Join([a + ws[0]] + ws[1..], sep) == a + Join(ws, sep)
  {
    var v := [a + ws[0]] + ws[1..];
    assert v[1..] == ws[1..];
  }

  /** A clean string is its words joined with single spaces. */
  lemma {:induction false} JoinWordsClean(c: string)
    requires IsClean(c)
    ensures Join(Words(c), ' ') == c
    decreases |c|
  {
    if c != [] {
      var x := c[1..];
      assert c == [c[0]] + x;
      WordsCons(c[0], x);
      if x == [] {
      } else if !IsSpace(x[0]) {
        assert IsClean(x) by {
          forall i | 0 < i < |x| && x[i] == ' ' ensures x[i - 1] != ' ' {
            assert x[i] == c[i + 1] && x[i - 1] == c[i];
          }
        }
        JoinWordsClean(x);
        JoinPrefixFirst([c[0]], Words(x), ' ');
      } else {
        var y := x[1..];
        assert x[0] == ' ' && x == [' '] + y;
        assert y != [] && !IsSpace(y[0]) by {
          assert |c| != 2;
          assert c[2] == y[0] && c[1] == ' ';
        }
        assert IsClean(y) by {
          forall i | 0 < i < |y| && y[i] == ' ' ensures y[i - 1] != ' ' {
            assert y[i] == c[i + 2] && y[i - 1] == c[i + 1];
          }
        }
        JoinWordsClean(y);
        WordsSpaceCons(' ', y);
        var ws := Words(y);
        assert Join([[c[0]]] + ws, ' ') == [c[0]] + [' '] + Join(ws, ' ') by {
          assert ([[c[0]]] + ws)[1..] == ws;
        }
      }
    }
  }

  /** `re.sub(r"\s+", " ", s).strip()` is `" ".join(s.split())`: the words,
      in order, joined with single spaces. */
  lemma CollapseWords(s: string)
    ensures Collapse(s) == Join(Words(s), ' ')
  {
    WordsSqueeze(s);
    WordsStrip(Squeeze(s));
    JoinWordsClean(Collapse(s));
  }

  // ---------------------------------------------------------------------
  // substring search and str.split(ch, 1)[0]

  /** `sub in s` for strings. */
  predicate Contains(s: string, sub: string)
    decreases |s|
  {
    sub <= s || (s != [] && Contains(s[1..], sub))
  }

  /** `s.split(ch, 1)[0]`: the part of `s` before the first `ch`. */
  function BeforeFirst(s: string, ch: char): (r: string)
    ensures r <= s && ch !in r
    ensures ch in s ==> |r| < |s| && s[|r|] == ch
    ensures ch !in s ==> r == s
  {
    if s == [] then []
    else if s[0] == ch then []
    else [s[0]] + BeforeFirst(s[1..], ch)
  }

  // ---------------------------------------------------------------------
  // sep.join(lines) and s.split(sep)

  /** `sep.join(lines)` for a one-character separator. */
  function Join(lines: seq<string>, sep: char): string
    decreases |lines|
  {
    if lines == [] then []
    else if |lines| == 1 then lines[0]
    else lines[0] + [sep] + Join(lines[1..], sep)
  }

  /** `s.split(sep)` for a one-character separator. */
  function Split(s: string, sep: char): (r: seq<string>)
    ensures |r| >= 1
  {
    if s == [] then [[]]
    else if s[0] == sep then [[]] + Split(s[1..], sep)
    else var rest := Split(s[1..], sep); [[s[0]] + rest[0]] + rest[1..]
  }

  lemma {:induction false} SplitPiece(a: string, sep: char, t: string)
    requires sep !in a
    ensures Split(a + [sep] + t, sep) == [a] + Split(t, sep)
    ensures Split(a, sep) == [a]
  {
    if a != [] {
      assert (a + [sep] + t)[1..] == a[1..] + [sep] + t;
      SplitPiece(a[1..], sep, t);
      assert [a[0]] + a[1..] == a;
    }
  }

  /** Splitting a join at the separator gives back the lines, when no line
      contains the separator. */
  lemma {:induction false} SplitJoin(lines: seq<string>, sep: char)
    requires |lines| >= 1
    requires forall i | 0 <= i < |lines| :: sep !in lines[i]
    ensures Split(Join(lines, sep), sep) == lines
    decreases |lines|
  {
    if |lines| == 1 {
      SplitPiece(lines[0], sep, []);
    } else {
      SplitPiece(lines[0], sep, Join(lines[1..], sep));
      SplitJoin(lines[1..], sep);
    }
  }

  // ---------------------------------------------------------------------
  // decimal numerals: int(digits) and str(n)

  predicate IsDigit(c: char) { '0' <= c <= '9' }

  predicate AllDigits(s: string) { forall i | 0 <= i < |s| :: IsDigit(s[i]) }

  /** `int(s)` for a string of ASCII digits (leading zeros allowed). */
  function DecimalValue(s: string): nat
    requires AllDigits(s)
  {
    if s == [] then 0
    else DecimalValue(s[..|s| - 1]) * 10 + (s[|s| - 1] as int - '0' as int)
  }

  function DigitChar(d: nat): (c: char)
    requires d < 10
    ensures IsDigit(c) && c as int - '0' as int == d
  {
    ('0' as int + d) as char
  }

  /** `str(n)` for a natural number: the canonical numeral. */
  function NatToString(n: nat): (r: string)
    ensures CanonicalDigits(r)
    ensures DecimalValue(r) == n
    ensures r[0] == '0' ==> n == 0
    decreases n
  {
    if n < 10 then [DigitChar(n)]
    else
      var p := NatToString(n / 10);
      var r := p + [DigitChar(n % 10)];
      assert r[..|r| - 1] == p;
      r
  }

  /** A numeral without superfluous leading zeros, as `str` writes it. */
  predicate CanonicalDigits(s: string) {
    |s| >= 1 && AllDigits(s) && (s[0] == '0' ==> |s| == 1)
  }

  /** A numeral that does not start with `0` has a positive value. */
  lemma {:induction false} LeadingDigitPositive(s: string)
    requires |s| >= 1 && AllDigits(s) && s[0] != '0'
    ensures DecimalValue(s) >= 1
    decreases |s|
  {
    if |s| > 1 {
      LeadingDigitPositive(s[..|s| - 1]);
    }
  }

  /** A canonical numeral is `str` of its value. */
  lemma {:induction false} CanonicalNumeral(s: string)
    requires CanonicalDigits(s)
    ensures NatToString(DecimalValue(s)) == s
    decreases |s|
  {
    if |s| > 1 {
      var p := s[..|s| - 1];
      assert CanonicalDigits(p);
      LeadingDigitPositive(p);
      CanonicalNumeral(p);
      var v := DecimalValue(s);
      var d := s[|s| - 1] as int - '0' as int;
      assert v / 10 == DecimalValue(p) && v % 10 == d;
      assert s == p + [DigitChar(d)];
    }
  }

  /** `str(n)` for any integer. */
  function IntToString(n: int): string {
    if n < 0 then ['-'] + NatToString(-n) else NatToString(n)
  }

  /** The integer whose `str` is `s`, if there is one. */
  function ParseInt(s: string): Option<int> {
    if |s| >= 2 && s[0] == '-' && CanonicalDigits(s[1..]) && s[1] != '0' then Some(-(DecimalValue(s[1..]) as int))
    else if CanonicalDigits(s) then Some(DecimalValue(s))
    else None
  }

  /** Reading back a written integer gives the integer. */
  lemma ParseIntToString(n: int)
    ensures ParseInt(IntToString(n)) == Some(n)
  {
    var s := IntToString(n);
    if n < 0 {
      assert s[1..] == NatToString(-n);
    } else {
      assert IsDigit(s[0]);
    }
  }

  /** The only string read as `n` is `str(n)`, so an id is recognised
      exactly when it was written the way `str` writes it. */
  lemma ParseIntCanonical(s: string, n: int)
    requires ParseInt(s) == Some(n)
    ensures s == IntToString(n)
  {
    if |s| >= 2 && s[0] == '-' && CanonicalDigits(s[1..]) && s[1] != '0' {
      LeadingDigitPositive(s[1..]);
      CanonicalNumeral(s[1..]);
      assert s == ['-'] + s[1..];
    } else {
      CanonicalNumeral(s);
    }
  }
}
