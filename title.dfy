/** `normalize_title`: collapse whitespace, then cut an over-long title at
    the first full stop, else at the first full-width comma, else truncate
    it hard and mark the cut with an ellipsis. */
module Title {
  import opened Text

  const FullStop: char := '。'
  const FullComma: char := '，'
  const Ellipsis: char := '…'

  /** The whitespace-collapsed, stripped title, before any length cut. */
  function Cleaned(raw: string): string {
    Collapse(raw)
  }

  /** `t.split(ch, 1)[0].strip()` when `ch in t` and `t` is longer than
      `maxLen`; otherwise `t` unchanged. */
  function CutAt(t: string, ch: char, maxLen: int): (u: string)
    requires IsClean(t)
    ensures IsClean(u) && u <= t
    ensures ch in t && |t| > maxLen ==> ch !in u
    ensures ch in t && |t| > maxLen ==>
              && u <= BeforeFirst(t, ch)
              && forall i | |u| <= i < |BeforeFirst(t, ch)| :: IsSpace(t[i])
    ensures !(ch in t && |t| > maxLen) ==> u == t
    ensures forall c | c !in t :: c !in u
  {
    if ch in t && |t| > maxLen then
      var b := BeforeFirst(t, ch);
      StripPrefixOfClean(t, b);
      StrippedTail(t, b);
      NotInPrefix(StripRight(b), b, ch);
      forall c | c !in t ensures c !in StripRight(b) {
        NotInPrefix(StripRight(b), t, c);
      }
      StripRight(b)
    else t
  }

  /** The last step, when `t` is still longer than `maxLen`: keep
      `t[:maxLen - 1]`, right-stripped, and append an ellipsis. */
  function Truncate(t: string, maxLen: int): (r: string)
    requires IsClean(t)
    ensures IsClean(r)
    ensures maxLen >= 1 ==> |r| <= maxLen
    ensures |t| <= maxLen ==> r == t
    ensures |t| > maxLen ==>
              && r != [] && r[|r| - 1] == Ellipsis
              && r[..|r| - 1] <= Take(t, maxLen - 1)
              && (|r| == 1 || !IsSpace(r[|r| - 2]))
              && forall i | |r| - 1 <= i < |Take(t, maxLen - 1)| :: IsSpace(t[i])
    ensures PrefixOrCut(r, t, maxLen)
    ensures forall c | c !in t && c != Ellipsis :: c !in r
  {
    if |t| > maxLen then
      HardCut(t, maxLen);
      StripRight(Take(t, maxLen - 1)) + [Ellipsis]
    else t
  }

  /** The over-long case of `Truncate`, one fact at a time. */
  lemma HardCut(t: string, maxLen: int)
    requires IsClean(t) && |t| > maxLen
    ensures var p := Take(t, maxLen - 1);
            var r := StripRight(p) + [Ellipsis];
            && IsClean(r)
            && (maxLen >= 1 ==> |r| <= maxLen)
            && r[..|r| - 1] == StripRight(p) && StripRight(p) <= p && p <= t
            && (|r| == 1 || !IsSpace(r[|r| - 2]))
            && (forall i | |r| - 1 <= i < |p| :: IsSpace(t[i]))
            && (forall c | c !in t && c != Ellipsis :: c !in r)
  {
    var p := Take(t, maxLen - 1);
    var q := StripRight(p);
    var r := q + [Ellipsis];
    assert IsClean(r) by {
      StripPrefixOfClean(t, p);
      EllipsisKeepsClean(q);
    }
    assert maxLen >= 1 ==> |r| <= maxLen by {
      assert |r| == |q| + 1 && |q| <= |p|;
    }
    assert r[..|r| - 1] == q;
    StrippedTail(t, p);
    forall c | c !in t && c != Ellipsis ensures c !in r {
      NotInPrefix(q, t, c);
      assert r[..|r| - 1] == q;
    }
  }

  /** `r` is a prefix of `t`, or `t` is over-long and `r` is a prefix of it
      followed by the ellipsis. */
  predicate PrefixOrCut(r: string, t: string, maxLen: int) {
    r <= t
    || (|t| > maxLen && r != [] && r[|r| - 1] == Ellipsis && r[..|r| - 1] <= t)
  }

  /** The two cuts and the truncation, applied to a clean title. */
  function Shorten(t0: string, maxLen: int): (r: string)
    requires IsClean(t0)
    ensures maxLen >= 1 ==> |r| <= maxLen
    ensures IsClean(r)
    ensures |t0| <= maxLen ==> r == t0
    ensures PrefixOrCut(r, t0, maxLen)
    ensures FullStop in t0 && |t0| > maxLen ==> FullStop !in r
  {
    var t1 := CutAt(t0, FullStop, maxLen);
    var t2 := CutAt(t1, FullComma, maxLen);
    PrefixTrans(t2, t1, t0);
    var r := Truncate(t2, maxLen);
    assert r <= t0 || (r != [] && r[..|r| - 1] <= t0) by {
      if r <= t2 {
        PrefixTrans(r, t2, t0);
      } else {
        PrefixTrans(r[..|r| - 1], t2, t0);
      }
    }
    r
  }

  /** `normalize_title(raw)` with `TITLE_MAX_LEN == maxLen`. */
  function NormalizeTitle(raw: string, maxLen: int): (r: string)
    ensures maxLen >= 1 ==> |r| <= maxLen
    ensures IsClean(r)
    ensures |Cleaned(raw)| <= maxLen ==> r == Cleaned(raw)
    ensures PrefixOrCut(r, Cleaned(raw), maxLen)
    ensures FullStop in Cleaned(raw) && |Cleaned(raw)| > maxLen ==> FullStop !in r
  {
    Shorten(Cleaned(raw), maxLen)
  }

  /** What `rstrip` removes from a prefix `p` of `t` is whitespace of `t`. */
  lemma StrippedTail(t: string, p: string)
    requires p <= t
    ensures StripRight(p) <= p
    ensures forall i | |StripRight(p)| <= i < |p| :: IsSpace(t[i])
  {
    forall i | |StripRight(p)| <= i < |p| ensures IsSpace(t[i]) {
      assert t[i] == p[i];
    }
  }

  lemma PrefixTrans(a: string, b: string, c: string)
    requires a <= b && b <= c
    ensures a <= c
  {
    assert c[..|a|] == b[..|a|];
  }

  lemma NotInPrefix(p: string, s: string, ch: char)
    requires p <= s && ch !in s
    ensures ch !in p
  {
    forall i | 0 <= i < |p| ensures p[i] != ch {
      assert p[i] == s[i];
    }
  }

  lemma EllipsisKeepsClean(p: string)
    requires IsClean(p)
    ensures IsClean(p + [Ellipsis])
  {
    var q := p + [Ellipsis];
    forall i | 0 < i < |q| && q[i] == ' ' ensures q[i - 1] != ' ' {
      assert q[i] == p[i];
    }
  }

  /** Normalising a normalised title changes nothing. */
  lemma NormalizeIdempotent(raw: string, maxLen: int)
    requires maxLen >= 1
    ensures NormalizeTitle(NormalizeTitle(raw, maxLen), maxLen) == NormalizeTitle(raw, maxLen)
  {
    CollapseClean(NormalizeTitle(raw, maxLen));
  }

  /** The full-stop cut is tried first: when it alone brings the title
      within the limit, a full-width comma before the full stop is not used. */
  lemma StopCutFirst(raw: string, maxLen: int)
    requires FullStop in Cleaned(raw) && |Cleaned(raw)| > maxLen
    requires |Strip(BeforeFirst(Cleaned(raw), FullStop))| <= maxLen
    ensures NormalizeTitle(raw, maxLen) == Strip(BeforeFirst(Cleaned(raw), FullStop))
  {
  }

  /** Without a full stop, an over-long title is cut at the first full-width comma. */
  lemma CommaCut(raw: string, maxLen: int)
    requires FullStop !in Cleaned(raw) && FullComma in Cleaned(raw) && |Cleaned(raw)| > maxLen
    requires |Strip(BeforeFirst(Cleaned(raw), FullComma))| <= maxLen
    ensures NormalizeTitle(raw, maxLen) == Strip(BeforeFirst(Cleaned(raw), FullComma))
  {
  }

  /** The ellipsis is appended exactly when both cuts leave the title too
      long (for a title that had none of its own). */
  lemma HardTruncation(raw: string, maxLen: int)
    requires Ellipsis !in Cleaned(raw)
    ensures var t2 := CutAt(CutAt(Cleaned(raw), FullStop, maxLen), FullComma, maxLen);
            Ellipsis in NormalizeTitle(raw, maxLen) <==> |t2| > maxLen
  {
    var t0 := Cleaned(raw);
    var t1 := CutAt(t0, FullStop, maxLen);
    var t2 := CutAt(t1, FullComma, maxLen);
    var r := Truncate(t2, maxLen);
    assert NormalizeTitle(raw, maxLen) == r;
    if |t2| > maxLen {
      assert r[|r| - 1] == Ellipsis;
    } else {
      assert r == t2;
      assert Ellipsis !in t1;
    }
  }

  /** A title made only of whitespace normalises to the empty title (to a
      lone ellipsis if the limit is negative). */
  lemma BlankTitle(raw: string, maxLen: int)
    requires forall i | 0 <= i < |raw| :: IsSpace(raw[i])
    ensures NormalizeTitle(raw, maxLen) == if maxLen >= 0 then [] else [Ellipsis]
  {
    CollapseAllSpace(raw);
    ShortenEmpty(maxLen);
  }

  /** The empty title stays empty, except under a negative limit, where the
      hard truncation still fires and leaves only the ellipsis. */
  lemma ShortenEmpty(maxLen: int)
    ensures Shorten([], maxLen) == if maxLen >= 0 then [] else [Ellipsis]
  {
    var e: string := [];
    assert CutAt(e, FullStop, maxLen) == e;
    assert CutAt(e, FullComma, maxLen) == e;
    if maxLen < 0 {
      assert Take(e, maxLen - 1) == e;
    }
  }
}
