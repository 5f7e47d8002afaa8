/** Numeric descending order on identifiers: `sorted(ids, key=int,
    reverse=True)` over a set of ids, and the cap `[:k]` applied to it.
    A set is given here by any sequence that lists its members (repeats
    allowed); only `Elems` of that sequence matters. */
module Ordering {
  import opened Text

  predicate StrictlyDesc(s: seq<int>) {
    forall i, j | 0 <= i < j < |s| :: s[i] > s[j]
  }

  function Elems(s: seq<int>): set<int> {
    set x | x in s
  }

  lemma ElemsAppend(s: seq<int>, x: int)
    ensures Elems(s + [x]) == Elems(s) + {x}
  {
    assert forall y | y in s + [x] :: y in s || y == x;
  }

  /** A strictly descending sequence lists each of its elements once. */
  lemma {:induction false} DistinctCard(r: seq<int>)
    requires StrictlyDesc(r)
    ensures |Elems(r)| == |r|
  {
    if r != [] {
      var t := r[1..];
      assert StrictlyDesc(t);
      DistinctCard(t);
      assert Elems(r) == {r[0]} + Elems(t) by {
        assert r == [r[0]] + t;
      }
      assert r[0] !in Elems(t);
    }
  }

  /** Inserts `x` into a strictly descending sequence, dropping a repeat. */
  function InsertDesc(r: seq<int>, x: int): (q: seq<int>)
    requires StrictlyDesc(r)
    ensures StrictlyDesc(q)
    ensures Elems(q) == Elems(r) + {x}
  {
    if r == [] then [x]
    else if x > r[0] then
      ConsDesc(x, r);
      [x] + r
    else if x == r[0] then r
    else
      TailElems(r);
      var t := InsertDesc(r[1..], x);
      ConsDesc(r[0], t);
      [r[0]] + t
  }

  /** Prepending a value above every element keeps the order strict. */
  lemma ConsDesc(m: int, t: seq<int>)
    requires StrictlyDesc(t)
    requires forall y | y in Elems(t) :: y < m
    ensures StrictlyDesc([m] + t)
    ensures Elems([m] + t) == {m} + Elems(t)
  {
    var q := [m] + t;
    forall i, j | 0 <= i < j < |q| ensures q[i] > q[j] {
      assert q[j] == t[j - 1] && t[j - 1] in Elems(t);
      if i > 0 {
        assert q[i] == t[i - 1];
      }
    }
  }

  /** `sorted(set(xs), reverse=True)`: the distinct values of `xs`, largest first. */
  function SortedDesc(xs: seq<int>): (r: seq<int>)
    ensures StrictlyDesc(r)
    ensures Elems(r) == Elems(xs)
    decreases |xs|
  {
    if xs == [] then []
    else
      var init := xs[..|xs| - 1];
      assert Elems(xs) == Elems(init) + {xs[|xs| - 1]} by { assert xs == init + [xs[|xs| - 1]]; }
      InsertDesc(SortedDesc(init), xs[|xs| - 1])
  }

  /** Two strictly descending sequences with the same elements are equal. */
  lemma {:induction false} StrictlyDescUnique(a: seq<int>, b: seq<int>)
    requires StrictlyDesc(a) && StrictlyDesc(b) && Elems(a) == Elems(b)
    ensures a == b
    decreases |a|
  {
    DistinctCard(a);
    DistinctCard(b);
    if a != [] {
      assert a[0] in Elems(b) && b[0] in Elems(a);
      assert a[0] >= b[0] by {
        var j :| 0 <= j < |a| && a[j] == b[0];
      }
      assert b[0] >= a[0] by {
        var i :| 0 <= i < |b| && b[i] == a[0];
      }
      TailElems(a);
      TailElems(b);
      StrictlyDescUnique(a[1..], b[1..]);
      assert a == [a[0]] + a[1..] && b == [b[0]] + b[1..];
    }
  }

  lemma TailElems(a: seq<int>)
    requires StrictlyDesc(a) && a != []
    ensures StrictlyDesc(a[1..])
    ensures Elems(a[1..]) == Elems(a) - {a[0]}
  {
    assert a == [a[0]] + a[1..];
    assert a[0] !in a[1..];
  }

  /** `sorted(set(xs), reverse=True)[:m]`: the `m` largest distinct values
      of `xs`, largest first (a negative `m` drops that many from the end). */
  function Retained(xs: seq<int>, m: int): (r: seq<int>)
    ensures StrictlyDesc(r)
    ensures Elems(r) <= Elems(xs)
    ensures |r| == SliceEnd(|Elems(xs)|, m)
    ensures forall i, x | 0 <= i < |r| && x in xs && x !in r :: x < r[i]
    ensures m >= |Elems(xs)| ==> Elems(r) == Elems(xs)
  {
    var all := SortedDesc(xs);
    DistinctCard(all);
    var r := Take(all, m);
    assert forall i, x | 0 <= i < |r| && x in xs && x !in r :: x < r[i] by {
      forall i, x | 0 <= i < |r| && x in xs && x !in r ensures x < r[i] {
        assert x in Elems(all);
        var j :| 0 <= j < |all| && all[j] == x;
        assert j >= |r|;
      }
    }
    assert m >= |all| ==> r == all;
    r
  }
}
