/** Picking what to send (the selection step of `main`): the fetched items whose
    ids have not been seen, then the first `TOP_N` of them. */
module Selector {
  import opened Text
  import opened Ordering
  import opened Extract

  /** The fetched items whose ids are not among the seen ids, in fetched
      order. */
  function NewItems(all: seq<Item>, seen: seq<int>): (r: seq<Item>)
    ensures |r| <= |all|
    ensures forall x | x in r :: x in all && x.id !in seen
    ensures forall x | x in all && x.id !in seen :: x in r
    decreases |all|
  {
    if all == [] then []
    else if all[0].id !in seen then [all[0]] + NewItems(all[1..], seen)
    else NewItems(all[1..], seen)
  }

  /** The filter keeps the fetched order: filtering two lists one after the
      other is filtering each and putting the results one after the other. */
  lemma {:induction false} NewItemsAppend(a: seq<Item>, b: seq<Item>, seen: seq<int>)
    ensures NewItems(a + b, seen) == NewItems(a, seen) + NewItems(b, seen)
    decreases |a|
  {
    if a != [] {
      assert (a + b)[0] == a[0] && (a + b)[1..] == a[1..] + b;
      NewItemsAppend(a[1..], b, seen);
    } else {
      assert a + b == b;
    }
  }

  /** Ids that went down still go down after the filter. */
  lemma {:induction false} NewItemsDesc(all: seq<Item>, seen: seq<int>)
    requires IdsStrictlyDesc(all)
    ensures IdsStrictlyDesc(NewItems(all, seen))
    decreases |all|
  {
    if all != [] {
      var rest := NewItems(all[1..], seen);
      assert IdsStrictlyDesc(all[1..]) by {
        forall i, j | 0 <= i < j < |all[1..]| ensures all[1..][i].id > all[1..][j].id {
          assert all[1..][i] == all[i + 1] && all[1..][j] == all[j + 1];
        }
      }
      NewItemsDesc(all[1..], seen);
      if all[0].id !in seen {
        forall k | 0 <= k < |rest| ensures rest[k].id < all[0].id {
          assert rest[k] in all[1..];
          var j :| 0 <= j < |all[1..]| && all[1..][j] == rest[k];
          assert all[1..][j] == all[j + 1];
        }
        assert NewItems(all, seen) == [all[0]] + rest;
      }
    }
  }

  /** `new_items[:TOP_N]`. */
  function Select(all: seq<Item>, seen: seq<int>, topN: int): seq<Item> {
    Take(NewItems(all, seen), topN)
  }

  /** What is sent: never an item already seen, never more than `TOP_N`
      items, as many as there are new ones up to that cap, and, for items
      ordered newest first, newest first again. */
  lemma SelectSpec(all: seq<Item>, seen: seq<int>, topN: int)
    requires topN >= 1
    ensures var sel := Select(all, seen, topN);
            && |sel| == Min(topN, |NewItems(all, seen)|)
            && (forall x | x in sel :: x in all && x.id !in seen)
            && (IdsStrictlyDesc(all) ==> IdsStrictlyDesc(sel))
  {
    var nw := NewItems(all, seen);
    var sel := Select(all, seen, topN);
    forall x | x in sel ensures x in nw {
      var k :| 0 <= k < |sel| && sel[k] == x;
      assert nw[k] == x;
    }
    if IdsStrictlyDesc(all) {
      NewItemsDesc(all, seen);
    }
  }

  /** For items ordered newest first, a new item that is left out is older
      than every item sent. */
  lemma SelectNewest(all: seq<Item>, seen: seq<int>, topN: int, x: Item)
    requires IdsStrictlyDesc(all)
    requires x in all && x.id !in seen && x !in Select(all, seen, topN)
    ensures forall k | 0 <= k < |Select(all, seen, topN)| :: x.id < Select(all, seen, topN)[k].id
  {
    var nw := NewItems(all, seen);
    var sel := Select(all, seen, topN);
    NewItemsDesc(all, seen);
    var j :| 0 <= j < |nw| && nw[j] == x;
    assert sel == nw[..|sel|];
    assert j >= |sel|;
    forall k | 0 <= k < |sel| ensures x.id < sel[k].id {
      assert sel[k] == nw[k];
    }
  }

  /** When every fetched id has been seen, nothing is new. */
  lemma {:induction false} AllSeenNothingNew(all: seq<Item>, seen: seq<int>)
    requires forall k | 0 <= k < |all| :: all[k].id in seen
    ensures NewItems(all, seen) == []
    decreases |all|
  {
    if all != [] {
      assert all[0].id in seen;
      AllSeenNothingNew(all[1..], seen);
    }
  }

  /** Seeing more ids never makes more items new. */
  lemma MoreSeenFewerNew(all: seq<Item>, seen: seq<int>, more: seq<int>, x: Item)
    requires Elems(seen) <= Elems(more)
    requires x in NewItems(all, more)
    ensures x in NewItems(all, seen)
  {
    assert x.id in seen ==> x.id in Elems(seen);
  }
}
