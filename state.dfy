/** The state file: `load_state`, the seen ids it carries, and the state
    written back by `main` after a delivery. A state is the decoded JSON
    object; the id entries of its `seen_ids` list are read the way `main`
    reads them, through `str`. */
module StateStore {
  import opened Wrappers
  import opened Text
  import opened Json

  /** What reading the state file can give: no file, a file that cannot be
      opened or is not JSON, or a decoded document. */
  datatype StateFile = Missing | Unreadable | Decoded(doc: Json)

  const SeenKey: string := "seen_ids"

  /** The state with nothing seen, `{"seen_ids": []}`. */
  function Fresh(): map<string, Json> {
    map[SeenKey := Arr([])]
  }

  /** The state has a `seen_ids` entry and it is a list. */
  predicate WellFormed(st: map<string, Json>) {
    SeenKey in st && st[SeenKey].Arr?
  }

  /** `load_state(path)` over what reading the file gave. */
  function LoadState(file: StateFile): (st: map<string, Json>)
    ensures WellFormed(st)
    ensures file.Decoded? && file.doc.Obj? ==>
              && st.Keys == file.doc.fields.Keys + {SeenKey}
              && forall k | k in file.doc.fields && k != SeenKey :: st[k] == file.doc.fields[k]
    ensures file.Decoded? && file.doc.Obj? && WellFormed(file.doc.fields) ==> st == file.doc.fields
    ensures !(file.Decoded? && file.doc.Obj? && WellFormed(file.doc.fields)) ==> st[SeenKey] == Arr([])
    ensures !(file.Decoded? && file.doc.Obj?) ==> st == Fresh()
  {
    match file
    case Decoded(Obj(fields)) =>
      if WellFormed(fields) then fields else fields[SeenKey := Arr([])]
    case _ => Fresh()
  }

  /** `load_state(path)` step by step: the default for a missing,
      unreadable or non-object file, else the decoded object with
      `seen_ids` set to an empty list in place when it is not a list. */
  method ReadState(file: StateFile) returns (data: map<string, Json>)
    ensures data == LoadState(file)
    ensures WellFormed(data)
  {
    if !file.Decoded? || !file.doc.Obj? {
      return Fresh();
    }
    data := file.doc.fields;
    if !(SeenKey in data && data[SeenKey].Arr?) {
      data := data[SeenKey := Arr([])];
    }
  }

  /** The id an entry of `seen_ids` stands for: an integer, or the string
      `str` writes for one; `None` for any other entry. */
  function SeenEntry(j: Json): Option<int> {
    match j
    case Num(n) => Some(n)
    case Str(s) => ParseInt(s)
    case _ => None
  }

  /** `str(x)` for an entry; `None` for a list or an object, whose text
      starts with a bracket and so is never the numeral of an id. */
  function StrOf(j: Json): Option<string> {
    match j
    case Null => Some("None")
    case Bool(b) => Some(if b then "True" else "False")
    case Num(n) => Some(IntToString(n))
    case Str(s) => Some(s)
    case _ => None
  }

  /** An entry stands for id `n` exactly when `str` of it is `str(n)`: the
      reading of entries as integers matches `str(item[0]) in seen_ids`. */
  lemma SeenEntryMatches(j: Json, n: nat)
    ensures SeenEntry(j) == Some(n) <==> StrOf(j) == Some(NatToString(n))
  {
    match j
    case Num(m) =>
      if m < 0 {
        assert IntToString(m)[0] == '-';
        assert IsDigit(NatToString(n)[0]);
      } else if IntToString(m) == NatToString(n) {
        assert m == DecimalValue(NatToString(m)) == DecimalValue(NatToString(n)) == n;
      }
    case Str(s) =>
      if SeenEntry(j) == Some(n) {
        ParseIntCanonical(s, n);
      }
      if s == NatToString(n) {
        ParseIntToString(n);
      }
    case Null =>
      assert IsDigit(NatToString(n)[0]);
    case Bool(b) =>
      assert IsDigit(NatToString(n)[0]);
    case Arr(_) =>
    case Obj(_) =>
  }

  /** The ids of a `seen_ids` list, in list order. */
  function SeenIds(entries: seq<Json>): seq<int>
    decreases |entries|
  {
    if entries == [] then []
    else
      var rest := SeenIds(entries[1..]);
      match SeenEntry(entries[0])
      case Some(x) => [x] + rest
      case None => rest
  }

  /** Every id read comes from an entry of the list. */
  lemma {:induction false} SeenIdSource(entries: seq<Json>, x: int) returns (k: int)
    requires x in SeenIds(entries)
    ensures 0 <= k < |entries| && SeenEntry(entries[k]) == Some(x)
    decreases |entries|
  {
    if SeenEntry(entries[0]) == Some(x) {
      k := 0;
    } else {
      k := SeenIdSource(entries[1..], x);
      k := k + 1;
    }
  }

  /** Every entry that stands for an id contributes it. */
  lemma {:induction false} SeenIdOfEntry(entries: seq<Json>, k: int, x: int)
    requires 0 <= k < |entries| && SeenEntry(entries[k]) == Some(x)
    ensures x in SeenIds(entries)
    decreases |entries|
  {
    if k > 0 {
      SeenIdOfEntry(entries[1..], k - 1, x);
    }
  }

  /** The seen ids of a well-formed state. */
  function Seen(st: map<string, Json>): seq<int>
    requires WellFormed(st)
  {
    SeenIds(st[SeenKey].elems)
  }

  /** The entries `main` writes: the ids as strings. */
  function Encode(ids: seq<int>): (r: seq<Json>)
    ensures |r| == |ids|
    ensures forall k | 0 <= k < |ids| :: r[k] == Str(IntToString(ids[k]))
  {
    seq(|ids|, k requires 0 <= k < |ids| => Str(IntToString(ids[k])))
  }

  /** `state["seen_ids"] = ids` with the ids written as strings; every
      other entry of the state is kept. */
  function WithSeenIds(st: map<string, Json>, ids: seq<int>): (r: map<string, Json>)
    ensures WellFormed(r)
    ensures r.Keys == st.Keys + {SeenKey}
    ensures forall k | k in st && k != SeenKey :: r[k] == st[k]
  {
    st[SeenKey := Arr(Encode(ids))]
  }

  /** Reading the written entries gives the ids back, in order. */
  lemma {:induction false} SeenIdsEncode(ids: seq<int>)
    ensures SeenIds(Encode(ids)) == ids
    decreases |ids|
  {
    if ids != [] {
      ParseIntToString(ids[0]);
      assert Encode(ids)[1..] == Encode(ids[1..]);
      SeenIdsEncode(ids[1..]);
    }
  }

  /** A saved state, read back, is the same state, and its seen ids are
      the ids that were saved. */
  lemma SaveLoadRoundTrip(st: map<string, Json>, ids: seq<int>)
    ensures LoadState(Decoded(Obj(WithSeenIds(st, ids)))) == WithSeenIds(st, ids)
    ensures Seen(WithSeenIds(st, ids)) == ids
  {
    SeenIdsEncode(ids);
  }
}
