/** `main`: one run of the pusher, from its settings, the state file, the
    fetched page and the webhook's reply to its exit code and effects. The
    state file is written only after the webhook confirmed the message. */
module Controller {
  import opened Wrappers
  import opened Text
  import opened Json
  import opened Ordering
  import opened Extract
  import opened StateStore
  import opened Selector
  import opened Format
  import opened Webhook

  /** `TOP_N`, `MAX_SEEN_IDS` and `TITLE_MAX_LEN` as parsed integers, and
      the raw `FEISHU_MSG_STYLE` setting. */
  datatype Config = Config(topN: int, maxSeenIds: int, titleMaxLen: int, msgStyle: string)

  /** What fetching the list page gave: a failure (network, HTTP status),
      or the page's anchors that carry an `href`. */
  datatype FetchResult = FetchFailed | Fetched(links: seq<Link>)

  /** A message posted: the webhook, the items pushed and the body. */
  datatype Message = Message(webhook: string, items: seq<Item>, payload: Json)

  /** The exit code, whether the page was fetched, the message posted if
      any, and the state written if any. */
  datatype RunResult = RunResult(exitCode: int, fetched: bool, sent: Option<Message>, saved: Option<map<string, Json>>)

  /** The ids recorded after pushing `selected`: the seen ids and the new
      ones, largest first, capped at `maxSeen`. */
  function Recorded(seen: seq<int>, selected: seq<Item>, maxSeen: int): seq<int> {
    Retained(seen + Ids(selected), maxSeen)
  }

  /** Posting `selected` and, once the webhook confirmed it, recording it. */
  function Deliver(webhook: string, cfg: Config, state: map<string, Json>, selected: seq<Item>, post: PostResult): RunResult
    requires WellFormed(state)
  {
    var sent := Some(Message(webhook, selected, Payload(cfg.msgStyle, selected)));
    if !Delivered(post) then RunResult(1, true, sent, None)
    else RunResult(0, true, sent, Some(WithSeenIds(state, Recorded(Seen(state), selected, cfg.maxSeenIds))))
  }

  /** What `main` does once the page's items `all` are in hand. */
  function AfterFetch(webhook: string, cfg: Config, state: map<string, Json>, all: seq<Item>, post: PostResult): RunResult
    requires WellFormed(state)
  {
    if all == [] then RunResult(1, true, None, None)
    else
      var newOnes := NewItems(all, Seen(state));
      if newOnes == [] then RunResult(0, true, None, None)
      else Deliver(webhook, cfg, state, Take(newOnes, cfg.topN), post)
  }

  /** What `main` does, given its inputs. */
  function Outcome(cfg: Config, webhookEnv: string, file: StateFile, fetch: FetchResult, post: PostResult): RunResult {
    var webhook := Strip(webhookEnv);
    if webhook == [] then RunResult(1, false, None, None)
    else if cfg.topN <= 0 then RunResult(0, false, None, None)
    else
      match fetch
      case FetchFailed => RunResult(1, true, None, None)
      case Fetched(links) => AfterFetch(webhook, cfg, LoadState(file), Extracted(links, cfg.titleMaxLen), post)
  }

  /** `main()`. */
  method Run(cfg: Config, webhookEnv: string, file: StateFile, fetch: FetchResult, post: PostResult)
    returns (res: RunResult)
    ensures res == Outcome(cfg, webhookEnv, file, fetch, post)
  {
    var webhook := Strip(webhookEnv);
    if webhook == [] {
      return RunResult(1, false, None, None);
    }
    if cfg.topN <= 0 {
      return RunResult(0, false, None, None);
    }
    var state := ReadState(file);
    var seen := Seen(state);
    if fetch.FetchFailed? {
      return RunResult(1, true, None, None);
    }
    var all := ExtractItems(fetch.links, cfg.titleMaxLen);
    assert Outcome(cfg, webhookEnv, file, fetch, post) == AfterFetch(webhook, cfg, state, all, post);
    if |all| == 0 {
      return RunResult(1, true, None, None);
    }
    var newOnes := NewItems(all, seen);
    if |newOnes| == 0 {
      return RunResult(0, true, None, None);
    }
    var selected := Take(newOnes, cfg.topN);
    res := PushAndRecord(webhook, cfg, state, seen, selected, post);
  }

  /** The end of `main`: post the selected items and, once the webhook
      confirmed them, write the state with their ids added. */
  method PushAndRecord(webhook: string, cfg: Config, state: map<string, Json>, seen: seq<int>,
                       selected: seq<Item>, post: PostResult) returns (res: RunResult)
    requires WellFormed(state) && seen == Seen(state)
    ensures res == Deliver(webhook, cfg, state, selected, post)
  {
    var payload, ok := PostToFeishu(cfg.msgStyle, selected, post);
    var sent := Some(Message(webhook, selected, payload));
    if !ok {
      return RunResult(1, true, sent, None);
    }
    var pool := AddSeen(seen, selected);
    var saved := WithSeenIds(state, Retained(pool, cfg.maxSeenIds));
    return RunResult(0, true, sent, Some(saved));
  }

  /** The loop that adds each pushed id to the seen ids, the seen ids kept
      as a list whose elements are the set. */
  method AddSeen(seen: seq<int>, selected: seq<Item>) returns (pool: seq<int>)
    ensures pool == seen + Ids(selected)
    ensures Elems(pool) == Elems(seen) + Elems(Ids(selected))
  {
    pool := seen;
    for i := 0 to |selected|
      invariant pool == seen + Ids(selected[..i])
    {
      assert Ids(selected[..i + 1]) == Ids(selected[..i]) + [selected[i].id];
      pool := pool + [selected[i].id];
    }
    assert selected[..|selected|] == selected;
  }

  /** A run that posted went all the way: the webhook was set, `TOP_N` was
      positive, the page was fetched and had news links, some of them were
      new, and the first `TOP_N` new ones were posted. */
  lemma SentShape(cfg: Config, webhookEnv: string, file: StateFile, fetch: FetchResult, post: PostResult)
    ensures var res := Outcome(cfg, webhookEnv, file, fetch, post);
            res.sent.Some? ==>
              && Strip(webhookEnv) != [] && cfg.topN > 0 && fetch.Fetched?
              && var all := Extracted(fetch.links, cfg.titleMaxLen);
                 var newOnes := NewItems(all, Seen(LoadState(file)));
                 && all != [] && newOnes != []
                 && res.sent.value.items == Take(newOnes, cfg.topN)
                 && res == Deliver(Strip(webhookEnv), cfg, LoadState(file), res.sent.value.items, post)
  {
    if Strip(webhookEnv) != [] && cfg.topN > 0 && fetch.Fetched? {
      var state := LoadState(file);
      var all := Extracted(fetch.links, cfg.titleMaxLen);
      assert Outcome(cfg, webhookEnv, file, fetch, post) == AfterFetch(Strip(webhookEnv), cfg, state, all, post);
      SentShapeAfterFetch(Strip(webhookEnv), cfg, state, all, post);
    }
  }

  /** Once the items are in hand, a message is posted only when some of
      them are new, and it names the first `TOP_N` new ones. */
  lemma SentShapeAfterFetch(webhook: string, cfg: Config, state: map<string, Json>, all: seq<Item>, post: PostResult)
    requires WellFormed(state)
    ensures var res := AfterFetch(webhook, cfg, state, all, post);
            res.sent.Some? ==>
              var newOnes := NewItems(all, Seen(state));
              && all != [] && newOnes != []
              && res.sent.value.items == Take(newOnes, cfg.topN)
              && res == Deliver(webhook, cfg, state, res.sent.value.items, post)
  {
  }

  /** The state is written only by a run that posted a message the webhook
      confirmed, and such a run exits with 0. */
  lemma SaveOnlyAfterDelivery(cfg: Config, webhookEnv: string, file: StateFile, fetch: FetchResult, post: PostResult)
    ensures var res := Outcome(cfg, webhookEnv, file, fetch, post);
            res.saved.Some? <==> res.sent.Some? && Delivered(post)
    ensures var res := Outcome(cfg, webhookEnv, file, fetch, post);
            res.saved.Some? ==> res.exitCode == 0
  {
    if Strip(webhookEnv) != [] && cfg.topN > 0 && fetch.Fetched? {
      var state := LoadState(file);
      var all := Extracted(fetch.links, cfg.titleMaxLen);
      assert Outcome(cfg, webhookEnv, file, fetch, post) == AfterFetch(Strip(webhookEnv), cfg, state, all, post);
      SavedAfterFetch(Strip(webhookEnv), cfg, state, all, post);
    }
  }

  /** Once the items are in hand, the state is written exactly when a
      message was posted and confirmed, and then the run exits with 0. */
  lemma SavedAfterFetch(webhook: string, cfg: Config, state: map<string, Json>, all: seq<Item>, post: PostResult)
    requires WellFormed(state)
    ensures var res := AfterFetch(webhook, cfg, state, all, post);
            && (res.saved.Some? <==> res.sent.Some? && Delivered(post))
            && (res.saved.Some? ==> res.exitCode == 0)
  {
  }

  /** The exit code is 1 exactly for a missing webhook, a failed fetch, a
      page without news links, and a message that was not confirmed; it is
      0 otherwise. */
  lemma ExitCodes(cfg: Config, webhookEnv: string, file: StateFile, fetch: FetchResult, post: PostResult)
    ensures var res := Outcome(cfg, webhookEnv, file, fetch, post);
            res.exitCode == 0 || res.exitCode == 1
    ensures var res := Outcome(cfg, webhookEnv, file, fetch, post);
            res.exitCode == 1 <==>
              || Strip(webhookEnv) == []
              || (cfg.topN > 0
                  && (|| fetch.FetchFailed?
                      || Extracted(fetch.links, cfg.titleMaxLen) == []
                      || (NewItems(Extracted(fetch.links, cfg.titleMaxLen), Seen(LoadState(file))) != []
                          && !Delivered(post))))
    ensures var res := Outcome(cfg, webhookEnv, file, fetch, post);
            res.fetched <==> Strip(webhookEnv) != [] && cfg.topN > 0
  {
  }

  /** Items taken from items without line breaks have none. */
  lemma NoNewlineWithin(all: seq<Item>, sel: seq<Item>)
    requires forall k | 0 <= k < |all| :: '\n' !in all[k].title && '\n' !in all[k].url
    requires forall x | x in sel :: x in all
    ensures forall k | 0 <= k < |sel| :: '\n' !in sel[k].title && '\n' !in sel[k].url
  {
    forall k | 0 <= k < |sel| ensures '\n' !in sel[k].title && '\n' !in sel[k].url {
      assert sel[k] in all;
    }
  }

  /** No extracted item has a line break in its title or url. */
  lemma ExtractedNoNewlines(links: seq<Link>, maxLen: int)
    ensures var all := Extracted(links, maxLen);
            forall k | 0 <= k < |all| :: '\n' !in all[k].title && '\n' !in all[k].url
  {
    forall k | 0 <= k < |Extracted(links, maxLen)| {
      ExtractedNoNewline(links, maxLen, k);
    }
  }

  /** Items among the extracted ones each come from a link of the page. */
  lemma FromLinks(links: seq<Link>, maxLen: int, sel: seq<Item>)
    requires forall x | x in sel :: x in Extracted(links, maxLen)
    ensures forall x | x in sel :: exists i | 0 <= i < |links| :: Candidate(links[i], maxLen) == Some(x)
  {
    forall x | x in sel ensures exists i | 0 <= i < |links| :: Candidate(links[i], maxLen) == Some(x) {
      var all := Extracted(links, maxLen);
      var k :| 0 <= k < |all| && all[k] == x;
      var i := ExtractedFromLinks(links, maxLen, k);
    }
  }

  /** Once the items are in hand: a message names between one and `TOP_N`
      items, none of them seen before, all of them among the page's, in the
      page's order; its body carries their titles and urls. */
  lemma SentAfterFetch(webhook: string, cfg: Config, state: map<string, Json>, all: seq<Item>, post: PostResult)
    requires WellFormed(state) && cfg.topN >= 1
    requires IdsStrictlyDesc(all)
    requires forall k | 0 <= k < |all| :: '\n' !in all[k].title && '\n' !in all[k].url
    ensures var res := AfterFetch(webhook, cfg, state, all, post);
            res.sent.Some? ==>
              var d := res.sent.value;
              && d.webhook == webhook
              && 1 <= |d.items| <= cfg.topN
              && IdsStrictlyDesc(d.items)
              && (forall x | x in d.items :: x in all && x.id !in Seen(state))
              && d.payload == Payload(cfg.msgStyle, d.items)
              && (TextStyle(cfg.msgStyle) ==> Split(Digest(d.items), '\n') == [Header] + DigestLines(d.items))
              && (!TextStyle(cfg.msgStyle) ==> ReadPost(d.payload) == Some((PostTitle, TitlesAndUrls(d.items))))
  {
    var res := AfterFetch(webhook, cfg, state, all, post);
    if res.sent.Some? {
      var seen := Seen(state);
      var sel := Take(NewItems(all, seen), cfg.topN);
      assert res.sent.value.items == sel;
      SelectSpec(all, seen, cfg.topN);
      NoNewlineWithin(all, sel);
      PayloadCarriesItems(cfg.msgStyle, sel);
    }
  }

  /** A message names between one and `TOP_N` items, none of them seen
      before, every one taken from a link of the page, newest first; it goes
      to the stripped webhook and carries those items' titles and urls. */
  lemma SentSpec(cfg: Config, webhookEnv: string, file: StateFile, fetch: FetchResult, post: PostResult)
    ensures var res := Outcome(cfg, webhookEnv, file, fetch, post);
            res.sent.Some? ==>
              var d := res.sent.value;
              && d.webhook == Strip(webhookEnv) && d.webhook != []
              && fetch.Fetched?
              && 1 <= |d.items| <= cfg.topN
              && IdsStrictlyDesc(d.items)
              && (forall x | x in d.items :: x.id !in Seen(LoadState(file)))
              && (forall x | x in d.items :: exists i | 0 <= i < |fetch.links| :: Candidate(fetch.links[i], cfg.titleMaxLen) == Some(x))
              && d.payload == Payload(cfg.msgStyle, d.items)
              && (TextStyle(cfg.msgStyle) ==> Split(Digest(d.items), '\n') == [Header] + DigestLines(d.items))
              && (!TextStyle(cfg.msgStyle) ==> ReadPost(d.payload) == Some((PostTitle, TitlesAndUrls(d.items))))
  {
    var res := Outcome(cfg, webhookEnv, file, fetch, post);
    SentShape(cfg, webhookEnv, file, fetch, post);
    if res.sent.Some? {
      var links := fetch.links;
      var maxLen := cfg.titleMaxLen;
      var all := Extracted(links, maxLen);
      var state := LoadState(file);
      assert res == AfterFetch(Strip(webhookEnv), cfg, state, all, post);
      ExtractedSpec(links, maxLen);
      ExtractedNoNewlines(links, maxLen);
      SentAfterFetch(Strip(webhookEnv), cfg, state, all, post);
      FromLinks(links, maxLen, res.sent.value.items);
    }
  }

  /** The state a confirmed message leads to: every other entry of the
      state read is kept, and its `seen_ids` are the seen ids and the pushed
      ones, largest first and without repeats, cut to `MAX_SEEN_IDS`; below
      that cap nothing is dropped, within it only the smallest ids are. */
  lemma SavedAfterDeliver(webhook: string, cfg: Config, state: map<string, Json>, selected: seq<Item>, post: PostResult)
    requires WellFormed(state)
    ensures var res := Deliver(webhook, cfg, state, selected, post);
            res.saved.Some? ==>
              var pool := Seen(state) + Ids(selected);
              var after := res.saved.value;
              var ids := Seen(after);
              && WellFormed(after)
              && LoadState(Decoded(Obj(after))) == after
              && after.Keys == state.Keys
              && (forall k | k in state && k != SeenKey :: after[k] == state[k])
              && StrictlyDesc(ids)
              && Elems(ids) <= Elems(pool)
              && |ids| == SliceEnd(|Elems(pool)|, cfg.maxSeenIds)
              && (forall i, x | 0 <= i < |ids| && x in pool && x !in ids :: x < ids[i])
              && (cfg.maxSeenIds >= |Elems(pool)| ==> Elems(ids) == Elems(pool))
  {
    SaveLoadRoundTrip(state, Recorded(Seen(state), selected, cfg.maxSeenIds));
  }

  /** The state written keeps every other entry of the state read, and its
      `seen_ids` are the seen ids and the pushed ones, largest first and
      without repeats, cut to `MAX_SEEN_IDS`; below that cap nothing is
      dropped, within it only the smallest ids are. */
  lemma SavedSpec(cfg: Config, webhookEnv: string, file: StateFile, fetch: FetchResult, post: PostResult)
    ensures var res := Outcome(cfg, webhookEnv, file, fetch, post);
            res.saved.Some? ==>
              res.sent.Some? && WellFormed(res.saved.value) &&
              var before := LoadState(file);
              var pool := Seen(before) + Ids(res.sent.value.items);
              var after := res.saved.value;
              var ids := Seen(after);
              && LoadState(Decoded(Obj(after))) == after
              && after.Keys == before.Keys
              && (forall k | k in before && k != SeenKey :: after[k] == before[k])
              && StrictlyDesc(ids)
              && Elems(ids) <= Elems(pool)
              && |ids| == SliceEnd(|Elems(pool)|, cfg.maxSeenIds)
              && (forall i, x | 0 <= i < |ids| && x in pool && x !in ids :: x < ids[i])
              && (cfg.maxSeenIds >= |Elems(pool)| ==> Elems(ids) == Elems(pool))
  {
    var res := Outcome(cfg, webhookEnv, file, fetch, post);
    SaveOnlyAfterDelivery(cfg, webhookEnv, file, fetch, post);
    SentShape(cfg, webhookEnv, file, fetch, post);
    if res.saved.Some? {
      SavedAfterDeliver(Strip(webhookEnv), cfg, LoadState(file), res.sent.value.items, post);
    }
  }

  /** Ids remembered are ids no later message can carry. */
  lemma RememberedNotRepeated(seen: seq<int>, items: seq<Item>, ids: seq<int>, items2: seq<Item>)
    requires Elems(ids) == Elems(seen + Ids(items))
    requires forall y | y in items2 :: y.id !in ids
    ensures forall x, y | x in items && y in items2 :: x.id != y.id
  {
    forall x, y | x in items && y in items2 ensures x.id != y.id {
      var k :| 0 <= k < |items| && items[k] == x;
      assert (seen + Ids(items))[|seen| + k] == x.id;
      assert x.id in Elems(ids);
    }
  }

  /** Running again on the state a run wrote does not push any of the same
      items again, as long as the cap on remembered ids was not reached. */
  lemma NoRepeatPush(cfg: Config, webhookEnv: string, file: StateFile, fetch: FetchResult, post: PostResult,
                     fetch2: FetchResult, post2: PostResult)
    requires var res := Outcome(cfg, webhookEnv, file, fetch, post);
             && res.sent.Some? && res.saved.Some?
             && cfg.maxSeenIds >= |Elems(Seen(LoadState(file)) + Ids(res.sent.value.items))|
    ensures var res := Outcome(cfg, webhookEnv, file, fetch, post);
            var res2 := Outcome(cfg, webhookEnv, Decoded(Obj(res.saved.value)), fetch2, post2);
            res2.sent.Some? ==> forall x, y | x in res.sent.value.items && y in res2.sent.value.items :: x.id != y.id
  {
    var res := Outcome(cfg, webhookEnv, file, fetch, post);
    var after := res.saved.value;
    SavedSpec(cfg, webhookEnv, file, fetch, post);
    SentSpec(cfg, webhookEnv, Decoded(Obj(after)), fetch2, post2);
    var res2 := Outcome(cfg, webhookEnv, Decoded(Obj(after)), fetch2, post2);
    if res2.sent.Some? {
      RememberedNotRepeated(Seen(LoadState(file)), res.sent.value.items, Seen(after), res2.sent.value.items);
    }
  }

  /** Once the new items and the seen ids are all remembered, nothing on
      the same page is new. */
  lemma AllRemembered(all: seq<Item>, seen: seq<int>, ids: seq<int>)
    requires Elems(ids) == Elems(seen + Ids(NewItems(all, seen)))
    ensures NewItems(all, ids) == []
  {
    var newOnes := NewItems(all, seen);
    forall k | 0 <= k < |all| ensures all[k].id in ids {
      if all[k].id !in seen {
        assert all[k] in newOnes;
        var j :| 0 <= j < |newOnes| && newOnes[j] == all[k];
        assert (seen + Ids(newOnes))[|seen| + j] == all[k].id;
      } else {
        assert all[k].id in Elems(seen);
      }
      assert all[k].id in Elems(ids);
    }
    AllSeenNothingNew(all, ids);
  }

  /** When every new item fitted in one message, a second run over the same
      page pushes nothing and exits with 0. */
  lemma RerunIsQuiet(cfg: Config, webhookEnv: string, file: StateFile, fetch: FetchResult, post: PostResult, post2: PostResult)
    requires var res := Outcome(cfg, webhookEnv, file, fetch, post);
             && res.sent.Some? && res.saved.Some?
             && cfg.maxSeenIds >= |Elems(Seen(LoadState(file)) + Ids(res.sent.value.items))|
             && |NewItems(Extracted(fetch.links, cfg.titleMaxLen), Seen(LoadState(file)))| <= cfg.topN
    ensures var res := Outcome(cfg, webhookEnv, file, fetch, post);
            var res2 := Outcome(cfg, webhookEnv, Decoded(Obj(res.saved.value)), fetch, post2);
            res2.exitCode == 0 && res2.sent.None? && res2.saved.None?
  {
    var res := Outcome(cfg, webhookEnv, file, fetch, post);
    var after := res.saved.value;
    var all := Extracted(fetch.links, cfg.titleMaxLen);
    var seen := Seen(LoadState(file));
    var newOnes := NewItems(all, seen);
    SentShape(cfg, webhookEnv, file, fetch, post);
    SavedSpec(cfg, webhookEnv, file, fetch, post);
    assert res.sent.value.items == newOnes;
    AllRemembered(all, seen, Seen(after));
    assert Outcome(cfg, webhookEnv, Decoded(Obj(after)), fetch, post2) == AfterFetch(Strip(webhookEnv), cfg, after, all, post2);
  }
}
