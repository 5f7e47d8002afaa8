/** The item extractor of `fetch_news`: from the page's anchor elements to
    one news item per id, newest (largest id) first. */
module Extract {
  import opened Wrappers
  import opened Text
  import opened Ordering
  import opened Title

  /** An `<a href=...>` element as the HTML parser hands it over: the raw
      `href`, the `title` attribute if there is one, and the visible text
      (`a.get_text(" ", strip=True)`). */
  datatype Link = Link(href: string, titleAttr: Option<string>, text: string)

  /** A news item `(news_id, title, url)`. */
  datatype Item = Item(id: int, title: string, url: string)

  const NewsPrefix: string := "/zh/news/"
  const SiteOrigin: string := "https://news.aibase.com"
  const HubLabel: string := "AI资讯"
  const LatestLabel: string := "最新资讯"

  /** `NEWS_LINK_PATTERN.match(href)`: `^/zh/news/(\d+)$`. */
  predicate IsNewsPath(href: string) {
    |href| > |NewsPrefix| && NewsPrefix <= href && AllDigits(href[|NewsPrefix|..])
  }

  /** `int(match.group(1))` */
  function NewsId(href: string): nat
    requires IsNewsPath(href)
  {
    DecimalValue(href[|NewsPrefix|..])
  }

  /** The raw title: the title attribute when it is present and non-empty,
      else the anchor's visible text. */
  function RawTitle(link: Link): string {
    if link.titleAttr.Some? && link.titleAttr.value != [] then link.titleAttr.value else link.text
  }

  /** Section-header labels mark navigation links, not articles. */
  predicate IsBoilerplate(title: string) {
    Contains(title, HubLabel) || Contains(title, LatestLabel)
  }

  /** What one anchor contributes, if anything: the body of the loop over
      the anchors, up to the `latest_by_id` update. An anchor yields an item
      exactly when its stripped href is a news path and its normalised title
      is neither empty nor a section label; the item carries the numeric id,
      that title and the absolute url. */
  function Candidate(link: Link, maxLen: int): Option<Item>
  {
    var href := Strip(link.href);
    if !IsNewsPath(href) then None
    else
      var title := NormalizeTitle(RawTitle(link), maxLen);
      if title == [] || IsBoilerplate(title) then None
      else Some(Item(NewsId(href), title, SiteOrigin + href))
  }

  /** An optional item as a sequence of zero or one items. */
  function OptSeq(o: Option<Item>): (r: seq<Item>) {
    match o case Some(c) => [c] case None => []
  }

  /** The candidates of a link sequence, in document order. */
  function Candidates(links: seq<Link>, maxLen: int): seq<Item>
    decreases |links|
  {
    if links == [] then []
    else Candidates(links[..|links| - 1], maxLen) + OptSeq(Candidate(links[|links| - 1], maxLen))
  }

  /** `latest_by_id` after the loop has seen the candidates `cs`: a later
      candidate replaces the kept one only if its title is strictly shorter. */
  function Dedupe(cs: seq<Item>): map<int, (string, string)>
    decreases |cs|
  {
    if cs == [] then map[]
    else
      var m := Dedupe(cs[..|cs| - 1]);
      Keep(m, cs[|cs| - 1])
  }

  /** The `latest_by_id` update: a candidate is kept if its id is new or its
      title is strictly shorter than the one kept so far. */
  function Keep(m: map<int, (string, string)>, c: Item): map<int, (string, string)> {
    if c.id !in m || |c.title| < |m[c.id].0| then m[c.id := (c.title, c.url)] else m
  }

  /** Candidate `j` has the shortest title among the candidates with its id,
      and every earlier candidate with that id has a strictly longer one. */
  ghost predicate FirstShortest(cs: seq<Item>, j: int) {
    && 0 <= j < |cs|
    && forall i | 0 <= i < |cs| && cs[i].id == cs[j].id ::
         |cs[j].title| <= |cs[i].title| && (i < j ==> |cs[j].title| < |cs[i].title|)
  }

  /** The ids of a sequence of items, in order. */
  function Ids(items: seq<Item>): (r: seq<int>)
    ensures |r| == |items| && forall k | 0 <= k < |items| :: r[k] == items[k].id
  {
    seq(|items|, k requires 0 <= k < |items| => items[k].id)
  }

  predicate IdsStrictlyDesc(items: seq<Item>) {
    forall i, j | 0 <= i < j < |items| :: items[i].id > items[j].id
  }

  /** The dedupe keeps exactly one entry per candidate id. */
  lemma {:induction false} DedupeKeys(cs: seq<Item>)
    ensures Dedupe(cs).Keys == Elems(Ids(cs))
    decreases |cs|
  {
    if cs != [] {
      var init := cs[..|cs| - 1];
      DedupeKeys(init);
      assert Ids(cs) == Ids(init) + [cs[|cs| - 1].id];
      assert Elems(Ids(cs)) == Elems(Ids(init)) + {cs[|cs| - 1].id};
    }
  }

  /** For each id, the entry kept is the first candidate among those with
      the shortest title; `j` is its position. */
  lemma {:induction false} DedupeFirstShortest(cs: seq<Item>, id: int) returns (j: int)
    requires id in Dedupe(cs)
    ensures FirstShortest(cs, j) && cs[j].id == id && Dedupe(cs)[id] == (cs[j].title, cs[j].url)
    decreases |cs|
  {
    var init := cs[..|cs| - 1];
    var c := cs[|cs| - 1];
    var n := |cs| - 1;
    var m := Dedupe(init);
    assert forall i | 0 <= i < n :: cs[i] == init[i];
    if id != c.id {
      j := DedupeFirstShortest(init, id);
    } else if id !in m {
      DedupeKeys(init);
      forall i | 0 <= i < n ensures cs[i].id != id {
        assert Ids(init)[i] == cs[i].id;
      }
      j := n;
    } else {
      j := DedupeFirstShortest(init, id);
      if |c.title| < |m[c.id].0| {
        j := n;
      }
    }
  }

  /** One more candidate: the `latest_by_id` update rule. */
  lemma DedupeStep(cs: seq<Item>, c: Item)
    ensures Dedupe(cs + [c]) == Keep(Dedupe(cs), c)
  {
    assert (cs + [c])[..|cs|] == cs;
  }

  /** `fetch_news()` after the HTTP request: the items, one per id, largest
      id first. */
  function Extracted(links: seq<Link>, maxLen: int): (items: seq<Item>)
  {
    var cs := Candidates(links, maxLen);
    var m := Dedupe(cs);
    DedupeKeys(cs);
    var ids := SortedDesc(Ids(cs));
    assert forall k | 0 <= k < |ids| :: ids[k] in m by {
      forall k | 0 <= k < |ids| ensures ids[k] in m {
        assert ids[k] in Elems(ids);
      }
    }
    seq(|ids|, k requires 0 <= k < |ids| => Item(ids[k], m[ids[k]].0, m[ids[k]].1))
  }

  /** Indexing into a sequence followed by an optional item. */
  lemma OptSeqAt(init: seq<Item>, o: Option<Item>, k: int)
    requires 0 <= k < |init + OptSeq(o)|
    ensures k < |init| ==> (init + OptSeq(o))[k] == init[k]
    ensures k >= |init| ==> o == Some((init + OptSeq(o))[k])
  {
  }

  /** Every candidate comes from one of the links. */
  lemma {:induction false} CandidateSource(links: seq<Link>, maxLen: int, k: int) returns (i: int)
    requires 0 <= k < |Candidates(links, maxLen)|
    ensures 0 <= i < |links| && Candidate(links[i], maxLen) == Some(Candidates(links, maxLen)[k])
    decreases |links|
  {
    var n := |links| - 1;
    CandidatesStep(links, n, maxLen);
    assert links[..n + 1] == links;
    OptSeqAt(Candidates(links[..n], maxLen), Candidate(links[n], maxLen), k);
    if k < |Candidates(links[..n], maxLen)| {
      i := CandidateSource(links[..n], maxLen, k);
      assert links[i] == links[..n][i];
    } else {
      i := n;
    }
  }

  /** The item at position `k` is the candidate at position `j`, the first
      among those with its id to have the shortest title. */
  lemma ExtractedWitness(links: seq<Link>, maxLen: int, k: int) returns (j: int)
    requires 0 <= k < |Extracted(links, maxLen)|
    ensures FirstShortest(Candidates(links, maxLen), j)
    ensures Candidates(links, maxLen)[j] == Extracted(links, maxLen)[k]
  {
    var cs := Candidates(links, maxLen);
    DedupeKeys(cs);
    var ids := SortedDesc(Ids(cs));
    assert ids[k] in Elems(ids);
    j := DedupeFirstShortest(cs, ids[k]);
  }

  /** What the extractor promises: ids strictly descending (so one item per
      id), exactly the ids of the surviving candidates, and for each id the
      first candidate with the shortest title. */
  lemma ExtractedSpec(links: seq<Link>, maxLen: int)
    ensures var items := Extracted(links, maxLen);
            var cs := Candidates(links, maxLen);
            && IdsStrictlyDesc(items)
            && Elems(Ids(items)) == Elems(Ids(cs))
            && (forall k | 0 <= k < |items| :: exists j :: FirstShortest(cs, j) && cs[j] == items[k])
  {
    var items := Extracted(links, maxLen);
    var cs := Candidates(links, maxLen);
    DedupeKeys(cs);
    assert Ids(items) == SortedDesc(Ids(cs));
    forall k | 0 <= k < |items| ensures exists j :: FirstShortest(cs, j) && cs[j] == items[k] {
      var j := ExtractedWitness(links, maxLen, k);
    }
  }

  /** Every extracted item passed the link filter: it is the candidate of
      the anchor at position `i`. */
  lemma ExtractedFromLinks(links: seq<Link>, maxLen: int, k: int) returns (i: int)
    requires 0 <= k < |Extracted(links, maxLen)|
    ensures 0 <= i < |links| && Candidate(links[i], maxLen) == Some(Extracted(links, maxLen)[k])
  {
    var j := ExtractedWitness(links, maxLen, k);
    i := CandidateSource(links, maxLen, j);
  }

  /** The link filter, seen on the output: every extracted item comes from an
      anchor whose stripped `href` is a news path, carries that path's number
      and the site's url for it, and has a title that is not empty and not a
      section label. */
  lemma ExtractedFilter(links: seq<Link>, maxLen: int, k: int) returns (i: int)
    requires 0 <= k < |Extracted(links, maxLen)|
    ensures var item := Extracted(links, maxLen)[k];
            && 0 <= i < |links|
            && IsNewsPath(Strip(links[i].href))
            && item.id == NewsId(Strip(links[i].href))
            && item.url == SiteOrigin + Strip(links[i].href)
            && item.title == NormalizeTitle(RawTitle(links[i]), maxLen)
            && item.title != [] && !IsBoilerplate(item.title)
  {
    i := ExtractedFromLinks(links, maxLen, k);
  }

  /** The candidates of one more link. */
  lemma CandidatesStep(links: seq<Link>, i: int, maxLen: int)
    requires 0 <= i < |links|
    ensures Candidates(links[..i + 1], maxLen)
            == Candidates(links[..i], maxLen) + OptSeq(Candidate(links[i], maxLen))
  {
    assert links[..i + 1][..i] == links[..i];
  }

  /** The dictionary after one more, possibly absent, candidate. */
  lemma DedupeNext(cs: seq<Item>, o: Option<Item>)
    ensures Dedupe(cs + OptSeq(o)) == match o case Some(c) => Keep(Dedupe(cs), c) case None => Dedupe(cs)
  {
    if o.Some? {
      DedupeStep(cs, o.value);
    } else {
      assert cs + OptSeq(o) == cs;
    }
  }

  /** The final list comprehension and sort of `fetch_news`, over the
      dictionary and its key order, gives the extractor's result. */
  lemma ItemsOfDict(links: seq<Link>, maxLen: int, latest: map<int, (string, string)>, order: seq<int>)
    requires latest == Dedupe(Candidates(links, maxLen)) && Elems(order) == latest.Keys
    ensures var ids := SortedDesc(order);
            (forall k | 0 <= k < |ids| :: ids[k] in latest)
            && Extracted(links, maxLen)
               == seq(|ids|, k requires 0 <= k < |ids| => Item(ids[k], latest[ids[k]].0, latest[ids[k]].1))
  {
    var cs := Candidates(links, maxLen);
    DedupeKeys(cs);
    var ids := SortedDesc(order);
    StrictlyDescUnique(ids, SortedDesc(Ids(cs)));
    forall k | 0 <= k < |ids| ensures ids[k] in latest {
      assert ids[k] in Elems(ids);
    }
  }

  /** The `latest_by_id` update of the loop body for a candidate `c`: the
      dictionary and its key order after it. */
  method Absorb(latest: map<int, (string, string)>, order: seq<int>, c: Item)
    returns (latest': map<int, (string, string)>, order': seq<int>)
    requires Elems(order) == latest.Keys
    ensures latest' == Keep(latest, c)
    ensures Elems(order') == latest'.Keys
    ensures c.id in latest ==> order' == order
    ensures c.id !in latest ==> order' == order + [c.id]
  {
    latest', order' := latest, order;
    // `prev is None`: a new key, which a dict remembers in insertion order
    if c.id !in latest {
      ElemsAppend(order, c.id);
      order' := order + [c.id];
      latest' := latest[c.id := (c.title, c.url)];
    } else if |c.title| < |latest[c.id].0| {
      latest' := latest[c.id := (c.title, c.url)];
    }
  }

  /** The loop of `fetch_news` over the anchors: `latest_by_id`
      as a map together with the order in which its keys were inserted. */
  method CollectLatest(links: seq<Link>, maxLen: int) returns (latest: map<int, (string, string)>, order: seq<int>)
    ensures latest == Dedupe(Candidates(links, maxLen))
    ensures Elems(order) == latest.Keys
  {
    latest, order := map[], [];
    for i := 0 to |links|
      invariant latest == Dedupe(Candidates(links[..i], maxLen))
      invariant Elems(order) == latest.Keys
    {
      CandidatesStep(links, i, maxLen);
      DedupeNext(Candidates(links[..i], maxLen), Candidate(links[i], maxLen));
      var cand := Candidate(links[i], maxLen);
      if cand.Some? {
        latest, order := Absorb(latest, order, cand.value);
      }
    }
    assert links[..|links|] == links;
  }

  /** `fetch_news` after the HTTP request: the loop, then the list of items
      sorted by id, largest first. */
  method ExtractItems(links: seq<Link>, maxLen: int) returns (items: seq<Item>)
    ensures items == Extracted(links, maxLen)
    ensures IdsStrictlyDesc(items)
    ensures Elems(Ids(items)) == Elems(Ids(Candidates(links, maxLen)))
    ensures forall k | 0 <= k < |items| ::
              exists j :: FirstShortest(Candidates(links, maxLen), j) && Candidates(links, maxLen)[j] == items[k]
  {
    var latest, order := CollectLatest(links, maxLen);
    ItemsOfDict(links, maxLen, latest, order);
    var ids := SortedDesc(order);
    items := seq(|ids|, k requires 0 <= k < |ids| => Item(ids[k], latest[ids[k]].0, latest[ids[k]].1));
    ExtractedSpec(links, maxLen);
  }

  /** A link to `/zh/news/<n>` is read back as id `n`. */
  lemma NewsPathRoundTrip(n: nat)
    ensures IsNewsPath(NewsPrefix + NatToString(n))
    ensures NewsId(NewsPrefix + NatToString(n)) == n
  {
    assert (NewsPrefix + NatToString(n))[|NewsPrefix|..] == NatToString(n);
  }

  /** A title attribute made only of whitespace is still used in place of
      the link text, and the anchor is skipped for its empty title. */
  lemma BlankTitleAttrSkipped(link: Link, maxLen: int)
    requires link.titleAttr.Some? && link.titleAttr.value != []
    requires forall i | 0 <= i < |link.titleAttr.value| :: IsSpace(link.titleAttr.value[i])
    requires maxLen >= 0
    ensures Candidate(link, maxLen) == None
  {
    BlankTitle(link.titleAttr.value, maxLen);
  }

  /** A news url has no line break. */
  lemma NewsUrlNoNewline(href: string)
    requires IsNewsPath(href)
    ensures '\n' !in SiteOrigin + href
  {
    var u := SiteOrigin + href;
    forall j | 0 <= j < |u| ensures u[j] != '\n' {
      if j >= |SiteOrigin| + |NewsPrefix| {
        assert u[j] == href[|NewsPrefix|..][j - |SiteOrigin| - |NewsPrefix|];
      } else if j >= |SiteOrigin| {
        assert u[j] == NewsPrefix[j - |SiteOrigin|];
      }
    }
  }

  /** A clean title has no line break. */
  lemma CleanNoNewline(t: string)
    requires IsClean(t)
    ensures '\n' !in t
  {
    forall j | 0 <= j < |t| ensures t[j] != '\n' {
      assert IsSpace(t[j]) ==> t[j] == ' ';
    }
  }

  /** No candidate has a line break in its title or url. */
  lemma CandidateNoNewline(link: Link, maxLen: int)
    requires Candidate(link, maxLen).Some?
    ensures '\n' !in Candidate(link, maxLen).value.title
    ensures '\n' !in Candidate(link, maxLen).value.url
  {
    CleanNoNewline(NormalizeTitle(RawTitle(link), maxLen));
    NewsUrlNoNewline(Strip(link.href));
  }

  /** Neither a title nor a url of an extracted item contains a line break. */
  lemma ExtractedNoNewline(links: seq<Link>, maxLen: int, k: int)
    requires 0 <= k < |Extracted(links, maxLen)|
    ensures '\n' !in Extracted(links, maxLen)[k].title
    ensures '\n' !in Extracted(links, maxLen)[k].url
  {
    var i := ExtractedFromLinks(links, maxLen, k);
    CandidateNoNewline(links[i], maxLen);
  }
}
