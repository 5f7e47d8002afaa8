/** The two message bodies sent to the webhook: the plain-text digest of
    `build_message` and the rich-text post of `build_post_payload`, both as
    the JSON documents that are posted. */
module Format {
  import opened Wrappers
  import opened Text
  import opened Json
  import opened Extract

  const Header: string := "AIBase 最新资讯："
  const PostTitle: string := "AIBase 最新资讯"
  const Attribution: string := "来源：news.aibase.com"

  // ---------------------------------------------------------------------
  // build_message

  /** `f"- {title}\n  {url}"`: one entry of the digest, two lines long. */
  function DigestEntry(item: Item): string {
    "- " + item.title + "\n  " + item.url
  }

  /** The entries of the digest, one per item. */
  function Entries(items: seq<Item>): (r: seq<string>)
    ensures |r| == |items| && forall k | 0 <= k < |items| :: r[k] == DigestEntry(items[k])
  {
    seq(|items|, k requires 0 <= k < |items| => DigestEntry(items[k]))
  }

  /** `"\n".join(lines)` where `lines` is the header and then the entries. */
  function Digest(items: seq<Item>): string {
    Join([Header] + Entries(items), '\n')
  }

  /** `build_message(items)`. */
  method BuildMessage(items: seq<Item>) returns (text: string)
    ensures text == Digest(items)
  {
    var lines := [Header];
    for i := 0 to |items|
      invariant lines == [Header] + Entries(items[..i])
    {
      lines := lines + ["- " + items[i].title + "\n  " + items[i].url];
      assert Entries(items[..i + 1]) == Entries(items[..i]) + [DigestEntry(items[i])];
    }
    assert items[..|items|] == items;
    text := Join(lines, '\n');
  }

  /** The lines of the digest as a reader sees them: the header, then for
      each item a `- title` line and an indented url line. */
  function DigestLines(items: seq<Item>): seq<string>
    decreases |items|
  {
    if items == [] then []
    else ["- " + items[0].title, "  " + items[0].url] + DigestLines(items[1..])
  }

  lemma JoinCons(h: string, rest: seq<string>, sep: char)
    requires rest != []
    ensures Join([h] + rest, sep) == h + [sep] + Join(rest, sep)
  {
    assert ([h] + rest)[1..] == rest;
  }

  /** An entry is its title line and its url line joined by a line break. */
  lemma EntrySplit(item: Item)
    ensures DigestEntry(item) == ("- " + item.title) + ['\n'] + ("  " + item.url)
  {
    assert "\n  " == ['\n'] + "  ";
  }

  lemma JoinPair(a: string, b: string, rest: seq<string>, sep: char)
    ensures rest != [] ==> Join([a + [sep] + b] + rest, sep) == Join([a, b] + rest, sep)
    ensures Join([a + [sep] + b], sep) == Join([a, b], sep)
  {
    assert ([a, b] + rest)[1..] == [b] + rest;
    assert [a, b][1..] == [b];
    if rest != [] {
      JoinCons(a + [sep] + b, rest, sep);
      JoinCons(b, rest, sep);
    }
  }

  lemma {:induction false} EntriesAsLines(items: seq<Item>)
    requires items != []
    ensures Join(Entries(items), '\n') == Join(DigestLines(items), '\n')
    decreases |items|
  {
    var a := "- " + items[0].title;
    var b := "  " + items[0].url;
    EntrySplit(items[0]);
    var rest := items[1..];
    assert Entries(items) == [a + ['\n'] + b] + Entries(rest);
    assert DigestLines(items) == [a, b] + DigestLines(rest);
    JoinPair(a, b, Entries(rest), '\n');
    if rest == [] {
      assert DigestLines(rest) == [];
      assert Entries(rest) == [];
    } else {
      EntriesAsLines(rest);
      JoinCons(a, [b] + DigestLines(rest), '\n');
      JoinCons(b, DigestLines(rest), '\n');
      JoinCons(a, [b] + Entries(rest), '\n');
      JoinCons(b, Entries(rest), '\n');
      assert ([a, b] + Entries(rest))[1..] == [b] + Entries(rest);
      assert ([a, b] + DigestLines(rest))[1..] == [b] + DigestLines(rest);
    }
  }

  lemma {:induction false} DigestLinesNoNewline(items: seq<Item>)
    requires forall k | 0 <= k < |items| :: '\n' !in items[k].title && '\n' !in items[k].url
    ensures forall k | 0 <= k < |DigestLines(items)| :: '\n' !in DigestLines(items)[k]
    decreases |items|
  {
    if items != [] {
      DigestLinesNoNewline(items[1..]);
      var lines := DigestLines(items);
      forall k | 0 <= k < |lines| ensures '\n' !in lines[k] {
        if k >= 2 {
          assert lines[k] == DigestLines(items[1..])[k - 2];
        }
      }
    }
  }

  /** The digest is the header and the digest lines joined by line breaks. */
  lemma DigestAsLines(items: seq<Item>)
    ensures Digest(items) == Join([Header] + DigestLines(items), '\n')
  {
    if items == [] {
      assert [Header] + Entries(items) == [Header] + DigestLines(items);
    } else {
      JoinCons(Header, Entries(items), '\n');
      EntriesAsLines(items);
      JoinCons(Header, DigestLines(items), '\n');
    }
  }

  lemma HeaderNoNewline()
    ensures '\n' !in Header
  {
  }

  /** Splitting the digest at line breaks gives the header and, per item,
      its title line and its url line, when no title or url has a line
      break of its own. */
  lemma SplitDigest(items: seq<Item>)
    requires forall k | 0 <= k < |items| :: '\n' !in items[k].title && '\n' !in items[k].url
    ensures Split(Digest(items), '\n') == [Header] + DigestLines(items)
  {
    var lines := [Header] + DigestLines(items);
    DigestLinesNoNewline(items);
    HeaderNoNewline();
    forall k | 0 <= k < |lines| ensures '\n' !in lines[k] {
      if k > 0 {
        assert lines[k] == DigestLines(items)[k - 1];
      }
    }
    DigestAsLines(items);
    SplitJoin(lines, '\n');
  }

  /** The text-style request body: message type `text`, with the digest as
      the content's text. */
  function TextPayload(items: seq<Item>): Json {
    Obj(map["msg_type" := Str("text"), "content" := Obj(map["text" := Str(Digest(items))])])
  }

  /** The text of a text message, if `payload` is one. */
  function ReadText(payload: Json): Option<string> {
    if payload.Obj? && "msg_type" in payload.fields && payload.fields["msg_type"] == Str("text")
       && "content" in payload.fields && payload.fields["content"].Obj?
       && "text" in payload.fields["content"].fields && payload.fields["content"].fields["text"].Str?
    then Some(payload.fields["content"].fields["text"].s)
    else None
  }

  /** A text message carries the digest, whose lines are the items'. */
  lemma TextPayloadRoundTrip(items: seq<Item>)
    requires forall k | 0 <= k < |items| :: '\n' !in items[k].title && '\n' !in items[k].url
    ensures ReadText(TextPayload(items)) == Some(Digest(items))
    ensures Split(ReadText(TextPayload(items)).value, '\n') == [Header] + DigestLines(items)
  {
    SplitDigest(items);
  }

  // ---------------------------------------------------------------------
  // build_post_payload

  /** `{"tag": "text", "text": text}` */
  function TextSpan(text: string): Json {
    Obj(map["tag" := Str("text"), "text" := Str(text)])
  }

  /** `{"tag": "a", "text": text, "href": href}` */
  function LinkSpan(text: string, href: string): Json {
    Obj(map["tag" := Str("a"), "text" := Str(text), "href" := Str(href)])
  }

  /** The row of the item numbered `idx`: `"<idx>. "` and a link. */
  function PostRow(idx: nat, item: Item): Json {
    Arr([TextSpan(NatToString(idx) + ". "), LinkSpan(item.title, item.url)])
  }

  function AttributionRow(): Json {
    Arr([TextSpan(Attribution)])
  }

  /** The rows for `items` numbered from `start`, then the attribution. */
  function Rows(items: seq<Item>, start: nat): (r: seq<Json>)
    ensures |r| == |items| + 1
  {
    seq(|items|, k requires 0 <= k < |items| => PostRow(start + k, items[k])) + [AttributionRow()]
  }

  /** The document `build_post_payload(items)` returns. */
  function PostPayload(items: seq<Item>): Json {
    Obj(map[
      "msg_type" := Str("post"),
      "content" := Obj(map[
        "post" := Obj(map[
          "zh_cn" := Obj(map["title" := Str(PostTitle), "content" := Arr(Rows(items, 1))])])])])
  }

  /** `build_post_payload(items)`. */
  method BuildPostPayload(items: seq<Item>) returns (payload: Json)
    ensures payload == PostPayload(items)
  {
    var lines: seq<Json> := [];
    for i := 0 to |items|
      invariant lines == seq(i, k requires 0 <= k < i => PostRow(k + 1, items[k]))
    {
      lines := lines + [Arr([TextSpan(NatToString(i + 1) + ". "), LinkSpan(items[i].title, items[i].url)])];
    }
    lines := lines + [Arr([TextSpan(Attribution)])];
    assert lines == Rows(items, 1);
    payload := Obj(map[
      "msg_type" := Str("post"),
      "content" := Obj(map[
        "post" := Obj(map[
          "zh_cn" := Obj(map["title" := Str(PostTitle), "content" := Arr(lines)])])])]);
  }

  /** The text and link of a link span. */
  function ReadLink(span: Json): Option<(string, string)> {
    if span.Obj? && "tag" in span.fields && span.fields["tag"] == Str("a")
       && "text" in span.fields && span.fields["text"].Str?
       && "href" in span.fields && span.fields["href"].Str?
    then Some((span.fields["text"].s, span.fields["href"].s))
    else None
  }

  /** Reads numbered rows from `idx` on, up to the closing attribution row. */
  function ReadRows(rows: seq<Json>, idx: nat): Option<seq<(string, string)>>
    decreases |rows|
  {
    if rows == [] then None
    else if |rows| == 1 then (if rows[0] == AttributionRow() then Some([]) else None)
    else if rows[0].Arr? && |rows[0].elems| == 2 && rows[0].elems[0] == TextSpan(NatToString(idx) + ". ")
            && ReadLink(rows[0].elems[1]).Some?
    then
      match ReadRows(rows[1..], idx + 1)
      case Some(rest) => Some([ReadLink(rows[0].elems[1]).value] + rest)
      case None => None
    else None
  }

  /** The title and the (text, link) pairs of a post, if `payload` is one. */
  function ReadPost(payload: Json): Option<(string, seq<(string, string)>)> {
    if payload.Obj? && "msg_type" in payload.fields && payload.fields["msg_type"] == Str("post")
       && "content" in payload.fields && payload.fields["content"].Obj?
       && "post" in payload.fields["content"].fields && payload.fields["content"].fields["post"].Obj?
       && "zh_cn" in payload.fields["content"].fields["post"].fields
    then
      var body := payload.fields["content"].fields["post"].fields["zh_cn"];
      if body.Obj? && "title" in body.fields && body.fields["title"].Str?
         && "content" in body.fields && body.fields["content"].Arr?
      then
        match ReadRows(body.fields["content"].elems, 1)
        case Some(links) => Some((body.fields["title"].s, links))
        case None => None
      else None
    else None
  }

  /** The (title, url) pairs of the items, in order. */
  function TitlesAndUrls(items: seq<Item>): (r: seq<(string, string)>)
    ensures |r| == |items| && forall k | 0 <= k < |items| :: r[k] == (items[k].title, items[k].url)
  {
    seq(|items|, k requires 0 <= k < |items| => (items[k].title, items[k].url))
  }

  lemma ReadLinkSpan(t: string, u: string)
    ensures ReadLink(LinkSpan(t, u)) == Some((t, u))
  {
  }

  /** A numbered item row is read as the item's title and url. */
  lemma ReadRowsCons(rows: seq<Json>, idx: nat, item: Item)
    requires |rows| >= 2 && rows[0] == PostRow(idx, item)
    ensures ReadRows(rows, idx) == match ReadRows(rows[1..], idx + 1)
                                   case Some(rest) => Some([(item.title, item.url)] + rest)
                                   case None => None
  {
    ReadLinkSpan(item.title, item.url);
  }

  lemma {:induction false} ReadRowsOf(items: seq<Item>, start: nat)
    ensures ReadRows(Rows(items, start), start) == Some(TitlesAndUrls(items))
    decreases |items|
  {
    var rows := Rows(items, start);
    if items != [] {
      assert rows[1..] == Rows(items[1..], start + 1);
      assert rows[0] == PostRow(start, items[0]);
      ReadRowsOf(items[1..], start + 1);
      ReadRowsCons(rows, start, items[0]);
      assert TitlesAndUrls(items) == [(items[0].title, items[0].url)] + TitlesAndUrls(items[1..]);
    } else {
      assert rows == [AttributionRow()];
    }
  }

  /** A post reads back as its fixed title and, numbered from 1, the
      items' titles and urls in order. */
  lemma PostPayloadRoundTrip(items: seq<Item>)
    ensures ReadPost(PostPayload(items)) == Some((PostTitle, TitlesAndUrls(items)))
  {
    ReadRowsOf(items, 1);
  }
}
