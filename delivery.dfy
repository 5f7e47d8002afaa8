/** `post_to_feishu`: choosing the message body by the configured style,
    and deciding from the webhook's reply whether the message was taken. */
module Webhook {
  import opened Wrappers
  import opened Text
  import opened Json
  import opened Extract
  import opened Format

  /** What posting gave: no usable reply (the request failed, the status
      was an error, or the body was not JSON), or the decoded reply. */
  datatype PostResult = PostFailed | Responded(reply: Json)

  /** `x == 0` in Python for a JSON value: the integer zero, and `False`,
      which Python counts as an integer. */
  predicate IsZero(j: Json) {
    j == Num(0) || j == Bool(false)
  }

  /** `data.get("code") != 0` is false: the reply is an object whose
      `code` is zero. A reply that is not an object makes `data.get` raise,
      which `main` treats as a failed post. */
  predicate AckAccepted(reply: Json) {
    reply.Obj? && "code" in reply.fields && IsZero(reply.fields["code"])
  }

  /** `post_to_feishu` returned without raising. */
  predicate Delivered(post: PostResult) {
    post.Responded? && AckAccepted(post.reply)
  }

  /** `str.lower()` on the letters A to Z. No other character lowers to
      one of the letters of `text`, so the style test below is exact. */
  function AsciiLower(s: string): string {
    seq(|s|, i requires 0 <= i < |s| => if 'A' <= s[i] <= 'Z' then (s[i] as int + 32) as char else s[i])
  }

  /** `FEISHU_MSG_STYLE == "text"` for the raw setting `style`, which the
      program strips and lower-cases. */
  predicate TextStyle(style: string) {
    AsciiLower(Strip(style)) == "text"
  }

  /** The body posted for `items` under `style`. */
  function Payload(style: string, items: seq<Item>): Json {
    if TextStyle(style) then TextPayload(items) else PostPayload(items)
  }

  /** `post_to_feishu(webhook, items)`: the body it posts, and whether it
      returned normally given what posting gave. */
  method PostToFeishu(style: string, items: seq<Item>, post: PostResult) returns (payload: Json, delivered: bool)
    ensures payload == Payload(style, items)
    ensures delivered <==> Delivered(post)
  {
    if TextStyle(style) {
      var text := BuildMessage(items);
      payload := Obj(map["msg_type" := Str("text"), "content" := Obj(map["text" := Str(text)])]);
    } else {
      payload := BuildPostPayload(items);
    }
    match post
    case PostFailed =>
      delivered := false;
    case Responded(reply) =>
      delivered := reply.Obj? && "code" in reply.fields && IsZero(reply.fields["code"]);
  }

  /** The style decides the kind of message, and the message carries the
      items: a text digest whose lines are the items' titles and urls, or a
      post whose links are the items' titles and urls, in order. */
  lemma PayloadCarriesItems(style: string, items: seq<Item>)
    requires forall k | 0 <= k < |items| :: '\n' !in items[k].title && '\n' !in items[k].url
    ensures TextStyle(style) ==>
              && ReadText(Payload(style, items)) == Some(Digest(items))
              && Split(Digest(items), '\n') == [Header] + DigestLines(items)
              && ReadPost(Payload(style, items)) == None
    ensures !TextStyle(style) ==>
              && ReadPost(Payload(style, items)) == Some((PostTitle, TitlesAndUrls(items)))
              && ReadText(Payload(style, items)) == None
  {
    if TextStyle(style) {
      TextPayloadRoundTrip(items);
    } else {
      PostPayloadRoundTrip(items);
    }
  }

  /** The text style is chosen exactly when the setting, stripped of
      surrounding whitespace, is `text` in any mix of letter case. */
  lemma TextStyleSpelling(style: string)
    ensures var t := Strip(style);
            TextStyle(style) <==>
              && |t| == 4
              && (t[0] == 't' || t[0] == 'T') && (t[1] == 'e' || t[1] == 'E')
              && (t[2] == 'x' || t[2] == 'X') && (t[3] == 't' || t[3] == 'T')
  {
    var t := Strip(style);
    var l := AsciiLower(t);
    if |t| == 4 {
      assert l == "text" <==> l[0] == 't' && l[1] == 'e' && l[2] == 'x' && l[3] == 't';
    }
  }

  /** The documented success reply is accepted; an error code, a missing
      code and a non-object reply are not. */
  lemma AckExamples(msg: Json)
    ensures AckAccepted(Obj(map["code" := Num(0), "msg" := msg]))
    ensures AckAccepted(Obj(map["code" := Bool(false)]))
    ensures !AckAccepted(Obj(map["code" := Num(19021), "msg" := msg]))
    ensures !AckAccepted(Obj(map["msg" := msg]))
    ensures !AckAccepted(Arr([Obj(map["code" := Num(0)])]))
    ensures !AckAccepted(Obj(map["code" := Str("0")]))
  {
    assert "msg" != "code";
  }
}
