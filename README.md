# aibase-to-feishu: a verified model of `push_news.py`

`push_news.py` runs on a schedule. It fetches the AIBase news list page and
keeps the links to news articles whose normalised title is non-empty and
contains neither `AI资讯` nor `最新资讯`. From those it extracts one item
`(id, title, url)` per news id, the shortest title winning, newest first.
It drops items whose ids are in its state file, posts up to `TOP_N` of the rest to a
Feishu bot webhook, and, once the webhook confirms the post, writes the
state file back with the pushed ids added.

This project models that pipeline in Dafny and proves what it promises.
Everything outside the program is an input to the model:

- **Settings.** `TOP_N`, `MAX_SEEN_IDS`, `TITLE_MAX_LEN`, `FEISHU_MSG_STYLE` and the raw `FEISHU_WEBHOOK` value are parameters.
- **The page.** An abstract sequence of anchors `(href, title attribute, visible text)` stands for the page as the HTML parser hands it over.
- **The state file.** It is given as missing, unreadable, or a decoded JSON value.
- **The webhook reply.** It is given as a failure or a decoded JSON reply.

The modules follow the program's parts:

| module | file | covers |
|---|---|---|
| `Text` | text.dfy | `str.strip`, `re.sub(r"\s+", " ", ·)`, `str.split`, `"\n".join`, slices `s[:e]`, `str(n)` / `int(s)` |
| `Title` | title.dfy | `normalize_title` |
| `Extract` | extract.dfy | the link filter, dedupe and sort of `fetch_news` |
| `Ordering` | ordering.dfy | `sorted(…, key=int, reverse=True)[:k]` |
| `StateStore` | state.dfy | `load_state`, the `seen_ids` read and write |
| `Selector` | select.dfy | the unseen filter and the `TOP_N` cut of `main` |
| `Format` | format.dfy | `build_message`, `build_post_payload` |
| `Webhook` | delivery.dfy | `post_to_feishu`: style choice and acknowledgement |
| `Controller` | run.dfy | `main`: exit codes, what is posted, what is saved |

`Wrappers` (wrappers.dfy) holds `Option`. `Json` (json.dfy) holds the JSON value type.

The loops of the source are methods with loop invariants:

- `Extract.CollectLatest` fills the dictionary `latest_by_id`.
- `Format.BuildMessage` and `Format.BuildPostPayload` build up `lines`.
- `Controller.AddSeen` adds to `seen_ids`.

Two more methods follow the source's statements step by step, with no loop:

- `StateStore.ReadState` repairs `data["seen_ids"]` in place.
- `Controller.Run` is `main`.

Each method is proved equal to a function. The properties are proved about those functions.

## Model

| member | source | states |
|---|---|---|
| Text.Squeeze | push_news.py:31 | every maximal run of whitespace becomes one space: the result is single-spaced, empty exactly when the input is, and starts (ends) with a space exactly when the input starts (ends) with whitespace |
| Text.WordsSqueeze | push_news.py:31 | replacing every run of whitespace by one space keeps the words: `s.split()` is unchanged |
| Text.CollapseWords | push_news.py:31 | `re.sub(r"\s+", " ", s).strip()` is `" ".join(s.split())`: the collapsed title keeps every non-whitespace character, in order, with one space between words |
| Text.Collapse | push_news.py:31 | the collapsed, stripped title has no leading, trailing or doubled whitespace and no whitespace other than a plain space |
| Text.CollapseClean | push_news.py:31 | collapsing a title that is already clean leaves it unchanged |
| Text.CollapseAllSpace | push_news.py:31 | a string of whitespace only collapses to the empty string |
| Text.BeforeFirst | push_news.py:33 | `s.split(ch, 1)[0]` is a prefix of `s` without `ch`, ending right before the first `ch` when there is one, and all of `s` otherwise |
| Text.Take | push_news.py:169 | `s[:e]` is a prefix of `s` of length `min(e, len(s))` for `e >= 0`, and `max(0, len(s) + e)` for a negative `e` |
| Text.SplitJoin | push_news.py:97 | splitting a `"\n".join` at line breaks gives the lines back when no line holds a line break |
| Text.NatToString | push_news.py:150 | `str(n)` is a numeral without superfluous leading zeros whose value is `n` |
| Text.CanonicalNumeral | push_news.py:150 | a numeral without superfluous leading zeros is `str` of its value |
| Text.ParseIntToString | push_news.py:179 | `int(str(n)) == n` for every integer, negative ones included |
| Text.ParseIntCanonical | push_news.py:150 | the only string read as the integer `n` is `str(n)` |
| Title.CutAt | push_news.py:32-35 | a cut at `ch` applies only to a title that is too long and contains `ch`; it then yields a clean prefix of the part before the first `ch`, shorter only by that part's trailing whitespace; otherwise the title is kept unchanged |
| Title.Truncate | push_news.py:36-37 | a title within the limit is kept; a longer one becomes `t[:TITLE_MAX_LEN - 1]` with all its trailing whitespace removed, followed by `…`, and at most `TITLE_MAX_LEN` long when the limit is at least 1 |
| Title.NormalizeTitle | push_news.py:30-38 | the result is clean and, for a limit of at least 1, no longer than the limit; a collapsed title within the limit comes back unchanged; otherwise the result is a prefix of the collapsed title, possibly followed by `…`; an over-long title with `。` loses everything from its first `。` on |
| Title.NormalizeIdempotent | push_news.py:30-38 | normalising a normalised title changes nothing (limit at least 1) |
| Title.StopCutFirst | push_news.py:32-33 | when the cut before the first `。` brings the title within the limit, that cut is the result, whatever `，` it holds |
| Title.CommaCut | push_news.py:34-35 | without `。`, an over-long title is cut before its first `，` and kept so when that fits |
| Title.HardTruncation | push_news.py:32-38 | for a title without `…` of its own, the result contains `…` exactly when the title is still too long after both cuts |
| Title.BlankTitle | push_news.py:31-37 | a whitespace-only title normalises to the empty title (to a lone `…` for a negative limit) |
| Extract.ExtractedFilter | push_news.py:71-83 | every extracted item comes from an anchor whose stripped href matches `^/zh/news/(\d+)$`; it carries the href's number as id and `https://news.aibase.com` + href as url, and its title is that anchor's normalised title, non-empty and free of `AI资讯` and `最新资讯` |
| Extract.NewsPathRoundTrip | push_news.py:21 | `/zh/news/` followed by `str(n)` matches the news pattern and its id is `n` |
| Extract.BlankTitleAttrSkipped | push_news.py:77-79 | a non-empty title attribute of whitespace only is used over the link text and the anchor is then skipped for its empty title |
| Extract.DedupeKeys | push_news.py:84-86 | the dictionary has exactly one entry per id of the surviving candidates |
| Extract.DedupeFirstShortest | push_news.py:84-86 | the entry kept for an id is a candidate with that id whose title is no longer than any other's with that id, and strictly shorter than every earlier one's: on equal length the first wins |
| Extract.Absorb | push_news.py:84-86 | the dictionary update for one candidate, and the key order after it: a new id is appended, a known one keeps its place |
| Extract.CollectLatest | push_news.py:69-86 | the loop leaves `latest_by_id` equal to the dedupe of all candidates, in document order, with the key order listing exactly its keys |
| Extract.ItemsOfDict | push_news.py:88-89 | the items of the dictionary sorted by id, largest first, are the extractor's result whatever the key order |
| Extract.ExtractItems | push_news.py:69-90 | the extractor's result: ids strictly descending, so one item per id; its id set is that of the surviving candidates; every item is the first-shortest candidate of its id |
| Extract.ExtractedSpec | push_news.py:88-90 | the same three facts about the result as a function of the anchors |
| Extract.ExtractedFromLinks | push_news.py:70-90 | every extracted item is what one of the anchors yields |
| Extract.CandidateNoNewline | push_news.py:77-83 | no item's title or url contains a line break |
| Ordering.SortedDesc | push_news.py:179 | the distinct values of a list, largest first, each once |
| Ordering.StrictlyDescUnique | push_news.py:89 | two strictly descending lists with the same elements are equal, so the sort's result does not depend on the input order |
| Ordering.Retained | push_news.py:179 | `sorted(ids, key=int, reverse=True)[:MAX_SEEN_IDS]` is strictly descending, drawn from `ids`, of the length Python's slice gives, and every id left out is smaller than every id kept; below the cap nothing is left out |
| StateStore.LoadState | push_news.py:41-55 | a missing, unreadable or non-object file gives exactly `{"seen_ids": []}`; an object keeps all its keys, gets a `seen_ids` list if it lacked one, and is unchanged when its `seen_ids` already is a list |
| StateStore.ReadState | push_news.py:41-55 | the statements of `load_state` compute `LoadState` of the file |
| StateStore.SeenEntryMatches | push_news.py:150 | an entry of `seen_ids` is read as id `n` exactly when `str` of it is `str(n)`, so testing ids as integers is testing `str(item[0]) in seen_ids` |
| StateStore.SeenIdSource | push_news.py:150 | every seen id comes from an entry of the list |
| StateStore.SeenIdOfEntry | push_news.py:150 | every entry that stands for an id contributes it |
| StateStore.WithSeenIds | push_news.py:179 | assigning `state["seen_ids"]` keeps every other key and leaves a well-formed state |
| StateStore.SaveLoadRoundTrip | push_news.py:179 | a written state loads back as itself, and its seen ids are the ids written, in order |
| Selector.NewItems | push_news.py:164 | the filtered list holds exactly the fetched items whose ids are not seen, and is no longer than the fetched list |
| Selector.NewItemsAppend | push_news.py:164 | the filter keeps the fetched order: filtering two lists one after the other gives the two filtered lists one after the other |
| Selector.NewItemsDesc | push_news.py:164 | strictly descending ids stay strictly descending under the filter |
| Selector.SelectSpec | push_news.py:164-169 | the selection has `min(TOP_N, number of new items)` items, all fetched and none seen, and is newest first |
| Selector.SelectNewest | push_news.py:164-169 | every new item left out is older than every item selected |
| Selector.AllSeenNothingNew | push_news.py:164-167 | when every fetched id is seen, nothing is new |
| Selector.MoreSeenFewerNew | push_news.py:164 | seeing more ids never makes an item new |
| Format.BuildMessage | push_news.py:93-97 | the loop builds the header and one two-line entry per item, joined with line breaks |
| Format.SplitDigest | push_news.py:93-97 | the digest's lines are the header, then `- title` and an indented url per item, in order |
| Format.TextPayloadRoundTrip | push_news.py:125 | the text payload's text is the digest, whose lines are the header and each item's two lines |
| Format.Rows | push_news.py:101-109 | a post has `len(items) + 1` content rows |
| Format.BuildPostPayload | push_news.py:100-120 | the loop builds the rows numbered from 1 and the nested post document around them |
| Format.PostPayloadRoundTrip | push_news.py:100-120 | reading the post back gives the title `AIBase 最新资讯` and the items' (title, url) pairs, numbered from 1 in order, closed by the attribution row |
| Webhook.TextStyleSpelling | push_news.py:19 | the text style is chosen exactly when the stripped setting is `text` in any mix of letter case |
| Webhook.PostToFeishu | push_news.py:123-136 | the body posted is the text message for the text style and the post otherwise; the call succeeds exactly when a reply came, it is an object, and its `code` is 0 (or `False`) |
| Webhook.PayloadCarriesItems | push_news.py:124-127 | for the text style the body reads as the digest of the items, for any other style as the post of their titles and urls, and never as the other kind |
| Webhook.AckExamples | push_news.py:135-136 | `{"code": 0, …}` and `{"code": false}` are accepted; an error code, a missing code, a string code and a non-object reply are not |
| Controller.Run | push_news.py:139-182 | `main` computes the outcome function: exit code, whether it fetched, the message posted, the state written |
| Controller.PushAndRecord | push_news.py:171-180 | posts the selection; on failure exits 1 and writes nothing; on success writes the state with the recorded ids |
| Controller.AddSeen | push_news.py:177-178 | adding the pushed ids gives the seen ids followed by the pushed ones, whose set is the union of the two |
| Controller.SaveOnlyAfterDelivery | push_news.py:171-181 | the state is written exactly when a message was posted and the webhook confirmed it, and then the exit code is 0 |
| Controller.SavedAfterFetch | push_news.py:157-181 | the same, once the items are in hand |
| Controller.ExitCodes | push_news.py:139-182 | the exit code is 0 or 1; it is 1 exactly for a missing webhook, or (with `TOP_N > 0`) a failed fetch, a page without news items, or new items whose post was not confirmed; the page is fetched exactly when the webhook is set and `TOP_N > 0` |
| Controller.SentShape | push_news.py:140-169 | a posting run had a webhook, a positive `TOP_N`, a fetched page with items and some new ones, and posted the first `TOP_N` new ones |
| Controller.SentShapeAfterFetch | push_news.py:157-169 | the same, once the items are in hand |
| Controller.SentAfterFetch | push_news.py:164-173 | once the items are in hand: the message has one to `TOP_N` unseen items taken from the page, newest first, and its body carries them |
| Controller.SentSpec | push_news.py:140-173 | a message goes to the stripped webhook and names one to `TOP_N` items, none seen before, each yielded by a link of the page, newest first; its body reads back as those items' digest lines or post links |
| Controller.SavedAfterDeliver | push_news.py:177-180 | after a confirmed post the written state keeps every other key, and its `seen_ids` are the seen and pushed ids, strictly descending, capped at `MAX_SEEN_IDS`, dropping only the smallest |
| Controller.SavedSpec | push_news.py:177-180 | the written state keeps every key of the state read, loads back as itself, and holds the seen and pushed ids, largest first and without repeats, cut to `MAX_SEEN_IDS`; below that cap none is dropped, at it only the smallest are |
| Controller.AllRemembered | push_news.py:164-179 | once the seen ids and all the new items' ids are remembered, no item of the same page is new |
| Controller.NoRepeatPush | push_news.py:150-179 | a run on the state a run wrote never pushes an id that run pushed, as long as the cap on remembered ids was not reached |
| Controller.RerunIsQuiet | push_news.py:164-179 | when every new item fitted in one message and `MAX_SEEN_IDS` covers all the seen and pushed ids, a second run over the same page posts nothing, writes nothing and exits 0 |

## Left out

- HTTP is left out. `requests.get`, `requests.post`, their timeouts, status checks and `resp.json()` are network I/O. The model takes their results as inputs: the page's anchors or a fetch failure, and no reply or the decoded reply.
- HTML parsing is left out. BeautifulSoup's `find_all("a", href=True)` and `get_text(" ", strip=True)` belong to a foreign library. The model takes the anchors as records.
- Reading the environment is left out. The `os.getenv` reads become parameters. So do `int()` of the settings and its exception at import time, and `LIST_URL` and `STATE_FILE`.
- File I/O and JSON text are left out. The file is read as missing, unreadable or decoded. The state written is returned, not serialised, and the formatting of `json.dump` is not modelled.
- A file that is not valid UTF-8 is left out. Python raises `UnicodeDecodeError` there, which `load_state` does not catch. The model folds it into "unreadable".
- `print` output is left out.
- Floating-point JSON numbers are left out. A reply whose `code` is `0.0` is accepted by Python. The model has integers only.
- Python's Unicode `\d` is left out. It also matches non-ASCII digits. The model reads ASCII digits only.
- `str.lower()` is modelled on A-Z only. No other character lowers to a letter of `text`, so the choice of style is exact.
- StateStore.SeenEntry: non-canonical numerals in `seen_ids` are dropped. Python keeps entries such as `"007"` or `" 7"` as strings. They never match an id, but `sorted(…, key=int)` keeps them and writes them back.
- StateStore.SeenEntry: entries that `int()` rejects are dropped. Python raises on such an entry (`"abc"`, `null`, `true`) at line 179, after the post has succeeded, so the run ends with a traceback and nothing is written. The model ignores such entries.
- The key order of the state object is not modelled. It only affects the layout of the file `json.dump` writes. The key order of `latest_by_id` is modelled (`Extract.Absorb`, `Extract.CollectLatest`) and is proved not to affect the result (`Extract.ItemsOfDict`).
- Controller.NoRepeatPush assumes the cap `MAX_SEEN_IDS` was not reached. Past the cap the smallest ids are forgotten, and a page still listing them pushes them again. The source does this too.
- Controller.RerunIsQuiet assumes the same cap was not reached. With `MAX_SEEN_IDS` 1, an empty state and a page with ids 2 and 1, both are pushed but only 2 is remembered, so a second run pushes 1 again. The source does this too.
