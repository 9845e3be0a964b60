# hatebu2bsky, modelled in Dafny

hatebu2bsky is a scheduled Cloudflare Worker. It reads a Hatena Bookmark
user's RSS feed and posts every bookmark it has not posted before to
Bluesky. Each post carries the bookmark's description and title, a line of
hashtags with rich-text facets, and an external-link card for the page. A
key-value store is the ledger: it maps each posted URL to the record the
post created.

This project models the core of that program and proves properties of the
model:

- `bsky.dfy` (module `Bsky`, from `src/bsky.rs`) covers:
  - composing the post text and its hashtag facets (byte offsets into the UTF-8 text);
  - finding the PDS endpoint in the DID document returned at login, and validating its URL;
  - the two-step update of the client's session state in `BskyAgent::new`;
  - the title, description and thumbnail-URL choices of the external embed.
- `lib.dfy` (module `Lib`, from `src/lib.rs`) covers the `run` pipeline:
  - walk the feed oldest first;
  - skip URLs the ledger already has;
  - log in only if something is new;
  - post in walk order;
  - write the ledger only after a successful post;
  - abort on a failed read, login or write;
  - report a count.

  `run` is one imperative method (`Lib.Run`, built from `Lib.CollectNew` and
  `Lib.PostAll`). Each is proved equal to a functional specification
  (`Lib.RunSpec`, `Lib.Collect`, `Lib.Publish`), and the properties are
  lemmas about that specification.
- `charset.dfy` (module `Charset`, from `src/lib.rs`) covers how a fetched
  page is decoded:
  - the `Content-Type` charset, otherwise the first `<meta>` hint of the document;
  - the hint is looked up as an encoding label, with lossy UTF-8 as the fallback;
  - `extract_charset`, the depth-first search for that hint.

  The search follows section 4.2.5.4 of the WHATWG HTML Living Standard
  ("Specifying the document's character encoding") in simplified form.
- `utf8.dfy` holds strings as UTF-8 bytes, so Rust's `String::len()` is `|s|`:
  - ASCII case mapping (`to_ascii_lowercase`);
  - `str::find`.
- `hatebu.dfy` holds the shape of a feed entry.
- `wrappers.dfy` holds `Option` and `Result`.

Everything the program does over the network is a parameter of the model:
- the feed (`listBookmarks`);
- the ledger contents and the keys whose read or write fails;
- the login (`createSession`/`login`);
- the post and the thumbnail upload;
- URI and URL parsing (`parseUri`, `parseUrl`, `join`);
- encoding labels (`forLabel`).

A run's observable behaviour is its result, the final ledger, and a trace of
events: ledger reads, the login, posts with their outcome, and ledger writes.

Two behaviours of the code are easy to misread:
- **The count.** `run` returns `entries.len()` (`src/lib.rs:60`), the
  number of new entries whether or not their posts succeeded. It is not
  the number of successful posts (`Lib.RunCountsNewEntries`).
- **URI schemes.** `validate_url` compares the scheme with `"https"` and
  `"http"` through the `http` crate's `Scheme == &str`. That comparison
  ignores ASCII case, so `HTTPS://…` is accepted (`Bsky.ValidateUrl`).

## Model

| member | source | states |
|---|---|---|
| Bsky.AppendHashtags | src/bsky.rs:174-191 | After a new line, each tag is appended as `#tag` with a single space between consecutive tags and none after the last, and one facet is pushed per tag whose start is the text length before its `#`; the result is the head followed by the tag line, and the facets are the per-tag facets in order. |
| Bsky.TextAndFacets | src/bsky.rs:167-193 | The loop builds exactly the composed text and returns `Some` of one facet per tag, in tag order. Each facet has the single `Tag` feature with the tag verbatim, ends inside the text, and its byte range holds exactly `#` followed by the tag. |
| Bsky.ComposedTextShape | src/bsky.rs:169-190 | Without tags the text is the base text. With tags it is the base text, a newline, and the `#tag` tokens joined by single spaces, with no trailing space. |
| Bsky.BaseText | src/bsky.rs:169-173 | The first line, `description / title` or the title alone; `Bsky.ComposedTextShape` and `Bsky.NoTagsExample` state what it gives. |
| Bsky.ComposedText | src/bsky.rs:169-192 | The closed form of the post text; `Bsky.TextAndFacets` is proved to build exactly it and `Bsky.ComposedTextShape` gives its shape. |
| Bsky.TagFacets | src/bsky.rs:176-184 | The closed form of the facet list, one per tag at the text length before its `#`; `Bsky.FacetCoversHashtag` and `Bsky.FacetsOrdered` state what each facet covers. |
| Bsky.TagLineIsJoin | src/bsky.rs:176-190 | The tag line built by appending `#tag` and a space before every later tag equals the independent "join by one space" definition. |
| Bsky.FacetCoversHashtag | src/bsky.rs:181-186 | Facet `i` starts at the byte length of the text before tag `i`'s `#`. It ends `|tag|+1` bytes later, within the final text, and covers exactly `#`+tag. |
| Bsky.FacetsOrdered | src/bsky.rs:176-185 | Every facet is non-empty. For `i < j`, facet `i` ends strictly before facet `j` starts: ordered and non-overlapping. |
| Bsky.TagLineStep | src/bsky.rs:181-189 | One loop turn: the buffer length before tag `i` is that tag's start offset, and appending `#tag` (plus a space unless it is the last tag) gives the next buffer. |
| Bsky.SpacedHashtagsPrefix | src/bsky.rs:176-190 | The text built for the first `i` tags is a prefix of the text built for the first `j >= i` tags: earlier offsets stay valid. |
| Bsky.TagLinePrefix | src/bsky.rs:186-189 | The hashtags up to and including tag `i` form a prefix of the final tag line. |
| Bsky.TwoTagsExample | src/bsky.rs:167-193 | Title `T` with tags `a`, `bb` gives `"T\n#a #bb"` and facets `[2,4)` and `[5,8)`. |
| Bsky.NoTagsExample | src/bsky.rs:169-174 | For the tagless entries titled `Hi`, without and with the description `Sub`, the text is `Hi` and `Sub / Hi` and the facet list is empty. |
| Bsky.ValidateUrl | src/bsky.rs:156-165 | True exactly when the URI parses, has a host, and has a scheme that is `http` or `https` in any ASCII case. |
| Bsky.FtpEndpointRejected | src/bsky.rs:156-165 | An `ftp` URI is rejected whatever its host. |
| Bsky.FtpEndpointKeepsDefault | src/bsky.rs:44-48 | A DID document whose only PDS service has an `ftp` endpoint leaves the base URI at `https://bsky.social`. |
| Bsky.FindService | src/bsky.rs:146-148 | `find` returns the first index at or after `from` whose id is `id` or the document id followed by `id`, or nothing when no service matches. |
| Bsky.FirstMatchUnique | src/bsky.rs:146-148 | The first matching service is unique. |
| Bsky.GetServiceEndpoint | src/bsky.rs:143-154 | There is no endpoint without a service list. There is one exactly when the first id match has the requested `type` and a valid URL. It is then that service's endpoint. |
| Bsky.LaterServiceIgnored | src/bsky.rs:146-152 | When the first id match is disqualified, a later service that would qualify does not help: the result is none. |
| Bsky.GetPdsEndpoint | src/bsky.rs:139-141 | The endpoint of the first `#atproto_pds` match, if that service has type `AtprotoPersonalDataServer` and a valid URL. Any result is a valid URL. |
| Bsky.SessionBaseUri | src/bsky.rs:27-48 | After login the base URI is the PDS endpoint when the DID document yields one, and `https://bsky.social` otherwise. It is always the default or a validated URL. |
| Bsky.NewAgent | src/bsky.rs:23-53 | A failed session creation returns its error. Otherwise the new agent has the session's DID, the access token is set, and the base URI is `Bsky.SessionBaseUri` of the session. |
| Bsky.ClientInfo.constructor | src/bsky.rs:27-30 | Client state starts with the given token and base URI. |
| Bsky.BskyAgent.constructor | src/bsky.rs:49-52 | The agent holds the given client state and DID. |
| Bsky.PreferOpenGraph | src/bsky.rs:117-131 | The OpenGraph property if present, else the page's own value, else the empty string. |
| Bsky.ThumbUrl | src/bsky.rs:92-100 | An image URL that parses, or fails for any reason other than being relative, is used as is. A relative one is joined against the page URL with its path set to `/`. A page URL that does not parse fails the thumbnail. |
| Bsky.Embed | src/bsky.rs:87-136 | Without an OpenGraph image there is no thumbnail. With one, a URL or upload failure fails the embed; otherwise the uploaded blob is the thumbnail. Title and description follow `PreferOpenGraph`, and the link is the entry URL. |
| Lib.Reversed | src/lib.rs:34 | `iter().rev()`: same length, element `i` is element `n-1-i`. |
| Lib.Collect | src/lib.rs:33-41 | The closed form of the collection loop; `Lib.CollectReads`, `Lib.CollectStops` and `Lib.CollectKeepsUnseenInOrder` state that it reads oldest first, stops at the first failed read and keeps exactly the unledgered entries in order. |
| Lib.Publish | src/lib.rs:47-59 | The closed form of the posting loop; `Lib.PublishEvents`, `Lib.PublishPostsEach`, `Lib.PublishLedger` and `Lib.PublishStops` state its events, its ledger and that it stops at the first failed write. |
| Lib.RunSpec | src/lib.rs:26-61 | The closed form of the whole run; the `Lib.Run…` lemmas and `Lib.SecondRunPublishesNothing` state its read order, login condition, ledger, count, failures and idempotence. |
| Lib.CollectNew | src/lib.rs:33-41 | The collection loop over the reversed feed computes `Lib.Collect`: the kept entries, the reads made, and the first failing key. |
| Lib.PostAll | src/lib.rs:47-59 | The posting loop computes `Lib.Publish`: the new ledger, the events, and the first failing write. |
| Lib.Run | src/lib.rs:26-61 | The whole run computes `Lib.RunSpec`: result, final ledger and trace. |
| Lib.CollectStops | src/lib.rs:36 | Once a ledger read fails, nothing later in the feed is read or kept. |
| Lib.PublishStops | src/lib.rs:52-55 | Once the loop has stopped at a failed write, no later entry is posted; `Lib.PublishWritesAllSucceeded` ties that stop to a write of a key in `writeFails`. |
| Lib.CollectReads | src/lib.rs:34-41 | The ledger is read once per entry, in walk order, up to and including the first failing read. Kept entries have no ledger value. Without a failure every entry is read. |
| Lib.CollectKeepsUnseenInOrder | src/lib.rs:36-40 | With no failed read, the kept entries are exactly the unledgered entries of the walk, in walk order (an order-preserving selection). |
| Lib.CollectKeepsUnseen | src/lib.rs:36-40 | With no failed read, every unledgered entry of the walk is among the kept entries. |
| Lib.PublishEvents | src/lib.rs:47-59 | The posting loop only posts and writes. Every write directly follows a successful post of the same URL. A failed write is the last event and its key is in `writeFails`. A loop that ends without a failed write met no successful post whose write fails. |
| Lib.PublishWritesAllSucceeded | src/lib.rs:49-55 | If the posting loop ends without a failed write, no entry whose post succeeded has a failing write: a failing `put` after a successful post always stops the loop. |
| Lib.PublishPostsEach | src/lib.rs:47-58 | Without a failed write each entry is posted exactly once, in order, and each outcome is recorded. |
| Lib.PublishLedger | src/lib.rs:49-57 | Existing ledger keys stay. Keys no entry touches keep their value. Every new key is an entry URL holding the receipt of that entry's successful post. Without a failed write, every successful post is recorded. |
| Lib.CollectNothingNew | src/lib.rs:36-40 | When every URL of the walk has a ledger value and no read fails, nothing is kept and the walk ends without a failure. |
| Lib.CollectAllLedgered | src/lib.rs:36-40 | When every URL of the walk has a ledger value, nothing is kept, whichever reads fail. |
| Lib.PublishedCoverWalk | src/lib.rs:36-57 | After a run in which no ledger read or write failed and every post succeeded, every URL of the feed has a ledger value. |
| Lib.RunReadsFirst | src/lib.rs:33-47 | All ledger reads of a run come before the login, the posts and the writes. |
| Lib.RunWalksOldestFirst | src/lib.rs:34-36 | The `i`-th ledger read is for the entry `n-1-i` of the feed: the walk goes from the oldest entry to the newest. |
| Lib.RunLogsInOnlyForNewEntries | src/lib.rs:42-46 | A run logs in exactly when the settings, the feed and all reads succeed and some entry is new. With nothing new, the result is `Ok(0)` and the ledger is unchanged. |
| Lib.RunWritesOnlyAfterSuccessfulPost | src/lib.rs:49-57 | Every ledger write of a run directly follows the successful post of the same URL; a failed post is never written. |
| Lib.RunLedger | src/lib.rs:46-60 | Existing ledger values are untouched. Every new key is a new entry whose post succeeded and holds that post's receipt. After a successful run, every successful post is recorded. |
| Lib.RunCountsNewEntries | src/lib.rs:46-60 | A successful run posts the new entries in walk order, one post each, and returns their number, not the number of successful posts. |
| Lib.RunFailures | src/lib.rs:27-55 | A failed read is the last step: it leaves the ledger untouched, comes before any login, and its key is reported. A failed login is the last step and nothing is written. A failed write is the last step, and its key is reported. |
| Lib.RunStopsAtFailedWrite | src/lib.rs:46-60 | A failing `put` aborts the run: a run with new entries that succeeds met no failing write after a successful post, and when some new entry's post succeeds and its write fails the run reports a failed write. |
| Lib.SecondRunPublishesNothing | src/lib.rs:33-44 | Idempotence: after a successful run in which every post succeeded, a run on the same feed with the resulting ledger only reads the ledger, so it posts nothing, writes nothing and does not log in, whichever of its reads fail; it returns `Ok(0)` or a failed read, and `Ok(0)` when its reads fail as the first run's did. |
| Lib.SuccessfulRunCoversFeed | src/lib.rs:33-57 | After a successful run in which every post succeeded, every URL of the feed has a ledger value and none of its reads failed. |
| Charset.CharsetAttr | src/lib.rs:106-110 | The value of the first `charset` attribute of a `meta` element, or none when there is no such attribute. |
| Charset.CharsetSuffix | src/lib.rs:117-119 | The part of a `content` value after its first `charset=`, found ignoring ASCII case and cut from the value as written; none when there is no such occurrence. |
| Charset.ContentCharset | src/lib.rs:115-122 | The charset of the first `content` attribute that contains `charset=` in any case; none when there is none. |
| Charset.HttpEquivCharset | src/lib.rs:111-124 | Running the inner search once per `http-equiv` attribute whose value is `content-type` in any ASCII case gives the `content` charset exactly when such an attribute exists. |
| Charset.IsContentTypeEquiv | src/lib.rs:112-113 | An `http-equiv` attribute whose value lowercases to `content-type`; `Charset.HttpEquivMeta` and `Charset.MetaCharset` state its effect. |
| Charset.MetaCharset | src/lib.rs:99-126 | Only a `meta` element gives a hint. A `charset` attribute beats `http-equiv`. Without one, a hint comes exactly when some `http-equiv` announces the content type and some `content` names a charset, and that hint is `Charset.ContentCharset` of the attributes. |
| Charset.ExtractIsFirstInPreorder | src/lib.rs:97-133 | `extract_charset` returns the hint of the first node, in document pre-order, that gives one. |
| Charset.ExtractCharset | src/lib.rs:97-133 | Equals `FirstHint(Preorder(node))`, the first hint in document pre-order (`Charset.ExtractIsFirstInPreorder`). |
| Charset.ExtractFromChildren | src/lib.rs:127-132 | Equals `FirstHint(PreorderAll(children))`: the children's subtrees are searched left to right (`Charset.ExtractFromChildrenIsFirst`). |
| Charset.ExtractFromChildrenIsFirst | src/lib.rs:127-131 | The children are searched left to right, each subtree completely before the next. |
| Charset.FirstHint | src/lib.rs:97-133 | The reference search over a node list: the hint of the first node giving one, or none exactly when no node does. |
| Charset.FirstHintConcat | src/lib.rs:127-131 | The first hint of two lists in a row is the first list's hint when it has one, else the second's. |
| Charset.NonMatchingMetaSkipped | src/lib.rs:127-131 | For a parent that names no charset and has two childless children, a first child that names none is passed over and the result is the second child's own hint. |
| Charset.ViewportMetaExample | src/lib.rs:105-124 | `<meta name="viewport">` gives no hint. |
| Charset.HttpEquivMeta | src/lib.rs:111-122 | `<meta http-equiv=X content=C>`, where X lowercases to `content-type`, gives the charset named in `C`. |
| Charset.ShiftJisContentExample | src/lib.rs:117-119 | In `text/html; Charset=Shift_JIS`, `Charset=` is found regardless of case, and the result is `Shift_JIS`, as written. |
| Charset.CharsetHint | src/lib.rs:81-87 | The header's `charset` parameter when there is one; otherwise the first `meta` hint of the document in pre-order. |
| Charset.ChooseDecoding | src/lib.rs:81-93 | Lossy UTF-8 exactly when there is no hint or the hint is not a known label. Otherwise the encoding found for the hint. |
| Charset.HeaderCharsetDecides | src/lib.rs:81-89 | A header charset is used alone: the document is not consulted, and an unknown header label gives lossy UTF-8 even if the markup names a known one. |
| Charset.MarkupConsultedWithoutHeaderCharset | src/lib.rs:81-93 | Without a header charset, the first `meta` hint of the document is looked up, with lossy UTF-8 when it is missing or unknown. |
| Utf8.ToAsciiLowercase | src/lib.rs:113 | Same length; `A`–`Z` map to `a`–`z` and every other byte is kept. |
| Utf8.Find | src/lib.rs:118 | The index of the first occurrence of the needle, or none when it never occurs. |

## Left out

- `src/client.rs` is not part of this model. It is the HTTP plumbing over the worker `Fetch` API, and the `Arc<RwLock<ClientInfo>>` it reads back is modelled as the plain class `Bsky.ClientInfo`.
- `src/hatebu.rs`'s RSS fetching and parsing are not modelled. The feed is an input sequence of `Hatebu.Entry`.
- Network calls, async execution and time are not modelled. `create_session`, `create_record`, `upload_blob`, the thumbnail and page fetches, and the KV store reads and writes all become function or set parameters of the model.
- Library parsing is not modelled: `html5ever`/`RcDom` (the document is a hand-built `Charset.Node` tree), `webpage::HTML`'s OpenGraph extraction (`Bsky.Html`), `http::Uri` and `url::Url` parsing and `Url::join`, and `mime` parsing (`Charset.Mime` holds the looked-up `charset` parameter).
- The `encoding_rs` decoders and `String::from_utf8_lossy` are not modelled. The model chooses the decoder (`Charset.Decoding`) but does not decode the bytes.
- `create_post`'s record assembly is not modelled (`Datetime::now()`, the fixed `"ja"` language tag, the collection name), and neither is the logging (`console_log!`, `console_error!`).
- `run` reads three environment variables and opens the KV binding (`src/lib.rs:27-31`). This is reduced to one optional `Lib.Config`, whose absence aborts the run.
- `Lib.Run`: the `expect("failed to put")` panic and the failure of `execute().await` are both folded into one failed write for that key.
- `Lib.Run`: a failing ledger read and a failing `text()` are both one failed read for that key.
- `Lib.Run`: `post2bsky` is one abstract `post` outcome per entry. Its failure modes (page fetch, parsing, embed, record creation) are not distinguished.
- `Lib.Run`: its `login` parameter stands for the success or failure of `Bsky.NewAgent` (`src/lib.rs:46`); the two are not composed, so the run does not see the agent's base URI or token.
- `Bsky.NewAgent`: the lock-poisoning errors of `info.write()` cannot happen without threads and are not modelled.
- `Bsky.TextAndFacets`: text is modelled as bytes with no UTF-8 validity invariant, so facet offsets are byte offsets into arbitrary bytes.
- `Bsky.ValidateUrl` and `Bsky.GetServiceEndpoint`: `http::Uri` parsing is an abstract function from text to an optional scheme and host.
- `Lib.RunCountsNewEntries`: `usize` is unbounded here. A feed of more than `usize::MAX` entries cannot be fetched, so this loses nothing.
