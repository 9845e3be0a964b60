/**
 * The Bluesky side of the bridge: composing the post text with its hashtag
 * facets, choosing the PDS endpoint from the DID document returned at login,
 * the session state the agent starts with, and the external-link embed.
 */
module Bsky {
  import opened Wrappers
  import opened Utf8
  import opened Hatebu

  // ---------------------------------------------------------------------
  // Post text and hashtag facets (app.bsky.richtext.facet byte slices)
  // ---------------------------------------------------------------------

  const NewLine: byte := 10
  const Space: byte := 32
  const HashMark: byte := 35

  /** A half-open range `[byteStart, byteEnd)` of the UTF-8 post text. */
  datatype ByteSlice = ByteSlice(byteStart: nat, byteEnd: nat)

  datatype FacetFeature = Tag(tag: Bytes)

  datatype Facet = Facet(features: seq<FacetFeature>, index: ByteSlice)

  /** The first line of the post: `"{description} / {title}"`, or the title alone. */
  function BaseText(entry: Entry): Bytes
  {
    match entry.description
    case Some(description) => description + Ascii(" / ") + entry.title
    case None => entry.title
  }

  function Hashtag(tag: Bytes): Bytes
  {
    [HashMark] + tag
  }

  /** `#tag ` for every tag, in order: the tag line as it stands before each new tag. */
  function SpacedHashtags(tags: seq<Bytes>): Bytes
  {
    if tags == [] then []
    else SpacedHashtags(tags[..|tags| - 1]) + Hashtag(tags[|tags| - 1]) + [Space]
  }

  /** The tag line: every `#tag`, separated by one space, none after the last. */
  function TagLine(tags: seq<Bytes>): Bytes
    requires tags != []
  {
    SpacedHashtags(tags[..|tags| - 1]) + Hashtag(tags[|tags| - 1])
  }

  /** The whole post text. */
  function ComposedText(entry: Entry): Bytes
  {
    if entry.tags == [] then BaseText(entry)
    else BaseText(entry) + [NewLine] + TagLine(entry.tags)
  }

  /** The byte offset, in the post text, of the `#` of tag `i`. */
  function TagStart(entry: Entry, i: nat): nat
    requires i <= |entry.tags|
  {
    |BaseText(entry)| + 1 + |SpacedHashtags(entry.tags[..i])|
  }

  /** The facet the source pushes for `tag` when the text so far is `start` bytes long. */
  function TagFacet(tag: Bytes, start: nat): Facet
  {
    Facet([Tag(tag)], ByteSlice(start, start + |tag| + 1))
  }

  /** One facet per tag, in tag order. */
  function TagFacets(entry: Entry): seq<Facet>
  {
    seq(|entry.tags|, i requires 0 <= i < |entry.tags| => TagFacet(entry.tags[i], TagStart(entry, i)))
  }

  /**
   * `text_and_facets`: builds the text in a mutable buffer and pushes a facet
   * at the buffer's current byte length before appending each `#tag`.
   */
  method TextAndFacets(entry: Entry) returns (text: Bytes, facets: Option<seq<Facet>>)
    ensures text == ComposedText(entry)
    ensures facets == Some(TagFacets(entry))
    ensures |facets.value| == |entry.tags|
    ensures forall i | 0 <= i < |entry.tags| :: facets.value[i].features == [Tag(entry.tags[i])]
    ensures forall i | 0 <= i < |entry.tags| ::
      facets.value[i].index.byteEnd <= |text| &&
      text[facets.value[i].index.byteStart..facets.value[i].index.byteEnd] == [HashMark] + entry.tags[i]
  {
    var pushed: seq<Facet> := [];
    var ret: Bytes;
    match entry.description {
      case Some(description) => ret := description + Ascii(" / ") + entry.title;
      case None => ret := entry.title;
    }
    assert ret == BaseText(entry);
    if entry.tags != [] {
      ret := ret + [NewLine];
      ret, pushed := AppendHashtags(entry, ret);
    }
    text, facets := ret, Some(pushed);
    forall i | 0 <= i < |entry.tags|
      ensures facets.value[i].index.byteEnd <= |text|
      ensures text[facets.value[i].index.byteStart..facets.value[i].index.byteEnd] == [HashMark] + entry.tags[i]
    {
      FacetCoversHashtag(entry, i);
    }
  }

  /**
   * The `for (i, tag)` loop of `text_and_facets`: starting from the base text
   * and a newline, it records a facet at the current byte length, appends
   * `#tag`, and a space after every tag but the last.
   */
  method AppendHashtags(entry: Entry, head: Bytes) returns (ret: Bytes, pushed: seq<Facet>)
    requires entry.tags != [] && head == BaseText(entry) + [NewLine]
    ensures ret == head + TagLine(entry.tags)
    ensures pushed == TagFacets(entry)
  {
    ret, pushed := head, [];
    var n := |entry.tags|;
    for i := 0 to n
      invariant pushed == TagFacets(entry)[..i]
      invariant i < n ==> ret == head + SpacedHashtags(entry.tags[..i])
      invariant i == n ==> ret == head + TagLine(entry.tags)
    {
      var tag := entry.tags[i];
      TagLineStep(entry, i);
      TagFacetsStep(entry, i);
      assert |ret| == TagStart(entry, i);
      pushed := pushed + [Facet([Tag(tag)], ByteSlice(|ret|, |ret| + |tag| + 1))];
      ret := ret + ([HashMark] + tag);
      if i < n - 1 {
        ret := ret + [Space];
      }
    }
    assert TagFacets(entry)[..n] == TagFacets(entry);
  }

  lemma TagFacetsStep(entry: Entry, i: nat)
    requires i < |entry.tags|
    ensures TagFacets(entry)[..i + 1] == TagFacets(entry)[..i] + [TagFacet(entry.tags[i], TagStart(entry, i))]
  {
  }

  /** One turn of the loop in `TextAndFacets`: where tag `i` starts, and what the buffer becomes. */
  lemma TagLineStep(entry: Entry, i: nat)
    requires i < |entry.tags|
    ensures |BaseText(entry) + [NewLine] + SpacedHashtags(entry.tags[..i])| == TagStart(entry, i)
    ensures i < |entry.tags| - 1 ==>
      BaseText(entry) + [NewLine] + SpacedHashtags(entry.tags[..i]) + Hashtag(entry.tags[i]) + [Space]
      == BaseText(entry) + [NewLine] + SpacedHashtags(entry.tags[..i + 1])
    ensures i == |entry.tags| - 1 ==>
      BaseText(entry) + [NewLine] + SpacedHashtags(entry.tags[..i]) + Hashtag(entry.tags[i])
      == BaseText(entry) + [NewLine] + TagLine(entry.tags)
  {
    SpacedHashtagsStep(entry.tags, i);
  }

  lemma {:induction false} SpacedHashtagsPrefix(tags: seq<Bytes>, i: nat, j: nat)
    requires i <= j <= |tags|
    ensures |SpacedHashtags(tags[..i])| <= |SpacedHashtags(tags[..j])|
    ensures SpacedHashtags(tags[..j])[..|SpacedHashtags(tags[..i])|] == SpacedHashtags(tags[..i])
    decreases j - i
  {
    if i < j {
      SpacedHashtagsPrefix(tags, i, j - 1);
      assert tags[..j][..j - 1] == tags[..j - 1];
      var a, b := SpacedHashtags(tags[..i]), SpacedHashtags(tags[..j - 1]);
      assert SpacedHashtags(tags[..j]) == b + Hashtag(tags[j - 1]) + [Space];
      assert b[..|a|] == a;
      assert (b + Hashtag(tags[j - 1]) + [Space])[..|a|] == b[..|a|];
    }
  }

  lemma SpacedHashtagsStep(tags: seq<Bytes>, i: nat)
    requires i < |tags|
    ensures SpacedHashtags(tags[..i + 1]) == SpacedHashtags(tags[..i]) + Hashtag(tags[i]) + [Space]
  {
    assert tags[..i + 1][..i] == tags[..i];
  }

  /** `#tag` of tag `i`, with everything before it on the tag line, starts the tag line. */
  lemma TagLinePrefix(tags: seq<Bytes>, i: nat)
    requires i < |tags|
    ensures |SpacedHashtags(tags[..i]) + Hashtag(tags[i])| <= |TagLine(tags)|
    ensures TagLine(tags)[..|SpacedHashtags(tags[..i]) + Hashtag(tags[i])|]
            == SpacedHashtags(tags[..i]) + Hashtag(tags[i])
  {
    var n := |tags|;
    var p := SpacedHashtags(tags[..i]) + Hashtag(tags[i]);
    if i < n - 1 {
      SpacedHashtagsPrefix(tags, i + 1, n - 1);
      SpacedHashtagsStep(tags, i);
      var all := SpacedHashtags(tags[..n - 1]);
      assert all[..|p| + 1] == p + [Space];
      assert all[..|p|] == p;
      PrefixOfConcat(all, Hashtag(tags[n - 1]), |p|);
    }
  }

  lemma PrefixOfConcat(a: Bytes, b: Bytes, k: nat)
    requires k <= |a|
    ensures (a + b)[..k] == a[..k]
  {
  }

  lemma SliceAfterPrefix(t: Bytes, a: Bytes, b: Bytes)
    requires |a| + |b| <= |t| && t[..|a| + |b|] == a + b
    ensures t[|a|..|a| + |b|] == b
  {
    assert t[|a|..|a| + |b|] == t[..|a| + |b|][|a|..];
  }

  /** Facet `i` addresses exactly the bytes `#` + tag `i` of the final text. */
  lemma FacetCoversHashtag(entry: Entry, i: nat)
    requires i < |entry.tags|
    ensures TagFacets(entry)[i].index.byteEnd <= |ComposedText(entry)|
    ensures ComposedText(entry)[TagFacets(entry)[i].index.byteStart..TagFacets(entry)[i].index.byteEnd]
            == [HashMark] + entry.tags[i]
  {
    var tags := entry.tags;
    var head := BaseText(entry) + [NewLine];
    var before := SpacedHashtags(tags[..i]);
    var tag := Hashtag(tags[i]);
    var text := ComposedText(entry);
    assert text == head + TagLine(tags);
    TagLinePrefix(tags, i);
    assert text[..|head| + |before + tag|] == head + (before + tag);
    assert text[..|head + before| + |tag|] == (head + before) + tag;
    SliceAfterPrefix(text, head + before, tag);
  }

  /** Facets are non-empty, follow tag order and never overlap: facet `i` ends before facet `j` starts. */
  lemma FacetsOrdered(entry: Entry, i: nat, j: nat)
    requires i < j < |entry.tags|
    ensures TagFacets(entry)[i].index.byteStart < TagFacets(entry)[i].index.byteEnd
    ensures TagFacets(entry)[i].index.byteEnd < TagFacets(entry)[j].index.byteStart
  {
    SpacedHashtagsStep(entry.tags, i);
    SpacedHashtagsPrefix(entry.tags, i + 1, j);
  }

  /** An independent reading of the tag line: the `#tag` tokens joined by single spaces. */
  function JoinedBySpaces(tokens: seq<Bytes>): Bytes
    requires tokens != []
  {
    if |tokens| == 1 then tokens[0] else tokens[0] + [Space] + JoinedBySpaces(tokens[1..])
  }

  function Hashtags(tags: seq<Bytes>): seq<Bytes>
  {
    seq(|tags|, i requires 0 <= i < |tags| => Hashtag(tags[i]))
  }

  lemma {:induction false} JoinedBySpacesSnoc(tokens: seq<Bytes>, t: Bytes)
    requires tokens != []
    ensures JoinedBySpaces(tokens + [t]) == JoinedBySpaces(tokens) + [Space] + t
    decreases |tokens|
  {
    if |tokens| == 1 {
      assert (tokens + [t])[1..] == [t];
    } else {
      assert (tokens + [t])[1..] == tokens[1..] + [t];
      JoinedBySpacesSnoc(tokens[1..], t);
    }
  }

  lemma {:induction false} TagLineIsJoin(tags: seq<Bytes>)
    requires tags != []
    ensures TagLine(tags) == JoinedBySpaces(Hashtags(tags))
    decreases |tags|
  {
    var n := |tags|;
    if n == 1 {
      assert Hashtags(tags) == [Hashtag(tags[0])];
    } else {
      var init := tags[..n - 1];
      assert init[..n - 2] == tags[..n - 2];
      assert SpacedHashtags(init) == TagLine(init) + [Space];
      TagLineIsJoin(init);
      assert Hashtags(tags) == Hashtags(init) + [Hashtag(tags[n - 1])];
      JoinedBySpacesSnoc(Hashtags(init), Hashtag(tags[n - 1]));
    }
  }

  /** The post text is the base text, then (only when there are tags) a newline and the joined hashtags. */
  lemma ComposedTextShape(entry: Entry)
    ensures entry.tags == [] ==> ComposedText(entry) == BaseText(entry)
    ensures entry.tags != [] ==>
      ComposedText(entry) == BaseText(entry) + [NewLine] + JoinedBySpaces(Hashtags(entry.tags))
  {
    if entry.tags != [] {
      TagLineIsJoin(entry.tags);
    }
  }

  /** `{title: "T", tags: ["a", "bb"]}` gives `"T\n#a #bb"` with facets `[2, 4)` and `[5, 8)`. */
  lemma TwoTagsExample()
    ensures var entry := Entry(Ascii("T"), Ascii("https://example.com/"), None, [Ascii("a"), Ascii("bb")]);
      ComposedText(entry) == Ascii("T\n#a #bb") &&
      TagFacets(entry) == [Facet([Tag(Ascii("a"))], ByteSlice(2, 4)), Facet([Tag(Ascii("bb"))], ByteSlice(5, 8))]
  {
    var tags := [Ascii("a"), Ascii("bb")];
    assert tags[..1] == [Ascii("a")] && tags[..1][..0] == [] && tags[..0] == [];
    assert SpacedHashtags(tags[..1]) == [HashMark, 97, Space];
    assert TagLine(tags) == [HashMark, 97, Space, HashMark, 98, 98];
    assert Ascii("T\n#a #bb") == [84, NewLine, HashMark, 97, Space, HashMark, 98, 98];
  }

  /** Without tags the text is the title, or `"Sub / Hi"` when a description is present. */
  lemma NoTagsExample()
    ensures ComposedText(Entry(Ascii("Hi"), Ascii("https://example.com/"), None, [])) == Ascii("Hi")
    ensures ComposedText(Entry(Ascii("Hi"), Ascii("https://example.com/"), Some(Ascii("Sub")), [])) == Ascii("Sub / Hi")
    ensures TagFacets(Entry(Ascii("Hi"), Ascii("https://example.com/"), None, [])) == []
    ensures TagFacets(Entry(Ascii("Hi"), Ascii("https://example.com/"), Some(Ascii("Sub")), [])) == []
  {
  }

  // ---------------------------------------------------------------------
  // PDS endpoint discovery from the DID document (DID Core, section 5.4)
  // ---------------------------------------------------------------------

  /** The parts of a parsed `http::Uri` that `validate_url` looks at. */
  datatype Uri = Uri(scheme: Option<Bytes>, host: Option<Bytes>)

  datatype Service = Service(id: Bytes, serviceType: Bytes, serviceEndpoint: Bytes)

  datatype DidDocument = DidDocument(id: Bytes, service: Option<seq<Service>>)

  const AtprotoPdsId: Bytes := Ascii("#atproto_pds")
  const AtprotoPdsType: Bytes := Ascii("AtprotoPersonalDataServer")

  /** The http crate compares a `Scheme` with a `&str` ignoring ASCII case. */
  predicate IsWebScheme(scheme: Bytes)
  {
    var lower := ToAsciiLowercase(scheme);
    lower == Ascii("https") || lower == Ascii("http")
  }

  /**
   * `validate_url`: the endpoint must parse as a URI (`parseUri` stands for
   * `str::parse::<http::Uri>`), with an http or https scheme and a host.
   */
  function ValidateUrl(parseUri: Bytes -> Option<Uri>, url: Bytes): (valid: bool)
    ensures valid <==> parseUri(url).Some? && parseUri(url).value.host.Some? &&
                       parseUri(url).value.scheme.Some? &&
                       ToAsciiLowercase(parseUri(url).value.scheme.value) in {Ascii("http"), Ascii("https")}
  {
    match parseUri(url)
    case None => false
    case Some(uri) =>
      match uri.scheme
      case None => false
      case Some(scheme) => IsWebScheme(scheme) && uri.host.Some?
  }

  /** An `ftp` endpoint is refused, whatever its host. */
  lemma FtpEndpointRejected(parseUri: Bytes -> Option<Uri>, url: Bytes, host: Bytes)
    requires parseUri(url) == Some(Uri(Some(Ascii("ftp")), Some(host)))
    ensures !ValidateUrl(parseUri, url)
  {
    assert |ToAsciiLowercase(Ascii("ftp"))| == 3;
  }

  /** A DID document whose PDS service points at an `ftp` URL leaves the default base URI in place. */
  lemma FtpEndpointKeepsDefault(parseUri: Bytes -> Option<Uri>, session: Session, url: Bytes, host: Bytes)
    requires session.didDoc.Some? && session.didDoc.value.service == Some([Service(AtprotoPdsId, AtprotoPdsType, url)])
    requires parseUri(url) == Some(Uri(Some(Ascii("ftp")), Some(host)))
    ensures SessionBaseUri(parseUri, session) == DefaultBaseUri
  {
    FtpEndpointRejected(parseUri, url, host);
  }

  predicate IdMatches(service: Service, id: Bytes, fullId: Bytes)
  {
    service.id == id || service.id == fullId
  }

  /** `k` is where `Iterator::find` stops: the first service whose id matches. */
  predicate IsFirstMatch(services: seq<Service>, id: Bytes, fullId: Bytes, k: nat)
  {
    k < |services| && IdMatches(services[k], id, fullId) &&
    forall j | 0 <= j < k :: !IdMatches(services[j], id, fullId)
  }

  lemma FirstMatchUnique(services: seq<Service>, id: Bytes, fullId: Bytes, k: nat, k': nat)
    requires IsFirstMatch(services, id, fullId, k) && IsFirstMatch(services, id, fullId, k')
    ensures k == k'
  {
  }

  /** `services.iter().find(..)` from position `from` on, as an index. */
  function FindService(services: seq<Service>, id: Bytes, fullId: Bytes, from: nat): (r: Option<nat>)
    requires from <= |services|
    ensures r.Some? ==> from <= r.value < |services| && IdMatches(services[r.value], id, fullId)
    ensures r.Some? ==> forall j | from <= j < r.value :: !IdMatches(services[j], id, fullId)
    ensures r.None? ==> forall j | from <= j < |services| :: !IdMatches(services[j], id, fullId)
    decreases |services| - from
  {
    if from == |services| then None
    else if IdMatches(services[from], id, fullId) then Some(from)
    else FindService(services, id, fullId, from + 1)
  }

  predicate Qualifies(parseUri: Bytes -> Option<Uri>, service: Service, serviceType: Bytes)
  {
    service.serviceType == serviceType && ValidateUrl(parseUri, service.serviceEndpoint)
  }

  /**
   * `get_service_endpoint`: only the first service whose id is `id` or the
   * document id followed by `id` is considered; it must also have the right
   * type and a valid URL, or there is no endpoint at all. Its contract
   * quantifies over every `k` with `IsFirstMatch`; `FirstMatchUnique`
   * shows there is at most one such service.
   */
  function GetServiceEndpoint(parseUri: Bytes -> Option<Uri>, didDoc: DidDocument, id: Bytes, serviceType: Bytes)
    : (r: Option<Bytes>)
    ensures didDoc.service.None? ==> r.None?
    ensures r.Some? <==>
      didDoc.service.Some? &&
      exists k: nat :: IsFirstMatch(didDoc.service.value, id, didDoc.id + id, k) &&
                  Qualifies(parseUri, didDoc.service.value[k], serviceType)
    ensures r.Some? ==>
      forall k: nat | IsFirstMatch(didDoc.service.value, id, didDoc.id + id, k) ::
        r.value == didDoc.service.value[k].serviceEndpoint
  {
    var fullId := didDoc.id + id;
    match didDoc.service
    case None => None
    case Some(services) =>
      match FindService(services, id, fullId, 0)
      case None => None
      case Some(k) =>
        assert IsFirstMatch(services, id, fullId, k);
        if services[k].serviceType == serviceType && ValidateUrl(parseUri, services[k].serviceEndpoint)
        then Some(services[k].serviceEndpoint)
        else None
  }

  /** A disqualified first match is not rescued by a later service that would qualify. */
  lemma LaterServiceIgnored(parseUri: Bytes -> Option<Uri>, didDoc: DidDocument, id: Bytes, serviceType: Bytes,
                            k: nat, j: nat)
    requires didDoc.service.Some? && k < j < |didDoc.service.value|
    requires IsFirstMatch(didDoc.service.value, id, didDoc.id + id, k)
    requires !Qualifies(parseUri, didDoc.service.value[k], serviceType)
    requires IdMatches(didDoc.service.value[j], id, didDoc.id + id)
    requires Qualifies(parseUri, didDoc.service.value[j], serviceType)
    ensures GetServiceEndpoint(parseUri, didDoc, id, serviceType).None?
  {
  }

  /** `get_pds_endpoint`: the `#atproto_pds` service of type `AtprotoPersonalDataServer`. */
  function GetPdsEndpoint(parseUri: Bytes -> Option<Uri>, didDoc: DidDocument): (r: Option<Bytes>)
    ensures r.Some? ==> ValidateUrl(parseUri, r.value)
    ensures r.Some? <==>
      didDoc.service.Some? &&
      exists k: nat :: IsFirstMatch(didDoc.service.value, AtprotoPdsId, didDoc.id + AtprotoPdsId, k) &&
                  didDoc.service.value[k].serviceType == AtprotoPdsType &&
                  ValidateUrl(parseUri, didDoc.service.value[k].serviceEndpoint)
    ensures r.Some? ==>
      exists k: nat :: IsFirstMatch(didDoc.service.value, AtprotoPdsId, didDoc.id + AtprotoPdsId, k) &&
                  didDoc.service.value[k].serviceEndpoint == r.value
  {
    GetServiceEndpoint(parseUri, didDoc, AtprotoPdsId, AtprotoPdsType)
  }

  // ---------------------------------------------------------------------
  // Session start: `BskyAgent::new`
  // ---------------------------------------------------------------------

  const DefaultBaseUri: Bytes := Ascii("https://bsky.social")

  /** `ClientInfo`: the bearer token and base URI every XRPC call reads. */
  class ClientInfo {
    var accessJwt: Option<Bytes>
    var baseUri: Bytes

    constructor (accessJwt: Option<Bytes>, baseUri: Bytes)
      ensures this.accessJwt == accessJwt && this.baseUri == baseUri
    {
      this.accessJwt := accessJwt;
      this.baseUri := baseUri;
    }
  }

  /** The part of the `create_session` output the agent uses. */
  datatype Session = Session(accessJwt: Bytes, did: Bytes, didDoc: Option<DidDocument>)

  class BskyAgent {
    const info: ClientInfo
    const did: Bytes

    constructor (info: ClientInfo, did: Bytes)
      ensures this.info == info && this.did == did
    {
      this.info := info;
      this.did := did;
    }
  }

  /**
   * The base URI after login: a validated `#atproto_pds` endpoint of the
   * session's DID document, otherwise the default.
   */
  function SessionBaseUri(parseUri: Bytes -> Option<Uri>, session: Session): (uri: Bytes)
    ensures uri == DefaultBaseUri || ValidateUrl(parseUri, uri)
    ensures session.didDoc.None? ==> uri == DefaultBaseUri
    ensures session.didDoc.Some? ==>
      uri == match GetPdsEndpoint(parseUri, session.didDoc.value)
             case Some(endpoint) => endpoint
             case None => DefaultBaseUri
  {
    match session.didDoc
    case None => DefaultBaseUri
    case Some(didDoc) =>
      match GetPdsEndpoint(parseUri, didDoc)
      case Some(endpoint) => endpoint
      case None => DefaultBaseUri
  }

  /**
   * `BskyAgent::new`, with `createSession` standing for the
   * `com.atproto.server.createSession` call: a failed login is returned as
   * is; otherwise the token is stored, then the base URI is replaced only by
   * a validated PDS endpoint.
   */
  method NewAgent(parseUri: Bytes -> Option<Uri>, createSession: (Bytes, Bytes) -> Result<Session, Bytes>,
                  identifier: Bytes, password: Bytes)
    returns (r: Result<BskyAgent, Bytes>)
    ensures createSession(identifier, password).Failure? ==>
      r == Failure(createSession(identifier, password).error)
    ensures createSession(identifier, password).Success? ==>
      var session := createSession(identifier, password).value;
      && r.Success? && fresh(r.value) && fresh(r.value.info)
      && r.value.did == session.did
      && r.value.info.accessJwt == Some(session.accessJwt)
      && r.value.info.baseUri == SessionBaseUri(parseUri, session)
  {
    var info := new ClientInfo(None, DefaultBaseUri);
    var created := createSession(identifier, password);
    if created.Failure? {
      return Failure(created.error);
    }
    var session := created.value;
    info.accessJwt := Some(session.accessJwt);
    if session.didDoc.Some? {
      var pds := GetPdsEndpoint(parseUri, session.didDoc.value);
      if pds.Some? {
        info.baseUri := pds.value;
      }
    }
    var agent := new BskyAgent(info, session.did);
    return Success(agent);
  }

  // ---------------------------------------------------------------------
  // The external-link embed
  // ---------------------------------------------------------------------

  datatype OgObject = OgObject(url: Bytes)

  /** What the embed reads from `webpage::HTML`: title, description, OpenGraph properties and images. */
  datatype Html = Html(title: Option<Bytes>, description: Option<Bytes>,
                       ogProperties: map<Bytes, Bytes>, ogImages: seq<OgObject>)

  /** `properties.get(key).cloned().or(fallback).unwrap_or_default()`. */
  function PreferOpenGraph(properties: map<Bytes, Bytes>, key: Bytes, fallback: Option<Bytes>): (r: Bytes)
    ensures key in properties ==> r == properties[key]
    ensures key !in properties && fallback.Some? ==> r == fallback.value
    ensures key !in properties && fallback.None? ==> r == []
  {
    if key in properties then properties[key]
    else match fallback
      case Some(value) => value
      case None => []
  }

  function EmbedTitle(html: Html): Bytes
  {
    PreferOpenGraph(html.ogProperties, Ascii("title"), html.title)
  }

  function EmbedDescription(html: Html): Bytes
  {
    PreferOpenGraph(html.ogProperties, Ascii("description"), html.description)
  }

  /** A parsed `url::Url`. */
  datatype Url = Url(scheme: Bytes, host: Option<Bytes>, path: Bytes, query: Option<Bytes>, fragment: Option<Bytes>)

  datatype UrlError = RelativeUrlWithoutBase | InvalidUrl

  /**
   * The thumbnail URL: the first OpenGraph image URL as parsed; a relative one
   * is joined against the page URL with its path set to `/`. `parseUrl` and
   * `join` stand for `str::parse::<Url>` and `Url::join`.
   */
  function ThumbUrl(parseUrl: Bytes -> Result<Url, UrlError>, join: (Url, Bytes) -> Result<Url, UrlError>,
                    pageUrl: Bytes, imageUrl: Bytes): (r: Result<Url, UrlError>)
    ensures parseUrl(imageUrl) != Failure(RelativeUrlWithoutBase) ==> r == parseUrl(imageUrl)
    ensures parseUrl(imageUrl) == Failure(RelativeUrlWithoutBase) && parseUrl(pageUrl).Failure? ==>
      r == parseUrl(pageUrl)
    ensures parseUrl(imageUrl) == Failure(RelativeUrlWithoutBase) && parseUrl(pageUrl).Success? ==>
      r == join(parseUrl(pageUrl).value.(path := Ascii("/")), imageUrl)
  {
    match parseUrl(imageUrl)
    case Failure(RelativeUrlWithoutBase) =>
      (match parseUrl(pageUrl)
       case Failure(e) => Failure(e)
       case Success(base) => join(base.(path := Ascii("/")), imageUrl))
    case other => other
  }

  datatype BlobRef = BlobRef(link: Bytes)

  /** The `app.bsky.embed.external` record. */
  datatype External = External(description: Bytes, thumb: Option<BlobRef>, title: Bytes, uri: Bytes)

  datatype EmbedError = UrlFailed(error: UrlError) | UploadFailed(message: Bytes)

  /**
   * `embed`: `upload` stands for fetching the thumbnail and `upload_blob`.
   * Without an OpenGraph image there is no thumbnail and nothing is fetched;
   * with one, any URL, fetch or upload failure fails the whole embed.
   */
  function Embed(entry: Entry, html: Html, parseUrl: Bytes -> Result<Url, UrlError>,
                 join: (Url, Bytes) -> Result<Url, UrlError>, upload: Url -> Result<BlobRef, Bytes>)
    : (r: Result<External, EmbedError>)
    ensures html.ogImages == [] ==>
      r == Success(External(EmbedDescription(html), None, EmbedTitle(html), entry.url))
    ensures html.ogImages != [] ==>
      var url := ThumbUrl(parseUrl, join, entry.url, html.ogImages[0].url);
      && (url.Failure? ==> r == Failure(UrlFailed(url.error)))
      && (url.Success? && upload(url.value).Failure? ==> r == Failure(UploadFailed(upload(url.value).error)))
      && (url.Success? && upload(url.value).Success? ==>
            r == Success(External(EmbedDescription(html), Some(upload(url.value).value), EmbedTitle(html), entry.url)))
  {
    if html.ogImages == [] then
      Success(External(EmbedDescription(html), None, EmbedTitle(html), entry.url))
    else
      match ThumbUrl(parseUrl, join, entry.url, html.ogImages[0].url)
      case Failure(e) => Failure(UrlFailed(e))
      case Success(url) =>
        match upload(url)
        case Failure(message) => Failure(UploadFailed(message))
        case Success(blob) => Success(External(EmbedDescription(html), Some(blob), EmbedTitle(html), entry.url))
  }
}
