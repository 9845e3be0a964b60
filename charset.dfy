/**
 * How a fetched page's bytes are turned into text: the charset named by the
 * `Content-Type` header, otherwise the one a `<meta>` element of the parsed
 * document names, then looked up as an encoding label, with lossy UTF-8 as
 * the fallback (`get_webpage` and `extract_charset`).
 */
module Charset {
  import opened Wrappers
  import opened Utf8

  // ---------------------------------------------------------------------
  // Document tree: the parts of an `RcDom` node the search looks at
  // ---------------------------------------------------------------------

  /** An attribute: its local name and its value. */
  datatype Attr = Attr(name: Bytes, value: Bytes)

  /** An element with its local name and attributes, or any other kind of node. */
  datatype NodeData = Element(name: Bytes, attrs: seq<Attr>) | NonElement

  datatype Node = Node(data: NodeData, children: seq<Node>)

  const MetaName := Ascii("meta")
  const CharsetName := Ascii("charset")
  const HttpEquivName := Ascii("http-equiv")
  const ContentName := Ascii("content")
  const ContentTypeValue := Ascii("content-type")
  const CharsetPrefix := Ascii("charset=")

  /** Attribute `i` is the first one called `name`. */
  predicate FirstNamed(attrs: seq<Attr>, name: Bytes, i: nat)
  {
    i < |attrs| && attrs[i].name == name &&
    forall j | 0 <= j < i :: attrs[j].name != name
  }

  /** The first loop over a `meta` element's attributes: the value of the first `charset`. */
  function CharsetAttr(attrs: seq<Attr>): (r: Option<Bytes>)
    ensures r.None? <==> forall i | 0 <= i < |attrs| :: attrs[i].name != CharsetName
    ensures r.Some? ==> exists i: nat :: FirstNamed(attrs, CharsetName, i) && attrs[i].value == r.value
  {
    if attrs == [] then None
    else if attrs[0].name == CharsetName then
      assert FirstNamed(attrs, CharsetName, 0);
      Some(attrs[0].value)
    else
      var r := CharsetAttr(attrs[1..]);
      assert forall i | 1 <= i < |attrs| :: attrs[i] == attrs[1..][i - 1];
      if r.Some? then
        var i: nat :| FirstNamed(attrs[1..], CharsetName, i) && attrs[1..][i].value == r.value;
        assert FirstNamed(attrs, CharsetName, i + 1);
        r
      else r
  }

  /**
   * The text after the first `charset=` of a `content` value, found without
   * regard to ASCII case; the suffix is cut from the value as written.
   */
  function CharsetSuffix(content: Bytes): (r: Option<Bytes>)
    ensures r.None? <==> forall k: nat :: !OccursAt(ToAsciiLowercase(content), CharsetPrefix, k)
    ensures r.Some? ==>
      exists k: nat ::
        && OccursAt(ToAsciiLowercase(content), CharsetPrefix, k)
        && (forall j: nat | j < k :: !OccursAt(ToAsciiLowercase(content), CharsetPrefix, j))
        && r.value == content[k + |CharsetPrefix|..]
  {
    match Find(ToAsciiLowercase(content), CharsetPrefix)
    case None => None
    case Some(pos) => Some(content[pos + 8..])
  }

  predicate IsCharsetContent(a: Attr)
  {
    a.name == ContentName && CharsetSuffix(a.value).Some?
  }

  /** Attribute `i` is the first `content` attribute that names a charset. */
  predicate FirstCharsetContent(attrs: seq<Attr>, i: nat)
  {
    i < |attrs| && IsCharsetContent(attrs[i]) &&
    forall j | 0 <= j < i :: !IsCharsetContent(attrs[j])
  }

  /** The innermost loop: the first `content` attribute that names a charset decides. */
  function ContentCharset(attrs: seq<Attr>): (r: Option<Bytes>)
    ensures r.None? <==> forall i | 0 <= i < |attrs| :: !IsCharsetContent(attrs[i])
    ensures r.Some? ==> exists i: nat :: FirstCharsetContent(attrs, i) && r == CharsetSuffix(attrs[i].value)
  {
    if attrs == [] then None
    else if IsCharsetContent(attrs[0]) then
      assert FirstCharsetContent(attrs, 0);
      CharsetSuffix(attrs[0].value)
    else
      var r := ContentCharset(attrs[1..]);
      assert forall i | 1 <= i < |attrs| :: attrs[i] == attrs[1..][i - 1];
      if r.Some? then
        var i: nat :| FirstCharsetContent(attrs[1..], i) && r == CharsetSuffix(attrs[1..][i].value);
        assert FirstCharsetContent(attrs, i + 1);
        r
      else r
  }

  /** `http-equiv` whose value is `content-type` in any ASCII case. */
  predicate IsContentTypeEquiv(a: Attr)
  {
    a.name == HttpEquivName && ToAsciiLowercase(a.value) == ContentTypeValue
  }

  /**
   * The second loop: every `http-equiv` attribute of `rest` that announces
   * the content type runs the innermost loop over all the element's
   * attributes, `all`, and the first answer is returned. Since that loop
   * gives the same answer each time, only whether one such attribute
   * exists matters.
   */
  function HttpEquivCharset(rest: seq<Attr>, all: seq<Attr>): (r: Option<Bytes>)
    ensures r == if exists i | 0 <= i < |rest| :: IsContentTypeEquiv(rest[i]) then ContentCharset(all) else None
  {
    if rest == [] then None
    else
      assert forall i | 1 <= i < |rest| :: rest[i] == rest[1..][i - 1];
      if IsContentTypeEquiv(rest[0]) && ContentCharset(all).Some? then ContentCharset(all)
      else HttpEquivCharset(rest[1..], all)
  }

  /** What one node contributes to the search: only a `meta` element can name a charset. */
  function MetaCharset(data: NodeData): (r: Option<Bytes>)
    ensures r.Some? ==> data.Element? && data.name == MetaName
    ensures data.Element? && data.name == MetaName && CharsetAttr(data.attrs).Some? ==>
      r == CharsetAttr(data.attrs)
    ensures data.Element? && data.name == MetaName && CharsetAttr(data.attrs).None? ==>
      (r.Some? <==>
         (exists i | 0 <= i < |data.attrs| :: IsContentTypeEquiv(data.attrs[i])) &&
         (exists i | 0 <= i < |data.attrs| :: IsCharsetContent(data.attrs[i])))
    ensures (data.Element? && data.name == MetaName && CharsetAttr(data.attrs).None? &&
             exists i | 0 <= i < |data.attrs| :: IsContentTypeEquiv(data.attrs[i])) ==>
      r == ContentCharset(data.attrs)
  {
    match data
    case NonElement => None
    case Element(name, attrs) =>
      if name != MetaName then None
      else match CharsetAttr(attrs)
        case Some(charset) => Some(charset)
        case None => HttpEquivCharset(attrs, attrs)
  }

  /** `extract_charset`: the node itself, then each child's subtree in order. */
  function ExtractCharset(node: Node): Option<Bytes>
    decreases node, 1
  {
    match MetaCharset(node.data)
    case Some(charset) => Some(charset)
    case None => ExtractFromChildren(node.children)
  }

  function ExtractFromChildren(children: seq<Node>): Option<Bytes>
    decreases children, 0
  {
    if children == [] then None
    else match ExtractCharset(children[0])
      case Some(charset) => Some(charset)
      case None => ExtractFromChildren(children[1..])
  }

  // ---------------------------------------------------------------------
  // Reference definition: the first hint in document (pre-)order
  // ---------------------------------------------------------------------

  /** The nodes of a tree in pre-order: a node, then its children's subtrees left to right. */
  function Preorder(node: Node): seq<NodeData>
    decreases node, 1
  {
    [node.data] + PreorderAll(node.children)
  }

  function PreorderAll(children: seq<Node>): seq<NodeData>
    decreases children, 0
  {
    if children == [] then [] else Preorder(children[0]) + PreorderAll(children[1..])
  }

  /** Node `i` is the first in `nodes` that gives a hint. */
  predicate FirstHintAt(nodes: seq<NodeData>, i: nat)
  {
    i < |nodes| && MetaCharset(nodes[i]).Some? &&
    forall j | 0 <= j < i :: MetaCharset(nodes[j]).None?
  }

  /** The hint of the first node in `nodes` that gives one. */
  function FirstHint(nodes: seq<NodeData>): (r: Option<Bytes>)
    ensures r.None? <==> forall i | 0 <= i < |nodes| :: MetaCharset(nodes[i]).None?
    ensures r.Some? ==> exists i: nat :: FirstHintAt(nodes, i) && r == MetaCharset(nodes[i])
  {
    if nodes == [] then None
    else if MetaCharset(nodes[0]).Some? then
      assert FirstHintAt(nodes, 0);
      MetaCharset(nodes[0])
    else
      var r := FirstHint(nodes[1..]);
      assert forall i | 1 <= i < |nodes| :: nodes[i] == nodes[1..][i - 1];
      if r.Some? then
        var i: nat :| FirstHintAt(nodes[1..], i) && r == MetaCharset(nodes[1..][i]);
        assert FirstHintAt(nodes, i + 1);
        r
      else r
  }

  lemma {:induction false} FirstHintConcat(a: seq<NodeData>, b: seq<NodeData>)
    ensures FirstHint(a + b) == if FirstHint(a).Some? then FirstHint(a) else FirstHint(b)
    decreases |a|
  {
    if a != [] {
      assert (a + b)[0] == a[0];
      assert (a + b)[1..] == a[1..] + b;
      FirstHintConcat(a[1..], b);
    } else {
      assert a + b == b;
    }
  }

  /**
   * The search is depth first, in document order, and the first `meta`
   * that names a charset wins; one that does not lets the search go on.
   */
  lemma {:induction false} ExtractIsFirstInPreorder(node: Node)
    ensures ExtractCharset(node) == FirstHint(Preorder(node))
    decreases node, 1
  {
    ExtractFromChildrenIsFirst(node.children);
    FirstHintConcat([node.data], PreorderAll(node.children));
    assert ([node.data] + PreorderAll(node.children))[0] == node.data;
  }

  lemma {:induction false} ExtractFromChildrenIsFirst(children: seq<Node>)
    ensures ExtractFromChildren(children) == FirstHint(PreorderAll(children))
    decreases children, 0
  {
    if children != [] {
      ExtractIsFirstInPreorder(children[0]);
      ExtractFromChildrenIsFirst(children[1..]);
      FirstHintConcat(Preorder(children[0]), PreorderAll(children[1..]));
    }
  }

  /** `charset=` is found in any case, after the first 11 bytes, and the rest is kept as written. */
  lemma ShiftJisContentExample()
    ensures CharsetSuffix(Ascii("text/html; Charset=Shift_JIS")) == Some(Ascii("Shift_JIS"))
  {
    ShiftJisLowercase();
    ShiftJisFirstAt11();
    FindIsFirst(Ascii("text/html; charset=shift_jis"), CharsetPrefix, 11);
    ShiftJisSuffix();
  }

  lemma ShiftJisSuffix()
    ensures Ascii("text/html; Charset=Shift_JIS")[11 + |CharsetPrefix|..] == Ascii("Shift_JIS")
  {
    assert |CharsetPrefix| == 8;
  }

  lemma ShiftJisLowercase()
    ensures ToAsciiLowercase(Ascii("text/html; Charset=Shift_JIS")) == Ascii("text/html; charset=shift_jis")
  {
    var content, low := Ascii("text/html; Charset=Shift_JIS"), Ascii("text/html; charset=shift_jis");
    assert |content| == |low| == 28;
    assert forall k | 0 <= k < 28 :: LowerByte(content[k]) == low[k];
  }

  lemma ShiftJisFirstAt11()
    ensures OccursAt(Ascii("text/html; charset=shift_jis"), CharsetPrefix, 11)
    ensures forall j: nat | j < 11 :: !OccursAt(Ascii("text/html; charset=shift_jis"), CharsetPrefix, j)
  {
    var low := Ascii("text/html; charset=shift_jis");
    assert |low| == 28 && |CharsetPrefix| == 8;
    assert forall k | 0 <= k < 8 :: low[11 + k] == CharsetPrefix[k];
    assert low[11..19] == CharsetPrefix;
    forall j: nat | j < 11
      ensures !OccursAt(low, CharsetPrefix, j)
    {
      assert low[j + 7] != CharsetPrefix[7];
    }
  }

  /** A `meta` with neither `charset` nor `http-equiv` gives no hint. */
  lemma ViewportMetaExample()
    ensures MetaCharset(Element(MetaName, [Attr(Ascii("name"), Ascii("viewport"))])) == None
  {
    var attrs := [Attr(Ascii("name"), Ascii("viewport"))];
    assert Ascii("name")[0] != CharsetName[0] && Ascii("name")[0] != HttpEquivName[0];
    assert CharsetAttr(attrs) == None;
    assert !IsContentTypeEquiv(attrs[0]);
  }

  /**
   * A `meta` with an `http-equiv` announcing the content type, in any case,
   * followed by a `content` that names a charset, gives that charset.
   */
  lemma HttpEquivMeta(equiv: Bytes, content: Bytes)
    requires ToAsciiLowercase(equiv) == ContentTypeValue && CharsetSuffix(content).Some?
    ensures MetaCharset(Element(MetaName, [Attr(HttpEquivName, equiv), Attr(ContentName, content)]))
      == CharsetSuffix(content)
  {
    var attrs := [Attr(HttpEquivName, equiv), Attr(ContentName, content)];
    assert HttpEquivName[0] != CharsetName[0] && ContentName[1] != CharsetName[1];
    assert CharsetAttr(attrs) == None;
    assert IsContentTypeEquiv(attrs[0]);
    assert HttpEquivName[0] != ContentName[0];
    assert !IsCharsetContent(attrs[0]) && IsCharsetContent(attrs[1]);
  }

  /** A `meta` that names no charset is passed over and the search goes on to its siblings. */
  lemma NonMatchingMetaSkipped(parent: NodeData, first: NodeData, second: NodeData)
    requires MetaCharset(parent).None? && MetaCharset(first).None?
    ensures ExtractCharset(Node(parent, [Node(first, []), Node(second, [])])) == MetaCharset(second)
  {
    var children := [Node(first, []), Node(second, [])];
    assert ExtractCharset(children[0]) == None;
    assert children[1..] == [Node(second, [])];
    assert ExtractFromChildren(children[1..]) == ExtractCharset(Node(second, []));
  }

  // ---------------------------------------------------------------------
  // Choosing the decoder
  // ---------------------------------------------------------------------

  /** The parsed `Content-Type` header, reduced to its `charset` parameter. */
  datatype Mime = Mime(charset: Option<Bytes>)

  /** Decode with an encoding found for a label, or read the bytes as lossy UTF-8. */
  datatype Decoding<E> = WithEncoding(encoding: E) | Utf8Lossy

  /** The header's charset if it has one, otherwise the document's. */
  function CharsetHint(contentType: Option<Mime>, document: Node): (r: Option<Bytes>)
    ensures contentType.Some? && contentType.value.charset.Some? ==> r == contentType.value.charset
    ensures (contentType.None? || contentType.value.charset.None?) ==> r == FirstHint(Preorder(document))
  {
    ExtractIsFirstInPreorder(document);
    match contentType
    case Some(Mime(Some(charset))) => Some(charset)
    case _ => ExtractCharset(document)
  }

  /** The chain in `get_webpage`; `forLabel` is `Encoding::for_label`. */
  function ChooseDecoding<E>(contentType: Option<Mime>, document: Node, forLabel: Bytes -> Option<E>): (d: Decoding<E>)
    ensures d.Utf8Lossy? <==>
      CharsetHint(contentType, document).None? || forLabel(CharsetHint(contentType, document).value).None?
    ensures d.WithEncoding? ==> forLabel(CharsetHint(contentType, document).value) == Some(d.encoding)
  {
    match CharsetHint(contentType, document)
    case None => Utf8Lossy
    case Some(hint) =>
      match forLabel(hint)
      case None => Utf8Lossy
      case Some(encoding) => WithEncoding(encoding)
  }

  /**
   * A header charset is used alone: the document is not consulted, and an
   * unknown header label means lossy UTF-8 even if the markup names a known one.
   */
  lemma HeaderCharsetDecides<E>(charset: Bytes, document: Node, forLabel: Bytes -> Option<E>)
    ensures ChooseDecoding(Some(Mime(Some(charset))), document, forLabel) ==
      if forLabel(charset).Some? then WithEncoding(forLabel(charset).value) else Utf8Lossy
  {
  }

  /** Without a header charset the first `meta` hint of the document is looked up. */
  lemma MarkupConsultedWithoutHeaderCharset<E>(contentType: Option<Mime>, document: Node, forLabel: Bytes -> Option<E>)
    requires contentType.None? || contentType.value.charset.None?
    ensures var hint := FirstHint(Preorder(document));
      ChooseDecoding(contentType, document, forLabel) ==
        if hint.Some? && forLabel(hint.value).Some? then WithEncoding(forLabel(hint.value).value) else Utf8Lossy
  {
  }
}
