/** The XML trees the schema and WSDL parsers read: immutable element values, plus a cursor that
    remembers what every ancestor declares so that namespace prefixes and the inherited
    targetNamespace can be resolved the way Foundation's XMLElement resolves them through its parent
    chain. The scope functions over frames are shared with the mutable elements of module Dom. */
module Xml {
  import opened Wrappers
  import opened Text

  /** XML Schema namespace. */
  const NS_XS := "http://www.w3.org/2001/XMLSchema"
  /** WSDL 1.1 namespace. */
  const NS_WSDL := "http://schemas.xmlsoap.org/wsdl/"
  /** The WSDL SOAP 1.1 binding namespace. */
  const NS_SOAP := "http://schemas.xmlsoap.org/wsdl/soap/"
  /** The WSDL SOAP 1.2 binding namespace. */
  const NS_SOAP12 := "http://schemas.xmlsoap.org/wsdl/soap12/"
  /** The SOAP-over-HTTP transport URI of a soap:binding. */
  const SOAP_HTTP := "http://schemas.xmlsoap.org/soap/http"

  /** A namespace declaration; the prefix "" binds the default namespace. */
  datatype Namespace = Namespace(prefix: string, uri: string)

  /** What one element contributes to the scope of its descendants. */
  datatype Frame = Frame(namespaces: seq<Namespace>, attributes: map<string, string>)

  datatype Node = ElementNode(element: Element) | TextNode(text: string)

  /** An element: its namespace URI and local name (as the parser resolved them), the namespaces it
      declares, its attributes by name, and its children in document order. */
  datatype Element = Element(localName: string, uri: Option<string>, namespaces: seq<Namespace>,
                             attributes: map<string, string>, children: seq<Node>)

  /** An element together with the frames of its ancestors, nearest first (empty at the root). */
  datatype Cursor = Cursor(element: Element, ancestors: seq<Frame>)

  // ---------------------------------------------------------------- scope lookups over frames

  /** The URI bound to `prefix` in the nearest frame that declares it. */
  function LookupPrefix(frames: seq<Frame>, prefix: string): (r: Option<string>)
    ensures r.Some? ==> exists k, j :: 0 <= k < |frames| && 0 <= j < |frames[k].namespaces|
                                       && frames[k].namespaces[j] == Namespace(prefix, r.value)
  {
    if |frames| == 0 then None
    else
      match BindingFor(frames[0].namespaces, prefix)
      case Some(u) => Some(u)
      case None => LookupPrefix(frames[1..], prefix)
  }

  /** The URI of the first declaration of `prefix` in one frame. */
  function BindingFor(namespaces: seq<Namespace>, prefix: string): (r: Option<string>)
    ensures r.None? <==> forall j :: 0 <= j < |namespaces| ==> namespaces[j].prefix != prefix
    ensures r.Some? ==> exists j :: 0 <= j < |namespaces| && namespaces[j] == Namespace(prefix, r.value)
  {
    if |namespaces| == 0 then None
    else if namespaces[0].prefix == prefix then Some(namespaces[0].uri)
    else BindingFor(namespaces[1..], prefix)
  }

  /** A prefix bound to `uri` in the nearest frame that binds that URI. */
  function LookupUri(frames: seq<Frame>, uri: string): (r: Option<string>)
    ensures r.Some? ==> exists k, j :: 0 <= k < |frames| && 0 <= j < |frames[k].namespaces|
                                       && frames[k].namespaces[j] == Namespace(r.value, uri)
    ensures r.None? ==> forall k, j :: 0 <= k < |frames| && 0 <= j < |frames[k].namespaces|
                                       ==> frames[k].namespaces[j].uri != uri
  {
    if |frames| == 0 then None
    else
      match PrefixFor(frames[0].namespaces, uri)
      case Some(p) => Some(p)
      case None =>
        var r := LookupUri(frames[1..], uri);
        assert forall k :: 1 <= k < |frames| ==> frames[k] == frames[1..][k - 1];
        r
  }

  function PrefixFor(namespaces: seq<Namespace>, uri: string): (r: Option<string>)
    ensures r.None? <==> forall j :: 0 <= j < |namespaces| ==> namespaces[j].uri != uri
    ensures r.Some? ==> exists j :: 0 <= j < |namespaces| && namespaces[j] == Namespace(r.value, uri)
  {
    if |namespaces| == 0 then None
    else if namespaces[0].uri == uri then Some(namespaces[0].prefix)
    else PrefixFor(namespaces[1..], uri)
  }

  /** The targetNamespace attribute of the nearest frame that has one. */
  function ScopeTargetNamespace(frames: seq<Frame>): (r: Option<string>)
    ensures r.None? <==> forall k :: 0 <= k < |frames| ==> "targetNamespace" !in frames[k].attributes
    ensures |frames| > 0 && "targetNamespace" in frames[0].attributes
            ==> r == Some(frames[0].attributes["targetNamespace"])
    ensures |frames| > 0 && "targetNamespace" !in frames[0].attributes
            ==> r == ScopeTargetNamespace(frames[1..])
  {
    if |frames| == 0 then None
    else if "targetNamespace" in frames[0].attributes then Some(frames[0].attributes["targetNamespace"])
    else
      var r := ScopeTargetNamespace(frames[1..]);
      assert forall k :: 1 <= k < |frames| ==> frames[k] == frames[1..][k - 1];
      r
  }

  // ---------------------------------------------------------------- cursors

  function FrameOf(e: Element): Frame {
    Frame(e.namespaces, e.attributes)
  }

  /** The element's own frame, then those of its ancestors. */
  function Scope(c: Cursor): seq<Frame> {
    [FrameOf(c.element)] + c.ancestors
  }

  /** `attribute(forLocalName:uri:nil)` / `attribute(forName:)` on an unprefixed attribute name. */
  function Attribute(c: Cursor, name: string): Option<string> {
    if name in c.element.attributes then Some(c.element.attributes[name]) else None
  }

  /** `targetNamespace`: the element's own attribute, else the nearest ancestor's, else none. */
  function TargetNamespace(c: Cursor): (r: Option<string>)
    ensures "targetNamespace" in c.element.attributes ==> r == Some(c.element.attributes["targetNamespace"])
    ensures "targetNamespace" !in c.element.attributes ==> r == ScopeTargetNamespace(c.ancestors)
  {
    ScopeTargetNamespace(Scope(c))
  }

  /** `resolveNamespace(forName:)`: the URI bound to the prefix of a qualified name (the default
      namespace for a name without a prefix). */
  function ResolveNamespace(c: Cursor, name: string): Option<string> {
    LookupPrefix(Scope(c), PrefixOf(name))
  }

  /** `elements(forLocalName:uri:)`: the element children with that local name and namespace, in order. */
  function ElementsNamed(c: Cursor, localName: string, uri: string): seq<Cursor> {
    Matching(c.element.children, Scope(c), localName, uri)
  }

  predicate IsNamed(n: Node, localName: string, uri: string) {
    n.ElementNode? && n.element.localName == localName && n.element.uri == Some(uri)
  }

  function Matching(nodes: seq<Node>, frames: seq<Frame>, localName: string, uri: string): (r: seq<Cursor>)
    ensures forall k :: 0 <= k < |r| ==>
              ElementNode(r[k].element) in nodes && r[k].ancestors == frames
              && r[k].element.localName == localName && r[k].element.uri == Some(uri)
    ensures |r| == 0 <==> forall i :: 0 <= i < |nodes| ==> !IsNamed(nodes[i], localName, uri)
    ensures |nodes| > 0 && IsNamed(nodes[0], localName, uri) ==> |r| > 0 && r[0] == Cursor(nodes[0].element, frames)
  {
    if |nodes| == 0 then []
    else
      var rest := Matching(nodes[1..], frames, localName, uri);
      assert forall i :: 1 <= i < |nodes| ==> nodes[i] == nodes[1..][i - 1];
      if IsNamed(nodes[0], localName, uri) then [Cursor(nodes[0].element, frames)] + rest else rest
  }

  /** Matching distributes over concatenation: the matches of `a + b` are those of `a`, then those of `b`. */
  lemma {:induction false} MatchingAppend(a: seq<Node>, b: seq<Node>, frames: seq<Frame>, localName: string, uri: string)
    ensures Matching(a + b, frames, localName, uri) == Matching(a, frames, localName, uri) + Matching(b, frames, localName, uri)
  {
    if |a| > 0 {
      assert (a + b)[1..] == a[1..] + b;
      MatchingAppend(a[1..], b, frames, localName, uri);
    } else {
      assert a + b == b;
    }
  }

  /** Children added after an element that already has a match do not change its first match. */
  lemma FirstNamedIgnoresLaterChildren(c: Cursor, extra: seq<Node>, localName: string, uri: string)
    requires FirstNamed(c, localName, uri).Some?
    ensures FirstNamed(Cursor(c.element.(children := c.element.children + extra), c.ancestors), localName, uri)
            == FirstNamed(c, localName, uri)
  {
    var d := Cursor(c.element.(children := c.element.children + extra), c.ancestors);
    assert Scope(d) == Scope(c);
    MatchingAppend(c.element.children, extra, Scope(c), localName, uri);
  }

  /** `elements(forLocalName:uri:).first`. */
  function FirstNamed(c: Cursor, localName: string, uri: string): (r: Option<Cursor>)
    ensures r.Some? ==> ElementNode(r.value.element) in c.element.children
                        && r.value.element.localName == localName && r.value.element.uri == Some(uri)
                        && r.value.ancestors == Scope(c)
    ensures r.None? <==> forall i :: 0 <= i < |c.element.children| ==> !IsNamed(c.element.children[i], localName, uri)
  {
    var all := ElementsNamed(c, localName, uri);
    if |all| == 0 then None else Some(all[0])
  }

  /** The concatenated text children (XMLNode.stringValue of an element with only text content). */
  function StringValue(c: Cursor): string {
    TextOf(c.element.children)
  }

  function TextOf(nodes: seq<Node>): string {
    if |nodes| == 0 then ""
    else (if nodes[0].TextNode? then nodes[0].text else "") + TextOf(nodes[1..])
  }

  /** The element children of a cursor, each with the cursor's scope as its ancestors. */
  function ChildElements(c: Cursor): (r: seq<Cursor>)
    ensures forall k :: 0 <= k < |r| ==> ElementNode(r[k].element) in c.element.children && r[k].ancestors == Scope(c)
  {
    ElementChildren(c.element.children, Scope(c))
  }

  function ElementChildren(nodes: seq<Node>, frames: seq<Frame>): (r: seq<Cursor>)
    ensures forall k :: 0 <= k < |r| ==> ElementNode(r[k].element) in nodes && r[k].ancestors == frames
  {
    if |nodes| == 0 then []
    else
      var rest := ElementChildren(nodes[1..], frames);
      (if nodes[0].ElementNode? then [Cursor(nodes[0].element, frames)] else []) + rest
  }

  /** `p` holds of the element and of every element below it. */
  predicate Everywhere(e: Element, p: Element -> bool)
    decreases e
  {
    p(e) && forall i :: 0 <= i < |e.children| ==> e.children[i].ElementNode? ==> Everywhere(e.children[i].element, p)
  }

  lemma EverywhereBelow(e: Element, child: Element, p: Element -> bool)
    requires Everywhere(e, p) && ElementNode(child) in e.children
    ensures Everywhere(child, p)
  {
    var i :| 0 <= i < |e.children| && e.children[i] == ElementNode(child);
  }
}
