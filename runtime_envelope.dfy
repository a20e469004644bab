/** LarkRuntime's envelope (Sources/LarkRuntime/Envelope.swift): a version 1.1 document whose root
    declares only the soap prefix; reading a document checks nothing, and the body is looked up
    on each access, which traps when there is none. */
module RuntimeEnvelope {
  import opened Wrappers
  import opened Text
  import Xml
  import opened Dom
  import LarkEnvelope

  const NS_SOAP: string := "http://schemas.xmlsoap.org/soap/envelope/"

  datatype Envelope = Envelope(document: XMLDocument)

  /** `init()`: the root `soap:Envelope` declaring soap, with a `soap:Body` as its only child. */
  method New() returns (e: Envelope)
    ensures fresh(e.document) && e.document.rootElement.Some? && fresh(e.document.rootElement.value)
    ensures var root := e.document.rootElement.value;
            root.name == "soap:Envelope" && root.uri == Some(NS_SOAP) && root.ancestors == []
            && root.namespaces == [Xml.Namespace("soap", NS_SOAP)]
            && |root.children| == 1 && fresh(root.children[0])
            && root.children[0].name == "soap:Body" && root.children[0].uri == Some(NS_SOAP)
            && root.children[0].children == []
            && ElementsNamed(root.children, "Body", NS_SOAP) == root.children
    ensures e.document.version == Some("1.1") && e.document.characterEncoding == Some("utf-8") && e.document.isStandalone
  {
    var root := new XMLElement("soap:Envelope", Some(NS_SOAP));
    root.AddNamespace(Xml.Namespace("soap", NS_SOAP));
    var body := new XMLElement("soap:Body", Some(NS_SOAP));
    root.AddChild(body);
    var document := new XMLDocument(root);
    document.SetDeclaration("1.1", "utf-8", true);
    e := Envelope(document);
    LarkEnvelope.BodyNameSplits();
    assert IsNamed(body, "Body", NS_SOAP);
    assert ElementsNamed([body], "Body", NS_SOAP) == [body];
  }

  /** The `body` getter: the first "Body" of the envelope namespace among the root's children; the
      forced unwraps demand a root and such a child. */
  function Body(e: Envelope): (body: XMLElement)
    reads e.document, if e.document.rootElement.Some? then {e.document.rootElement.value} else {}
    reads if e.document.rootElement.Some? then set c | c in e.document.rootElement.value.children else {}
    requires e.document.rootElement.Some?
    requires FirstElementNamed(e.document.rootElement.value.children, "Body", NS_SOAP).Some?
    ensures body in e.document.rootElement.value.children && IsNamed(body, "Body", NS_SOAP)
    ensures forall i :: 0 <= i < |e.document.rootElement.value.children|
                        && e.document.rootElement.value.children[i] != body
                        && IsNamed(e.document.rootElement.value.children[i], "Body", NS_SOAP) ==>
              exists j :: 0 <= j < i && e.document.rootElement.value.children[j] == body
  {
    var children := e.document.rootElement.value.children;
    FirstIsEarliest(children, "Body", NS_SOAP);
    FirstElementNamed(children, "Body", NS_SOAP).value
  }

  /** The first element so named comes before every other one. */
  lemma {:induction false} FirstIsEarliest(nodes: seq<XMLElement>, localName: string, namespaceUri: string)
    requires FirstElementNamed(nodes, localName, namespaceUri).Some?
    ensures forall i :: 0 <= i < |nodes| && nodes[i] != FirstElementNamed(nodes, localName, namespaceUri).value
                        && IsNamed(nodes[i], localName, namespaceUri) ==>
              exists j :: 0 <= j < i && nodes[j] == FirstElementNamed(nodes, localName, namespaceUri).value
  {
    var first := FirstElementNamed(nodes, localName, namespaceUri).value;
    if !IsNamed(nodes[0], localName, namespaceUri) {
      FirstElementNamedSkips([nodes[0]], nodes[1..], localName, namespaceUri);
      assert [nodes[0]] + nodes[1..] == nodes;
      FirstIsEarliest(nodes[1..], localName, namespaceUri);
      forall i | 0 <= i < |nodes| && nodes[i] != first && IsNamed(nodes[i], localName, namespaceUri)
        ensures exists j :: 0 <= j < i && nodes[j] == first
      {
        assert nodes[1..][i - 1] == nodes[i];
        var j :| 0 <= j < i - 1 && nodes[1..][j] == first;
        assert nodes[j + 1] == first;
      }
    }
  }
}
