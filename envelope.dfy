/** SOAP envelopes as Lark builds and reads them (Sources/Lark/Envelope.swift): a document whose
    root `soap:Envelope` declares the soap and xsi prefixes and holds a `soap:Body`, and a header
    that is created on first use. */
module LarkEnvelope {
  import opened Wrappers
  import opened Text
  import Xml
  import opened Dom
  import opened QualifiedNames
  import opened Serialization

  const NS_SOAP_ENVELOPE: string := "http://schemas.xmlsoap.org/soap/envelope/"
  const NS_XSI: string := "http://www.w3.org/2001/XMLSchema-instance"

  /** The struct's two constants: the document and its body element. */
  datatype Envelope = Envelope(document: XMLDocument, body: XMLElement)

  /** "soap:<localName>" is the local name in the envelope namespace. */
  lemma SoapNameSplits(localName: string)
    ensures LocalPartOf("soap:" + localName) == localName && PrefixOf("soap:" + localName) == "soap"
  {
    QualifiedTextSplits("soap", localName);
    assert QualifiedText("soap", localName) == "soap:" + localName;
  }

  lemma BodyNameSplits()
    ensures LocalPartOf("soap:Body") == "Body" && PrefixOf("soap:Body") == "soap"
  {
    SoapNameSplits("Body");
  }

  lemma HeaderNameSplits()
    ensures LocalPartOf("soap:Header") == "Header" && PrefixOf("soap:Header") == "soap"
  {
    SoapNameSplits("Header");
  }

  /** `init()`: a fresh document, version 1.0, UTF-8 and standalone, whose root declares soap and
      xsi and has the body as its only child. The body's prefix resolves to the envelope
      namespace, and it is the body `init(document:)` finds again. */
  method New() returns (e: Envelope)
    ensures fresh(e.document) && fresh(e.body) && e.document.rootElement.Some? && fresh(e.document.rootElement.value)
    ensures var root := e.document.rootElement.value;
            root.name == "soap:Envelope" && root.uri == Some(NS_SOAP_ENVELOPE) && root.ancestors == []
            && root.namespaces == [Xml.Namespace("soap", NS_SOAP_ENVELOPE), Xml.Namespace("xsi", NS_XSI)]
            && root.children == [e.body]
            && ElementsNamed(root.children, "Body", NS_SOAP_ENVELOPE) == [e.body]
            && e.body.ancestors == root.Scope()
    ensures e.body.name == "soap:Body" && e.body.uri == Some(NS_SOAP_ENVELOPE) && e.body.children == []
    ensures e.body.ResolveNamespace(e.body.name) == Some(NS_SOAP_ENVELOPE)
    ensures e.document.version == Some("1.0") && e.document.characterEncoding == Some("utf-8") && e.document.isStandalone
  {
    var root := new XMLElement("soap:Envelope", Some(NS_SOAP_ENVELOPE));
    var soap, xsi := Xml.Namespace("soap", NS_SOAP_ENVELOPE), Xml.Namespace("xsi", NS_XSI);
    root.AddNamespace(soap);
    assert root.namespaces == [soap];
    root.AddNamespace(xsi);
    assert root.namespaces == [soap, xsi] by {
      assert Rebind([soap], xsi) == [soap] + Rebind([], xsi);
    }
    var body := new XMLElement("soap:Body", Some(NS_SOAP_ENVELOPE));
    root.AddChild(body);
    var document := new XMLDocument(root);
    document.SetDeclaration("1.0", "utf-8", true);
    e := Envelope(document, body);
    BodyNameSplits();
    assert IsNamed(body, "Body", NS_SOAP_ENVELOPE);
    assert ElementsNamed([body], "Body", NS_SOAP_ENVELOPE) == [body];
    BodyResolvesSoap(body.Scope(), root.Scope());
  }

  lemma BodyResolvesSoap(scope: seq<Xml.Frame>, rootScope: seq<Xml.Frame>)
    requires scope == [Xml.Frame([], map[])] + rootScope && |rootScope| > 0
    requires rootScope[0].namespaces == [Xml.Namespace("soap", NS_SOAP_ENVELOPE), Xml.Namespace("xsi", NS_XSI)]
    ensures Xml.LookupPrefix(scope, PrefixOf("soap:Body")) == Some(NS_SOAP_ENVELOPE)
  {
    BodyNameSplits();
    assert scope[1..] == rootScope;
  }

  /** `init(document:)`: the first "Body" of the envelope namespace among the root's children, or
      `noElementWithName` of that name when there is no root or no such child. */
  method FromDocument(document: XMLDocument) returns (r: Result<Envelope, DeserializationError>)
    ensures document.rootElement.None? ==> r == Err(NoElementWithName(QualifiedName(NS_SOAP_ENVELOPE, "Body")))
    ensures document.rootElement.Some? ==>
              match FirstElementNamed(document.rootElement.value.children, "Body", NS_SOAP_ENVELOPE)
              case Some(body) => r == Ok(Envelope(document, body))
              case None => r == Err(NoElementWithName(QualifiedName(NS_SOAP_ENVELOPE, "Body")))
  {
    if document.rootElement.None? {
      return Err(NoElementWithName(QualifiedName(NS_SOAP_ENVELOPE, "Body")));
    }
    var body := FirstElementNamed(document.rootElement.value.children, "Body", NS_SOAP_ENVELOPE);
    if body.None? {
      return Err(NoElementWithName(QualifiedName(NS_SOAP_ENVELOPE, "Body")));
    }
    r := Ok(Envelope(document, body.value));
  }

  /** The `header` getter: the root's first "Header" of the envelope namespace, or else a new
      `soap:Header` inserted as the root's first child. Either way the header returned is then
      the first one, so asking again gives the same element and adds nothing. */
  method Header(e: Envelope) returns (header: XMLElement)
    requires e.document.rootElement.Some?
    modifies e.document.rootElement.value
    ensures var root := e.document.rootElement.value;
            FirstElementNamed(root.children, "Header", NS_SOAP_ENVELOPE) == Some(header)
            && root.name == old(root.name) && root.uri == old(root.uri) && root.namespaces == old(root.namespaces)
            && root.attributes == old(root.attributes) && root.stringValue == old(root.stringValue)
            && root.ancestors == old(root.ancestors)
    ensures var root := e.document.rootElement.value;
            old(FirstElementNamed(root.children, "Header", NS_SOAP_ENVELOPE)).Some? ==>
              header == old(FirstElementNamed(root.children, "Header", NS_SOAP_ENVELOPE)).value
              && root.children == old(root.children)
    ensures var root := e.document.rootElement.value;
            old(FirstElementNamed(root.children, "Header", NS_SOAP_ENVELOPE)).None? ==>
              fresh(header) && header.name == "soap:Header" && header.uri == Some(NS_SOAP_ENVELOPE)
              && header.children == [] && root.children == [header] + old(root.children)
  {
    var root := e.document.rootElement.value;
    var existing := FirstElementNamed(root.children, "Header", NS_SOAP_ENVELOPE);
    if existing.Some? {
      return existing.value;
    }
    header := new XMLElement("soap:Header", Some(NS_SOAP_ENVELOPE));
    root.InsertChild(header, 0);
    HeaderNameSplits();
    assert IsNamed(header, "Header", NS_SOAP_ENVELOPE);
    assert root.children == [header] + old(root.children);
  }

  /** `Header.serialize()`: an element named by the header's local name in its URI, which it also
      declares as the default namespace through an "xmlns" attribute; the value's own
      `serialize(_:)` is given as the text it writes. */
  method SerializeHeader(name: QualifiedName, valueText: string) returns (node: XMLElement)
    ensures fresh(node)
    ensures node.name == name.localName && node.uri == Some(name.uri)
    ensures node.attributes == map["xmlns" := name.uri] && node.stringValue == Some(valueText)
    ensures node.namespaces == [] && node.children == [] && node.ancestors == []
  {
    node := new XMLElement(name.localName, Some(name.uri));
    node.SetAttribute("xmlns", name.uri);
    node.SetStringValue(Some(valueText));
  }
}
