/** The first WSDL reader (`WSDL`): the same messages, port types, bindings and services as the later
    reader, but with prefix-only qualified names, no skipping (an unsupported operation or port
    address fails the whole document), only the first inline schema, and an import worklist that
    records no namespaces. */
module LegacyWsdl {
  import opened Wrappers
  import opened QualifiedNames
  import opened ParseErrors
  import opened Collections
  import Xml
  import XS = XmlSchema
  import Xsd = LegacyXsd
  import WSD = WebServiceDescription

  const NS_WSDL := Xml.NS_WSDL
  const NS_XSD := Xml.NS_XS
  const NS_SOAP := Xml.NS_SOAP
  const NS_SOAP12 := Xml.NS_SOAP12

  /** A node of a schema as the first schema reader hands it over: an import with its location, or
      any other node. */
  datatype XsdNode = ImportNode(schemaLocation: string) | OtherNode(element: Xsd.Element)

  /** `Message.Part`: the element is required here. */
  datatype Part = Part(name: QualifiedName, element: QualifiedName)

  datatype Message = Message(name: QualifiedName, parts: seq<Part>)

  datatype Wsdl = Wsdl(schema: seq<XsdNode>, messages: seq<Message>, portTypes: seq<WSD.PortType>,
                       bindings: seq<WSD.Binding>, services: seq<WSD.Service>)

  /** What the reader gets from outside: `resolve(s, base)` is `URL(string: s, relativeTo: base)`,
      `readXsd` is `XSD(deserialize:)` on an inline schema element, and `documents` holds, for each
      URL that can be downloaded, what `parseXSD(contentsOf:)` gives; any other URL fails. */
  datatype Loader = Loader(resolve: (string, Option<string>) -> Option<string>,
                           readXsd: Xml.Cursor -> Result<seq<XsdNode>, Error>,
                           documents: map<string, Result<seq<XsdNode>, Error>>)

  /** The text of an attribute read as a prefixed qualified name in the element's scope. */
  function PrefixedAttribute(c: Xml.Cursor, attribute: string): (r: Result<QualifiedName, Error>)
    requires attribute in c.element.attributes
    ensures r.Ok? <==> FromPrefixedType(c.element.attributes[attribute], Xml.Scope(c)).Ok?
    ensures r.Ok? ==> r.value == FromPrefixedType(c.element.attributes[attribute], Xml.Scope(c)).value
    ensures ':' !in c.element.attributes[attribute] ==> r == Err(QNameFailure(InvalidNamespacePrefix))
  {
    XS.QName(FromPrefixedType(c.element.attributes[attribute], Xml.Scope(c)))
  }

  // ---------------------------------------------------------------- messages and port types

  predicate PartWellFormed(c: Xml.Cursor) {
    WSD.HasName(c) && "element" in c.element.attributes
  }

  predicate MessageWellFormed(c: Xml.Cursor) {
    WSD.HasName(c) && forall p :: p in Xml.ElementsNamed(c, "part", NS_WSDL) ==> PartWellFormed(p)
  }

  /** `Message.Part(deserialize:)`: the name, and the @element, which must carry a prefix. */
  function ParsePart(c: Xml.Cursor): (r: Result<Part, Error>)
    requires PartWellFormed(c)
    ensures r.Ok? <==> WSD.NameOf(c).Ok? && PrefixedAttribute(c, "element").Ok?
    ensures r.Ok? ==> Ok(r.value.name) == WSD.NameOf(c) && Ok(r.value.element) == PrefixedAttribute(c, "element")
  {
    var name :- WSD.NameOf(c);
    var element :- PrefixedAttribute(c, "element");
    Ok(Part(name, element))
  }

  /** `Message(deserialize:)`: the name, then one part per wsdl:part, in order. */
  function ParseMessage(c: Xml.Cursor): (r: Result<Message, Error>)
    requires MessageWellFormed(c)
    ensures r.Ok? ==> Ok(r.value.name) == WSD.NameOf(c)
    ensures r.Ok? ==> Ok(r.value.parts) == MapAll(Xml.ElementsNamed(c, "part", NS_WSDL), ParsePart)
    ensures WSD.NameOf(c).Ok? ==> (r.Ok? <==> MapAll(Xml.ElementsNamed(c, "part", NS_WSDL), ParsePart).Ok?)
  {
    var name :- WSD.NameOf(c);
    var parts :- MapAll(Xml.ElementsNamed(c, "part", NS_WSDL), ParsePart);
    Ok(Message(name, parts))
  }

  predicate PortTypeWellFormed(c: Xml.Cursor) {
    WSD.HasName(c) && forall o :: o in Xml.ElementsNamed(c, "operation", NS_WSDL) ==> WSD.PortOperationWellFormed(o)
  }

  /** `PortType.Operation(deserialize:)`: as in the later reader, with prefixed message names. */
  function ParsePortOperation(c: Xml.Cursor): (r: Result<WSD.PortOperation, Error>)
    requires WSD.PortOperationWellFormed(c)
    ensures r.Ok? ==> Ok(r.value.name) == WSD.NameOf(c) && r.value.documentation == WSD.Documentation(c)
    ensures r.Ok? ==> Ok(r.value.inputMessage) == XS.QName(FromPrefixedType(WSD.MessageAttribute(c, "input"), Xml.Scope(c)))
    ensures r.Ok? ==> Ok(r.value.outputMessage) == XS.QName(FromPrefixedType(WSD.MessageAttribute(c, "output"), Xml.Scope(c)))
    ensures WSD.NameOf(c).Ok? && ':' !in WSD.MessageAttribute(c, "input") ==> r == Err(QNameFailure(InvalidNamespacePrefix))
    ensures WSD.NameOf(c).Err? ==> r == Err(WSD.NameOf(c).error)
    ensures WSD.NameOf(c).Ok? ==>
              var input := XS.QName(FromPrefixedType(WSD.MessageAttribute(c, "input"), Xml.Scope(c)));
              var output := XS.QName(FromPrefixedType(WSD.MessageAttribute(c, "output"), Xml.Scope(c)));
              && (r.Ok? <==> input.Ok? && output.Ok?)
              && (input.Err? ==> r == Err(input.error))
              && (input.Ok? && output.Err? ==> r == Err(output.error))
  {
    var name :- WSD.NameOf(c);
    var input :- XS.QName(FromPrefixedType(WSD.MessageAttribute(c, "input"), Xml.Scope(c)));
    var output :- XS.QName(FromPrefixedType(WSD.MessageAttribute(c, "output"), Xml.Scope(c)));
    Ok(WSD.PortOperation(name, WSD.Documentation(c), input, output))
  }

  function ParsePortType(c: Xml.Cursor): (r: Result<WSD.PortType, Error>)
    requires PortTypeWellFormed(c)
    ensures r.Ok? ==> Ok(r.value.name) == WSD.NameOf(c)
    ensures r.Ok? ==> Ok(r.value.operations) == MapAll(Xml.ElementsNamed(c, "operation", NS_WSDL), ParsePortOperation)
    ensures WSD.NameOf(c).Err? ==> r == Err(WSD.NameOf(c).error)
    ensures WSD.NameOf(c).Ok? ==>
              XS.Wraps(r, MapAll(Xml.ElementsNamed(c, "operation", NS_WSDL), ParsePortOperation),
                       (operations: seq<WSD.PortOperation>) => WSD.PortType(WSD.NameOf(c).value, operations))
  {
    var name :- WSD.NameOf(c);
    var operations :- MapAll(Xml.ElementsNamed(c, "operation", NS_WSDL), ParsePortOperation);
    Ok(WSD.PortType(name, operations))
  }

  // ---------------------------------------------------------------- bindings

  /** The soap body of an input or output, if it has one, carries a @use of literal or encoded. */
  predicate BodyWellFormed(c: Xml.Cursor) {
    (Xml.FirstNamed(c, "body", NS_SOAP).Some? || Xml.FirstNamed(c, "body", NS_SOAP12).Some?) ==> WSD.MessageUse(c).Some?
  }

  /** What `Binding.Operation(deserialize:)` force-unwraps: the name, the soapAction and a valid
      style of the chosen soap operation, and a valid use on each soap body it reads. */
  predicate BindingOperationWellFormed(c: Xml.Cursor) {
    && WSD.HasName(c)
    && (WSD.SoapOperation(c).Some? ==>
          "soapAction" in WSD.SoapOperation(c).value.element.attributes
          && WSD.StyleOf(Xml.Attribute(WSD.SoapOperation(c).value, "style")).Some?)
    && (Xml.FirstNamed(c, "input", NS_WSDL).Some? ==> BodyWellFormed(Xml.FirstNamed(c, "input", NS_WSDL).value))
    && (Xml.FirstNamed(c, "output", NS_WSDL).Some? ==> BodyWellFormed(Xml.FirstNamed(c, "output", NS_WSDL).value))
  }

  /** `Binding.Operation(deserialize:)`: an operation that is neither soap nor soap12 is
      unsupported; a missing input or output, or one without a soap body, is incomplete. */
  function ParseBindingOperation(web: WSD.Web, c: Xml.Cursor): (r: Result<WSD.BindingOperation, Error>)
    requires BindingOperationWellFormed(c)
    ensures WSD.NameOf(c).Ok? && WSD.SoapOperation(c).None? ==> r == Err(LegacyFailure(LegacyParseError.UnsupportedOperation))
    ensures WSD.NameOf(c).Ok? && WSD.SoapOperation(c).Some? ==>
              (r == Err(LegacyFailure(BindingOperationIncomplete)) <==>
                 Xml.FirstNamed(c, "input", NS_WSDL).None? || WSD.MessageUse(Xml.FirstNamed(c, "input", NS_WSDL).value).None?
                 || Xml.FirstNamed(c, "output", NS_WSDL).None? || WSD.MessageUse(Xml.FirstNamed(c, "output", NS_WSDL).value).None?)
    ensures r.Ok? <==> WSD.NameOf(c).Ok? && WSD.SoapOperation(c).Some?
                       && Xml.FirstNamed(c, "input", NS_WSDL).Some? && WSD.MessageUse(Xml.FirstNamed(c, "input", NS_WSDL).value).Some?
                       && Xml.FirstNamed(c, "output", NS_WSDL).Some? && WSD.MessageUse(Xml.FirstNamed(c, "output", NS_WSDL).value).Some?
    ensures r.Ok? ==>
      && Ok(r.value.name) == WSD.NameOf(c)
      && r.value.action == web.resolve(WSD.SoapOperation(c).value.element.attributes["soapAction"], None)
      && Some(r.value.style) == WSD.StyleOf(Xml.Attribute(WSD.SoapOperation(c).value, "style"))
      && Some(r.value.input) == WSD.MessageUse(Xml.FirstNamed(c, "input", NS_WSDL).value)
      && Some(r.value.output) == WSD.MessageUse(Xml.FirstNamed(c, "output", NS_WSDL).value)
  {
    var name :- WSD.NameOf(c);
    match WSD.SoapOperation(c)
    case None => Err(LegacyFailure(LegacyParseError.UnsupportedOperation))
    case Some(operation) =>
      var action := web.resolve(operation.element.attributes["soapAction"], None);
      var style := WSD.StyleOf(Xml.Attribute(operation, "style")).value;
      match Xml.FirstNamed(c, "input", NS_WSDL)
      case None => Err(LegacyFailure(BindingOperationIncomplete))
      case Some(input) =>
        match WSD.MessageUse(input)
        case None => Err(LegacyFailure(BindingOperationIncomplete))
        case Some(inputUse) =>
          match Xml.FirstNamed(c, "output", NS_WSDL)
          case None => Err(LegacyFailure(BindingOperationIncomplete))
          case Some(output) =>
            match WSD.MessageUse(output)
            case None => Err(LegacyFailure(BindingOperationIncomplete))
            case Some(outputUse) => Ok(WSD.BindingOperation(name, action, style, inputUse, outputUse))
  }

  predicate BindingWellFormed(c: Xml.Cursor) {
    WSD.HasName(c) && "type" in c.element.attributes
    && forall o :: o in Xml.ElementsNamed(c, "operation", NS_WSDL) ==> BindingOperationWellFormed(o)
  }

  /** `Binding(deserialize:)`: the name, the prefixed port type, and every operation; one
      unsupported operation fails the binding. */
  function ParseBinding(web: WSD.Web, c: Xml.Cursor): (r: Result<WSD.Binding, Error>)
    requires BindingWellFormed(c)
    ensures r.Ok? ==> Ok(r.value.name) == WSD.NameOf(c) && Ok(r.value.type_) == PrefixedAttribute(c, "type")
    ensures WSD.NameOf(c).Ok? && PrefixedAttribute(c, "type").Ok? ==>
              (r.Ok? <==> ParseOperations(web, Xml.ElementsNamed(c, "operation", NS_WSDL)).Ok?)
    ensures r.Ok? ==> Ok(r.value.operations) == ParseOperations(web, Xml.ElementsNamed(c, "operation", NS_WSDL))
  {
    var name :- WSD.NameOf(c);
    var type_ :- PrefixedAttribute(c, "type");
    var operations :- ParseOperations(web, Xml.ElementsNamed(c, "operation", NS_WSDL));
    Ok(WSD.Binding(name, type_, operations))
  }

  /** `try operations.map(Operation.init(deserialize:))`: every operation parsed, in order, and
      only when every one of them is a soap or soap12 operation. */
  function ParseOperations(web: WSD.Web, os: seq<Xml.Cursor>): (r: Result<seq<WSD.BindingOperation>, Error>)
    requires forall o :: o in os ==> BindingOperationWellFormed(o)
    ensures r.Ok? <==> forall i :: 0 <= i < |os| ==> ParseBindingOperation(web, os[i]).Ok?
    ensures r.Ok? ==> |r.value| == |os| && forall i :: 0 <= i < |os| ==> Ok(r.value[i]) == ParseBindingOperation(web, os[i])
    ensures r.Ok? ==> forall i :: 0 <= i < |os| ==> WSD.SoapOperation(os[i]).Some?
    ensures r.Err? ==> exists i :: 0 <= i < |os| && ParseBindingOperation(web, os[i]) == Err(r.error)
                         && forall j :: 0 <= j < i ==> ParseBindingOperation(web, os[j]).Ok?
  {
    MapAll(os, (o: Xml.Cursor) requires BindingOperationWellFormed(o) => ParseBindingOperation(web, o))
  }

  // ---------------------------------------------------------------- services

  predicate ServiceWellFormed(c: Xml.Cursor) {
    WSD.HasName(c) && forall p :: p in Xml.ElementsNamed(c, "port", NS_WSDL) ==> WSD.PortWellFormed(p)
  }

  /** `Service.Port(deserialize:)`: a soap address, else a soap12 address; with neither the port
      address is unsupported. */
  function ParsePort(c: Xml.Cursor): (r: Result<WSD.Port, Error>)
    requires WSD.PortWellFormed(c)
    ensures WSD.NameOf(c).Ok? && PrefixedAttribute(c, "binding").Ok? && WSD.AddressElement(c).None? ==>
              r == Err(LegacyFailure(LegacyParseError.UnsupportedPortAddress))
    ensures r.Ok? <==> WSD.NameOf(c).Ok? && PrefixedAttribute(c, "binding").Ok? && WSD.AddressElement(c).Some?
    ensures r.Ok? ==> Ok(r.value.name) == WSD.NameOf(c) && Ok(r.value.binding) == PrefixedAttribute(c, "binding")
    ensures r.Ok? ==>
              r.value.address == (if Xml.FirstNamed(c, "address", NS_SOAP).Some?
                                  then WSD.Soap11(WSD.AddressElement(c).value.element.attributes["location"])
                                  else WSD.Soap12(WSD.AddressElement(c).value.element.attributes["location"]))
  {
    var name :- WSD.NameOf(c);
    var binding :- PrefixedAttribute(c, "binding");
    match Xml.FirstNamed(c, "address", NS_SOAP)
    case Some(a) => Ok(WSD.Port(name, binding, WSD.Soap11(a.element.attributes["location"])))
    case None =>
      match Xml.FirstNamed(c, "address", NS_SOAP12)
      case Some(a) => Ok(WSD.Port(name, binding, WSD.Soap12(a.element.attributes["location"])))
      case None => Err(LegacyFailure(LegacyParseError.UnsupportedPortAddress))
  }

  /** `Service(deserialize:)`: every port must read; none is skipped. */
  function ParseService(c: Xml.Cursor): (r: Result<WSD.Service, Error>)
    requires ServiceWellFormed(c)
    ensures r.Ok? ==> Ok(r.value.name) == WSD.NameOf(c) && r.value.documentation == WSD.Documentation(c)
    ensures r.Ok? ==> |r.value.ports| == |Xml.ElementsNamed(c, "port", NS_WSDL)|
                      && forall i :: 0 <= i < |r.value.ports| ==> Ok(r.value.ports[i]) == ParsePort(Xml.ElementsNamed(c, "port", NS_WSDL)[i])
    ensures WSD.NameOf(c).Err? ==> r == Err(WSD.NameOf(c).error)
    ensures WSD.NameOf(c).Ok? ==>
              XS.Wraps(r, MapAll(Xml.ElementsNamed(c, "port", NS_WSDL), ParsePort),
                       (ports: seq<WSD.Port>) => WSD.Service(WSD.NameOf(c).value, WSD.Documentation(c), ports))
  {
    var name :- WSD.NameOf(c);
    var ports :- MapAll(Xml.ElementsNamed(c, "port", NS_WSDL), ParsePort);
    Ok(WSD.Service(name, WSD.Documentation(c), ports))
  }

  // ---------------------------------------------------------------- the schema worklist

  datatype Worklist = Worklist(nodes: seq<XsdNode>, remaining: seq<string>, seen: set<string>)

  const EmptyWorklist := Worklist([], [], {})

  function Members(s: seq<string>): set<string> {
    set i | 0 <= i < |s| :: s[i]
  }

  /** Every queued URL is queued once and was recorded as seen. */
  predicate Queued(w: Worklist) {
    (forall i, j :: 0 <= i < j < |w.remaining| ==> w.remaining[i] != w.remaining[j])
    && forall i :: 0 <= i < |w.remaining| ==> w.remaining[i] in w.seen
  }

  /** The URLs already taken off the queue. */
  function Fetched(w: Worklist): set<string> {
    w.seen - Members(w.remaining)
  }

  /** `URL(string: schemaLocation, relativeTo: base)!` succeeds for every import of a schema. */
  predicate LocationsResolve(ld: Loader, xsd: seq<XsdNode>, base: Option<string>) {
    forall i :: 0 <= i < |xsd| && xsd[i].ImportNode? ==> ld.resolve(xsd[i].schemaLocation, base).Some?
  }

  /** The resolved locations of the imports of a schema. */
  function Locations(ld: Loader, xsd: seq<XsdNode>, base: Option<string>): set<string>
    requires LocationsResolve(ld, xsd, base)
  {
    set i | 0 <= i < |xsd| && xsd[i].ImportNode? :: ld.resolve(xsd[i].schemaLocation, base).value
  }

  /** The nodes of a schema other than its imports, in order. */
  function NonImports(xsd: seq<XsdNode>): (r: seq<XsdNode>)
    ensures forall n :: n in r <==> n in xsd && !n.ImportNode?
  {
    if |xsd| == 0 then []
    else
      assert xsd == xsd[..|xsd| - 1] + [xsd[|xsd| - 1]];
      NonImports(xsd[..|xsd| - 1]) + (if xsd[|xsd| - 1].ImportNode? then [] else [xsd[|xsd| - 1]])
  }

  predicate NoImportNodes(nodes: seq<XsdNode>) {
    forall i :: 0 <= i < |nodes| ==> !nodes[i].ImportNode?
  }

  /** One turn of the `for node in` loop: an import queues its URL unless the URL was seen; any
      other node is collected. */
  function Visit(ld: Loader, w: Worklist, node: XsdNode, base: Option<string>): Worklist
    requires node.ImportNode? ==> ld.resolve(node.schemaLocation, base).Some?
  {
    if node.ImportNode? then
      var url := ld.resolve(node.schemaLocation, base).value;
      if url in w.seen then w else w.(seen := w.seen + {url}, remaining := w.remaining + [url])
    else w.(nodes := w.nodes + [node])
  }

  /** The `for node in` loop over a whole schema. */
  function Append(ld: Loader, w: Worklist, xsd: seq<XsdNode>, base: Option<string>): Worklist
    requires LocationsResolve(ld, xsd, base)
  {
    if |xsd| == 0 then w
    else Visit(ld, Append(ld, w, xsd[..|xsd| - 1], base), xsd[|xsd| - 1], base)
  }

  lemma LocationsSnoc(ld: Loader, init: seq<XsdNode>, last: XsdNode, base: Option<string>)
    requires LocationsResolve(ld, init, base) && LocationsResolve(ld, init + [last], base)
    requires last.ImportNode? ==> ld.resolve(last.schemaLocation, base).Some?
    ensures Locations(ld, init + [last], base)
            == Locations(ld, init, base) + (if last.ImportNode? then {ld.resolve(last.schemaLocation, base).value} else {})
  {
    var xsd := init + [last];
    forall i | 0 <= i < |init| ensures xsd[i] == init[i] { }
    assert xsd[|init|] == last;
  }

  /** Appending a schema collects exactly its non-import nodes, in order; it marks its import
      locations seen and queues each new one once behind those already queued. */
  lemma {:induction false} AppendEffect(ld: Loader, w: Worklist, xsd: seq<XsdNode>, base: Option<string>)
    requires LocationsResolve(ld, xsd, base)
    ensures var w' := Append(ld, w, xsd, base);
      && w'.nodes == w.nodes + NonImports(xsd)
      && w'.seen == w.seen + Locations(ld, xsd, base)
      && |w.remaining| <= |w'.remaining| && w'.remaining[..|w.remaining|] == w.remaining
      && (Queued(w) ==> Queued(w') && Fetched(w') == Fetched(w))
    decreases |xsd|
  {
    if |xsd| > 0 {
      var init := xsd[..|xsd| - 1];
      var last := xsd[|xsd| - 1];
      assert LocationsResolve(ld, init, base) by {
        forall i | 0 <= i < |init| && init[i].ImportNode? ensures ld.resolve(init[i].schemaLocation, base).Some? {
          assert init[i] == xsd[i];
        }
      }
      AppendEffect(ld, w, init, base);
      var v := Append(ld, w, init, base);
      assert xsd == init + [last];
      LocationsSnoc(ld, init, last, base);
      VisitEffect(ld, v, last, base);
      var w' := Append(ld, w, xsd, base);
      assert w'.remaining[..|w.remaining|] == v.remaining[..|w.remaining|];
    }
  }

  lemma VisitEffect(ld: Loader, w: Worklist, node: XsdNode, base: Option<string>)
    requires node.ImportNode? ==> ld.resolve(node.schemaLocation, base).Some?
    ensures var w' := Visit(ld, w, node, base);
      && w'.nodes == w.nodes + (if node.ImportNode? then [] else [node])
      && w'.seen == w.seen + (if node.ImportNode? then {ld.resolve(node.schemaLocation, base).value} else {})
      && |w.remaining| <= |w'.remaining| && w'.remaining[..|w.remaining|] == w.remaining
      && (Queued(w) ==> Queued(w') && Fetched(w') == Fetched(w))
  {
    var w' := Visit(ld, w, node, base);
    if node.ImportNode? && ld.resolve(node.schemaLocation, base).value !in w.seen {
      var url := ld.resolve(node.schemaLocation, base).value;
      assert w'.remaining == w.remaining + [url];
      assert w'.remaining[..|w.remaining|] == w.remaining;
      if Queued(w) {
        assert Members(w'.remaining) == Members(w.remaining) + {url} by {
          forall u | u in Members(w'.remaining) ensures u in Members(w.remaining) + {url} {
            var i :| 0 <= i < |w'.remaining| && w'.remaining[i] == u;
            if i < |w.remaining| { assert w'.remaining[i] == w.remaining[i]; }
          }
          assert w'.remaining[|w.remaining|] == url;
          forall u | u in Members(w.remaining) ensures u in Members(w'.remaining) {
            var i :| 0 <= i < |w.remaining| && w.remaining[i] == u;
            assert w'.remaining[i] == u;
          }
        }
      }
    }
  }

  /** Taking the first URL off the queue: it was not fetched before, and now it is. */
  lemma Pop(w: Worklist)
    requires Queued(w) && |w.remaining| > 0
    ensures var w1 := w.(remaining := w.remaining[1..]);
      Queued(w1) && w.remaining[0] !in Fetched(w) && Fetched(w1) == Fetched(w) + {w.remaining[0]}
  {
    var w1 := w.(remaining := w.remaining[1..]);
    assert Members(w.remaining) == Members(w1.remaining) + {w.remaining[0]} by {
      forall u | u in Members(w.remaining) ensures u in Members(w1.remaining) + {w.remaining[0]} {
        var i :| 0 <= i < |w.remaining| && w.remaining[i] == u;
        if i > 0 { assert w1.remaining[i - 1] == u; }
      }
      forall u | u in Members(w1.remaining) ensures u in Members(w.remaining) {
        var i :| 0 <= i < |w1.remaining| && w1.remaining[i] == u;
        assert w.remaining[i + 1] == u;
      }
    }
    assert w.remaining[0] !in Members(w1.remaining) by {
      forall i | 0 <= i < |w1.remaining| ensures w1.remaining[i] != w.remaining[0] {
        assert w1.remaining[i] == w.remaining[i + 1];
      }
    }
  }

  /** Every import of every document that reads resolves relative to that document's URL. */
  predicate DownloadsResolve(ld: Loader) {
    forall u :: u in ld.documents && ld.documents[u].Ok? ==> LocationsResolve(ld, ld.documents[u].value, Some(u))
  }

  /** The `while let importUrl = remainingImports.popFirst()` loop: download and read the first
      queued URL, append it relative to its own URL, and go on until nothing is queued. */
  function Drain(ld: Loader, w: Worklist): (r: Result<Worklist, Error>)
    requires DownloadsResolve(ld) && Queued(w)
    ensures r.Ok? ==> r.value.remaining == [] && Queued(r.value)
    ensures |w.remaining| > 0 && w.remaining[0] !in ld.documents ==> r == Err(DownloadFailed(w.remaining[0]))
    decreases |ld.documents.Keys - Fetched(w)|
  {
    if |w.remaining| == 0 then Ok(w)
    else
      var url := w.remaining[0];
      if url !in ld.documents then Err(DownloadFailed(url))
      else
        var xsd :- ld.documents[url];
        Pop(w);
        var w1 := w.(remaining := w.remaining[1..]);
        AppendEffect(ld, w1, xsd, Some(url));
        var w2 := Append(ld, w1, xsd, Some(url));
        assert ld.documents.Keys - Fetched(w2) == (ld.documents.Keys - Fetched(w)) - {url};
        Drain(ld, w2)
  }

  /** Every fetched URL was downloaded, and every import location of what it held has been seen. */
  predicate Closed(ld: Loader, w: Worklist)
    requires DownloadsResolve(ld)
  {
    && NoImportNodes(w.nodes)
    && forall u :: u in Fetched(w) ==>
         u in ld.documents && ld.documents[u].Ok? && Locations(ld, ld.documents[u].value, Some(u)) <= w.seen
  }

  /** The worklist after one successful turn of the download loop. */
  function Turn(ld: Loader, w: Worklist): Worklist
    requires DownloadsResolve(ld) && |w.remaining| > 0
    requires w.remaining[0] in ld.documents && ld.documents[w.remaining[0]].Ok?
  {
    var url := w.remaining[0];
    Append(ld, w.(remaining := w.remaining[1..]), ld.documents[url].value, Some(url))
  }

  /** One turn fetches a URL that was never fetched before, and keeps the queue and closure
      invariants and the outcome of the loop. */
  lemma TurnKeeps(ld: Loader, w: Worklist)
    requires DownloadsResolve(ld) && Queued(w) && |w.remaining| > 0
    requires w.remaining[0] in ld.documents && ld.documents[w.remaining[0]].Ok?
    ensures var w2 := Turn(ld, w);
      && Queued(w2) && (Closed(ld, w) ==> Closed(ld, w2))
      && w.remaining[0] !in Fetched(w) && Fetched(w2) == Fetched(w) + {w.remaining[0]}
      && w.seen <= w2.seen && |w.nodes| <= |w2.nodes| && w2.nodes[..|w.nodes|] == w.nodes
      && Drain(ld, w) == Drain(ld, w2)
  {
    var url := w.remaining[0];
    Pop(w);
    AppendEffect(ld, w.(remaining := w.remaining[1..]), ld.documents[url].value, Some(url));
  }

  /** When the loop ends, every URL seen has been fetched and the imports of every fetched
      document are among them; nothing collected before is lost. */
  lemma {:induction false} DrainCloses(ld: Loader, w: Worklist)
    requires DownloadsResolve(ld) && Queued(w) && Closed(ld, w)
    requires Drain(ld, w).Ok?
    ensures var w' := Drain(ld, w).value;
      && w'.remaining == [] && w'.seen == Fetched(w') && Closed(ld, w')
      && w.seen <= w'.seen && |w.nodes| <= |w'.nodes| && w'.nodes[..|w.nodes|] == w.nodes
    decreases |ld.documents.Keys - Fetched(w)|
  {
    if |w.remaining| > 0 {
      TurnKeeps(ld, w);
      var w2 := Turn(ld, w);
      assert ld.documents.Keys - Fetched(w2) == (ld.documents.Keys - Fetched(w)) - {w.remaining[0]};
      DrainCloses(ld, w2);
      var w' := Drain(ld, w).value;
      assert w'.nodes[..|w.nodes|] == w'.nodes[..|w2.nodes|][..|w.nodes|];
    } else {
      assert Members(w.remaining) == {};
    }
  }

  // ---------------------------------------------------------------- the document

  /** The first xs:schema of the first wsdl:types, if any. */
  function InlineSchema(c: Xml.Cursor): Option<Xml.Cursor> {
    match Xml.FirstNamed(c, "types", NS_WSDL)
    case None => None
    case Some(types) => Xml.FirstNamed(types, "schema", NS_XSD)
  }

  /** The inline schema's imports resolve relative to the WSDL's own URL. */
  predicate InlineResolves(ld: Loader, c: Xml.Cursor, base: Option<string>) {
    InlineSchema(c).Some? && ld.readXsd(InlineSchema(c).value).Ok?
    ==> LocationsResolve(ld, ld.readXsd(InlineSchema(c).value).value, base)
  }

  /** A schema followed by everything it imports, directly or not, without the imports. */
  function Collected(ld: Loader, xsd: seq<XsdNode>, base: Option<string>): (r: Result<seq<XsdNode>, Error>)
    requires DownloadsResolve(ld) && LocationsResolve(ld, xsd, base)
    ensures r.Ok? ==> NoImportNodes(r.value) && |NonImports(xsd)| <= |r.value| && r.value[..|NonImports(xsd)|] == NonImports(xsd)
  {
    AppendEffect(ld, EmptyWorklist, xsd, base);
    var w := Append(ld, EmptyWorklist, xsd, base);
    assert Members([]) == {};
    assert NoImportNodes(w.nodes) by {
      forall i | 0 <= i < |w.nodes| ensures !w.nodes[i].ImportNode? { assert w.nodes[i] in NonImports(xsd); }
    }
    var w' :- Drain(ld, w);
    DrainCloses(ld, w);
    Ok(w'.nodes)
  }

  /** The schema nodes: none without an inline schema; otherwise the inline schema collected. */
  function SchemaNodes(ld: Loader, c: Xml.Cursor, base: Option<string>): (r: Result<seq<XsdNode>, Error>)
    requires DownloadsResolve(ld) && InlineResolves(ld, c, base)
    ensures InlineSchema(c).None? ==> r == Ok([])
    ensures InlineSchema(c).Some? ==>
              r == match ld.readXsd(InlineSchema(c).value)
                   case Err(e) => Err(e)
                   case Ok(xsd) => Collected(ld, xsd, base)
  {
    match InlineSchema(c)
    case None => Ok([])
    case Some(schema) =>
      var xsd :- ld.readXsd(schema);
      Collected(ld, xsd, base)
  }

  /** Every message, each of which must read. */
  function Messages(c: Xml.Cursor): (r: Result<seq<Message>, Error>)
    requires forall m :: m in Xml.ElementsNamed(c, "message", NS_WSDL) ==> MessageWellFormed(m)
    ensures var ms := Xml.ElementsNamed(c, "message", NS_WSDL);
      && (r.Ok? <==> forall i :: 0 <= i < |ms| ==> ParseMessage(ms[i]).Ok?)
      && (r.Ok? ==> |r.value| == |ms| && forall i :: 0 <= i < |ms| ==> Ok(r.value[i]) == ParseMessage(ms[i]))
  {
    MapAll(Xml.ElementsNamed(c, "message", NS_WSDL), ParseMessage)
  }

  /** Every port type, each of which must read. */
  function PortTypes(c: Xml.Cursor): (r: Result<seq<WSD.PortType>, Error>)
    requires forall p :: p in Xml.ElementsNamed(c, "portType", NS_WSDL) ==> PortTypeWellFormed(p)
    ensures var ps := Xml.ElementsNamed(c, "portType", NS_WSDL);
      && (r.Ok? <==> forall i :: 0 <= i < |ps| ==> ParsePortType(ps[i]).Ok?)
      && (r.Ok? ==> |r.value| == |ps| && forall i :: 0 <= i < |ps| ==> Ok(r.value[i]) == ParsePortType(ps[i]))
  {
    MapAll(Xml.ElementsNamed(c, "portType", NS_WSDL), ParsePortType)
  }

  /** Every service, each of which must read. */
  function Services(c: Xml.Cursor): (r: Result<seq<WSD.Service>, Error>)
    requires forall s :: s in Xml.ElementsNamed(c, "service", NS_WSDL) ==> ServiceWellFormed(s)
    ensures var ss := Xml.ElementsNamed(c, "service", NS_WSDL);
      && (r.Ok? <==> forall i :: 0 <= i < |ss| ==> ParseService(ss[i]).Ok?)
      && (r.Ok? ==> |r.value| == |ss| && forall i :: 0 <= i < |ss| ==> Ok(r.value[i]) == ParseService(ss[i]))
  {
    MapAll(Xml.ElementsNamed(c, "service", NS_WSDL), ParseService)
  }

  /** Every binding, each of which must read. */
  function Bindings(web: WSD.Web, c: Xml.Cursor): (r: Result<seq<WSD.Binding>, Error>)
    requires forall b :: b in Xml.ElementsNamed(c, "binding", NS_WSDL) ==> BindingWellFormed(b)
    ensures var bs := Xml.ElementsNamed(c, "binding", NS_WSDL);
      && (r.Ok? <==> forall i :: 0 <= i < |bs| ==> ParseBinding(web, bs[i]).Ok?)
      && (r.Ok? ==> |r.value| == |bs| && forall i :: 0 <= i < |bs| ==> Ok(r.value[i]) == ParseBinding(web, bs[i]))
  {
    var parse := (b: Xml.Cursor) requires BindingWellFormed(b) => ParseBinding(web, b);
    MapAll(Xml.ElementsNamed(c, "binding", NS_WSDL), parse)
  }

  predicate WsdlWellFormed(c: Xml.Cursor) {
    && (forall m :: m in Xml.ElementsNamed(c, "message", NS_WSDL) ==> MessageWellFormed(m))
    && (forall p :: p in Xml.ElementsNamed(c, "portType", NS_WSDL) ==> PortTypeWellFormed(p))
    && (forall b :: b in Xml.ElementsNamed(c, "binding", NS_WSDL) ==> BindingWellFormed(b))
    && (forall s :: s in Xml.ElementsNamed(c, "service", NS_WSDL) ==> ServiceWellFormed(s))
  }

  /** `WSDL(deserialize:relativeTo:)`: the root must be wsdl:definitions; then the schema nodes, and
      every message, port type, binding and service, each of which must read. */
  function WsdlOf(web: WSD.Web, ld: Loader, c: Xml.Cursor, base: Option<string>): (r: Result<Wsdl, Error>)
    requires DownloadsResolve(ld) && InlineResolves(ld, c, base) && WsdlWellFormed(c)
    ensures !(c.element.localName == "definitions" && c.element.uri == Some(NS_WSDL))
            ==> r == Err(LegacyFailure(LegacyParseError.IncorrectRootElement))
    ensures r.Ok? ==> Ok(r.value.schema) == SchemaNodes(ld, c, base)
    ensures r.Ok? ==> Ok(r.value.messages) == Messages(c) && Ok(r.value.portTypes) == PortTypes(c)
                      && Ok(r.value.services) == Services(c)
    ensures r.Ok? ==> Ok(r.value.bindings) == Bindings(web, c)
    ensures c.element.localName == "definitions" && c.element.uri == Some(NS_WSDL) ==>
      var nodes := SchemaNodes(ld, c, base);
      var messages := Messages(c);
      var portTypes := PortTypes(c);
      var bindings := Bindings(web, c);
      var services := Services(c);
      && (r.Ok? <==> nodes.Ok? && messages.Ok? && portTypes.Ok? && bindings.Ok? && services.Ok?)
      && (nodes.Err? ==> r == Err(nodes.error))
      && (nodes.Ok? && messages.Err? ==> r == Err(messages.error))
      && (nodes.Ok? && messages.Ok? && portTypes.Err? ==> r == Err(portTypes.error))
      && (nodes.Ok? && messages.Ok? && portTypes.Ok? && bindings.Err? ==> r == Err(bindings.error))
      && (nodes.Ok? && messages.Ok? && portTypes.Ok? && bindings.Ok? && services.Err? ==> r == Err(services.error))
  {
    if !(c.element.localName == "definitions" && c.element.uri == Some(NS_WSDL)) then
      Err(LegacyFailure(LegacyParseError.IncorrectRootElement))
    else
      var nodes := SchemaNodes(ld, c, base);
      var messages := Messages(c);
      var portTypes := PortTypes(c);
      var bindings := Bindings(web, c);
      var services := Services(c);
      if nodes.Err? then Err(nodes.error)
      else if messages.Err? then Err(messages.error)
      else if portTypes.Err? then Err(portTypes.error)
      else if bindings.Err? then Err(bindings.error)
      else if services.Err? then Err(services.error)
      else Ok(Wsdl(nodes.value, messages.value, portTypes.value, bindings.value, services.value))
  }

  /** One unsupported binding operation anywhere makes the whole document fail: nothing is skipped. */
  lemma UnsupportedOperationFails(web: WSD.Web, ld: Loader, c: Xml.Cursor, base: Option<string>, b: Xml.Cursor, o: Xml.Cursor)
    requires DownloadsResolve(ld) && InlineResolves(ld, c, base) && WsdlWellFormed(c)
    requires b in Xml.ElementsNamed(c, "binding", NS_WSDL) && o in Xml.ElementsNamed(b, "operation", NS_WSDL)
    requires WSD.SoapOperation(o).None?
    ensures WsdlOf(web, ld, c, base).Err?
  {
    var bs := Xml.ElementsNamed(c, "binding", NS_WSDL);
    var i :| 0 <= i < |bs| && bs[i] == b;
    assert ParseBinding(web, bs[i]).Err?;
  }

  // ---------------------------------------------------------------- the loops

  /** The `for node in` loop over one schema. */
  method AppendSchema(ld: Loader, w0: Worklist, xsd: seq<XsdNode>, base: Option<string>) returns (w: Worklist)
    requires LocationsResolve(ld, xsd, base)
    ensures w == Append(ld, w0, xsd, base)
  {
    w := w0;
    for i := 0 to |xsd|
      invariant LocationsResolve(ld, xsd[..i], base)
      invariant w == Append(ld, w0, xsd[..i], base)
    {
      assert xsd[..i + 1][..i] == xsd[..i];
      var node := xsd[i];
      if node.ImportNode? {
        var url := ld.resolve(node.schemaLocation, base).value;
        if url !in w.seen {
          w := w.(seen := w.seen + {url}, remaining := w.remaining + [url]);
        }
      } else {
        w := w.(nodes := w.nodes + [node]);
      }
    }
    assert xsd[..|xsd|] == xsd;
  }

  /** The download loop. */
  method Download(ld: Loader, w0: Worklist) returns (r: Result<Worklist, Error>)
    requires DownloadsResolve(ld) && Queued(w0)
    ensures r == Drain(ld, w0)
  {
    var w := w0;
    while |w.remaining| > 0
      invariant Queued(w)
      invariant Drain(ld, w) == Drain(ld, w0)
      decreases |ld.documents.Keys - Fetched(w)|
    {
      var url := w.remaining[0];
      if url !in ld.documents {
        return Err(DownloadFailed(url));
      }
      if ld.documents[url].Err? {
        return Err(ld.documents[url].error);
      }
      TurnKeeps(ld, w);
      ghost var before := w;
      w := AppendSchema(ld, w.(remaining := w.remaining[1..]), ld.documents[url].value, Some(url));
      assert w == Turn(ld, before);
      assert ld.documents.Keys - Fetched(w) == (ld.documents.Keys - Fetched(before)) - {url};
    }
    r := Ok(w);
  }

  /** The inline schema of wsdl:types, when there is one, read and appended, and then every
      import it leads to downloaded. */
  method ReadSchemaNodes(ld: Loader, c: Xml.Cursor, base: Option<string>) returns (r: Result<seq<XsdNode>, Error>)
    requires DownloadsResolve(ld) && InlineResolves(ld, c, base)
    ensures r == SchemaNodes(ld, c, base)
  {
    var nodes: seq<XsdNode> := [];
    var schema := InlineSchema(c);
    if schema.Some? {
      var xsd := ld.readXsd(schema.value);
      if xsd.Err? {
        return Err(xsd.error);
      }
      var w := AppendSchema(ld, EmptyWorklist, xsd.value, base);
      assert Members([]) == {};
      AppendEffect(ld, EmptyWorklist, xsd.value, base);
      var drained := Download(ld, w);
      if drained.Err? {
        return Err(drained.error);
      }
      nodes := drained.value.nodes;
    }
    r := Ok(nodes);
  }

  /** `WSDL(deserialize:relativeTo:)`. */
  method ParseWsdl(web: WSD.Web, ld: Loader, c: Xml.Cursor, base: Option<string>) returns (r: Result<Wsdl, Error>)
    requires DownloadsResolve(ld) && InlineResolves(ld, c, base) && WsdlWellFormed(c)
    ensures r == WsdlOf(web, ld, c, base)
  {
    if !(c.element.localName == "definitions" && c.element.uri == Some(NS_WSDL)) {
      return Err(LegacyFailure(LegacyParseError.IncorrectRootElement));
    }
    var nodes := ReadSchemaNodes(ld, c, base);
    if nodes.Err? { return Err(nodes.error); }
    var messages := Messages(c);
    if messages.Err? { return Err(messages.error); }
    var portTypes := PortTypes(c);
    if portTypes.Err? { return Err(portTypes.error); }
    var bindings := Bindings(web, c);
    if bindings.Err? { return Err(bindings.error); }
    var services := Services(c);
    if services.Err? { return Err(services.error); }
    r := Ok(Wsdl(nodes.value, messages.value, portTypes.value, bindings.value, services.value));
  }
}
