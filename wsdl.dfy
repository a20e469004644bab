/** The WSDL 1.1 reader of `WebServiceDescription`: messages, port types, bindings and services read
    from the children of wsdl:definitions, and the XML Schema nodes of the inline schemas together
    with every schema they import, fetched through a worklist that visits each URL once. */
module WebServiceDescription {
  import opened Wrappers
  import opened QualifiedNames
  import opened ParseErrors
  import opened Collections
  import Xml
  import XS = XmlSchema

  const NS_WSDL := Xml.NS_WSDL
  const NS_XS := Xml.NS_XS
  const NS_SOAP := Xml.NS_SOAP
  const NS_SOAP12 := Xml.NS_SOAP12
  const SOAP_HTTP := Xml.SOAP_HTTP

  datatype Part = Part(name: QualifiedName, element: Option<QualifiedName>, type_: Option<QualifiedName>)

  datatype Message = Message(name: QualifiedName, parts: seq<Part>)

  datatype PortOperation = PortOperation(name: QualifiedName, documentation: Option<string>,
                                         inputMessage: QualifiedName, outputMessage: QualifiedName)

  datatype PortType = PortType(name: QualifiedName, operations: seq<PortOperation>)

  datatype Style = Document | Rpc

  datatype Use = Literal | Encoded

  /** A binding operation; `action` is `URL(string: soapAction)`, absent when that is not a URL. */
  datatype BindingOperation = BindingOperation(name: QualifiedName, action: Option<string>, style: Style,
                                               input: Use, output: Use)

  datatype Binding = Binding(name: QualifiedName, type_: QualifiedName, operations: seq<BindingOperation>)

  datatype Address = Soap11(location: string) | Soap12(location: string)

  datatype Port = Port(name: QualifiedName, binding: QualifiedName, address: Address)

  datatype Service = Service(name: QualifiedName, documentation: Option<string>, ports: seq<Port>)

  datatype DefinitionImport = DefinitionImport(namespace: string, location: string)

  datatype Description = Description(imports: seq<DefinitionImport>, schema: XS.Schema, messages: seq<Message>,
                                     portTypes: seq<PortType>, bindings: seq<Binding>, services: seq<Service>)

  /** What the reader gets from outside: `resolve(s, base)` is `URL(string: s, relativeTo: base)`
      (with `URL(string: s)` as `resolve(s, None)`), and `schemas` holds, for each URL that can be
      downloaded, what `parseSchema(contentsOf:)` gives; any other URL fails to download. */
  datatype Web = Web(resolve: (string, Option<string>) -> Option<string>,
                     schemas: map<string, Result<XS.Schema, Error>>)

  // ---------------------------------------------------------------- names

  /** `targetNamespace(ofNode:)`. */
  function Tns(c: Xml.Cursor): (r: Result<string, Error>)
    ensures r.Ok? <==> Xml.TargetNamespace(c).Some?
    ensures r.Ok? ==> r.value == Xml.TargetNamespace(c).value
    ensures r.Err? ==> r.error == DescriptionFailure(NodeWithoutTargetNamespace)
  {
    match Xml.TargetNamespace(c)
    case None => Err(DescriptionFailure(NodeWithoutTargetNamespace))
    case Some(tns) => Ok(tns)
  }

  predicate HasName(c: Xml.Cursor) {
    "name" in c.element.attributes
  }

  /** `QualifiedName(uri: try targetNamespace(ofNode:), localName: @name!)`. */
  function NameOf(c: Xml.Cursor): (r: Result<QualifiedName, Error>)
    requires HasName(c)
    ensures r.Ok? <==> Xml.TargetNamespace(c).Some?
    ensures r.Ok? ==> r.value == QualifiedName(Xml.TargetNamespace(c).value, c.element.attributes["name"])
    ensures r.Err? ==> r.error == DescriptionFailure(NodeWithoutTargetNamespace)
  {
    var tns :- Tns(c);
    Ok(QualifiedName(tns, c.element.attributes["name"]))
  }

  /** The attribute's text read as a qualified name in the element's scope. */
  function TypeAttribute(c: Xml.Cursor, attribute: string): (r: Result<QualifiedName, Error>)
    requires attribute in c.element.attributes
    ensures r.Ok? <==> FromType(c.element.attributes[attribute], Xml.Scope(c)).Ok?
    ensures r.Ok? ==> r.value == FromType(c.element.attributes[attribute], Xml.Scope(c)).value
    ensures r.Err? ==> r.error == QNameFailure(InvalidNamespacePrefix)
  {
    XS.QName(FromType(c.element.attributes[attribute], Xml.Scope(c)))
  }

  function OptionalTypeAttribute(c: Xml.Cursor, attribute: string): (r: Result<Option<QualifiedName>, Error>)
    ensures attribute !in c.element.attributes ==> r == Ok(None)
    ensures attribute in c.element.attributes ==>
              (r.Ok? <==> TypeAttribute(c, attribute).Ok?) && (r.Ok? ==> r.value == Some(TypeAttribute(c, attribute).value))
  {
    if attribute in c.element.attributes then
      var q :- TypeAttribute(c, attribute); Ok(Some(q))
    else Ok(None)
  }

  function Documentation(c: Xml.Cursor): (r: Option<string>)
    ensures r.Some? <==> Xml.FirstNamed(c, "documentation", NS_WSDL).Some?
  {
    match Xml.FirstNamed(c, "documentation", NS_WSDL)
    case None => None
    case Some(d) => Some(Xml.StringValue(d))
  }

  // ---------------------------------------------------------------- messages and port types

  predicate MessageWellFormed(c: Xml.Cursor) {
    HasName(c) && forall p :: p in Xml.ElementsNamed(c, "part", NS_WSDL) ==> HasName(p)
  }

  /** `Message.Part(deserialize:)`: the part's name, and its @element and @type as qualified names
      when present. */
  function ParsePart(c: Xml.Cursor): (r: Result<Part, Error>)
    requires HasName(c)
    ensures Xml.TargetNamespace(c).None? ==> r == Err(DescriptionFailure(NodeWithoutTargetNamespace))
    ensures r.Ok? ==> Ok(r.value.name) == NameOf(c)
    ensures r.Ok? ==> (r.value.element.Some? <==> "element" in c.element.attributes)
                      && (r.value.type_.Some? <==> "type" in c.element.attributes)
    ensures r.Ok? && "element" in c.element.attributes ==> Ok(r.value.element.value) == TypeAttribute(c, "element")
    ensures r.Ok? && "type" in c.element.attributes ==> Ok(r.value.type_.value) == TypeAttribute(c, "type")
    ensures r.Ok? <==> NameOf(c).Ok? && OptionalTypeAttribute(c, "element").Ok? && OptionalTypeAttribute(c, "type").Ok?
  {
    var name :- NameOf(c);
    var element :- OptionalTypeAttribute(c, "element");
    var type_ :- OptionalTypeAttribute(c, "type");
    Ok(Part(name, element, type_))
  }

  /** `Message(deserialize:)`: the name, then one part per wsdl:part child, in order. */
  function ParseMessage(c: Xml.Cursor): (r: Result<Message, Error>)
    requires MessageWellFormed(c)
    ensures r.Ok? ==> Ok(r.value.name) == NameOf(c)
    ensures r.Ok? ==> |r.value.parts| == |Xml.ElementsNamed(c, "part", NS_WSDL)|
    ensures r.Ok? ==> forall i :: 0 <= i < |r.value.parts| ==> Ok(r.value.parts[i]) == ParsePart(Xml.ElementsNamed(c, "part", NS_WSDL)[i])
    ensures NameOf(c).Err? ==> r == Err(NameOf(c).error)
    ensures NameOf(c).Ok? ==>
              XS.Wraps(r, MapAll(Xml.ElementsNamed(c, "part", NS_WSDL), ParsePart),
                       (parts: seq<Part>) => Message(NameOf(c).value, parts))
  {
    var name :- NameOf(c);
    var parts :- MapAll(Xml.ElementsNamed(c, "part", NS_WSDL), ParsePart);
    Ok(Message(name, parts))
  }

  /** The operation has a wsdl:`tag` child, and the first one carries @message. */
  predicate HasMessage(c: Xml.Cursor, tag: string) {
    Xml.FirstNamed(c, tag, NS_WSDL).Some? && "message" in Xml.FirstNamed(c, tag, NS_WSDL).value.element.attributes
  }

  /** The @message of the first wsdl:`tag` child. */
  function MessageAttribute(c: Xml.Cursor, tag: string): string
    requires HasMessage(c, tag)
  {
    Xml.FirstNamed(c, tag, NS_WSDL).value.element.attributes["message"]
  }

  predicate PortOperationWellFormed(c: Xml.Cursor) {
    HasName(c) && HasMessage(c, "input") && HasMessage(c, "output")
  }

  predicate PortTypeWellFormed(c: Xml.Cursor) {
    HasName(c) && forall o :: o in Xml.ElementsNamed(c, "operation", NS_WSDL) ==> PortOperationWellFormed(o)
  }

  /** `PortType.Operation(deserialize:)`: the name, the first wsdl:documentation, and the @message
      of the first wsdl:input and wsdl:output, read in the operation's scope. */
  function ParsePortOperation(c: Xml.Cursor): (r: Result<PortOperation, Error>)
    requires PortOperationWellFormed(c)
    ensures r.Ok? ==> Ok(r.value.name) == NameOf(c) && r.value.documentation == Documentation(c)
    ensures r.Ok? ==> Ok(r.value.inputMessage) == XS.QName(FromType(MessageAttribute(c, "input"), Xml.Scope(c)))
    ensures r.Ok? ==> Ok(r.value.outputMessage) == XS.QName(FromType(MessageAttribute(c, "output"), Xml.Scope(c)))
    ensures Xml.TargetNamespace(c).None? ==> r == Err(DescriptionFailure(NodeWithoutTargetNamespace))
    ensures NameOf(c).Ok? ==>
              var input := XS.QName(FromType(MessageAttribute(c, "input"), Xml.Scope(c)));
              var output := XS.QName(FromType(MessageAttribute(c, "output"), Xml.Scope(c)));
              && (r.Ok? <==> input.Ok? && output.Ok?)
              && (input.Err? ==> r == Err(input.error))
              && (input.Ok? && output.Err? ==> r == Err(output.error))
              && (r.Ok? ==> r.value == PortOperation(NameOf(c).value, Documentation(c), input.value, output.value))
  {
    var name :- NameOf(c);
    var input :- XS.QName(FromType(MessageAttribute(c, "input"), Xml.Scope(c)));
    var output :- XS.QName(FromType(MessageAttribute(c, "output"), Xml.Scope(c)));
    Ok(PortOperation(name, Documentation(c), input, output))
  }

  /** `PortType(deserialize:)`: the name and one operation per wsdl:operation child, in order. */
  function ParsePortType(c: Xml.Cursor): (r: Result<PortType, Error>)
    requires PortTypeWellFormed(c)
    ensures r.Ok? ==> Ok(r.value.name) == NameOf(c)
    ensures r.Ok? ==> |r.value.operations| == |Xml.ElementsNamed(c, "operation", NS_WSDL)|
    ensures r.Ok? ==> forall i :: 0 <= i < |r.value.operations| ==>
              Ok(r.value.operations[i]) == ParsePortOperation(Xml.ElementsNamed(c, "operation", NS_WSDL)[i])
    ensures NameOf(c).Err? ==> r == Err(NameOf(c).error)
    ensures NameOf(c).Ok? ==>
              XS.Wraps(r, MapAll(Xml.ElementsNamed(c, "operation", NS_WSDL), ParsePortOperation),
                       (operations: seq<PortOperation>) => PortType(NameOf(c).value, operations))
  {
    var name :- NameOf(c);
    var operations :- MapAll(Xml.ElementsNamed(c, "operation", NS_WSDL), ParsePortOperation);
    Ok(PortType(name, operations))
  }

  // ---------------------------------------------------------------- bindings

  /** The soap:operation, else the soap12:operation, of a binding operation. */
  function SoapOperation(c: Xml.Cursor): Option<Xml.Cursor> {
    match Xml.FirstNamed(c, "operation", NS_SOAP)
    case Some(o) => Some(o)
    case None => Xml.FirstNamed(c, "operation", NS_SOAP12)
  }

  predicate BindingOperationWellFormed(c: Xml.Cursor) {
    HasName(c) && (SoapOperation(c).Some? ==> "soapAction" in SoapOperation(c).value.element.attributes)
  }

  function StyleOf(s: Option<string>): (r: Option<Style>)
    ensures r == Some(Document) <==> s == Some("document")
    ensures r == Some(Rpc) <==> s == Some("rpc")
  {
    if s == Some("document") then Some(Document) else if s == Some("rpc") then Some(Rpc) else None
  }

  function UseOf(s: Option<string>): (r: Option<Use>)
    ensures r == Some(Literal) <==> s == Some("literal")
    ensures r == Some(Encoded) <==> s == Some("encoded")
  {
    if s == Some("literal") then Some(Literal) else if s == Some("encoded") then Some(Encoded) else None
  }

  /** The `use` closure: the @use of the soap:body, else of the soap12:body, of an input or output. */
  function MessageUse(c: Xml.Cursor): (r: Option<Use>)
    ensures Xml.FirstNamed(c, "body", NS_SOAP).Some? ==> r == UseOf(Xml.Attribute(Xml.FirstNamed(c, "body", NS_SOAP).value, "use"))
    ensures Xml.FirstNamed(c, "body", NS_SOAP).None? && Xml.FirstNamed(c, "body", NS_SOAP12).Some? ==>
              r == UseOf(Xml.Attribute(Xml.FirstNamed(c, "body", NS_SOAP12).value, "use"))
    ensures Xml.FirstNamed(c, "body", NS_SOAP).None? && Xml.FirstNamed(c, "body", NS_SOAP12).None? ==> r.None?
  {
    match Xml.FirstNamed(c, "body", NS_SOAP)
    case Some(body) => UseOf(Xml.Attribute(body, "use"))
    case None =>
      match Xml.FirstNamed(c, "body", NS_SOAP12)
      case Some(body) => UseOf(Xml.Attribute(body, "use"))
      case None => None
  }

  /** `Binding.Operation(deserialize:)`: the name; the soap (else soap12) operation with its action
      and a style that must be document or rpc; then an input and an output, each with a soap body
      whose use is literal or encoded. */
  function ParseBindingOperation(web: Web, c: Xml.Cursor): (r: Result<BindingOperation, Error>)
    requires BindingOperationWellFormed(c)
    ensures r.Err? ==> r.error != BindingFailure(NoTransport)
    ensures Xml.TargetNamespace(c).None? ==> r == Err(DescriptionFailure(NodeWithoutTargetNamespace))
    ensures r.Ok? <==>
      && NameOf(c).Ok? && SoapOperation(c).Some? && StyleOf(Xml.Attribute(SoapOperation(c).value, "style")).Some?
      && Xml.FirstNamed(c, "input", NS_WSDL).Some? && MessageUse(Xml.FirstNamed(c, "input", NS_WSDL).value).Some?
      && Xml.FirstNamed(c, "output", NS_WSDL).Some? && MessageUse(Xml.FirstNamed(c, "output", NS_WSDL).value).Some?
    ensures NameOf(c).Ok? ==> var name := NameOf(c).value;
      && (SoapOperation(c).None? ==> r == Err(BindingFailure(BindingParseError.UnsupportedOperation(name))))
      && (SoapOperation(c).Some? && StyleOf(Xml.Attribute(SoapOperation(c).value, "style")).None? ==>
            r == Err(BindingFailure(InvalidOperationStyleForBindingOperation(name))))
      && (SoapOperation(c).Some? && StyleOf(Xml.Attribute(SoapOperation(c).value, "style")).Some? ==>
            && (Xml.FirstNamed(c, "input", NS_WSDL).None? ==> r == Err(BindingFailure(BindingOperationMissingInput(name))))
            && (Xml.FirstNamed(c, "input", NS_WSDL).Some? && MessageUse(Xml.FirstNamed(c, "input", NS_WSDL).value).None? ==>
                  r == Err(BindingFailure(UnsupportedBindingOperationEncoding(name))))
            && (Xml.FirstNamed(c, "input", NS_WSDL).Some? && MessageUse(Xml.FirstNamed(c, "input", NS_WSDL).value).Some? ==>
                  && (Xml.FirstNamed(c, "output", NS_WSDL).None? ==> r == Err(BindingFailure(BindingOperationMissingOutput(name))))
                  && (Xml.FirstNamed(c, "output", NS_WSDL).Some? && MessageUse(Xml.FirstNamed(c, "output", NS_WSDL).value).None? ==>
                        r == Err(BindingFailure(UnsupportedBindingOperationEncoding(name))))))
    ensures r.Ok? ==>
      && Ok(r.value.name) == NameOf(c)
      && SoapOperation(c).Some?
      && r.value.action == web.resolve(SoapOperation(c).value.element.attributes["soapAction"], None)
      && Some(r.value.style) == StyleOf(Xml.Attribute(SoapOperation(c).value, "style"))
      && Xml.FirstNamed(c, "input", NS_WSDL).Some? && Xml.FirstNamed(c, "output", NS_WSDL).Some?
      && Some(r.value.input) == MessageUse(Xml.FirstNamed(c, "input", NS_WSDL).value)
      && Some(r.value.output) == MessageUse(Xml.FirstNamed(c, "output", NS_WSDL).value)
  {
    var name :- NameOf(c);
    match SoapOperation(c)
    case None => Err(BindingFailure(BindingParseError.UnsupportedOperation(name)))
    case Some(operation) =>
      var action := web.resolve(operation.element.attributes["soapAction"], None);
      match StyleOf(Xml.Attribute(operation, "style"))
      case None => Err(BindingFailure(InvalidOperationStyleForBindingOperation(name)))
      case Some(style) =>
        match Xml.FirstNamed(c, "input", NS_WSDL)
        case None => Err(BindingFailure(BindingOperationMissingInput(name)))
        case Some(input) =>
          match MessageUse(input)
          case None => Err(BindingFailure(UnsupportedBindingOperationEncoding(name)))
          case Some(inputUse) =>
            match Xml.FirstNamed(c, "output", NS_WSDL)
            case None => Err(BindingFailure(BindingOperationMissingOutput(name)))
            case Some(output) =>
              match MessageUse(output)
              case None => Err(BindingFailure(UnsupportedBindingOperationEncoding(name)))
              case Some(outputUse) => Ok(BindingOperation(name, action, style, inputUse, outputUse))
  }

  /** The compactMap over a binding's operations: an operation that is neither soap nor soap12 is
      dropped; every other error stands. */
  function BindingOperationEntry(web: Web, c: Xml.Cursor): (r: Result<Option<BindingOperation>, Error>)
    requires BindingOperationWellFormed(c)
    ensures r == Ok(None) <==> ParseBindingOperation(web, c).Err? && ParseBindingOperation(web, c).error.BindingFailure?
                               && ParseBindingOperation(web, c).error.bindingError.UnsupportedOperation?
    ensures r.Ok? && r.value.Some? <==> ParseBindingOperation(web, c).Ok?
    ensures r.Ok? && r.value.Some? ==> r.value.value == ParseBindingOperation(web, c).value
    ensures r.Err? ==> r.error != BindingFailure(NoTransport)
  {
    match ParseBindingOperation(web, c)
    case Ok(o) => Ok(Some(o))
    case Err(BindingFailure(UnsupportedOperation(_))) => Ok(None)
    case Err(e) => Err(e)
  }

  /** The @transport of the soap:binding, else of the soap12:binding. */
  function Transport(c: Xml.Cursor): Option<string> {
    var soap := TransportOf(Xml.FirstNamed(c, "binding", NS_SOAP));
    if soap.Some? then soap else TransportOf(Xml.FirstNamed(c, "binding", NS_SOAP12))
  }

  function TransportOf(binding: Option<Xml.Cursor>): Option<string> {
    if binding.Some? then Xml.Attribute(binding.value, "transport") else None
  }

  predicate BindingWellFormed(c: Xml.Cursor) {
    Transport(c) == Some(SOAP_HTTP) ==>
      HasName(c) && "type" in c.element.attributes
      && forall o :: o in Xml.ElementsNamed(c, "operation", NS_WSDL) ==> BindingOperationWellFormed(o)
  }

  /** The supported operations of a binding, in document order. */
  function BindingOperations(web: Web, c: Xml.Cursor): Result<seq<BindingOperation>, Error>
    requires forall o :: o in Xml.ElementsNamed(c, "operation", NS_WSDL) ==> BindingOperationWellFormed(o)
  {
    OperationEntries(web, Xml.ElementsNamed(c, "operation", NS_WSDL))
  }

  /** The compactMap of `BindingOperationEntry` over a binding's wsdl:operation elements: it fails
      with the first error that is not an unsupported operation, and otherwise keeps exactly the
      supported operations. */
  function OperationEntries(web: Web, os: seq<Xml.Cursor>): (r: Result<seq<BindingOperation>, Error>)
    requires forall o :: o in os ==> BindingOperationWellFormed(o)
    ensures r.Ok? <==> forall i :: 0 <= i < |os| ==> BindingOperationEntry(web, os[i]).Ok?
    ensures r.Ok? ==> forall i :: 0 <= i < |os| && BindingOperationEntry(web, os[i]).value.Some? ==>
                        BindingOperationEntry(web, os[i]).value.value in r.value
    ensures r.Ok? ==> forall k :: 0 <= k < |r.value| ==>
                        exists i :: 0 <= i < |os| && BindingOperationEntry(web, os[i]) == Ok(Some(r.value[k]))
    ensures r.Err? ==> exists i :: 0 <= i < |os| && BindingOperationEntry(web, os[i]) == Err(r.error)
                         && forall j :: 0 <= j < i ==> BindingOperationEntry(web, os[j]).Ok?
  {
    Gather(os, (o: Xml.Cursor) requires BindingOperationWellFormed(o) => BindingOperationEntry(web, o))
  }

  /** `Binding(deserialize:)`: the transport must be SOAP over HTTP; then the name, the port type
      and the binding operations, with the unsupported ones dropped. */
  function ParseBinding(web: Web, c: Xml.Cursor): (r: Result<Binding, Error>)
    requires BindingWellFormed(c)
    ensures r == Err(BindingFailure(NoTransport)) <==> Transport(c).None?
    ensures Transport(c).Some? && Transport(c) != Some(SOAP_HTTP) ==> r == Err(BindingFailure(UnsupportedTransport(Transport(c).value)))
    ensures r.Ok? ==> Transport(c) == Some(SOAP_HTTP) && Ok(r.value.name) == NameOf(c)
                      && Ok(r.value.type_) == TypeAttribute(c, "type")
    ensures r.Ok? ==> Ok(r.value.operations) == BindingOperations(web, c)
    ensures Transport(c) == Some(SOAP_HTTP) ==>
              var name := NameOf(c);
              var type_ := TypeAttribute(c, "type");
              && (name.Err? ==> r == Err(name.error))
              && (name.Ok? && type_.Err? ==> r == Err(type_.error))
              && (name.Ok? && type_.Ok? ==>
                    XS.Wraps(r, BindingOperations(web, c),
                             (operations: seq<BindingOperation>) => Binding(name.value, type_.value, operations)))
  {
    match Transport(c)
    case None => Err(BindingFailure(NoTransport))
    case Some(transport) =>
      if transport != SOAP_HTTP then Err(BindingFailure(UnsupportedTransport(transport)))
      else
        var name :- NameOf(c);
        var type_ :- TypeAttribute(c, "type");
        var operations :- BindingOperations(web, c);
        Ok(Binding(name, type_, operations))
  }

  /** The compactMap over the definitions' bindings: a binding without transport is dropped, any
      other binding error is wrapped, and the other errors stand. */
  function BindingEntry(web: Web, c: Xml.Cursor): (r: Result<Option<Binding>, Error>)
    requires BindingWellFormed(c)
    ensures Transport(c).None? ==> r == Ok(None)
    ensures r.Ok? && r.value.Some? <==> ParseBinding(web, c).Ok?
    ensures r.Ok? && r.value.Some? ==> r.value.value == ParseBinding(web, c).value
    ensures ParseBinding(web, c).Err? && ParseBinding(web, c).error.BindingFailure? && ParseBinding(web, c).error.bindingError != NoTransport
            ==> r == Err(DescriptionFailure(BindingError(ParseBinding(web, c).error.bindingError)))
    ensures ParseBinding(web, c).Err? && !ParseBinding(web, c).error.BindingFailure? ==> r == Err(ParseBinding(web, c).error)
  {
    match ParseBinding(web, c)
    case Ok(b) => Ok(Some(b))
    case Err(BindingFailure(NoTransport)) => Ok(None)
    case Err(BindingFailure(e)) => Err(DescriptionFailure(BindingError(e)))
    case Err(e) => Err(e)
  }

  // ---------------------------------------------------------------- services

  /** The soap:address, else the soap12:address, of a port. */
  function AddressElement(c: Xml.Cursor): Option<Xml.Cursor> {
    match Xml.FirstNamed(c, "address", NS_SOAP)
    case Some(a) => Some(a)
    case None => Xml.FirstNamed(c, "address", NS_SOAP12)
  }

  predicate PortWellFormed(c: Xml.Cursor) {
    HasName(c) && "binding" in c.element.attributes
    && (AddressElement(c).Some? ==> "location" in AddressElement(c).value.element.attributes)
  }

  predicate ServiceWellFormed(c: Xml.Cursor) {
    HasName(c) && forall p :: p in Xml.ElementsNamed(c, "port", NS_WSDL) ==> PortWellFormed(p)
  }

  /** `Service.Port(deserialize:)`: the name, the binding, then a soap address (SOAP 1.1) or a
      soap12 address (SOAP 1.2); with neither the port is unsupported. */
  function ParsePort(c: Xml.Cursor): (r: Result<Port, Error>)
    requires PortWellFormed(c)
    ensures NameOf(c).Ok? && TypeAttribute(c, "binding").Ok? && AddressElement(c).None? ==>
              r == Err(DescriptionFailure(DescriptionParseError.UnsupportedPortAddress(NameOf(c).value)))
    ensures r.Ok? ==> Ok(r.value.name) == NameOf(c) && Ok(r.value.binding) == TypeAttribute(c, "binding")
    ensures r.Ok? ==> Xml.FirstNamed(c, "address", NS_SOAP).Some? ==>
              r.value.address == Soap11(Xml.FirstNamed(c, "address", NS_SOAP).value.element.attributes["location"])
    ensures r.Ok? ==> Xml.FirstNamed(c, "address", NS_SOAP).None? ==>
              AddressElement(c).Some? && r.value.address == Soap12(AddressElement(c).value.element.attributes["location"])
    ensures r.Ok? <==> NameOf(c).Ok? && TypeAttribute(c, "binding").Ok? && AddressElement(c).Some?
  {
    var name :- NameOf(c);
    var binding :- TypeAttribute(c, "binding");
    match Xml.FirstNamed(c, "address", NS_SOAP)
    case Some(a) => Ok(Port(name, binding, Soap11(a.element.attributes["location"])))
    case None =>
      match Xml.FirstNamed(c, "address", NS_SOAP12)
      case Some(a) => Ok(Port(name, binding, Soap12(a.element.attributes["location"])))
      case None => Err(DescriptionFailure(DescriptionParseError.UnsupportedPortAddress(name)))
  }

  /** The compactMap over a service's ports: a port with an unsupported address is dropped. */
  function PortEntry(c: Xml.Cursor): (r: Result<Option<Port>, Error>)
    requires PortWellFormed(c)
    ensures r == Ok(None) <==> ParsePort(c).Err? && ParsePort(c).error.DescriptionFailure?
                               && ParsePort(c).error.descriptionError.UnsupportedPortAddress?
    ensures r.Ok? && r.value.Some? <==> ParsePort(c).Ok?
    ensures r.Ok? && r.value.Some? ==> r.value.value == ParsePort(c).value
  {
    match ParsePort(c)
    case Ok(p) => Ok(Some(p))
    case Err(DescriptionFailure(UnsupportedPortAddress(_))) => Ok(None)
    case Err(e) => Err(e)
  }

  /** `Service(deserialize:)`: the name, the first documentation, and the supported ports. */
  function ParseService(c: Xml.Cursor): (r: Result<Service, Error>)
    requires ServiceWellFormed(c)
    ensures r.Ok? ==> Ok(r.value.name) == NameOf(c) && r.value.documentation == Documentation(c)
    ensures r.Ok? ==> Ok(r.value.ports) == Gather(Xml.ElementsNamed(c, "port", NS_WSDL), PortEntry)
    ensures Xml.TargetNamespace(c).None? ==> r == Err(DescriptionFailure(NodeWithoutTargetNamespace))
    ensures NameOf(c).Ok? ==>
              XS.Wraps(r, Gather(Xml.ElementsNamed(c, "port", NS_WSDL), PortEntry),
                       (ports: seq<Port>) => Service(NameOf(c).value, Documentation(c), ports))
  {
    var name :- NameOf(c);
    var ports :- Gather(Xml.ElementsNamed(c, "port", NS_WSDL), PortEntry);
    Ok(Service(name, Documentation(c), ports))
  }

  // ---------------------------------------------------------------- schema imports

  /** The state of the import walk: the collected schema nodes, the URLs still to fetch (the
      `remainingImports` set, kept here in the order the URLs were queued), every URL ever queued
      (`seenSchemaURLs`), the namespaces xs:import asked for and the target namespaces read. */
  datatype Worklist = Worklist(nodes: seq<XS.SchemaNode>, remaining: seq<string>, seen: set<string>,
                               required: set<string>, imported: set<string>)

  const EmptyWorklist := Worklist([], [], {}, {}, {})

  predicate NoDuplicates(s: seq<string>) {
    forall i, j :: 0 <= i < j < |s| ==> s[i] != s[j]
  }

  /** Every queued URL is queued once and was recorded as seen. */
  predicate Queued(w: Worklist) {
    NoDuplicates(w.remaining) && forall i :: 0 <= i < |w.remaining| ==> w.remaining[i] in w.seen
  }

  /** The URLs already taken off the queue. */
  function Fetched(w: Worklist): set<string> {
    w.seen - Members(w.remaining)
  }

  function Members(s: seq<string>): set<string> {
    set i | 0 <= i < |s| :: s[i]
  }

  /** `URL(string: schemaLocation, relativeTo: base)!` succeeds for an import with a location. */
  predicate LocationResolves(web: Web, node: XS.SchemaNode, base: Option<string>) {
    node.ImportNode? && node.import_.schemaLocation.Some? ==> web.resolve(node.import_.schemaLocation.value, base).Some?
  }

  predicate LocationsResolve(web: Web, xsd: seq<XS.SchemaNode>, base: Option<string>) {
    forall i :: 0 <= i < |xsd| ==> LocationResolves(web, xsd[i], base)
  }

  /** The resolved location of an import that has one. */
  function LocationOf(web: Web, node: XS.SchemaNode, base: Option<string>): Option<string>
    requires LocationResolves(web, node, base)
  {
    if node.ImportNode? && node.import_.schemaLocation.Some? then web.resolve(node.import_.schemaLocation.value, base)
    else None
  }

  /** One turn of the loop of `append(xsd:relativeTo:)`: an import records its namespace and queues
      its URL when the URL was not seen before; any other node is collected. */
  function Visit(web: Web, w: Worklist, node: XS.SchemaNode, base: Option<string>): Worklist
    requires LocationResolves(web, node, base)
  {
    if node.ImportNode? then
      var w1 := w.(required := w.required + {node.import_.namespace});
      match LocationOf(web, node, base)
      case None => w1
      case Some(url) => if url in w1.seen then w1 else w1.(seen := w1.seen + {url}, remaining := w1.remaining + [url])
    else
      w.(nodes := w.nodes + [node])
  }

  /** `append(xsd:relativeTo:)`: visits the nodes of a schema in order. */
  function Append(web: Web, w: Worklist, xsd: seq<XS.SchemaNode>, base: Option<string>): Worklist
    requires LocationsResolve(web, xsd, base)
  {
    if |xsd| == 0 then w
    else Visit(web, Append(web, w, xsd[..|xsd| - 1], base), xsd[|xsd| - 1], base)
  }

  /** The nodes of a schema other than its imports, in order. */
  function NonImports(xsd: seq<XS.SchemaNode>): (r: seq<XS.SchemaNode>)
    ensures forall n :: n in r <==> n in xsd && !n.ImportNode?
  {
    if |xsd| == 0 then []
    else
      assert xsd == xsd[..|xsd| - 1] + [xsd[|xsd| - 1]];
      NonImports(xsd[..|xsd| - 1]) + (if xsd[|xsd| - 1].ImportNode? then [] else [xsd[|xsd| - 1]])
  }

  predicate NoImportNodes(nodes: seq<XS.SchemaNode>) {
    forall i :: 0 <= i < |nodes| ==> !nodes[i].ImportNode?
  }

  /** The namespaces the imports of a schema name. */
  function ImportNamespaces(xsd: seq<XS.SchemaNode>): set<string> {
    set i | 0 <= i < |xsd| && xsd[i].ImportNode? :: xsd[i].import_.namespace
  }

  /** The resolved locations of the imports of a schema. */
  function Locations(web: Web, xsd: seq<XS.SchemaNode>, base: Option<string>): set<string>
    requires LocationsResolve(web, xsd, base)
  {
    set i | 0 <= i < |xsd| && LocationOf(web, xsd[i], base).Some? :: LocationOf(web, xsd[i], base).value
  }

  /** What appending a schema does: its non-import nodes are collected in order and nothing else is;
      its import namespaces become required; its locations become seen, each new one queued once
      behind the URLs already queued; nothing is taken off the queue. */
  lemma {:induction false} AppendEffect(web: Web, w: Worklist, xsd: seq<XS.SchemaNode>, base: Option<string>)
    requires LocationsResolve(web, xsd, base)
    ensures var w' := Append(web, w, xsd, base);
      && w'.nodes == w.nodes + NonImports(xsd)
      && w'.required == w.required + ImportNamespaces(xsd)
      && w'.seen == w.seen + Locations(web, xsd, base)
      && w'.imported == w.imported
      && |w.remaining| <= |w'.remaining| && w'.remaining[..|w.remaining|] == w.remaining
      && (Queued(w) ==> Queued(w') && Fetched(w') == Fetched(w))
    decreases |xsd|
  {
    if |xsd| > 0 {
      var init := xsd[..|xsd| - 1];
      var last := xsd[|xsd| - 1];
      assert LocationsResolve(web, init, base) by {
        forall i | 0 <= i < |init| ensures LocationResolves(web, init[i], base) { assert init[i] == xsd[i]; }
      }
      AppendEffect(web, w, init, base);
      var v := Append(web, w, init, base);
      assert xsd == init + [last];
      ImportNamespacesSnoc(init, last);
      LocationsSnoc(web, init, last, base);
      VisitEffect(web, v, last, base);
      var w' := Append(web, w, xsd, base);
      assert w'.remaining[..|v.remaining|] == v.remaining;
      assert w'.remaining[..|w.remaining|] == v.remaining[..|w.remaining|];
    }
  }

  lemma ImportNamespacesSnoc(init: seq<XS.SchemaNode>, last: XS.SchemaNode)
    ensures ImportNamespaces(init + [last])
            == ImportNamespaces(init) + (if last.ImportNode? then {last.import_.namespace} else {})
  {
    var xsd := init + [last];
    forall i | 0 <= i < |init| ensures xsd[i] == init[i] { }
    assert xsd[|init|] == last;
  }

  lemma LocationsSnoc(web: Web, init: seq<XS.SchemaNode>, last: XS.SchemaNode, base: Option<string>)
    requires LocationsResolve(web, init, base) && LocationResolves(web, last, base)
    requires LocationsResolve(web, init + [last], base)
    ensures Locations(web, init + [last], base)
            == Locations(web, init, base) + (if LocationOf(web, last, base).Some? then {LocationOf(web, last, base).value} else {})
  {
    var xsd := init + [last];
    forall i | 0 <= i < |init| ensures xsd[i] == init[i] { }
    assert xsd[|init|] == last;
  }

  lemma VisitEffect(web: Web, w: Worklist, node: XS.SchemaNode, base: Option<string>)
    requires LocationResolves(web, node, base)
    ensures var w' := Visit(web, w, node, base);
      && w'.nodes == w.nodes + (if node.ImportNode? then [] else [node])
      && w'.required == w.required + (if node.ImportNode? then {node.import_.namespace} else {})
      && w'.seen == w.seen + (if LocationOf(web, node, base).Some? then {LocationOf(web, node, base).value} else {})
      && w'.imported == w.imported
      && |w.remaining| <= |w'.remaining| && w'.remaining[..|w.remaining|] == w.remaining
      && (Queued(w) ==> Queued(w') && Fetched(w') == Fetched(w))
  {
    var w' := Visit(web, w, node, base);
    if node.ImportNode? && LocationOf(web, node, base).Some? && LocationOf(web, node, base).value !in w.seen {
      var url := LocationOf(web, node, base).value;
      assert w'.remaining == w.remaining + [url];
      assert w'.remaining[..|w.remaining|] == w.remaining;
      if Queued(w) {
        assert Members(w'.remaining) == Members(w.remaining) + {url} by {
          forall u | u in Members(w'.remaining) ensures u in Members(w.remaining) + {url} {
            var i :| 0 <= i < |w'.remaining| && w'.remaining[i] == u;
            if i < |w.remaining| { assert w'.remaining[i] == w.remaining[i]; }
          }
          assert w'.remaining[|w.remaining|] == url;
          forall u | u in Members(w.remaining) ensures u in Members(w'.remaining) {
            var i :| 0 <= i < |w.remaining| && w.remaining[i] == u;
            assert w'.remaining[i] == u;
          }
        }
      }
    }
  }

  /** Taking the first URL off the queue: it was not fetched before, and now it is. */
  lemma Pop(w: Worklist, imported: set<string>)
    requires Queued(w) && |w.remaining| > 0
    ensures var w1 := w.(remaining := w.remaining[1..], imported := imported);
      Queued(w1) && w.remaining[0] !in Fetched(w) && Fetched(w1) == Fetched(w) + {w.remaining[0]}
  {
    var w1 := w.(remaining := w.remaining[1..], imported := imported);
    assert Members(w.remaining) == Members(w1.remaining) + {w.remaining[0]} by {
      forall u | u in Members(w.remaining) ensures u in Members(w1.remaining) + {w.remaining[0]} {
        var i :| 0 <= i < |w.remaining| && w.remaining[i] == u;
        if i > 0 { assert w1.remaining[i - 1] == u; }
      }
      forall u | u in Members(w1.remaining) ensures u in Members(w.remaining) {
        var i :| 0 <= i < |w1.remaining| && w1.remaining[i] == u;
        assert w.remaining[i + 1] == u;
      }
    }
    assert w.remaining[0] !in Members(w1.remaining) by {
      forall i | 0 <= i < |w1.remaining| ensures w1.remaining[i] != w.remaining[0] {
        assert w1.remaining[i] == w.remaining[i + 1];
      }
    }
  }

  /** `URL(string:relativeTo:)!` succeeds for every import of every schema that can be downloaded,
      relative to the URL the schema came from. */
  predicate DownloadsResolve(web: Web) {
    forall u :: u in web.schemas && web.schemas[u].Ok? ==> LocationsResolve(web, web.schemas[u].value.nodes, Some(u))
  }

  /** The download loop: pops the first queued URL, downloads and parses its schema, which must have
      a target namespace, records that namespace and appends the schema relative to its own URL;
      it stops when nothing is queued. */
  function Drain(web: Web, w: Worklist): (r: Result<Worklist, Error>)
    requires DownloadsResolve(web) && Queued(w)
    ensures r.Ok? ==> r.value.remaining == [] && Queued(r.value)
    ensures |w.remaining| > 0 && w.remaining[0] !in web.schemas ==> r == Err(DownloadFailed(w.remaining[0]))
    ensures |w.remaining| > 0 && w.remaining[0] in web.schemas && web.schemas[w.remaining[0]].Ok?
            && web.schemas[w.remaining[0]].value.targetNamespace.None?
            ==> r == Err(DescriptionFailure(SchemaWithoutTargetNamespace))
    decreases |web.schemas.Keys - Fetched(w)|
  {
    if |w.remaining| == 0 then Ok(w)
    else
      var url := w.remaining[0];
      if url !in web.schemas then Err(DownloadFailed(url))
      else
        var xsd :- web.schemas[url];
        match xsd.targetNamespace
        case None => Err(DescriptionFailure(SchemaWithoutTargetNamespace))
        case Some(tns) =>
          var w1 := w.(remaining := w.remaining[1..], imported := w.imported + {tns});
          Pop(w, w.imported + {tns});
          AppendEffect(web, w1, xsd.nodes, Some(url));
          var w2 := Append(web, w1, xsd.nodes, Some(url));
          assert web.schemas.Keys - Fetched(w2) == (web.schemas.Keys - Fetched(w)) - {url};
          Drain(web, w2)
  }

  /** Every fetched URL came from a downloaded schema with a target namespace that was recorded,
      and every import location of that schema has been seen. */
  predicate Closed(web: Web, w: Worklist)
    requires DownloadsResolve(web)
  {
    && NoImportNodes(w.nodes)
    && forall u :: u in Fetched(w) ==>
      && u in web.schemas && web.schemas[u].Ok?
      && web.schemas[u].value.targetNamespace.Some?
      && web.schemas[u].value.targetNamespace.value in w.imported
      && Locations(web, web.schemas[u].value.nodes, Some(u)) <= w.seen
  }

  /** The worklist after one successful turn of the download loop. */
  function Turn(web: Web, w: Worklist): Worklist
    requires DownloadsResolve(web) && |w.remaining| > 0
    requires w.remaining[0] in web.schemas && web.schemas[w.remaining[0]].Ok?
  {
    var url := w.remaining[0];
    var xsd := web.schemas[url].value;
    var w1 := w.(remaining := w.remaining[1..], imported := w.imported + if xsd.targetNamespace.Some? then {xsd.targetNamespace.value} else {});
    Append(web, w1, xsd.nodes, Some(url))
  }

  /** One successful turn keeps the queue and the closure invariants, fetches one more URL, and
      leaves the outcome of the loop unchanged. */
  lemma TurnKeeps(web: Web, w: Worklist)
    requires DownloadsResolve(web) && Queued(w) && Closed(web, w) && |w.remaining| > 0
    requires w.remaining[0] in web.schemas && web.schemas[w.remaining[0]].Ok?
    requires web.schemas[w.remaining[0]].value.targetNamespace.Some?
    ensures var w2 := Turn(web, w);
      && Queued(w2) && Closed(web, w2)
      && Fetched(w2) == Fetched(w) + {w.remaining[0]} && w.remaining[0] !in Fetched(w)
      && w.seen <= w2.seen && w.required <= w2.required && w.imported <= w2.imported
      && |w.nodes| <= |w2.nodes| && w2.nodes[..|w.nodes|] == w.nodes
      && Drain(web, w) == Drain(web, w2)
  {
    var url := w.remaining[0];
    var xsd := web.schemas[url].value;
    var w1 := w.(remaining := w.remaining[1..], imported := w.imported + {xsd.targetNamespace.value});
    Pop(w, w1.imported);
    AppendEffect(web, w1, xsd.nodes, Some(url));
  }

  /** When the download loop ends, the URLs seen are exactly the URLs fetched, and the imports of
      every schema fetched are among them: the imports are closed. Nothing collected before is lost. */
  lemma {:induction false} DrainCloses(web: Web, w: Worklist)
    requires DownloadsResolve(web) && Queued(w) && Closed(web, w)
    requires Drain(web, w).Ok?
    ensures var w' := Drain(web, w).value;
      && w'.remaining == [] && w'.seen == Fetched(w') && Closed(web, w')
      && w.seen <= w'.seen && w.required <= w'.required && w.imported <= w'.imported
      && |w.nodes| <= |w'.nodes| && w'.nodes[..|w.nodes|] == w.nodes
    decreases |web.schemas.Keys - Fetched(w)|
  {
    if |w.remaining| > 0 {
      TurnKeeps(web, w);
      var w2 := Turn(web, w);
      assert web.schemas.Keys - Fetched(w2) == (web.schemas.Keys - Fetched(w)) - {w.remaining[0]};
      DrainCloses(web, w2);
      var w' := Drain(web, w).value;
      assert w'.nodes[..|w.nodes|] == w'.nodes[..|w2.nodes|][..|w.nodes|];
    } else {
      assert Members(w.remaining) == {};
    }
  }

  /** Every schema inside wsdl:types satisfies the preconditions of the schema reader, and, when it
      reads, every import location resolves relative to the WSDL's own URL. */
  predicate InlineWellFormed(web: Web, c: Xml.Cursor, base: Option<string>) {
    XS.WellFormed(c) && (XS.SchemaOf(c).Ok? ==> LocationsResolve(web, XS.SchemaOf(c).value.nodes, base))
  }

  /** The inline schema was read, carries a target namespace recorded in `w`, and its import
      locations were seen by `w`. */
  predicate InlineRead(web: Web, c: Xml.Cursor, base: Option<string>, w: Worklist) {
    && InlineWellFormed(web, c, base)
    && XS.SchemaOf(c).Ok? && XS.SchemaOf(c).value.targetNamespace.Some?
    && XS.SchemaOf(c).value.targetNamespace.value in w.imported
    && Locations(web, XS.SchemaOf(c).value.nodes, base) <= w.seen
  }

  /** What was read stays read as the worklist grows. */
  lemma InlineReadGrows(web: Web, cs: seq<Xml.Cursor>, base: Option<string>, w: Worklist, w': Worklist)
    requires forall i :: 0 <= i < |cs| ==> InlineRead(web, cs[i], base, w)
    requires w.seen <= w'.seen && w.imported <= w'.imported
    ensures forall i :: 0 <= i < |cs| ==> InlineRead(web, cs[i], base, w')
  {
  }

  lemma InlineReadSnoc(web: Web, init: seq<Xml.Cursor>, last: Xml.Cursor, base: Option<string>, w: Worklist)
    requires forall i :: 0 <= i < |init| ==> InlineRead(web, init[i], base, w)
    requires InlineRead(web, last, base, w)
    ensures forall i :: 0 <= i < |init + [last]| ==> InlineRead(web, (init + [last])[i], base, w)
  {
    forall i | 0 <= i < |init + [last]| ensures InlineRead(web, (init + [last])[i], base, w) {
      if i < |init| { assert (init + [last])[i] == init[i]; }
    }
  }

  /** The loop over the inline schemas: each must read and carry a target namespace, which is
      recorded before the schema is appended relative to the WSDL's own URL. */
  function Inline(web: Web, w: Worklist, schemas: seq<Xml.Cursor>, base: Option<string>): (r: Result<Worklist, Error>)
    requires forall i :: 0 <= i < |schemas| ==> InlineWellFormed(web, schemas[i], base)
    ensures r.Ok? ==> forall i :: 0 <= i < |schemas| ==> InlineRead(web, schemas[i], base, r.value)
    ensures r.Ok? && Queued(w) ==> Queued(r.value) && Fetched(r.value) == Fetched(w)
    ensures r.Ok? ==> w.seen <= r.value.seen && w.imported <= r.value.imported
    ensures r.Ok? && NoImportNodes(w.nodes) ==> NoImportNodes(r.value.nodes)
    decreases |schemas|
  {
    if |schemas| == 0 then Ok(w)
    else
      var init := schemas[..|schemas| - 1];
      var w1 :- Inline(web, w, init, base);
      var last := schemas[|schemas| - 1];
      assert InlineWellFormed(web, last, base);
      var xsd :- XS.SchemaOf(last);
      match xsd.targetNamespace
      case None => Err(DescriptionFailure(SchemaWithoutTargetNamespace))
      case Some(tns) =>
        var w2 := w1.(imported := w1.imported + {tns});
        AppendEffect(web, w2, xsd.nodes, base);
        var w3 := Append(web, w2, xsd.nodes, base);
        InlineReadGrows(web, init, base, w1, w3);
        assert InlineRead(web, last, base, w3);
        SplitLast(schemas);
        InlineReadSnoc(web, init, last, base, w3);
        Ok(w3)
  }

  /** The walk over the inline schemas followed by the download loop. */
  function Collected(web: Web, types: Xml.Cursor, base: Option<string>): (r: Result<Worklist, Error>)
    requires DownloadsResolve(web)
    requires forall s :: s in Xml.ElementsNamed(types, "schema", NS_XS) ==> InlineWellFormed(web, s, base)
    ensures r.Ok? ==> r.value.remaining == [] && r.value.seen == Fetched(r.value) && Closed(web, r.value)
    ensures r.Ok? ==> forall s :: s in Xml.ElementsNamed(types, "schema", NS_XS) ==> InlineRead(web, s, base, r.value)
  {
    var schemas := Xml.ElementsNamed(types, "schema", NS_XS);
    assert Members([]) == {};
    var w :- Inline(web, EmptyWorklist, schemas, base);
    assert Closed(web, w);
    var w' :- Drain(web, w);
    DrainCloses(web, w);
    Ok(w')
  }

  /** The schema nodes of the WSDL: none without wsdl:types; otherwise the collected nodes,
      provided every required namespace was imported. */
  function SchemaNodes(web: Web, c: Xml.Cursor, base: Option<string>): (r: Result<seq<XS.SchemaNode>, Error>)
    requires TypesWellFormed(web, c, base)
    ensures Xml.FirstNamed(c, "types", NS_WSDL).None? ==> r == Ok([])
    ensures r.Ok? ==> NoImportNodes(r.value)
    ensures Xml.FirstNamed(c, "types", NS_WSDL).Some? ==>
      var w := Collected(web, Xml.FirstNamed(c, "types", NS_WSDL).value, base);
      && (w.Err? ==> r == Err(w.error))
      && (w.Ok? && w.value.required <= w.value.imported ==> r == Ok(w.value.nodes))
      && (w.Ok? && !(w.value.required <= w.value.imported) ==>
            r == Err(DescriptionFailure(MissingImportedNamespaces(w.value.required - w.value.imported))))
  {
    match Xml.FirstNamed(c, "types", NS_WSDL)
    case None => Ok([])
    case Some(types) =>
      var w :- Collected(web, types, base);
      if w.required <= w.imported then Ok(w.nodes)
      else Err(DescriptionFailure(MissingImportedNamespaces(w.required - w.imported)))
  }

  predicate TypesWellFormed(web: Web, c: Xml.Cursor, base: Option<string>) {
    && DownloadsResolve(web)
    && (Xml.FirstNamed(c, "types", NS_WSDL).Some? ==>
          forall s :: s in Xml.ElementsNamed(Xml.FirstNamed(c, "types", NS_WSDL).value, "schema", NS_XS) ==>
            InlineWellFormed(web, s, base))
  }

  // ---------------------------------------------------------------- the description

  /** One wsdl:import: its namespace must be a URL and its location must resolve relative to the
      WSDL's own URL. */
  function DefinitionImportOf(web: Web, c: Xml.Cursor, base: Option<string>): (r: Result<DefinitionImport, Error>)
    ensures r.Ok? <==> Xml.Attribute(c, "namespace").Some? && web.resolve(Xml.Attribute(c, "namespace").value, None).Some?
                       && Xml.Attribute(c, "location").Some? && web.resolve(Xml.Attribute(c, "location").value, base).Some?
    ensures r.Ok? ==> r.value.namespace == web.resolve(Xml.Attribute(c, "namespace").value, None).value
                      && r.value.location == web.resolve(Xml.Attribute(c, "location").value, base).value
    ensures r.Err? ==> r.error == DescriptionFailure(UnsupportedImport)
  {
    var namespace := Xml.Attribute(c, "namespace");
    var location := Xml.Attribute(c, "location");
    if namespace.None? || web.resolve(namespace.value, None).None? then Err(DescriptionFailure(UnsupportedImport))
    else if location.None? || web.resolve(location.value, base).None? then Err(DescriptionFailure(UnsupportedImport))
    else Ok(DefinitionImport(web.resolve(namespace.value, None).value, web.resolve(location.value, base).value))
  }

  /** The definitions' wsdl:import elements, every one of which must read: a single unsupported
      import fails the whole description. */
  function Imports(web: Web, c: Xml.Cursor, base: Option<string>): (r: Result<seq<DefinitionImport>, Error>)
    ensures var imps := Xml.ElementsNamed(c, "import", NS_WSDL);
      && (r.Ok? <==> forall i :: 0 <= i < |imps| ==> DefinitionImportOf(web, imps[i], base).Ok?)
      && (r.Ok? ==> |r.value| == |imps| && forall i :: 0 <= i < |imps| ==> r.value[i] == DefinitionImportOf(web, imps[i], base).value)
      && (r.Err? ==> r.error == DescriptionFailure(UnsupportedImport))
  {
    MapAll(Xml.ElementsNamed(c, "import", NS_WSDL), (i: Xml.Cursor) => DefinitionImportOf(web, i, base))
  }

  /** Every message of the definitions, each of which must read. */
  function Messages(c: Xml.Cursor): (r: Result<seq<Message>, Error>)
    requires forall m :: m in Xml.ElementsNamed(c, "message", NS_WSDL) ==> MessageWellFormed(m)
    ensures var ms := Xml.ElementsNamed(c, "message", NS_WSDL);
      && (r.Ok? <==> forall i :: 0 <= i < |ms| ==> ParseMessage(ms[i]).Ok?)
      && (r.Ok? ==> |r.value| == |ms| && forall i :: 0 <= i < |ms| ==> Ok(r.value[i]) == ParseMessage(ms[i]))
  {
    MapAll(Xml.ElementsNamed(c, "message", NS_WSDL), ParseMessage)
  }

  /** Every port type of the definitions, each of which must read. */
  function PortTypes(c: Xml.Cursor): (r: Result<seq<PortType>, Error>)
    requires forall p :: p in Xml.ElementsNamed(c, "portType", NS_WSDL) ==> PortTypeWellFormed(p)
    ensures var ps := Xml.ElementsNamed(c, "portType", NS_WSDL);
      && (r.Ok? <==> forall i :: 0 <= i < |ps| ==> ParsePortType(ps[i]).Ok?)
      && (r.Ok? ==> |r.value| == |ps| && forall i :: 0 <= i < |ps| ==> Ok(r.value[i]) == ParsePortType(ps[i]))
  {
    MapAll(Xml.ElementsNamed(c, "portType", NS_WSDL), ParsePortType)
  }

  /** Every service of the definitions, each of which must read. */
  function Services(c: Xml.Cursor): (r: Result<seq<Service>, Error>)
    requires forall s :: s in Xml.ElementsNamed(c, "service", NS_WSDL) ==> ServiceWellFormed(s)
    ensures var ss := Xml.ElementsNamed(c, "service", NS_WSDL);
      && (r.Ok? <==> forall i :: 0 <= i < |ss| ==> ParseService(ss[i]).Ok?)
      && (r.Ok? ==> |r.value| == |ss| && forall i :: 0 <= i < |ss| ==> Ok(r.value[i]) == ParseService(ss[i]))
  {
    MapAll(Xml.ElementsNamed(c, "service", NS_WSDL), ParseService)
  }

  /** What the forced unwraps of the readers demand of the document and of the downloads. */
  predicate DescriptionWellFormed(web: Web, c: Xml.Cursor, base: Option<string>) {
    && TypesWellFormed(web, c, base)
    && (forall m :: m in Xml.ElementsNamed(c, "message", NS_WSDL) ==> MessageWellFormed(m))
    && (forall p :: p in Xml.ElementsNamed(c, "portType", NS_WSDL) ==> PortTypeWellFormed(p))
    && (forall b :: b in Xml.ElementsNamed(c, "binding", NS_WSDL) ==> BindingWellFormed(b))
    && (forall s :: s in Xml.ElementsNamed(c, "service", NS_WSDL) ==> ServiceWellFormed(s))
  }

  /** `WebServiceDescription(deserialize:relativeTo:)` as a value: the root must be
      wsdl:definitions; then the imports, the schema nodes, the messages, the port types, the
      bindings (those without transport dropped) and the services, each failing on the first
      error in document order. */
  function DescriptionOf(web: Web, c: Xml.Cursor, base: Option<string>): (r: Result<Description, Error>)
    requires DescriptionWellFormed(web, c, base)
    ensures !(c.element.localName == "definitions" && c.element.uri == Some(NS_WSDL)) ==>
              r == Err(DescriptionFailure(DescriptionParseError.IncorrectRootElement))
    ensures r.Ok? ==> SchemaNodes(web, c, base) == Ok(r.value.schema.nodes) && r.value.schema.targetNamespace.None?
    ensures r.Ok? ==> NoImportNodes(r.value.schema.nodes)
    ensures r.Ok? ==> Ok(r.value.messages) == Messages(c)
    ensures r.Ok? ==> Ok(r.value.portTypes) == PortTypes(c)
    ensures r.Ok? ==> Ok(r.value.services) == Services(c)
    ensures r.Ok? ==> Ok(r.value.bindings) == Bindings(web, c)
    ensures r.Ok? ==> Ok(r.value.imports) == Imports(web, c, base)
    ensures c.element.localName == "definitions" && c.element.uri == Some(NS_WSDL) ==>
      var imports := Imports(web, c, base);
      var nodes := SchemaNodes(web, c, base);
      var messages := Messages(c);
      var portTypes := PortTypes(c);
      var bindings := Bindings(web, c);
      var services := Services(c);
      && (r.Ok? <==> imports.Ok? && nodes.Ok? && messages.Ok? && portTypes.Ok? && bindings.Ok? && services.Ok?)
      && (imports.Err? ==> r == Err(imports.error))
      && (imports.Ok? && nodes.Err? ==> r == Err(nodes.error))
      && (imports.Ok? && nodes.Ok? && messages.Err? ==> r == Err(messages.error))
      && (imports.Ok? && nodes.Ok? && messages.Ok? && portTypes.Err? ==> r == Err(portTypes.error))
      && (imports.Ok? && nodes.Ok? && messages.Ok? && portTypes.Ok? && bindings.Err? ==> r == Err(bindings.error))
      && (imports.Ok? && nodes.Ok? && messages.Ok? && portTypes.Ok? && bindings.Ok? && services.Err? ==> r == Err(services.error))
  {
    if !(c.element.localName == "definitions" && c.element.uri == Some(NS_WSDL)) then
      Err(DescriptionFailure(DescriptionParseError.IncorrectRootElement))
    else
      var imports := Imports(web, c, base);
      var nodes := SchemaNodes(web, c, base);
      var messages := Messages(c);
      var portTypes := PortTypes(c);
      var bindings := Bindings(web, c);
      var services := Services(c);
      if imports.Err? then Err(imports.error)
      else if nodes.Err? then Err(nodes.error)
      else if messages.Err? then Err(messages.error)
      else if portTypes.Err? then Err(portTypes.error)
      else if bindings.Err? then Err(bindings.error)
      else if services.Err? then Err(services.error)
      else Ok(Description(imports.value, XS.FromNodes(nodes.value), messages.value, portTypes.value, bindings.value, services.value))
  }

  /** The bindings of the definitions that have a transport, in document order. */
  function Bindings(web: Web, c: Xml.Cursor): (r: Result<seq<Binding>, Error>)
    requires forall b :: b in Xml.ElementsNamed(c, "binding", NS_WSDL) ==> BindingWellFormed(b)
    ensures var bs := Xml.ElementsNamed(c, "binding", NS_WSDL);
      && (r.Ok? <==> forall i :: 0 <= i < |bs| ==> BindingEntry(web, bs[i]).Ok?)
      && (r.Ok? ==> forall i :: 0 <= i < |bs| && ParseBinding(web, bs[i]).Ok? ==> ParseBinding(web, bs[i]).value in r.value)
      && (r.Ok? ==> forall k :: 0 <= k < |r.value| ==> exists i :: 0 <= i < |bs| && ParseBinding(web, bs[i]) == Ok(r.value[k]))
  {
    Gather(Xml.ElementsNamed(c, "binding", NS_WSDL), (b: Xml.Cursor) requires BindingWellFormed(b) => BindingEntry(web, b))
  }

  // ---------------------------------------------------------------- the reader as it runs

  /** `append(xsd:relativeTo:)`: the loop over the nodes of one schema. */
  method AppendSchema(web: Web, w: Worklist, xsd: seq<XS.SchemaNode>, base: Option<string>) returns (w': Worklist)
    requires LocationsResolve(web, xsd, base)
    ensures w' == Append(web, w, xsd, base)
  {
    w' := w;
    var i := 0;
    while i < |xsd|
      invariant 0 <= i <= |xsd|
      invariant LocationsResolve(web, xsd[..i], base)
      invariant w' == Append(web, w, xsd[..i], base)
    {
      assert xsd[..i + 1][..i] == xsd[..i];
      assert LocationResolves(web, xsd[i], base);
      var node := xsd[i];
      if node.ImportNode? {
        w' := w'.(required := w'.required + {node.import_.namespace});
        if node.import_.schemaLocation.Some? {
          var url := web.resolve(node.import_.schemaLocation.value, base).value;
          if url !in w'.seen {
            w' := w'.(seen := w'.seen + {url}, remaining := w'.remaining + [url]);
          }
        }
      } else {
        w' := w'.(nodes := w'.nodes + [node]);
      }
      i := i + 1;
    }
    assert xsd[..i] == xsd;
  }

  /** Once a prefix of the inline schemas fails, the whole walk fails with the same error. */
  lemma {:induction false} InlinePrefixFailure(web: Web, w: Worklist, schemas: seq<Xml.Cursor>, k: nat, base: Option<string>)
    requires forall i :: 0 <= i < |schemas| ==> InlineWellFormed(web, schemas[i], base)
    requires k <= |schemas| && Inline(web, w, schemas[..k], base).Err?
    ensures Inline(web, w, schemas, base) == Inline(web, w, schemas[..k], base)
    decreases |schemas|
  {
    if k < |schemas| {
      var init := schemas[..|schemas| - 1];
      assert init[..k] == schemas[..k];
      InlinePrefixFailure(web, w, init, k, base);
    } else {
      assert schemas[..k] == schemas;
    }
  }

  /** The loop over the schemas inside wsdl:types. */
  method InlineSchemas(web: Web, schemas: seq<Xml.Cursor>, base: Option<string>) returns (r: Result<Worklist, Error>)
    requires forall i :: 0 <= i < |schemas| ==> InlineWellFormed(web, schemas[i], base)
    ensures r == Inline(web, EmptyWorklist, schemas, base)
  {
    var w := EmptyWorklist;
    var i := 0;
    while i < |schemas|
      invariant 0 <= i <= |schemas|
      invariant Inline(web, EmptyWorklist, schemas[..i], base) == Ok(w)
    {
      assert schemas[..i + 1][..i] == schemas[..i];
      assert InlineWellFormed(web, schemas[i], base);
      var xsd := XS.ParseSchema(schemas[i]);
      if xsd.Err? {
        InlinePrefixFailure(web, EmptyWorklist, schemas, i + 1, base);
        return Err(xsd.error);
      }
      if xsd.value.targetNamespace.None? {
        InlinePrefixFailure(web, EmptyWorklist, schemas, i + 1, base);
        return Err(DescriptionFailure(SchemaWithoutTargetNamespace));
      }
      w := w.(imported := w.imported + {xsd.value.targetNamespace.value});
      w := AppendSchema(web, w, xsd.value.nodes, base);
      i := i + 1;
    }
    assert schemas[..i] == schemas;
    r := Ok(w);
  }

  /** The `while let importUrl = remainingImports.popFirst()` loop. */
  method Download(web: Web, w0: Worklist) returns (r: Result<Worklist, Error>)
    requires DownloadsResolve(web) && Queued(w0)
    ensures r == Drain(web, w0)
  {
    var w := w0;
    while |w.remaining| > 0
      invariant Queued(w)
      invariant Drain(web, w) == Drain(web, w0)
      decreases |web.schemas.Keys - Fetched(w)|
    {
      var url := w.remaining[0];
      if url !in web.schemas {
        return Err(DownloadFailed(url));
      }
      if web.schemas[url].Err? {
        return Err(web.schemas[url].error);
      }
      var xsd := web.schemas[url].value;
      if xsd.targetNamespace.None? {
        return Err(DescriptionFailure(SchemaWithoutTargetNamespace));
      }
      ghost var before := w;
      w := w.(remaining := w.remaining[1..], imported := w.imported + {xsd.targetNamespace.value});
      Pop(before, w.imported);
      AppendEffect(web, w, xsd.nodes, Some(url));
      w := AppendSchema(web, w, xsd.nodes, Some(url));
      assert w == Turn(web, before);
      assert web.schemas.Keys - Fetched(w) == (web.schemas.Keys - Fetched(before)) - {url};
    }
    r := Ok(w);
  }

  /** The two loops of the import walk, one after the other. */
  method CollectSchemas(web: Web, types: Xml.Cursor, base: Option<string>) returns (r: Result<Worklist, Error>)
    requires DownloadsResolve(web)
    requires forall s :: s in Xml.ElementsNamed(types, "schema", NS_XS) ==> InlineWellFormed(web, s, base)
    ensures r == Collected(web, types, base)
  {
    var inline := InlineSchemas(web, Xml.ElementsNamed(types, "schema", NS_XS), base);
    if inline.Err? {
      return Err(inline.error);
    }
    assert Members([]) == {};
    r := Download(web, inline.value);
  }

  /** The schema part of `WebServiceDescription(deserialize:relativeTo:)`: no wsdl:types gives no
      nodes; otherwise every schema is collected and each namespace it requires must be imported. */
  method ReadSchemaNodes(web: Web, c: Xml.Cursor, base: Option<string>) returns (r: Result<seq<XS.SchemaNode>, Error>)
    requires TypesWellFormed(web, c, base)
    ensures r == SchemaNodes(web, c, base)
  {
    var types := Xml.FirstNamed(c, "types", NS_WSDL);
    if types.None? {
      return Ok([]);
    }
    var w := CollectSchemas(web, types.value, base);
    if w.Err? {
      return Err(w.error);
    }
    if !(w.value.required <= w.value.imported) {
      return Err(DescriptionFailure(MissingImportedNamespaces(w.value.required - w.value.imported)));
    }
    r := Ok(w.value.nodes);
  }

  /** `WebServiceDescription(deserialize:relativeTo:)`. */
  method ParseDescription(web: Web, c: Xml.Cursor, base: Option<string>) returns (r: Result<Description, Error>)
    requires DescriptionWellFormed(web, c, base)
    ensures r == DescriptionOf(web, c, base)
  {
    if !(c.element.localName == "definitions" && c.element.uri == Some(NS_WSDL)) {
      return Err(DescriptionFailure(DescriptionParseError.IncorrectRootElement));
    }
    var imports := Imports(web, c, base);
    if imports.Err? {
      return Err(imports.error);
    }
    var nodes := ReadSchemaNodes(web, c, base);
    if nodes.Err? {
      return Err(nodes.error);
    }
    var messages := Messages(c);
    if messages.Err? {
      return Err(messages.error);
    }
    var portTypes := PortTypes(c);
    if portTypes.Err? {
      return Err(portTypes.error);
    }
    var bindings := Bindings(web, c);
    if bindings.Err? {
      return Err(bindings.error);
    }
    var services := Services(c);
    if services.Err? {
      return Err(services.error);
    }
    r := Ok(Description(imports.value, XS.FromNodes(nodes.value), messages.value, portTypes.value, bindings.value, services.value));
  }
}
