/** The first client emitter (Client.swift): the client class of a service described by the first
    WSDL reader, and the Swift source lines of each of its methods. A method takes one parameter
    per part of its input message and a final `output` callback; its body builds one XML element
    per parameter and sends them. `toSwiftCode()` of a parameter and the layout `Indentation`
    applies are not declared in the model's sources and are parameters here. */
module ClientCode {
  import opened Wrappers
  import opened QualifiedNames
  import opened SwiftModels
  import LW = LegacyWsdl
  import WSD = WebServiceDescription
  import S = SchemaToSwift
  import X = XsdToSwift
  import Text

  /** `ServiceMethod` of this emitter: a name and the whole input and output messages. */
  datatype ServiceMethod = ServiceMethod(name: Identifier, input: LW.Message, output: LW.Message)

  /** `SwiftClass(name:members:)`, and `SwiftClientClass(name:methods:)` of the oldest mapping. */
  datatype SwiftClass = SwiftClass(name: Identifier, methods: seq<ServiceMethod>)

  /** `Indentation`: a depth and the way a line is laid out at a depth. */
  datatype Indentation = Indentation(depth: nat, render: (nat, string) -> string)

  /** `apply(toLineOfCode:)`. */
  function Line(indentation: Indentation, text: string): string {
    indentation.render(indentation.depth, text)
  }

  /** The indentation of nested lines. */
  function Deeper(indentation: Indentation): (d: Indentation)
    ensures d.depth == indentation.depth + 1 && d.render == indentation.render
  {
    indentation.(depth := indentation.depth + 1)
  }

  /** `map(indentation.apply(toLineOfCode:))`. */
  function Indented(indentation: Indentation, lines: seq<string>): (r: seq<string>)
    ensures |r| == |lines|
    ensures forall i :: 0 <= i < |lines| ==> r[i] == Line(indentation, lines[i])
  {
    seq(|lines|, i requires 0 <= i < |lines| => Line(indentation, lines[i]))
  }

  /** `init(operation:input:output:)`: named after the operation's local name. */
  function NewServiceMethod(operation: WSD.PortOperation, input: LW.Message, output: LW.Message,
                            spelling: Spelling): (m: ServiceMethod)
    ensures m.name == spelling.propertyName(operation.name.localName)
    ensures m.input == input && m.output == output
  {
    ServiceMethod.ServiceMethod(spelling.propertyName(operation.name.localName), input, output)
  }

  // ---------------------------------------------------------------- the client class

  /** The unwraps of `Service.toSwift(wsdl:)`: the first SOAP 1.1 port, its binding and port type,
      and a message for the input and the output of every operation. */
  predicate ServiceResolvable(service: WSD.Service, wsdl: LW.Wsdl) {
    S.Wired(service, wsdl.bindings, wsdl.portTypes)
    && var w := S.WiringOf(service, wsdl.bindings, wsdl.portTypes);
       forall i :: 0 <= i < |w.portType.operations| ==>
         X.MessageNamed(wsdl, w.portType.operations[i].inputMessage).Some?
         && X.MessageNamed(wsdl, w.portType.operations[i].outputMessage).Some?
  }

  function MethodFor(wsdl: LW.Wsdl, operation: WSD.PortOperation, spelling: Spelling): (m: ServiceMethod)
    requires X.MessageNamed(wsdl, operation.inputMessage).Some? && X.MessageNamed(wsdl, operation.outputMessage).Some?
    ensures m.name == spelling.propertyName(operation.name.localName)
    ensures m.input in wsdl.messages && m.input.name == operation.inputMessage
    ensures m.output in wsdl.messages && m.output.name == operation.outputMessage
  {
    NewServiceMethod(operation, X.MessageNamed(wsdl, operation.inputMessage).value,
                     X.MessageNamed(wsdl, operation.outputMessage).value, spelling)
  }

  /** `Service.toSwift(wsdl:)`: "<TypeName>Client" with one method per operation of the port type
      behind the first SOAP 1.1 port, in the port type's order. */
  function ServiceToSwift(service: WSD.Service, wsdl: LW.Wsdl, spelling: Spelling): (r: SwiftClass)
    requires ServiceResolvable(service, wsdl)
    ensures r.name == spelling.typeName(service.name.localName) + "Client"
    ensures |r.methods| == |S.WiringOf(service, wsdl.bindings, wsdl.portTypes).portType.operations|
    ensures forall i :: 0 <= i < |r.methods| ==>
              r.methods[i] == MethodFor(wsdl, S.WiringOf(service, wsdl.bindings, wsdl.portTypes).portType.operations[i], spelling)
  {
    var operations := S.WiringOf(service, wsdl.bindings, wsdl.portTypes).portType.operations;
    SwiftClass(spelling.typeName(service.name.localName) + "Client",
                seq(|operations|, i requires 0 <= i < |operations| => MethodFor(wsdl, operations[i], spelling)))
  }

  /** Each method of the client takes the messages the port type names for that operation. */
  lemma ClientMethodsUsePortTypeMessages(service: WSD.Service, wsdl: LW.Wsdl, spelling: Spelling, i: nat)
    requires ServiceResolvable(service, wsdl)
    requires i < |ServiceToSwift(service, wsdl, spelling).methods|
    ensures var op := S.WiringOf(service, wsdl.bindings, wsdl.portTypes).portType.operations[i];
            var m := ServiceToSwift(service, wsdl, spelling).methods[i];
            m.name == spelling.propertyName(op.name.localName)
            && m.input.name == op.inputMessage && m.output.name == op.outputMessage
  {
    var op := S.WiringOf(service, wsdl.bindings, wsdl.portTypes).portType.operations[i];
    assert ServiceToSwift(service, wsdl, spelling).methods[i] == MethodFor(wsdl, op, spelling);
  }

  // ---------------------------------------------------------------- parameters

  function PartParameter(part: LW.Part, spelling: Spelling): SwiftParameter {
    SwiftParameter(spelling.propertyName(part.name.localName), Identifier(spelling.typeName(part.element.localName)))
  }

  const OUTPUT_PARAMETER: SwiftParameter := SwiftParameter("output", Identifier("() -> ()"))

  /** `parameters`: one per input part, named after the part and typed after its element, then
      the output callback. */
  function Parameters(m: ServiceMethod, spelling: Spelling): (r: seq<SwiftParameter>)
    ensures |r| == |m.input.parts| + 1
    ensures forall i :: 0 <= i < |m.input.parts| ==>
              r[i].name == spelling.propertyName(m.input.parts[i].name.localName)
              && r[i].type_ == Identifier(spelling.typeName(m.input.parts[i].element.localName))
    ensures r[|r| - 1] == SwiftParameter("output", Identifier("() -> ()"))
  {
    var parts := m.input.parts;
    seq(|parts|, i requires 0 <= i < |parts| => PartParameter(parts[i], spelling)) + [OUTPUT_PARAMETER]
  }

  /** `parameterList`: the rendered parameters separated by ", ". */
  function ParameterList(m: ServiceMethod, spelling: Spelling, toSwiftCode: SwiftParameter -> string): string {
    var parameters := Parameters(m, spelling);
    Text.Join(seq(|parameters|, i requires 0 <= i < |parameters| => toSwiftCode(parameters[i])), ", ")
  }

  /** The list always ends with the output callback: alone when the input has no parts, otherwise
      after the input parameters and one ", ". */
  lemma ParameterListEndsWithOutput(m: ServiceMethod, spelling: Spelling, toSwiftCode: SwiftParameter -> string)
    ensures |m.input.parts| == 0 ==> ParameterList(m, spelling, toSwiftCode) == toSwiftCode(OUTPUT_PARAMETER)
    ensures |m.input.parts| > 0 ==>
              ParameterList(m, spelling, toSwiftCode)
              == Text.Join(seq(|m.input.parts|, i requires 0 <= i < |m.input.parts| =>
                                 toSwiftCode(PartParameter(m.input.parts[i], spelling))), ", ")
                 + ", " + toSwiftCode(OUTPUT_PARAMETER)
  {
    var parameters := Parameters(m, spelling);
    var rendered := seq(|parameters|, i requires 0 <= i < |parameters| => toSwiftCode(parameters[i]));
    var inputs := seq(|m.input.parts|, i requires 0 <= i < |m.input.parts| => toSwiftCode(PartParameter(m.input.parts[i], spelling)));
    assert rendered == inputs + [toSwiftCode(OUTPUT_PARAMETER)];
    if |inputs| > 0 {
      Text.JoinSnoc(inputs, toSwiftCode(OUTPUT_PARAMETER), ", ");
    }
  }

  // ---------------------------------------------------------------- lines of code

  /** `linesOfCodeForParameter(part:)`: create the part's element in namespace prefix "ns0", bind
      the prefix, serialize the argument into it and collect it. */
  function PartLines(part: LW.Part, spelling: Spelling): (r: seq<string>)
    ensures |r| == 4
  {
    var property := spelling.propertyName(part.name.localName);
    [ "let " + property + "Node = XMLElement(prefix: \"ns0\", localName: \"" + part.name.localName
        + "\", uri: \"" + part.name.uri + "\")",
      property + "Node.addNamespace(XMLNode.namespace(withName: \"ns0\", stringValue: \"" + part.name.uri
        + "\") as! XMLNode)",
      "try " + property + ".serialize(" + property + "Node)",
      "parameters.append(" + property + "Node)" ]
  }

  /** `input.parts.flatMap(linesOfCodeForParameter(part:))`. */
  function PartsLines(parts: seq<LW.Part>, spelling: Spelling): (r: seq<string>)
    ensures |r| == 4 * |parts|
  {
    if |parts| == 0 then [] else PartLines(parts[0], spelling) + PartsLines(parts[1..], spelling)
  }

  /** Four lines per part, in part order: line `4 * k + j` is line `j` of part `k`. */
  lemma {:induction false} PartsLinesInOrder(parts: seq<LW.Part>, spelling: Spelling, k: nat, j: nat)
    requires k < |parts| && j < 4
    ensures PartsLines(parts, spelling)[4 * k + j] == PartLines(parts[k], spelling)[j]
  {
    if k > 0 {
      PartsLinesInOrder(parts[1..], spelling, k - 1, j);
    }
  }

  /** `linesOfCodeForSend(at:)`: send the parameters and deserialize the first output element. */
  function SendLines(m: ServiceMethod, spelling: Spelling): (r: seq<string>)
    ensures |r| == 4
  {
    [ "try send(parameters: parameters, output: { body in",
      "    let outputNode = body.elements(forLocalName: \"" + m.output.name.localName + "\", uri: \""
        + m.output.name.uri + "\").first!",
      "    output(try " + spelling.typeName(m.output.name.localName) + "(deserialize: outputNode))",
      "})" ]
  }

  const PARAMETERS_LINE: string := "let parameters = [XMLElement]()"

  /** `linesOfCodeForBody(at:)`. */
  function Body(m: ServiceMethod, indentation: Indentation, spelling: Spelling): seq<string> {
    [Line(indentation, PARAMETERS_LINE)]
    + Indented(indentation, PartsLines(m.input.parts, spelling))
    + Indented(indentation, SendLines(m, spelling))
  }

  /** The body declares the parameter list, then holds four lines per input part in part order,
      then the four send lines, all at the same indentation. */
  lemma BodyLayout(m: ServiceMethod, indentation: Indentation, spelling: Spelling)
    ensures |Body(m, indentation, spelling)| == 4 * |m.input.parts| + 5
    ensures Body(m, indentation, spelling)[0] == Line(indentation, PARAMETERS_LINE)
    ensures forall k, j :: 0 <= k < |m.input.parts| && 0 <= j < 4 ==>
              Body(m, indentation, spelling)[1 + 4 * k + j] == Line(indentation, PartLines(m.input.parts[k], spelling)[j])
    ensures forall j :: 0 <= j < 4 ==>
              Body(m, indentation, spelling)[4 * |m.input.parts| + 1 + j] == Line(indentation, SendLines(m, spelling)[j])
  {
    var body := Body(m, indentation, spelling);
    var parts := Indented(indentation, PartsLines(m.input.parts, spelling));
    forall k, j | 0 <= k < |m.input.parts| && 0 <= j < 4
      ensures body[1 + 4 * k + j] == Line(indentation, PartLines(m.input.parts[k], spelling)[j])
    {
      PartsLinesInOrder(m.input.parts, spelling, k, j);
      assert body[1 + 4 * k + j] == parts[4 * k + j];
    }
  }

  /** `toLinesOfCode(at:)`: the declaration line, the body one level deeper, and the closing brace. */
  function MethodLines(m: ServiceMethod, indentation: Indentation, spelling: Spelling,
                       toSwiftCode: SwiftParameter -> string): (r: seq<string>)
    ensures |r| == 4 * |m.input.parts| + 7
    ensures r[0] == Line(indentation, "func " + m.name + "(" + ParameterList(m, spelling, toSwiftCode) + ") throws {")
    ensures r[|r| - 1] == Line(indentation, "}")
    ensures r[1..|r| - 1] == Body(m, Deeper(indentation), spelling)
  {
    BodyLayout(m, Deeper(indentation), spelling);
    var body := Body(m, Deeper(indentation), spelling);
    var r := [Line(indentation, "func " + m.name + "(" + ParameterList(m, spelling, toSwiftCode) + ") throws {")]
             + body + [Line(indentation, "}")];
    assert r[1..|r| - 1] == body;
    r
  }
}
