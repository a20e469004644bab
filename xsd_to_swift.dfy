/** The earlier mapping from schema nodes to Swift meta types (XSD+toSwift.swift) and from a
    service of the first WSDL reader to its client class. It differs from the later mapping in four
    places: a nested complex type is generated under its own mapped name while its property is typed
    "UNNAMED"; lists are not implemented; a restriction always becomes an enum; and an element with
    a base type becomes a subclass of that type's class. Binding operations are matched by their
    whole qualified name. */
module XsdToSwift {
  import opened Wrappers
  import opened QualifiedNames
  import opened SwiftModels
  import opened LegacyGraph
  import XS = XmlSchema
  import LW = LegacyWsdl
  import WSD = WebServiceDescription
  import Collections
  import S = SchemaToSwift

  type TypeMapping = S.TypeMapping

  /** The placeholder type name of a member with a complex type of its own. */
  const UNNAMED: Identifier := "UNNAMED"

  datatype ConversionError = NotImplemented

  // ---------------------------------------------------------------- complex types

  /** The lookups for a member: a base type's mapped name, or a nested complex type's own mapped
      name and its lookups. */
  predicate MemberResolvable(e: XS.Element, mapping: TypeMapping, types: Types)
    decreases e, 1
  {
    match e.content
    case Base(b) => TypeNode(b) in mapping
    case Complex(c) => S.Nameable(None, c.name, mapping) && ContentResolvable(c, mapping, types)
  }

  predicate MembersResolvable(es: seq<XS.Element>, mapping: TypeMapping, types: Types)
    decreases es, 2
  {
    S.BasesMapped(es, mapping) && forall i :: 0 <= i < |es| ==> MemberResolvable(es[i], mapping, types)
  }

  predicate ContentResolvable(c: XS.ComplexType, mapping: TypeMapping, types: Types)
    decreases c, 3
  {
    match c.content
    case Sequence(es) => S.BasesMapped(es, mapping) && MembersResolvable(es, mapping, types)
    case ComplexContentOf(cc) =>
      TypeNode(cc.base) in types && types[TypeNode(cc.base)].TypeClass?
      && S.BasesMapped(cc.elements, mapping) && MembersResolvable(cc.elements, mapping, types)
    case Empty => true
  }

  /** The Swift type of a member: the mapped base type, or the placeholder. */
  function MemberTypeName(e: XS.Element, mapping: TypeMapping): Identifier
    requires e.content.Base? ==> TypeNode(e.content.base) in mapping
  {
    match e.content
    case Base(b) => mapping[TypeNode(b)]
    case Complex(_) => UNNAMED
  }

  function PropertyOf(e: XS.Element, mapping: TypeMapping, spelling: Spelling): (p: SwiftProperty)
    requires e.content.Base? ==> TypeNode(e.content.base) in mapping
    ensures p.name == spelling.propertyName(e.name.localName)
    ensures Innermost(p.type_) == if e.content.Base? then mapping[TypeNode(e.content.base)] else UNNAMED
  {
    SwiftProperty(spelling.propertyName(e.name.localName), TypeOf(MemberTypeName(e, mapping), e.occurs))
  }

  /** One property per member, in order. */
  function Properties(es: seq<XS.Element>, mapping: TypeMapping, spelling: Spelling): (r: seq<SwiftProperty>)
    requires S.BasesMapped(es, mapping)
    ensures |r| == |es|
    ensures forall i :: 0 <= i < |es| ==> r[i] == PropertyOf(es[i], mapping, spelling)
  {
    seq(|es|, i requires 0 <= i < |es| => PropertyOf(es[i], mapping, spelling))
  }

  /** The nested type of a complex member: its complex type under that type's own mapped name. */
  function NestedOf(e: XS.Element, mapping: TypeMapping, types: Types, spelling: Spelling): (r: seq<SwiftMetaType>)
    requires MemberResolvable(e, mapping, types)
    ensures e.content.Base? ==> r == []
    ensures e.content.Complex? ==>
              |r| == 1 && r[0].TypeClass? && r[0].name == mapping[TypeNode(e.content.complex.name.value)]
    decreases e, 0
  {
    match e.content
    case Base(_) => []
    case Complex(c) => [ComplexToSwift(c, None, mapping, types, spelling)]
  }

  function NestedTypes(es: seq<XS.Element>, mapping: TypeMapping, types: Types, spelling: Spelling): (r: seq<SwiftMetaType>)
    requires MembersResolvable(es, mapping, types)
    ensures |r| == |S.ComplexMembers(es)|
    decreases es, 1
  {
    if |es| == 0 then []
    else
      var init := es[..|es| - 1];
      assert forall i :: 0 <= i < |init| ==> init[i] == es[i];
      NestedTypes(init, mapping, types, spelling) + NestedOf(es[|es| - 1], mapping, types, spelling)
  }

  /** `ComplexType.toSwift(name:mapping:types:)`. */
  function ComplexToSwift(c: XS.ComplexType, name: Option<Identifier>, mapping: TypeMapping, types: Types,
                          spelling: Spelling): (r: SwiftMetaType)
    requires S.Nameable(name, c.name, mapping)
    requires ContentResolvable(c, mapping, types)
    ensures r.TypeClass? && r.name == S.NameFor(name, c.name, mapping)
    ensures r.superName.None? && r.protocols == []
    ensures r.base.Some? <==> c.content.ComplexContentOf?
    ensures c.content.ComplexContentOf? ==> r.base == Some(types[TypeNode(c.content.complexContent.base)])
    ensures c.content.Sequence? ==> r.properties == Properties(c.content.elements, mapping, spelling)
                                    && r.nestedTypes == NestedTypes(c.content.elements, mapping, types, spelling)
    ensures c.content.ComplexContentOf? ==>
              r.properties == Properties(c.content.complexContent.elements, mapping, spelling)
              && r.nestedTypes == NestedTypes(c.content.complexContent.elements, mapping, types, spelling)
    ensures c.content.Empty? ==> r.properties == [] && r.nestedTypes == []
    decreases c, 2
  {
    var className := S.NameFor(name, c.name, mapping);
    match c.content
    case Sequence(es) =>
      NewTypeClass(className, None, [], Properties(es, mapping, spelling), NestedTypes(es, mapping, types, spelling))
    case ComplexContentOf(cc) =>
      NewTypeClass(className, Some(types[TypeNode(cc.base)]), [], Properties(cc.elements, mapping, spelling),
                   NestedTypes(cc.elements, mapping, types, spelling))
    case Empty => NewTypeClass(className)
  }

  /** The k-th nested type is named after the k-th complex member's own type. */
  lemma {:induction false} NestedTypesNamed(es: seq<XS.Element>, mapping: TypeMapping, types: Types,
                                            spelling: Spelling, k: nat)
    requires MembersResolvable(es, mapping, types)
    requires k < |NestedTypes(es, mapping, types, spelling)|
    ensures S.ComplexMembers(es)[k].content.complex.name.Some?
            && TypeNode(S.ComplexMembers(es)[k].content.complex.name.value) in mapping
    ensures NestedTypes(es, mapping, types, spelling)[k].name
            == mapping[TypeNode(S.ComplexMembers(es)[k].content.complex.name.value)]
  {
    var init := es[..|es| - 1];
    assert forall i :: 0 <= i < |init| ==> init[i] == es[i];
    var front := NestedTypes(init, mapping, types, spelling);
    assert NestedTypes(es, mapping, types, spelling) == front + NestedOf(es[|es| - 1], mapping, types, spelling);
    assert |S.ComplexMembers(init)| == |front|;
    if k < |front| {
      NestedTypesNamed(init, mapping, types, spelling, k);
    }
  }

  /** Whatever its nested type is called, the property of a complex member is typed "UNNAMED". */
  lemma ComplexMembersAreUnnamed(es: seq<XS.Element>, mapping: TypeMapping, spelling: Spelling, i: nat)
    requires S.BasesMapped(es, mapping)
    requires i < |es| && es[i].content.Complex?
    ensures Innermost(Properties(es, mapping, spelling)[i].type_) == UNNAMED
  {
  }

  lemma NestedTypesOfLongerPrefix(es: seq<XS.Element>, mapping: TypeMapping, types: Types, spelling: Spelling, i: nat)
    requires MembersResolvable(es, mapping, types) && i < |es|
    ensures MembersResolvable(es[..i], mapping, types) && MembersResolvable(es[..i + 1], mapping, types)
    ensures NestedTypes(es[..i + 1], mapping, types, spelling)
            == NestedTypes(es[..i], mapping, types, spelling) + NestedOf(es[i], mapping, types, spelling)
    ensures Properties(es[..i + 1], mapping, spelling) == Properties(es[..i], mapping, spelling) + [PropertyOf(es[i], mapping, spelling)]
  {
    PrefixResolvable(es, mapping, types, i);
    PrefixResolvable(es, mapping, types, i + 1);
    var s := es[..i + 1];
    assert s[..|s| - 1] == es[..i];
    assert s[|s| - 1] == es[i];
    assert NestedTypes(s, mapping, types, spelling)
           == NestedTypes(s[..|s| - 1], mapping, types, spelling) + NestedOf(s[|s| - 1], mapping, types, spelling);
    PropertiesOfLongerPrefix(es, mapping, spelling, i);
  }

  lemma PrefixResolvable(es: seq<XS.Element>, mapping: TypeMapping, types: Types, i: nat)
    requires MembersResolvable(es, mapping, types) && i <= |es|
    ensures MembersResolvable(es[..i], mapping, types)
  {
    forall k | 0 <= k < i
      ensures es[..i][k] == es[k]
    {
    }
  }

  lemma PropertiesOfLongerPrefix(es: seq<XS.Element>, mapping: TypeMapping, spelling: Spelling, i: nat)
    requires S.BasesMapped(es, mapping) && i < |es|
    ensures S.BasesMapped(es[..i], mapping) && S.BasesMapped(es[..i + 1], mapping)
    ensures Properties(es[..i + 1], mapping, spelling) == Properties(es[..i], mapping, spelling) + [PropertyOf(es[i], mapping, spelling)]
  {
    var s := es[..i + 1];
    assert forall k :: 0 <= k < i ==> es[..i][k] == es[k];
    assert forall k :: 0 <= k <= i ==> s[k] == es[k];
    var a := Properties(s, mapping, spelling);
    var b := Properties(es[..i], mapping, spelling) + [PropertyOf(es[i], mapping, spelling)];
    assert |a| == |b|;
    forall k | 0 <= k < |a|
      ensures a[k] == b[k]
    {
      if k < i {
        assert s[k] == es[..i][k];
      }
    }
  }


  method MemberToSwift(element: XS.Element, mapping: TypeMapping, types: Types, spelling: Spelling)
    returns (property: SwiftProperty, nested: seq<SwiftMetaType>)
    requires MemberResolvable(element, mapping, types)
    requires element.content.Base? ==> TypeNode(element.content.base) in mapping
    ensures property == PropertyOf(element, mapping, spelling)
    ensures nested == NestedOf(element, mapping, types, spelling)
  {
    match element.content {
      case Base(base) =>
        property := SwiftProperty(spelling.propertyName(element.name.localName),
                                  TypeOf(mapping[TypeNode(base)], element.occurs));
        nested := [];
      case Complex(complex) =>
        nested := [ComplexToSwift(complex, None, mapping, types, spelling)];
        property := SwiftProperty(spelling.propertyName(element.name.localName), TypeOf(UNNAMED, element.occurs));
    }
  }

  /** `sequenceToSwift(name:sequence:mapping:types:)`. */
  method SequenceToSwift(es: seq<XS.Element>, mapping: TypeMapping, types: Types, spelling: Spelling)
    returns (properties: seq<SwiftProperty>, nestedTypes: seq<SwiftMetaType>)
    requires MembersResolvable(es, mapping, types)
    ensures properties == Properties(es, mapping, spelling)
    ensures nestedTypes == NestedTypes(es, mapping, types, spelling)
  {
    properties := [];
    nestedTypes := [];
    for i := 0 to |es|
      invariant MembersResolvable(es[..i], mapping, types)
      invariant properties == Properties(es[..i], mapping, spelling)
      invariant nestedTypes == NestedTypes(es[..i], mapping, types, spelling)
    {
      NestedTypesOfLongerPrefix(es, mapping, types, spelling, i);
      var property, nested := MemberToSwift(es[i], mapping, types, spelling);
      properties := properties + [property];
      nestedTypes := nestedTypes + nested;
    }
    assert es[..|es|] == es;
  }

  // ---------------------------------------------------------------- simple types

  /** `SimpleType.toSwift(name:mapping:types:)`: lists are not implemented, and a restriction is a
      String-backed enum whatever its enumeration holds. */
  function SimpleToSwift(t: XS.SimpleType, name: Option<Identifier>, mapping: TypeMapping, spelling: Spelling)
    : (r: Result<SwiftMetaType, ConversionError>)
    requires S.Nameable(name, t.name, mapping)
    ensures r.Err? <==> !t.content.RestrictionContent?
    ensures r.Ok? ==> r.value == Enum(S.NameFor(name, t.name, mapping), Identifier("String"),
                                      S.EnumCases(t.content.restriction.enumeration, spelling))
  {
    var typeName := S.NameFor(name, t.name, mapping);
    match t.content
    case List(_) => Err(NotImplemented)
    case ListWrapped(_) => Err(NotImplemented)
    case RestrictionContent(restriction) =>
      Ok(Enum(typeName, Identifier("String"), S.EnumCases(restriction.enumeration, spelling)))
  }

  /** A restriction without enumeration values gives an enum without cases, not a typealias. */
  lemma RestrictionWithoutValuesIsEmptyEnum(t: XS.SimpleType, name: Option<Identifier>, mapping: TypeMapping,
                                            spelling: Spelling)
    requires S.Nameable(name, t.name, mapping)
    requires t.content.RestrictionContent? && |t.content.restriction.enumeration| == 0
    ensures SimpleToSwift(t, name, mapping, spelling).Ok?
    ensures SimpleToSwift(t, name, mapping, spelling).value.Enum?
    ensures |SimpleToSwift(t, name, mapping, spelling).value.cases| == 0
  {
    var cases := S.EnumCases(t.content.restriction.enumeration, spelling);
    assert cases.Keys == {};
  }

  // ---------------------------------------------------------------- elements

  predicate ElementResolvable(e: XS.Element, mapping: TypeMapping, types: Types) {
    ElementNode(e.name) in mapping
    && (e.content.Base? ==> TypeNode(e.content.base) in types && types[TypeNode(e.content.base)].TypeClass?)
    && (e.content.Complex? ==> ContentResolvable(e.content.complex, mapping, types))
  }

  /** `Element.toSwift(mapping:types:)`: a base-typed element is a bare subclass of its type's class. */
  function ElementToSwift(e: XS.Element, mapping: TypeMapping, types: Types, spelling: Spelling): (r: SwiftMetaType)
    requires ElementResolvable(e, mapping, types)
    ensures r.TypeClass? && r.name == mapping[ElementNode(e.name)]
    ensures e.content.Base? ==> r == NewTypeClass(r.name, Some(types[TypeNode(e.content.base)]))
    ensures e.content.Complex? ==> r == ComplexToSwift(e.content.complex, Some(r.name), mapping, types, spelling)
  {
    var name := mapping[ElementNode(e.name)];
    match e.content
    case Base(base) => NewTypeClass(name, Some(types[TypeNode(base)]))
    case Complex(complex) => ComplexToSwift(complex, Some(name), mapping, types, spelling)
  }

  // ---------------------------------------------------------------- clients

  function MessageNamed(wsdl: LW.Wsdl, name: QualifiedName): Option<LW.Message> {
    Collections.FirstWhere(wsdl.messages, (m: LW.Message) => m.name == name)
  }

  /** The binding operation for a port operation: the first with the same qualified name. */
  function BindingOperationFor(binding: WSD.Binding, operation: WSD.PortOperation): Option<WSD.BindingOperation> {
    Collections.FirstWhere(binding.operations, (o: WSD.BindingOperation) => o.name == operation.name)
  }

  /** The `message` closure's unwraps: the message exists, has a part, and that part's element has
      a generated Swift type. */
  predicate MessageResolvable(wsdl: LW.Wsdl, types: Types, name: QualifiedName) {
    var message := MessageNamed(wsdl, name);
    message.Some? && |message.value.parts| > 0 && ElementNode(message.value.parts[0].element) in types
  }

  function MessageTypeOf(wsdl: LW.Wsdl, types: Types, name: QualifiedName): (m: MessageType)
    requires MessageResolvable(wsdl, types, name)
    ensures m.element == MessageNamed(wsdl, name).value.parts[0].element
    ensures m.type_ == types[ElementNode(m.element)].name
  {
    var element := MessageNamed(wsdl, name).value.parts[0].element;
    MessageType(element, types[ElementNode(element)].name)
  }

  predicate OperationResolvable(wsdl: LW.Wsdl, types: Types, binding: WSD.Binding, operation: WSD.PortOperation) {
    BindingOperationFor(binding, operation).Some?
    && MessageResolvable(wsdl, types, operation.inputMessage) && MessageResolvable(wsdl, types, operation.outputMessage)
  }

  predicate ServiceResolvable(service: WSD.Service, wsdl: LW.Wsdl, types: Types) {
    S.Wired(service, wsdl.bindings, wsdl.portTypes)
    && var w := S.WiringOf(service, wsdl.bindings, wsdl.portTypes);
       forall i :: 0 <= i < |w.portType.operations| ==> OperationResolvable(wsdl, types, w.binding, w.portType.operations[i])
  }

  function MethodFor(wsdl: LW.Wsdl, types: Types, binding: WSD.Binding, operation: WSD.PortOperation,
                     spelling: Spelling): (m: ServiceMethod)
    requires OperationResolvable(wsdl, types, binding, operation)
    ensures m.name == spelling.propertyName(operation.name.localName)
    ensures m.input == MessageTypeOf(wsdl, types, operation.inputMessage)
    ensures m.output == MessageTypeOf(wsdl, types, operation.outputMessage)
    ensures m.action == BindingOperationFor(binding, operation).value.action
  {
    NewServiceMethod(operation, MessageTypeOf(wsdl, types, operation.inputMessage),
                     MessageTypeOf(wsdl, types, operation.outputMessage),
                     BindingOperationFor(binding, operation).value.action, spelling.propertyName)
  }

  /** `Service.toSwift(wsdl:types:)`: "<TypeName>Client" on the first SOAP 1.1 port, one method per
      operation of the port type. */
  function ServiceToSwift(service: WSD.Service, wsdl: LW.Wsdl, types: Types, spelling: Spelling): (r: SwiftMetaType)
    requires ServiceResolvable(service, wsdl, types)
    ensures r.ClientClass? && r.name == spelling.typeName(service.name.localName) + "Client"
    ensures r.port == S.WiringOf(service, wsdl.bindings, wsdl.portTypes).port
    ensures |r.methods| == |S.WiringOf(service, wsdl.bindings, wsdl.portTypes).portType.operations|
    ensures forall i :: 0 <= i < |r.methods| ==>
              r.methods[i] == MethodFor(wsdl, types, S.WiringOf(service, wsdl.bindings, wsdl.portTypes).binding,
                                        S.WiringOf(service, wsdl.bindings, wsdl.portTypes).portType.operations[i], spelling)
  {
    var w := S.WiringOf(service, wsdl.bindings, wsdl.portTypes);
    var methods := seq(|w.portType.operations|, i requires 0 <= i < |w.portType.operations| =>
                         MethodFor(wsdl, types, w.binding, w.portType.operations[i], spelling));
    ClientClass(spelling.typeName(service.name.localName) + "Client", methods, w.port)
  }

  /** Matching by the whole name: a binding operation from another namespace is never taken, even
      when its local name is the operation's. */
  lemma MethodActionByQualifiedName(wsdl: LW.Wsdl, types: Types, binding: WSD.Binding, operation: WSD.PortOperation,
                                    spelling: Spelling, j: nat)
    requires OperationResolvable(wsdl, types, binding, operation)
    requires j < |binding.operations| && binding.operations[j].name == operation.name
    requires forall i :: 0 <= i < j ==> binding.operations[i].name != operation.name
    ensures MethodFor(wsdl, types, binding, operation, spelling).action == binding.operations[j].action
  {
    Collections.FirstWhereIsLeast(binding.operations, (o: WSD.BindingOperation) => o.name == operation.name, j);
  }
}
