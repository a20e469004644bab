/** The mapping from schema nodes to Swift meta types and from a service to its client class, over
    the schema of Schema.swift and the WebServiceDescription. Every forced unwrap of a mapping or
    `types` lookup, and every `first(where:)!`, is a precondition, stated by the `...Resolvable`
    predicates. */
module SchemaToSwift {
  import opened Wrappers
  import opened QualifiedNames
  import opened SwiftModels
  import opened LegacyGraph
  import XS = XmlSchema
  import WSD = WebServiceDescription
  import Generator
  import Dictionaries
  import Collections

  type TypeMapping = Generator.TypeMapping

  // ---------------------------------------------------------------- complex types

  /** The members of a complex type: its sequence, the sequence of its complexContent, or none. */
  function MembersOf(c: XS.ComplexType): seq<XS.Element> {
    match c.content
    case Sequence(es) => es
    case ComplexContentOf(cc) => cc.elements
    case Empty => []
  }

  /** Every lookup `toSwift` makes for a member: the mapped name of a base type, and, for a nested
      complex type, the lookups that type makes. */
  predicate MemberResolvable(e: XS.Element, mapping: TypeMapping, types: Types)
    decreases e, 1
  {
    match e.content
    case Base(b) => TypeNode(b) in mapping
    case Complex(c) => ContentResolvable(c, mapping, types)
  }

  predicate MembersResolvable(es: seq<XS.Element>, mapping: TypeMapping, types: Types)
    decreases es, 2
  {
    BasesMapped(es, mapping) && forall i :: 0 <= i < |es| ==> MemberResolvable(es[i], mapping, types)
  }

  /** The lookups of a complex type's content: a complexContent's base must already be a class. */
  predicate ContentResolvable(c: XS.ComplexType, mapping: TypeMapping, types: Types)
    decreases c, 3
  {
    match c.content
    case Sequence(es) => BasesMapped(es, mapping) && MembersResolvable(es, mapping, types)
    case ComplexContentOf(cc) =>
      TypeNode(cc.base) in types && types[TypeNode(cc.base)].TypeClass?
      && BasesMapped(cc.elements, mapping) && MembersResolvable(cc.elements, mapping, types)
    case Empty => true
  }

  lemma MembersOfResolvable(c: XS.ComplexType, mapping: TypeMapping, types: Types)
    requires ContentResolvable(c, mapping, types)
    ensures MembersResolvable(MembersOf(c), mapping, types)
  {
  }

  /** `name ?? mapping[.type(self.name!)]!`, the name a type is generated under. */
  predicate Nameable(name: Option<Identifier>, own: Option<QualifiedName>, mapping: TypeMapping) {
    name.Some? || (own.Some? && TypeNode(own.value) in mapping)
  }

  function NameFor(name: Option<Identifier>, own: Option<QualifiedName>, mapping: TypeMapping): Identifier
    requires Nameable(name, own, mapping)
  {
    if name.Some? then name.value else mapping[TypeNode(own.value)]
  }

  /** Every base-typed member has a mapped name; this is all the properties need. */
  predicate BasesMapped(es: seq<XS.Element>, mapping: TypeMapping) {
    forall i :: 0 <= i < |es| ==> es[i].content.Base? ==> TypeNode(es[i].content.base) in mapping
  }

  /** The Swift type of a member: the mapped base type, or the nested type named after the member. */
  function MemberTypeName(e: XS.Element, mapping: TypeMapping, spelling: Spelling): Identifier
    requires e.content.Base? ==> TypeNode(e.content.base) in mapping
  {
    match e.content
    case Base(b) => mapping[TypeNode(b)]
    case Complex(_) => spelling.typeName(e.name.localName)
  }

  /** The property `sequenceToSwift` appends for a member. */
  function PropertyOf(e: XS.Element, mapping: TypeMapping, spelling: Spelling): (p: SwiftProperty)
    requires e.content.Base? ==> TypeNode(e.content.base) in mapping
    ensures p.name == spelling.propertyName(e.name.localName)
    ensures Innermost(p.type_) == MemberTypeName(e, mapping, spelling)
  {
    SwiftProperty(spelling.propertyName(e.name.localName), TypeOf(MemberTypeName(e, mapping, spelling), e.occurs))
  }

  /** The properties of a sequence: one per member, in order. */
  function Properties(es: seq<XS.Element>, mapping: TypeMapping, spelling: Spelling): (r: seq<SwiftProperty>)
    requires BasesMapped(es, mapping)
    ensures |r| == |es|
    ensures forall i :: 0 <= i < |es| ==> r[i] == PropertyOf(es[i], mapping, spelling)
  {
    seq(|es|, i requires 0 <= i < |es| => PropertyOf(es[i], mapping, spelling))
  }

  /** The members with a complex type of their own, in order. */
  function ComplexMembers(es: seq<XS.Element>): (r: seq<XS.Element>)
    ensures forall k :: 0 <= k < |r| ==> r[k].content.Complex? && r[k] in es
    ensures forall i :: 0 <= i < |es| && es[i].content.Complex? ==> es[i] in r
  {
    if |es| == 0 then []
    else
      var last := es[|es| - 1];
      assert forall i :: 0 <= i < |es| - 1 ==> es[..|es| - 1][i] == es[i];
      ComplexMembers(es[..|es| - 1]) + (if last.content.Complex? then [last] else [])
  }

  /** The nested type one member contributes: its complex type, generated under the member's name. */
  function NestedOf(e: XS.Element, mapping: TypeMapping, types: Types, spelling: Spelling): (r: seq<SwiftMetaType>)
    requires MemberResolvable(e, mapping, types)
    ensures e.content.Base? ==> r == []
    ensures e.content.Complex? ==> |r| == 1 && r[0].TypeClass? && r[0].name == spelling.typeName(e.name.localName)
    decreases e, 0
  {
    match e.content
    case Base(_) => []
    case Complex(c) => [ComplexToSwift(c, Some(spelling.typeName(e.name.localName)), mapping, types, spelling)]
  }

  /** The nested types of a sequence: one class per complex member, in order, each named after its
      member. */
  function NestedTypes(es: seq<XS.Element>, mapping: TypeMapping, types: Types, spelling: Spelling): (r: seq<SwiftMetaType>)
    requires MembersResolvable(es, mapping, types)
    ensures |r| == |ComplexMembers(es)|
    decreases es, 1
  {
    if |es| == 0 then []
    else
      assert forall i :: 1 <= i < |es| ==> es[1..][i - 1] == es[i];
      var init := es[..|es| - 1];
      assert forall i :: 0 <= i < |init| ==> init[i] == es[i];
      NestedTypes(init, mapping, types, spelling) + NestedOf(es[|es| - 1], mapping, types, spelling)
  }

  /** `ComplexType.toSwift(name:mapping:types:)`: a class under the given or the mapped name; a
      complexContent takes its base class from `types`, and the members give the properties and
      nested types. */
  function ComplexToSwift(c: XS.ComplexType, name: Option<Identifier>, mapping: TypeMapping, types: Types,
                          spelling: Spelling): (r: SwiftMetaType)
    requires Nameable(name, c.name, mapping)
    requires ContentResolvable(c, mapping, types)
    ensures r.TypeClass? && r.name == NameFor(name, c.name, mapping)
    ensures r.superName.None? && r.protocols == []
    ensures r.base.Some? <==> c.content.ComplexContentOf?
    ensures c.content.ComplexContentOf? ==> r.base == Some(types[TypeNode(c.content.complexContent.base)])
    ensures c.content.Sequence? ==> r.properties == Properties(c.content.elements, mapping, spelling)
                                    && r.nestedTypes == NestedTypes(c.content.elements, mapping, types, spelling)
    ensures c.content.ComplexContentOf? ==>
              r.properties == Properties(c.content.complexContent.elements, mapping, spelling)
              && r.nestedTypes == NestedTypes(c.content.complexContent.elements, mapping, types, spelling)
    ensures c.content.Empty? ==> r.properties == [] && r.nestedTypes == []
    decreases c, 2
  {
    var className := NameFor(name, c.name, mapping);
    match c.content
    case Sequence(es) =>
      NewTypeClass(className, None, [], Properties(es, mapping, spelling), NestedTypes(es, mapping, types, spelling))
    case ComplexContentOf(cc) =>
      NewTypeClass(className, Some(types[TypeNode(cc.base)]), [], Properties(cc.elements, mapping, spelling),
                   NestedTypes(cc.elements, mapping, types, spelling))
    case Empty => NewTypeClass(className)
  }

  /** A class has exactly one property per member, in member order, named after the member. */
  lemma OnePropertyPerMember(c: XS.ComplexType, name: Option<Identifier>, mapping: TypeMapping, types: Types,
                             spelling: Spelling, i: nat)
    requires Nameable(name, c.name, mapping) && ContentResolvable(c, mapping, types)
    requires i < |MembersOf(c)|
    ensures |ComplexToSwift(c, name, mapping, types, spelling).properties| == |MembersOf(c)|
    ensures ComplexToSwift(c, name, mapping, types, spelling).properties[i].name
            == spelling.propertyName(MembersOf(c)[i].name.localName)
  {
  }

  /** Only complex members add a nested type, and each one is the type its property refers to. */
  /** The k-th nested type is named after the k-th complex member. */
  lemma {:induction false} NestedTypesNamed(es: seq<XS.Element>, mapping: TypeMapping, types: Types,
                                            spelling: Spelling, k: nat)
    requires MembersResolvable(es, mapping, types)
    requires k < |NestedTypes(es, mapping, types, spelling)|
    ensures NestedTypes(es, mapping, types, spelling)[k].TypeClass?
    ensures NestedTypes(es, mapping, types, spelling)[k].name == spelling.typeName(ComplexMembers(es)[k].name.localName)
  {
    var init := es[..|es| - 1];
    assert forall i :: 0 <= i < |init| ==> init[i] == es[i];
    var front := NestedTypes(init, mapping, types, spelling);
    assert NestedTypes(es, mapping, types, spelling) == front + NestedOf(es[|es| - 1], mapping, types, spelling);
    assert |ComplexMembers(init)| == |front|;
    if k < |front| {
      NestedTypesNamed(init, mapping, types, spelling, k);
    }
  }

  lemma {:induction false} NestedTypesBackProperties(es: seq<XS.Element>, mapping: TypeMapping, types: Types,
                                                      spelling: Spelling, k: nat)
    requires MembersResolvable(es, mapping, types)
    requires k < |NestedTypes(es, mapping, types, spelling)|
    ensures exists i :: 0 <= i < |es| && es[i].content.Complex?
              && Innermost(Properties(es, mapping, spelling)[i].type_) == NestedTypes(es, mapping, types, spelling)[k].name
  {
    NestedTypesNamed(es, mapping, types, spelling, k);
    var member := ComplexMembers(es)[k];
    var i :| 0 <= i < |es| && es[i] == member;
    assert Innermost(Properties(es, mapping, spelling)[i].type_) == MemberTypeName(es[i], mapping, spelling);
  }

  /** A type without content is a bare class: no base, no properties, no nested types. */
  lemma EmptyContentIsBare(c: XS.ComplexType, name: Option<Identifier>, mapping: TypeMapping, types: Types,
                           spelling: Spelling)
    requires Nameable(name, c.name, mapping) && c.content.Empty?
    ensures ComplexToSwift(c, name, mapping, types, spelling) == NewTypeClass(NameFor(name, c.name, mapping))
  {
  }

  /** Growing a prefix by one member adds that member's nested type. */
  lemma NestedTypesOfLongerPrefix(es: seq<XS.Element>, mapping: TypeMapping, types: Types, spelling: Spelling, i: nat)
    requires MembersResolvable(es, mapping, types) && i < |es|
    ensures MembersResolvable(es[..i], mapping, types) && MembersResolvable(es[..i + 1], mapping, types)
    ensures NestedTypes(es[..i + 1], mapping, types, spelling)
            == NestedTypes(es[..i], mapping, types, spelling) + NestedOf(es[i], mapping, types, spelling)
    ensures Properties(es[..i + 1], mapping, spelling) == Properties(es[..i], mapping, spelling) + [PropertyOf(es[i], mapping, spelling)]
  {
    PrefixResolvable(es, mapping, types, i);
    PrefixResolvable(es, mapping, types, i + 1);
    var s := es[..i + 1];
    assert s[..|s| - 1] == es[..i];
    assert s[|s| - 1] == es[i];
    assert NestedTypes(s, mapping, types, spelling)
           == NestedTypes(s[..|s| - 1], mapping, types, spelling) + NestedOf(s[|s| - 1], mapping, types, spelling);
    PropertiesOfLongerPrefix(es, mapping, spelling, i);
  }

  lemma PrefixResolvable(es: seq<XS.Element>, mapping: TypeMapping, types: Types, i: nat)
    requires MembersResolvable(es, mapping, types) && i <= |es|
    ensures MembersResolvable(es[..i], mapping, types)
  {
    forall k | 0 <= k < i
      ensures es[..i][k] == es[k]
    {
    }
  }

  lemma PropertiesOfLongerPrefix(es: seq<XS.Element>, mapping: TypeMapping, spelling: Spelling, i: nat)
    requires BasesMapped(es, mapping) && i < |es|
    ensures BasesMapped(es[..i], mapping) && BasesMapped(es[..i + 1], mapping)
    ensures Properties(es[..i + 1], mapping, spelling) == Properties(es[..i], mapping, spelling) + [PropertyOf(es[i], mapping, spelling)]
  {
    var s := es[..i + 1];
    assert forall k :: 0 <= k < i ==> es[..i][k] == es[k];
    assert forall k :: 0 <= k <= i ==> s[k] == es[k];
    var a := Properties(s, mapping, spelling);
    var b := Properties(es[..i], mapping, spelling) + [PropertyOf(es[i], mapping, spelling)];
    assert |a| == |b|;
    forall k | 0 <= k < |a|
      ensures a[k] == b[k]
    {
      if k < i {
        assert s[k] == es[..i][k];
      }
    }
  }


  /** One round of the loop: the property of a member and, for a complex member, its nested class. */
  method MemberToSwift(element: XS.Element, mapping: TypeMapping, types: Types, spelling: Spelling)
    returns (property: SwiftProperty, nested: seq<SwiftMetaType>)
    requires MemberResolvable(element, mapping, types)
    requires element.content.Base? ==> TypeNode(element.content.base) in mapping
    ensures property == PropertyOf(element, mapping, spelling)
    ensures nested == NestedOf(element, mapping, types, spelling)
  {
    match element.content {
      case Base(base) =>
        property := SwiftProperty(spelling.propertyName(element.name.localName),
                                  TypeOf(mapping[TypeNode(base)], element.occurs));
        nested := [];
      case Complex(complex) =>
        var typeName := spelling.typeName(element.name.localName);
        nested := [ComplexToSwift(complex, Some(typeName), mapping, types, spelling)];
        property := SwiftProperty(spelling.propertyName(element.name.localName), TypeOf(typeName, element.occurs));
    }
  }

  /** `sequenceToSwift(name:sequence:mapping:types:)`: the loop over the members that appends a
      property for each and a nested class for each complex one. */
  method SequenceToSwift(es: seq<XS.Element>, mapping: TypeMapping, types: Types, spelling: Spelling)
    returns (properties: seq<SwiftProperty>, nestedTypes: seq<SwiftMetaType>)
    requires MembersResolvable(es, mapping, types)
    ensures properties == Properties(es, mapping, spelling)
    ensures nestedTypes == NestedTypes(es, mapping, types, spelling)
  {
    properties := [];
    nestedTypes := [];
    for i := 0 to |es|
      invariant MembersResolvable(es[..i], mapping, types)
      invariant properties == Properties(es[..i], mapping, spelling)
      invariant nestedTypes == NestedTypes(es[..i], mapping, types, spelling)
    {
      NestedTypesOfLongerPrefix(es, mapping, types, spelling, i);
      var property, nested := MemberToSwift(es[i], mapping, types, spelling);
      properties := properties + [property];
      nestedTypes := nestedTypes + nested;
    }
    assert es[..|es|] == es;
  }

  // ---------------------------------------------------------------- simple types

  /** The lookups of a simple type: a list's item type, and the base of a restriction without
      enumeration values. */
  predicate SimpleResolvable(t: XS.SimpleType, mapping: TypeMapping)
    decreases t
  {
    match t.content
    case List(itemType) => TypeNode(itemType) in mapping
    case ListWrapped(wrapped) => SimpleResolvable(wrapped, mapping)
    case RestrictionContent(r) => |r.enumeration| == 0 ==> TypeNode(r.base) in mapping
  }

  /** `enumeration.dictionary { ($0.toSwiftPropertyName(), $0) }`: one case per spelled value. */
  function EnumCases(values: seq<string>, spelling: Spelling): (cases: map<string, string>)
    ensures forall k :: k in cases <==> exists i :: 0 <= i < |values| && spelling.propertyName(values[i]) == k
    ensures forall k :: k in cases ==> cases[k] in values && spelling.propertyName(cases[k]) == k
  {
    var cases := Dictionaries.Dictionary(values, spelling.propertyName, (v: string) => v);
    EnumCasesFromValues(values, spelling, cases);
    cases
  }

  lemma EnumCasesFromValues(values: seq<string>, spelling: Spelling, cases: map<string, string>)
    requires cases == Dictionaries.Dictionary(values, spelling.propertyName, (v: string) => v)
    ensures forall k :: k in cases ==> cases[k] in values && spelling.propertyName(cases[k]) == k
  {
    forall k | k in cases ensures cases[k] in values && spelling.propertyName(cases[k]) == k {
      Dictionaries.EntriesComeFromElements(values, spelling.propertyName, (v: string) => v, k);
    }
  }

  /** Values whose spellings differ give one case each. */
  lemma EnumKeepsEveryValue(values: seq<string>, spelling: Spelling)
    requires forall i, j :: 0 <= i < j < |values| ==> spelling.propertyName(values[i]) != spelling.propertyName(values[j])
    ensures |EnumCases(values, spelling)| == |values|
  {
    Dictionaries.DistinctKeysKeepEverything(values, spelling.propertyName, (v: string) => v);
  }

  /** `SimpleType.toSwift(name:mapping:types:)`: a list of the mapped item type, a list wrapping a
      nested type named "Element", a typealias to the mapped base for a restriction without values,
      and a String-backed enum for one with values. */
  function SimpleToSwift(t: XS.SimpleType, name: Option<Identifier>, mapping: TypeMapping, spelling: Spelling)
    : (r: SwiftMetaType)
    requires Nameable(name, t.name, mapping) && SimpleResolvable(t, mapping)
    ensures r.name == NameFor(name, t.name, mapping)
    ensures t.content.List? ==> r == List(r.name, Identifier(mapping[TypeNode(t.content.itemType)]), [])
    ensures t.content.ListWrapped? ==>
              r.List? && r.elementType == Identifier("Element") && |r.nestedTypes| == 1 && r.nestedTypes[0].name == "Element"
    ensures t.content.RestrictionContent? ==> (r.Typealias? <==> |t.content.restriction.enumeration| == 0)
    ensures t.content.RestrictionContent? && r.Typealias? ==>
              r.type_ == Identifier(mapping[TypeNode(t.content.restriction.base)])
    ensures t.content.RestrictionContent? && !r.Typealias? ==>
              r == Enum(r.name, Identifier("String"), EnumCases(t.content.restriction.enumeration, spelling))
    decreases t
  {
    var typeName := NameFor(name, t.name, mapping);
    match t.content
    case List(itemType) => List(typeName, Identifier(mapping[TypeNode(itemType)]), [])
    case ListWrapped(wrapped) =>
      var nested := SimpleToSwift(wrapped, Some("Element"), mapping, spelling);
      List(typeName, Identifier(nested.name), [nested])
    case RestrictionContent(restriction) =>
      if |restriction.enumeration| == 0 then
        Typealias(typeName, Identifier(mapping[TypeNode(restriction.base)]))
      else
        Enum(typeName, Identifier("String"), EnumCases(restriction.enumeration, spelling))
  }

  // ---------------------------------------------------------------- elements

  predicate ElementResolvable(e: XS.Element, mapping: TypeMapping, types: Types) {
    ElementNode(e.name) in mapping
    && (e.content.Base? ==> TypeNode(e.content.base) in types)
    && (e.content.Complex? ==> ContentResolvable(e.content.complex, mapping, types))
  }

  /** `Element.toSwift(mapping:types:)`: under the element's mapped name, a typealias to the Swift
      type of its base (optional or array as its range says), or the class of its complex type. */
  function ElementToSwift(e: XS.Element, mapping: TypeMapping, types: Types, spelling: Spelling): (r: SwiftMetaType)
    requires ElementResolvable(e, mapping, types)
    ensures r.name == mapping[ElementNode(e.name)]
    ensures e.content.Base? ==> r == Typealias(r.name, TypeOf(types[TypeNode(e.content.base)].name, e.occurs))
    ensures e.content.Complex? ==> r == ComplexToSwift(e.content.complex, Some(r.name), mapping, types, spelling)
  {
    var name := mapping[ElementNode(e.name)];
    match e.content
    case Base(base) => Typealias(name, TypeOf(types[TypeNode(base)].name, e.occurs))
    case Complex(complex) => ComplexToSwift(complex, Some(name), mapping, types, spelling)
  }

  // ---------------------------------------------------------------- clients

  predicate IsSoap11(p: WSD.Port) {
    p.address.Soap11?
  }

  /** The lookups `Service.toSwift` unwraps: the first SOAP 1.1 port, its binding and port type. */
  datatype Wiring = Wiring(port: WSD.Port, binding: WSD.Binding, portType: WSD.PortType)

  function BindingNamed(bindings: seq<WSD.Binding>, name: QualifiedName): Option<WSD.Binding> {
    Collections.FirstWhere(bindings, (b: WSD.Binding) => b.name == name)
  }

  function PortTypeNamed(portTypes: seq<WSD.PortType>, name: QualifiedName): Option<WSD.PortType> {
    Collections.FirstWhere(portTypes, (p: WSD.PortType) => p.name == name)
  }

  function MessageNamed(d: WSD.Description, name: QualifiedName): Option<WSD.Message> {
    Collections.FirstWhere(d.messages, (m: WSD.Message) => m.name == name)
  }

  /** The binding operation for a port operation: the first with the same local name. */
  function BindingOperationFor(binding: WSD.Binding, operation: WSD.PortOperation): Option<WSD.BindingOperation> {
    Collections.FirstWhere(binding.operations, (o: WSD.BindingOperation) => o.name.localName == operation.name.localName)
  }

  predicate Wired(service: WSD.Service, bindings: seq<WSD.Binding>, portTypes: seq<WSD.PortType>) {
    var port := Collections.FirstWhere(service.ports, IsSoap11);
    port.Some? && BindingNamed(bindings, port.value.binding).Some?
    && PortTypeNamed(portTypes, BindingNamed(bindings, port.value.binding).value.type_).Some?
  }

  function WiringOf(service: WSD.Service, bindings: seq<WSD.Binding>, portTypes: seq<WSD.PortType>): (w: Wiring)
    requires Wired(service, bindings, portTypes)
    ensures w.port.address.Soap11? && w.binding.name == w.port.binding && w.portType.name == w.binding.type_
    ensures w.port in service.ports && w.binding in bindings && w.portType in portTypes
  {
    var port := Collections.FirstWhere(service.ports, IsSoap11).value;
    var binding := BindingNamed(bindings, port.binding).value;
    Wiring(port, binding, PortTypeNamed(portTypes, binding.type_).value)
  }

  /** The `message` closure's unwraps: the message exists, has a part, and that part's element (or,
      without one, its type) has a generated Swift type. */
  predicate MessageResolvable(d: WSD.Description, types: Types, name: QualifiedName) {
    var message := MessageNamed(d, name);
    message.Some? && |message.value.parts| > 0
    && (message.value.parts[0].element.Some? ==> ElementNode(message.value.parts[0].element.value) in types)
    && (message.value.parts[0].element.None? ==>
          message.value.parts[0].type_.Some? && TypeNode(message.value.parts[0].type_.value) in types)
  }

  /** The `message` closure: the first part's element and its Swift type, or its type and that
      type's Swift type. */
  function MessageTypeOf(d: WSD.Description, types: Types, name: QualifiedName): (m: MessageType)
    requires MessageResolvable(d, types, name)
    ensures var part := MessageNamed(d, name).value.parts[0];
            if part.element.Some? then m == MessageType(part.element.value, types[ElementNode(part.element.value)].name)
            else m == MessageType(part.type_.value, types[TypeNode(part.type_.value)].name)
  {
    var part := MessageNamed(d, name).value.parts[0];
    if part.element.Some? then MessageType(part.element.value, types[ElementNode(part.element.value)].name)
    else MessageType(part.type_.value, types[TypeNode(part.type_.value)].name)
  }

  predicate OperationResolvable(d: WSD.Description, types: Types, binding: WSD.Binding, operation: WSD.PortOperation) {
    BindingOperationFor(binding, operation).Some?
    && MessageResolvable(d, types, operation.inputMessage) && MessageResolvable(d, types, operation.outputMessage)
  }

  predicate ServiceResolvable(service: WSD.Service, d: WSD.Description, types: Types) {
    Wired(service, d.bindings, d.portTypes)
    && var w := WiringOf(service, d.bindings, d.portTypes);
       forall i :: 0 <= i < |w.portType.operations| ==> OperationResolvable(d, types, w.binding, w.portType.operations[i])
  }

  /** The method for one port operation, with the SOAP action of its binding operation. */
  function MethodFor(d: WSD.Description, types: Types, binding: WSD.Binding, operation: WSD.PortOperation,
                     spelling: Spelling): (m: ServiceMethod)
    requires OperationResolvable(d, types, binding, operation)
    ensures m.name == spelling.propertyName(operation.name.localName)
    ensures m.input == MessageTypeOf(d, types, operation.inputMessage)
    ensures m.output == MessageTypeOf(d, types, operation.outputMessage)
    ensures m.action == BindingOperationFor(binding, operation).value.action
  {
    NewServiceMethod(operation, MessageTypeOf(d, types, operation.inputMessage),
                     MessageTypeOf(d, types, operation.outputMessage),
                     BindingOperationFor(binding, operation).value.action, spelling.propertyName)
  }

  /** `Service.toSwift(webService:types:)`: the client class "<TypeName>Client" on the first SOAP 1.1
      port, with one method per operation of the port type that port's binding implements. */
  function ServiceToSwift(service: WSD.Service, d: WSD.Description, types: Types, spelling: Spelling): (r: SwiftMetaType)
    requires ServiceResolvable(service, d, types)
    ensures r.ClientClass? && r.name == spelling.typeName(service.name.localName) + "Client"
    ensures r.port == WiringOf(service, d.bindings, d.portTypes).port
    ensures |r.methods| == |WiringOf(service, d.bindings, d.portTypes).portType.operations|
    ensures forall i :: 0 <= i < |r.methods| ==>
              r.methods[i] == MethodFor(d, types, WiringOf(service, d.bindings, d.portTypes).binding,
                                        WiringOf(service, d.bindings, d.portTypes).portType.operations[i], spelling)
  {
    var w := WiringOf(service, d.bindings, d.portTypes);
    var methods := seq(|w.portType.operations|, i requires 0 <= i < |w.portType.operations| =>
                         MethodFor(d, types, w.binding, w.portType.operations[i], spelling));
    ClientClass(spelling.typeName(service.name.localName) + "Client", methods, w.port)
  }

  /** The client sits on the earliest SOAP 1.1 port, whatever SOAP 1.2 ports come before it. */
  lemma ClientUsesFirstSoap11Port(service: WSD.Service, d: WSD.Description, types: Types, spelling: Spelling, j: nat)
    requires ServiceResolvable(service, d, types)
    requires j < |service.ports| && service.ports[j].address.Soap11?
    requires forall i :: 0 <= i < j ==> !service.ports[i].address.Soap11?
    ensures ServiceToSwift(service, d, types, spelling).port == service.ports[j]
  {
    Collections.FirstWhereIsLeast(service.ports, IsSoap11, j);
  }

  /** A method takes its SOAP action from the earliest binding operation with the operation's local
      name, so operations that differ only in namespace share a binding operation. */
  lemma MethodActionByLocalName(d: WSD.Description, types: Types, binding: WSD.Binding, operation: WSD.PortOperation,
                                spelling: Spelling, j: nat)
    requires OperationResolvable(d, types, binding, operation)
    requires j < |binding.operations| && binding.operations[j].name.localName == operation.name.localName
    requires forall i :: 0 <= i < j ==> binding.operations[i].name.localName != operation.name.localName
    ensures MethodFor(d, types, binding, operation, spelling).action == binding.operations[j].action
  {
    Collections.FirstWhereIsLeast(binding.operations,
      (o: WSD.BindingOperation) => o.name.localName == operation.name.localName, j);
  }
}
