/** The generator's description of Swift code: types, properties, parameters, the meta types it
    emits (classes, enums, typealiases, lists and client classes) and the service methods of a
    client. `SwiftList`, `SwiftTypealias` and the `members` of a class are not declared in the
    model's sources; the records below carry the fields the generator sets. */
module SwiftModels {
  import opened Wrappers
  import opened QualifiedNames
  import XS = XmlSchema
  import WSD = WebServiceDescription
  import LegacyGraph

  type Identifier = string

  /** `toSwiftTypeName()` and `toSwiftPropertyName()`, the spelling of Swift names, which the
      model's sources do not declare. */
  datatype Spelling = Spelling(typeName: string -> string, propertyName: string -> string)

  datatype SwiftType = Identifier(name: Identifier) | Optional(wrapped: SwiftType) | Array(element: SwiftType)

  /** The identifier a Swift type is built around. */
  function Innermost(t: SwiftType): Identifier {
    match t
    case Identifier(name) => name
    case Optional(w) => Innermost(w)
    case Array(e) => Innermost(e)
  }

  /** How many values of the identifier a Swift type holds: one, at most one, or any number. */
  predicate Holds(t: SwiftType, count: nat) {
    match t
    case Identifier(_) => count == 1
    case Optional(w) => count == 0 || Holds(w, count)
    case Array(_) => true
  }

  /** `SwiftType(type:element:)`: the element's occurrence range `0..<1` makes the type optional, no
      range or `1..<1` keeps it a plain identifier, and every other range makes it an array. */
  function TypeOf(type_: Identifier, occurs: Option<XS.Range>): (t: SwiftType)
    ensures t.Optional? <==> occurs == Some(XS.Range(0, 1))
    ensures t.Identifier? <==> occurs == None || occurs == Some(XS.Range(1, 1))
    ensures Innermost(t) == type_
  {
    if occurs == Some(XS.Range(0, 1)) then Optional(Identifier(type_))
    else if occurs == None || occurs == Some(XS.Range(1, 1)) then Identifier(type_)
    else Array(Identifier(type_))
  }

  /** Read as XML Schema occurrence bounds (`minOccurs` to `maxOccurs`, both inclusive, one and one
      when absent), every count the element may occur is one the chosen Swift type can hold. */
  lemma TypeOfHoldsEveryOccurrence(type_: Identifier, occurs: Option<XS.Range>, count: nat)
    requires occurs.None? ==> count == 1
    requires occurs.Some? ==> occurs.value.lo <= count <= occurs.value.hi
    ensures Holds(TypeOf(type_, occurs), count)
  {
  }

  /** The choice is tight: a plain identifier holds exactly one value and an optional at most one,
      so only an array is left for an element that may occur more than once or not at all. */
  lemma OnlyArraysHoldMany(type_: Identifier, occurs: Option<XS.Range>)
    ensures !TypeOf(type_, occurs).Array? ==> !Holds(TypeOf(type_, occurs), 2)
    ensures TypeOf(type_, occurs).Identifier? ==> !Holds(TypeOf(type_, occurs), 0)
  {
  }

  /** `SwiftProperty`; the back-reference to the schema element is not kept. */
  datatype SwiftProperty = SwiftProperty(name: Identifier, type_: SwiftType)

  datatype SwiftParameter = SwiftParameter(name: Identifier, type_: SwiftType)

  /** `ServiceMethod.Message`: a message's element or type, and the Swift type generated for it. */
  datatype MessageType = MessageType(element: QualifiedName, type_: Identifier)

  /** `ServiceMethod`: the method name, the input and output messages and the SOAP action. */
  datatype ServiceMethod = ServiceMethod(name: Identifier, input: MessageType, output: MessageType,
                                         action: Option<string>)

  /** The `SwiftMetaType`s the generator emits; every one has a `name`. `superName` is the base
      class name the oldest type mapping sets instead of `base`. */
  datatype SwiftMetaType =
    | TypeClass(name: Identifier, base: Option<SwiftMetaType>, superName: Option<Identifier>,
                protocols: seq<string>, properties: seq<SwiftProperty>, nestedTypes: seq<SwiftMetaType>)
    | Enum(name: Identifier, rawType: SwiftType, cases: map<string, string>)
    | Typealias(name: Identifier, type_: SwiftType)
    | List(name: Identifier, elementType: SwiftType, nestedTypes: seq<SwiftMetaType>)
    | ClientClass(name: Identifier, methods: seq<ServiceMethod>, port: WSD.Port)

  /** `Types`: the meta type already generated for each graph node. */
  type Types = map<LegacyGraph.Node, SwiftMetaType>

  /** `SwiftTypeClass(name:base:protocols:properties:nestedTypes:)` with its default arguments. */
  function NewTypeClass(name: Identifier, base: Option<SwiftMetaType> := None, protocols: seq<string> := [],
                        properties: seq<SwiftProperty> := [], nestedTypes: seq<SwiftMetaType> := []): (c: SwiftMetaType)
    ensures c.TypeClass? && c.name == name && c.superName.None?
    ensures c.base == base && c.protocols == protocols && c.properties == properties && c.nestedTypes == nestedTypes
  {
    TypeClass(name, base, None, protocols, properties, nestedTypes)
  }

  /** A class given only its name has no base and no protocols, properties or nested types. */
  lemma DefaultTypeClassIsBare(name: Identifier)
    ensures NewTypeClass(name) == TypeClass(name, None, None, [], [], [])
  {
  }

  /** `ServiceMethod(operation:input:output:action:)`: named after the operation, everything else
      stored as given. */
  function NewServiceMethod(operation: WSD.PortOperation, input: MessageType, output: MessageType,
                            action: Option<string>, toSwiftPropertyName: string -> string): (m: ServiceMethod)
    ensures m.name == toSwiftPropertyName(operation.name.localName)
    ensures m.input == input && m.output == output && m.action == action
  {
    ServiceMethod(toSwiftPropertyName(operation.name.localName), input, output, action)
  }

  /** Operations with the same local name give methods with the same name, whatever their namespace. */
  lemma MethodNameIgnoresNamespace(a: WSD.PortOperation, b: WSD.PortOperation, input: MessageType,
                                   output: MessageType, action: Option<string>, toSwiftPropertyName: string -> string)
    requires a.name.localName == b.name.localName
    ensures NewServiceMethod(a, input, output, action, toSwiftPropertyName).name
            == NewServiceMethod(b, input, output, action, toSwiftPropertyName).name
  {
  }
}
