/** The oldest mapping from schema nodes to Swift meta types (the first half of Types.swift). A
    complex type is built by a loop over its sequence; it knows only sequences and empty contents,
    nested complex types are generated under their own mapped names behind "UNNAMED" properties, a
    wrapped list becomes an "ArrayOf" class around its item type, and an element with a base type
    becomes a class that names that type as its superclass. The client end of the file is
    `ClientCode.ServiceToSwift`, whose result it builds under another type name. */
module TypesToSwift {
  import opened Wrappers
  import opened QualifiedNames
  import opened SwiftModels
  import opened LegacyGraph
  import XS = XmlSchema
  import S = SchemaToSwift
  import X = XsdToSwift

  type TypeMapping = S.TypeMapping

  /** The forced unwraps of `ComplexType.toSwift(name:mapping:)`, everywhere in the type. This
      version looks up no generated types, and without them a complex-content derivation cannot
      resolve: the predicate also says that only sequences and empty contents occur. */
  predicate Resolvable(c: XS.ComplexType, mapping: TypeMapping) {
    X.ContentResolvable(c, mapping, map[])
  }

  lemma ResolvableHasNoDerivation(c: XS.ComplexType, mapping: TypeMapping)
    requires Resolvable(c, mapping)
    ensures !c.content.ComplexContentOf?
    ensures c.content.Sequence? ==>
              forall i :: 0 <= i < |c.content.elements| && c.content.elements[i].content.Complex? ==>
                !c.content.elements[i].content.complex.content.ComplexContentOf?
  {
    if c.content.Sequence? {
      var es := c.content.elements;
      assert X.MembersResolvable(es, mapping, map[]);
      forall i | 0 <= i < |es| && es[i].content.Complex?
        ensures !es[i].content.complex.content.ComplexContentOf?
      {
        assert X.MemberResolvable(es[i], mapping, map[]);
        assert X.ContentResolvable(es[i].content.complex, mapping, map[]);
      }
    }
  }

  /** `ComplexType.toSwift(name:mapping:)`: one property per member in order, and a nested class
      for each complex member. The loop builds exactly the class that `XsdToSwift.ComplexToSwift`
      describes for the same type. */
  method ComplexToSwift(c: XS.ComplexType, name: Option<Identifier>, mapping: TypeMapping, spelling: Spelling)
    returns (r: SwiftMetaType)
    requires S.Nameable(name, c.name, mapping)
    requires Resolvable(c, mapping)
    ensures r == X.ComplexToSwift(c, name, mapping, map[], spelling)
    decreases c, 2
  {
    var className := S.NameFor(name, c.name, mapping);
    var properties: seq<SwiftProperty> := [];
    var nestedTypes: seq<SwiftMetaType> := [];
    match c.content {
      case Sequence(_) =>
        properties, nestedTypes := SequenceToSwift(c, mapping, spelling);
      case ComplexContentOf(_) =>
        assert false;
      case Empty =>
    }
    r := NewTypeClass(className, None, [], properties, nestedTypes);
  }

  /** The loop over the members of a sequence: the properties and nested classes in order. */
  method SequenceToSwift(c: XS.ComplexType, mapping: TypeMapping, spelling: Spelling)
    returns (properties: seq<SwiftProperty>, nestedTypes: seq<SwiftMetaType>)
    requires c.content.Sequence? && X.MembersResolvable(c.content.elements, mapping, map[])
    ensures properties == X.Properties(c.content.elements, mapping, spelling)
    ensures nestedTypes == X.NestedTypes(c.content.elements, mapping, map[], spelling)
    decreases c, 1
  {
    var es := c.content.elements;
    properties, nestedTypes := [], [];
    for i := 0 to |es|
      invariant X.MembersResolvable(es[..i], mapping, map[])
      invariant properties == X.Properties(es[..i], mapping, spelling)
      invariant nestedTypes == X.NestedTypes(es[..i], mapping, map[], spelling)
    {
      X.NestedTypesOfLongerPrefix(es, mapping, map[], spelling, i);
      var property, nested := MemberToSwift(es[i], mapping, spelling);
      properties := properties + [property];
      nestedTypes := nestedTypes + nested;
    }
    assert es[..|es|] == es;
  }

  /** The body of the loop over the sequence: a base member gives a property of its mapped type; a
      complex member gives its own class and an "UNNAMED" property. */
  method MemberToSwift(element: XS.Element, mapping: TypeMapping, spelling: Spelling)
    returns (property: SwiftProperty, nested: seq<SwiftMetaType>)
    requires X.MemberResolvable(element, mapping, map[])
    ensures property == X.PropertyOf(element, mapping, spelling)
    ensures nested == X.NestedOf(element, mapping, map[], spelling)
    decreases element, 0
  {
    match element.content {
      case Base(base) =>
        property := SwiftProperty(spelling.propertyName(element.name.localName),
                                  TypeOf(mapping[TypeNode(base)], element.occurs));
        nested := [];
      case Complex(complex) =>
        var nestedType := ComplexToSwift(complex, None, mapping, spelling);
        nested := [nestedType];
        property := SwiftProperty(spelling.propertyName(element.name.localName), TypeOf(X.UNNAMED, element.occurs));
    }
  }

  // ---------------------------------------------------------------- simple types

  /** `fatalError()` on a plain list, at any depth of wrapping. */
  predicate NoPlainList(t: XS.SimpleType) {
    match t.content
    case List(_) => false
    case ListWrapped(w) => NoPlainList(w)
    case RestrictionContent(_) => true
  }

  /** `SimpleType.toSwift(name:mapping:)`. A wrapped list becomes "ArrayOf<name>" with a single
      "items" array of <name> and one nested type, the item type generated under <name>; a
      restriction becomes a String-backed enum of its enumeration, even when that is empty. */
  function SimpleToSwift(t: XS.SimpleType, name: Option<Identifier>, mapping: TypeMapping, spelling: Spelling)
    : (r: SwiftMetaType)
    requires S.Nameable(name, t.name, mapping)
    requires NoPlainList(t)
    ensures r.TypeClass? <==> t.content.ListWrapped?
    ensures r.Enum? <==> t.content.RestrictionContent?
    ensures t.content.RestrictionContent? ==>
              r == Enum(S.NameFor(name, t.name, mapping), Identifier("String"),
                        S.EnumCases(t.content.restriction.enumeration, spelling))
    ensures t.content.ListWrapped? ==>
              r.name == "ArrayOf" + S.NameFor(name, t.name, mapping)
              && r.base.None? && r.superName.None? && r.protocols == []
              && r.properties == [SwiftProperty("items", Array(Identifier(S.NameFor(name, t.name, mapping))))]
              && |r.nestedTypes| == 1
              && r.nestedTypes[0].Enum? == t.content.wrapped.content.RestrictionContent?
    ensures t.content.ListWrapped? ==>
              r.nestedTypes == [SimpleToSwift(t.content.wrapped, Some(S.NameFor(name, t.name, mapping)), mapping, spelling)]
  {
    var typeName := S.NameFor(name, t.name, mapping);
    match t.content
    case ListWrapped(wrapped) =>
      NewTypeClass("ArrayOf" + typeName, None, [], [SwiftProperty("items", Array(Identifier(typeName)))],
                   [SimpleToSwift(wrapped, Some(typeName), mapping, spelling)])
    case RestrictionContent(restriction) =>
      Enum(typeName, Identifier("String"), S.EnumCases(restriction.enumeration, spelling))
  }

  /** When the items are a restriction, the "items" property is typed by the nested enum: the
      array's element names the one nested type. */
  lemma ItemsAreTheNestedType(t: XS.SimpleType, name: Option<Identifier>, mapping: TypeMapping, spelling: Spelling)
    requires S.Nameable(name, t.name, mapping) && NoPlainList(t)
    requires t.content.ListWrapped? && t.content.wrapped.content.RestrictionContent?
    ensures var r := SimpleToSwift(t, name, mapping, spelling);
            Innermost(r.properties[0].type_) == r.nestedTypes[0].name
  {
    var n := S.NameFor(name, t.name, mapping);
    assert SimpleToSwift(t, name, mapping, spelling).nestedTypes[0] == SimpleToSwift(t.content.wrapped, Some(n), mapping, spelling);
  }

  // ---------------------------------------------------------------- elements

  predicate ElementResolvable(e: XS.Element, mapping: TypeMapping) {
    ElementNode(e.name) in mapping
    && (e.content.Base? ==> TypeNode(e.content.base) in mapping)
    && (e.content.Complex? ==> Resolvable(e.content.complex, mapping))
  }

  /** `Element.toSwift(mapping:)`: named after the element; a base-typed element is a class with no
      members whose superclass is the base type's mapped name. */
  method ElementToSwift(e: XS.Element, mapping: TypeMapping, spelling: Spelling) returns (r: SwiftMetaType)
    requires ElementResolvable(e, mapping)
    ensures r.TypeClass? && r.name == mapping[ElementNode(e.name)]
    ensures e.content.Base? ==>
              r == TypeClass(r.name, None, Some(mapping[TypeNode(e.content.base)]), [], [], [])
    ensures e.content.Complex? ==> r == X.ComplexToSwift(e.content.complex, Some(r.name), mapping, map[], spelling)
  {
    var name := mapping[ElementNode(e.name)];
    match e.content {
      case Base(base) =>
        r := TypeClass(name, None, Some(mapping[TypeNode(base)]), [], [], []);
      case Complex(complex) =>
        r := ComplexToSwift(complex, Some(name), mapping, spelling);
    }
  }
}
