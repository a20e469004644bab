/** The XML Schema reader: top-level schema nodes, elements with their occurrence ranges, simple
    types (restriction and list) and complex types (sequence, complexContent, empty), each chosen by
    a fixed priority over the element's children, and each failing with its own error. */
module XmlSchema {
  import opened Wrappers
  import opened Text
  import Xml
  import opened QualifiedNames
  import opened ParseErrors

  const NS_XS := Xml.NS_XS

  /** A `CountableRange<Int>` `lo..<hi`; Swift refuses to form one with `hi < lo`. */
  datatype Range = Range(lo: int, hi: int)

  datatype Import = Import(namespace: string, schemaLocation: Option<string>)

  datatype Element = Element(name: QualifiedName, content: ElementContent, occurs: Option<Range>, nillable: bool)

  datatype ElementContent = Base(base: QualifiedName) | Complex(complex: ComplexType)

  datatype Restriction = Restriction(base: QualifiedName, enumeration: seq<string>, pattern: Option<string>)

  datatype SimpleType = SimpleType(name: Option<QualifiedName>, content: SimpleContent)

  datatype SimpleContent =
    | RestrictionContent(restriction: Restriction)
    | List(itemType: QualifiedName)
    | ListWrapped(wrapped: SimpleType)

  datatype ComplexType = ComplexType(name: Option<QualifiedName>, content: ComplexTypeContent)

  datatype ComplexTypeContent =
    | Sequence(elements: seq<Element>)
    | ComplexContentOf(complexContent: ComplexContent)
    | Empty

  datatype Derivation = ByRestriction | ByExtension

  /** A complexContent: its base type, whether it restricts or extends it, and its sequence. */
  datatype ComplexContent = ComplexContent(base: QualifiedName, derivation: Derivation, elements: seq<Element>)

  datatype SchemaNode =
    | ImportNode(import_: Import)
    | SimpleTypeNode(simpleType: SimpleType)
    | ComplexTypeNode(complexType: ComplexType)
    | ElementNode(element: Element)

  datatype Schema = Schema(targetNamespace: Option<string>, nodes: seq<SchemaNode>)

  /** `Schema(nodes:)`: a schema assembled from nodes has no targetNamespace. */
  function FromNodes(nodes: seq<SchemaNode>): (s: Schema)
    ensures s.targetNamespace.None? && s.nodes == nodes
  {
    Schema(None, nodes)
  }

  // ---------------------------------------------------------------- occurrence ranges

  /** The text Swift's `Int(_:)!` accepts: a sign and decimal digits denoting a 64-bit value. */
  predicate IsIntLiteral(s: string) {
    ParseInteger(s).Some? && INT_MIN <= ParseInteger(s).value <= INT_MAX
  }

  function LowerBound(minOccurs: Option<string>): int
    requires minOccurs.Some? ==> IsIntLiteral(minOccurs.value)
  {
    if minOccurs.None? then 1 else ParseInteger(minOccurs.value).value
  }

  function UpperBound(maxOccurs: Option<string>): int
    requires maxOccurs.Some? && maxOccurs.value != "unbounded" ==> IsIntLiteral(maxOccurs.value)
  {
    if maxOccurs.None? then 1
    else if maxOccurs.value == "unbounded" then INT_MAX
    else ParseInteger(maxOccurs.value).value
  }

  /** What `Element.range` needs to avoid trapping: numerals where it force-unwraps them, and a
      lower bound that does not exceed the upper one. */
  predicate OccursWellFormed(minOccurs: Option<string>, maxOccurs: Option<string>) {
    (minOccurs.Some? ==> IsIntLiteral(minOccurs.value))
    && (maxOccurs.Some? && maxOccurs.value != "unbounded" ==> IsIntLiteral(maxOccurs.value))
    && (minOccurs.Some? || maxOccurs.Some? ==> LowerBound(minOccurs) <= UpperBound(maxOccurs))
  }

  /** `Element.range`: no attributes give no range; a missing minOccurs counts as 1, a missing
      maxOccurs as 1 and "unbounded" as `Int.max`, and the range is `min..<max`. */
  function OccursRange(minOccurs: Option<string>, maxOccurs: Option<string>): (r: Option<Range>)
    requires OccursWellFormed(minOccurs, maxOccurs)
    ensures r.None? <==> minOccurs.None? && maxOccurs.None?
    ensures minOccurs.None? && maxOccurs == Some("unbounded") ==> r == Some(Range(1, INT_MAX))
    ensures minOccurs.Some? && maxOccurs.None? ==> r == Some(Range(ParseInteger(minOccurs.value).value, 1))
    ensures r.Some? ==> r.value.lo <= r.value.hi
  {
    if minOccurs.None? && maxOccurs.None? then None
    else Some(Range(LowerBound(minOccurs), UpperBound(maxOccurs)))
  }

  // ---------------------------------------------------------------- preconditions of the forced unwraps

  function AttributeOf(e: Xml.Element, name: string): Option<string> {
    if name in e.attributes then Some(e.attributes[name]) else None
  }

  predicate IsXs(n: Xml.Node, localName: string) {
    n.ElementNode? && n.element.localName == localName && n.element.uri == Some(NS_XS)
  }

  /** The facts about one element that the reader force-unwraps: its occurrence attributes, and the
      @base of a complexContent's restriction or extension. */
  predicate NodeWellFormed(e: Xml.Element) {
    OccursWellFormed(AttributeOf(e, "minOccurs"), AttributeOf(e, "maxOccurs"))
    && (e.localName == "complexContent" && e.uri == Some(NS_XS) ==>
          forall i :: 0 <= i < |e.children| ==>
            (IsXs(e.children[i], "restriction") || IsXs(e.children[i], "extension")) ==> "base" in e.children[i].element.attributes)
  }

  predicate WellFormed(c: Xml.Cursor) {
    Xml.Everywhere(c.element, NodeWellFormed)
  }

  lemma WellFormedChild(c: Xml.Cursor, d: Xml.Cursor)
    requires WellFormed(c) && Xml.ElementNode(d.element) in c.element.children
    ensures WellFormed(d)
  {
    Xml.EverywhereBelow(c.element, d.element, NodeWellFormed);
  }

  function QName(r: Result<QualifiedName, QNameError>): Result<QualifiedName, Error> {
    if r.Ok? then Ok(r.value) else Err(QNameFailure(r.error))
  }

  // ---------------------------------------------------------------- the node readers

  /** `Import(deserialize:)`: @namespace is required, @schemaLocation optional. */
  function ParseImport(c: Xml.Cursor): (r: Result<Import, Error>)
    ensures r.Ok? <==> "namespace" in c.element.attributes
    ensures r.Err? ==> r.error == SchemaFailure(ImportWithoutNamespace)
    ensures r.Ok? ==> r.value.namespace == c.element.attributes["namespace"]
                      && r.value.schemaLocation == Xml.Attribute(c, "schemaLocation")
  {
    match Xml.Attribute(c, "namespace")
    case None => Err(SchemaFailure(ImportWithoutNamespace))
    case Some(ns) => Ok(Import(ns, Xml.Attribute(c, "schemaLocation")))
  }

  /** `Element(deserialize:)`. */
  function ParseElement(c: Xml.Cursor): (r: Result<Element, Error>)
    requires WellFormed(c)
    ensures "name" !in c.element.attributes ==> r == Err(SchemaFailure(ElementWithoutName))
    ensures "name" in c.element.attributes && Xml.TargetNamespace(c).None?
            ==> r == Err(SchemaFailure(ElementWithoutTargetNamespace))
    ensures r.Ok? ==> r.value.name == QualifiedName(Xml.TargetNamespace(c).value, c.element.attributes["name"])
                      && Ok(r.value.content) == ElementContentOf(c)
                      && r.value.occurs == OccursRange(Xml.Attribute(c, "minOccurs"), Xml.Attribute(c, "maxOccurs"))
                      && (r.value.nillable <==> Xml.Attribute(c, "nillable") == Some("true"))
    ensures "name" in c.element.attributes && Xml.TargetNamespace(c).Some? ==>
              Wraps(r, ElementContentOf(c),
                    (content: ElementContent) =>
                      Element(QualifiedName(Xml.TargetNamespace(c).value, c.element.attributes["name"]), content,
                              OccursRange(Xml.Attribute(c, "minOccurs"), Xml.Attribute(c, "maxOccurs")),
                              Xml.Attribute(c, "nillable").GetOr("false") == "true"))
    decreases c.element, 2, 0
  {
    if "name" !in c.element.attributes then Err(SchemaFailure(ElementWithoutName))
    else if Xml.TargetNamespace(c).None? then Err(SchemaFailure(ElementWithoutTargetNamespace))
    else
      var name := QualifiedName(Xml.TargetNamespace(c).value, c.element.attributes["name"]);
      var content :- ElementContentOf(c);
      Ok(Element(name, content,
                 OccursRange(Xml.Attribute(c, "minOccurs"), Xml.Attribute(c, "maxOccurs")),
                 Xml.Attribute(c, "nillable").GetOr("false") == "true"))
  }

  /** The first child `localName` in the XML Schema namespace; it is well-formed where its parent is. */
  function XsChild(c: Xml.Cursor, localName: string): (r: Option<Xml.Cursor>)
    requires WellFormed(c)
    ensures r == Xml.FirstNamed(c, localName, NS_XS)
    ensures r.Some? ==> WellFormed(r.value)
  {
    match Xml.FirstNamed(c, localName, NS_XS)
    case None => None
    case Some(d) => WellFormedChild(c, d); Some(d)
  }

  /** The children `localName` in the XML Schema namespace, in order, each well-formed. */
  function XsChildren(c: Xml.Cursor, localName: string): (r: seq<Xml.Cursor>)
    requires WellFormed(c)
    ensures r == Xml.ElementsNamed(c, localName, NS_XS)
    ensures forall k :: 0 <= k < |r| ==> WellFormed(r[k]) && r[k].element < c.element
  {
    var r := Xml.ElementsNamed(c, localName, NS_XS);
    assert forall k :: 0 <= k < |r| ==> WellFormed(r[k]) && r[k].element < c.element by {
      forall k | 0 <= k < |r| ensures WellFormed(r[k]) && r[k].element < c.element {
        WellFormedChild(c, r[k]);
      }
    }
    r
  }

  /** What `try` does to a nested reader whose value is wrapped into a larger one: `r` succeeds
      exactly when `inner` does, with the wrapped value, and otherwise fails with the same error. */
  ghost predicate Wraps<T, U>(r: Result<U, Error>, inner: Result<T, Error>, wrap: T -> U) {
    (r.Ok? <==> inner.Ok?) && (r.Ok? ==> r.value == wrap(inner.value)) && (r.Err? ==> r.error == inner.error)
  }

  /** An element's content by priority: @type, else a complexType child, else a simpleType child
      (not supported), else xs:anyType. */
  function ElementContentOf(c: Xml.Cursor): (r: Result<ElementContent, Error>)
    requires WellFormed(c)
    ensures "type" in c.element.attributes ==>
              r == match FromType(c.element.attributes["type"], Xml.Scope(c))
                   case Ok(q) => Ok(Base(q))
                   case Err(e) => Err(QNameFailure(e))
    ensures "type" !in c.element.attributes && XsChild(c, "complexType").Some? ==>
              Wraps(r, ParseComplexType(XsChild(c, "complexType").value), (t: ComplexType) => Complex(t))
    ensures "type" !in c.element.attributes && XsChild(c, "complexType").None? ==>
              r == if XsChild(c, "simpleType").Some? then Err(SchemaFailure(ElementContentNotSupported))
                   else Ok(Base(QualifiedName(NS_XS, "anyType")))
    decreases c.element, 1, 0
  {
    if "type" in c.element.attributes then
      var base :- QName(FromType(c.element.attributes["type"], Xml.Scope(c)));
      Ok(Base(base))
    else match XsChild(c, "complexType")
      case Some(ct) =>
        var complex :- ParseComplexType(ct);
        Ok(Complex(complex))
      case None =>
        if XsChild(c, "simpleType").Some? then Err(SchemaFailure(ElementContentNotSupported))
        else Ok(Base(QualifiedName(NS_XS, "anyType")))
  }

  /** The @value of the first pattern child, if any. */
  function PatternOf(c: Xml.Cursor): Option<string> {
    match Xml.FirstNamed(c, "pattern", NS_XS)
    case Some(p) => Xml.Attribute(p, "value")
    case None => None
  }

  /** `Restriction(deserialize:)`: @base is required and read as a qualified name in scope, every
      enumeration needs @value, and the pattern is the @value of the first pattern child. */
  function ParseRestriction(c: Xml.Cursor): (r: Result<Restriction, Error>)
    ensures "base" !in c.element.attributes ==> r == Err(SchemaFailure(RestrictionWithoutBase))
    ensures "base" in c.element.attributes ==>
              var base := FromType(c.element.attributes["base"], Xml.Scope(c));
              var values := EnumerationValues(Xml.ElementsNamed(c, "enumeration", NS_XS));
              (r.Ok? <==> base.Ok? && values.Ok?)
              && (base.Err? ==> r == Err(QNameFailure(base.error)))
              && (base.Ok? && values.Err? ==> r == Err(values.error))
              && (r.Ok? ==> r.value == Restriction(base.value, values.value, PatternOf(c)))
  {
    match Xml.Attribute(c, "base")
    case None => Err(SchemaFailure(RestrictionWithoutBase))
    case Some(b) =>
      var base :- QName(FromType(b, Xml.Scope(c)));
      var values :- EnumerationValues(Xml.ElementsNamed(c, "enumeration", NS_XS));
      Ok(Restriction(base, values, PatternOf(c)))
  }

  /** The @value of each enumeration, in document order; one without a value fails. */
  function EnumerationValues(cs: seq<Xml.Cursor>): (r: Result<seq<string>, Error>)
    ensures r.Ok? <==> forall k :: 0 <= k < |cs| ==> "value" in cs[k].element.attributes
    ensures r.Ok? ==> |r.value| == |cs| && forall k :: 0 <= k < |cs| ==> r.value[k] == cs[k].element.attributes["value"]
    ensures r.Err? ==> r.error == SchemaFailure(EnumerationWithoutValue)
  {
    if |cs| == 0 then Ok([])
    else match Xml.Attribute(cs[0], "value")
      case None => Err(SchemaFailure(EnumerationWithoutValue))
      case Some(v) =>
        var rest := EnumerationValues(cs[1..]);
        assert forall k :: 1 <= k < |cs| ==> cs[k] == cs[1..][k - 1];
        if rest.Err? then rest else Ok([v] + rest.value)
  }

  /** `SimpleType(deserialize:)`: a restriction beats a list; a list takes @itemType, else a nested
      simpleType; anything else is not supported. */
  function ParseSimpleType(c: Xml.Cursor): (r: Result<SimpleType, Error>)
    ensures r.Ok? ==> r.value.name == NameOfElement(c)
    ensures Xml.FirstNamed(c, "restriction", NS_XS).Some? ==>
              Wraps(r, ParseRestriction(Xml.FirstNamed(c, "restriction", NS_XS).value),
                    (rs: Restriction) => SimpleType(NameOfElement(c), RestrictionContent(rs)))
    ensures Xml.FirstNamed(c, "restriction", NS_XS).None? && Xml.FirstNamed(c, "list", NS_XS).None?
            ==> r == Err(SchemaFailure(SimpleTypeContentNotSupported))
    ensures Xml.FirstNamed(c, "restriction", NS_XS).None? && Xml.FirstNamed(c, "list", NS_XS).Some? ==>
              var list := Xml.FirstNamed(c, "list", NS_XS).value;
              if "itemType" in list.element.attributes then
                r == match FromType(list.element.attributes["itemType"], Xml.Scope(list))
                     case Ok(q) => Ok(SimpleType(NameOfElement(c), List(q)))
                     case Err(e) => Err(QNameFailure(e))
              else if Xml.FirstNamed(list, "simpleType", NS_XS).Some? then
                Wraps(r, ParseSimpleType(Xml.FirstNamed(list, "simpleType", NS_XS).value),
                      (w: SimpleType) => SimpleType(NameOfElement(c), ListWrapped(w)))
              else r == Err(SchemaFailure(SimpleTypeContentNotSupported))
    decreases c.element
  {
    var name := NameOfElement(c);
    match Xml.FirstNamed(c, "restriction", NS_XS)
    case Some(restriction) =>
      var rs :- ParseRestriction(restriction);
      Ok(SimpleType(name, RestrictionContent(rs)))
    case None =>
      match Xml.FirstNamed(c, "list", NS_XS)
      case None => Err(SchemaFailure(SimpleTypeContentNotSupported))
      case Some(list) =>
        if "itemType" in list.element.attributes then
          var item :- QName(FromType(list.element.attributes["itemType"], Xml.Scope(list)));
          Ok(SimpleType(name, List(item)))
        else match Xml.FirstNamed(list, "simpleType", NS_XS)
          case None => Err(SchemaFailure(SimpleTypeContentNotSupported))
          case Some(inner) =>
            assert inner.element < list.element < c.element;
            var wrapped :- ParseSimpleType(inner);
            Ok(SimpleType(name, ListWrapped(wrapped)))
  }

  /** `ComplexType(deserialize:)`: simpleContent, group, all and choice are not supported;
      complexContent comes first, then a sequence; with none of them the content is empty. */
  function ParseComplexType(c: Xml.Cursor): (r: Result<ComplexType, Error>)
    requires WellFormed(c)
    ensures r.Ok? ==> r.value.name == NameOfElement(c)
    ensures XsChild(c, "simpleContent").Some? ==> r == Err(SchemaFailure(ComplexTypeContentNotSupported))
    ensures XsChild(c, "simpleContent").None? && XsChild(c, "complexContent").Some? ==>
              Wraps(r, ParseComplexContent(XsChild(c, "complexContent").value),
                    (cc: ComplexContent) => ComplexType(NameOfElement(c), ComplexContentOf(cc)))
    ensures XsChild(c, "simpleContent").None? && XsChild(c, "complexContent").None? ==>
              if XsChild(c, "group").Some? || XsChild(c, "all").Some? || XsChild(c, "choice").Some?
              then r == Err(SchemaFailure(ComplexTypeContentNotSupported))
              else if XsChild(c, "sequence").Some? then
                Wraps(r, ParseSequence(XsChild(c, "sequence").value),
                      (es: seq<Element>) => ComplexType(NameOfElement(c), Sequence(es)))
              else r == Ok(ComplexType(NameOfElement(c), Empty))
    decreases c.element, 2, 0
  {
    var name := NameOfElement(c);
    if XsChild(c, "simpleContent").Some? then Err(SchemaFailure(ComplexTypeContentNotSupported))
    else match XsChild(c, "complexContent")
      case Some(cc) =>
        var content :- ParseComplexContent(cc);
        Ok(ComplexType(name, ComplexContentOf(content)))
      case None =>
        if XsChild(c, "group").Some? || XsChild(c, "all").Some? || XsChild(c, "choice").Some? then
          Err(SchemaFailure(ComplexTypeContentNotSupported))
        else match XsChild(c, "sequence")
          case Some(s) =>
            var elements :- ParseSequence(s);
            Ok(ComplexType(name, Sequence(elements)))
          case None => Ok(ComplexType(name, Empty))
  }

  /** The restriction or extension child of a complexContent, which carries @base where the
      reader force-unwraps it. */
  function DerivationChild(c: Xml.Cursor, localName: string): (r: Option<Xml.Cursor>)
    requires WellFormed(c)
    requires c.element.localName == "complexContent" && c.element.uri == Some(NS_XS)
    requires localName == "restriction" || localName == "extension"
    ensures r == Xml.FirstNamed(c, localName, NS_XS)
    ensures r.Some? ==> WellFormed(r.value) && "base" in r.value.element.attributes
  {
    match XsChild(c, localName)
    case None => None
    case Some(d) => DerivationHasBase(c, d); Some(d)
  }

  /** `ComplexContent(deserialize:)`: a restriction, else an extension, each with a base resolved in
      the complexContent's scope and a sequence as its only supported content. */
  function ParseComplexContent(c: Xml.Cursor): (r: Result<ComplexContent, Error>)
    requires WellFormed(c)
    requires c.element.localName == "complexContent" && c.element.uri == Some(NS_XS)
    ensures DerivationChild(c, "restriction").Some? ==>
              Derives(r, c, DerivationChild(c, "restriction").value, ByRestriction)
    ensures DerivationChild(c, "restriction").None? && DerivationChild(c, "extension").Some? ==>
              Derives(r, c, DerivationChild(c, "extension").value, ByExtension)
    ensures DerivationChild(c, "restriction").None? && DerivationChild(c, "extension").None?
            ==> r == Err(SchemaFailure(InvalidComplexContentContent))
    decreases c.element, 2, 0
  {
    match DerivationChild(c, "restriction")
    case Some(d) =>
      var base :- QName(FromType(d.element.attributes["base"], Xml.Scope(c)));
      var elements :- DerivationSequence(d);
      Ok(ComplexContent(base, ByRestriction, elements))
    case None =>
      match DerivationChild(c, "extension")
      case Some(d) =>
        var base :- QName(FromType(d.element.attributes["base"], Xml.Scope(c)));
        var elements :- DerivationSequence(d);
        Ok(ComplexContent(base, ByExtension, elements))
      case None => Err(SchemaFailure(InvalidComplexContentContent))
  }

  /** `r` is the complexContent derived through `d`: its @base read in the complexContent's scope
      (an unresolvable one fails first), then the derivation's sequence or its error. */
  ghost predicate Derives(r: Result<ComplexContent, Error>, c: Xml.Cursor, d: Xml.Cursor, derivation: Derivation)
    requires WellFormed(d) && "base" in d.element.attributes
    decreases d.element, 2
  {
    var base := FromType(d.element.attributes["base"], Xml.Scope(c));
    var elements := DerivationSequence(d);
    (r.Ok? <==> base.Ok? && elements.Ok?)
    && (base.Err? ==> r == Err(QNameFailure(base.error)))
    && (base.Ok? && elements.Err? ==> r == Err(elements.error))
    && (r.Ok? ==> r.value == ComplexContent(base.value, derivation, elements.value))
  }

  lemma DerivationHasBase(c: Xml.Cursor, d: Xml.Cursor)
    requires WellFormed(c)
    requires c.element.localName == "complexContent" && c.element.uri == Some(NS_XS)
    requires Xml.ElementNode(d.element) in c.element.children && d.element.uri == Some(NS_XS)
    requires d.element.localName == "restriction" || d.element.localName == "extension"
    ensures "base" in d.element.attributes
  {
    assert NodeWellFormed(c.element);
    var i :| 0 <= i < |c.element.children| && c.element.children[i] == Xml.ElementNode(d.element);
    assert IsXs(c.element.children[i], d.element.localName);
  }

  /** The content of a restriction or extension: its sequence, or complexContentContentNotSupported. */
  function DerivationSequence(c: Xml.Cursor): (r: Result<seq<Element>, Error>)
    requires WellFormed(c)
    ensures XsChild(c, "sequence").None? ==> r == Err(SchemaFailure(ComplexContentContentNotSupported))
    ensures XsChild(c, "sequence").Some? ==> r == ParseSequence(XsChild(c, "sequence").value)
    decreases c.element, 1, 0
  {
    match XsChild(c, "sequence")
    case Some(s) => ParseSequence(s)
    case None => Err(SchemaFailure(ComplexContentContentNotSupported))
  }

  /** `Sequence(deserialize:)`: the xs:element children of the sequence, each read as an Element. */
  function ParseSequence(c: Xml.Cursor): (r: Result<seq<Element>, Error>)
    requires WellFormed(c)
    ensures r == ParseElements(c.element, XsChildren(c, "element"))
    decreases c.element, 1, 0
  {
    ParseElements(c.element, XsChildren(c, "element"))
  }

  /** `map(Element.init(deserialize:))` under `try`: every element in order, or the error of the
      first one that fails (`ParseElementsPointwise`). */
  function ParseElements(parent: Xml.Element, cs: seq<Xml.Cursor>): (r: Result<seq<Element>, Error>)
    requires forall k :: 0 <= k < |cs| ==> WellFormed(cs[k]) && cs[k].element < parent
    ensures r.Ok? ==> |r.value| == |cs|
    decreases parent, 0, |cs|
  {
    if |cs| == 0 then Ok([])
    else
      var head :- ParseElement(cs[0]);
      var tail :- ParseElements(parent, cs[1..]);
      Ok([head] + tail)
  }

  /** The elements read from `cs` are each child's own reading, in order, and the list succeeds
      exactly when every child does. */
  lemma {:induction false} ParseElementsPointwise(parent: Xml.Element, cs: seq<Xml.Cursor>)
    requires forall k :: 0 <= k < |cs| ==> WellFormed(cs[k]) && cs[k].element < parent
    ensures var r := ParseElements(parent, cs);
            && (r.Ok? <==> forall k :: 0 <= k < |cs| ==> ParseElement(cs[k]).Ok?)
            && (r.Ok? ==> forall k :: 0 <= k < |cs| ==> r.value[k] == ParseElement(cs[k]).value)
  {
    if |cs| > 0 {
      var rest := cs[1..];
      ParseElementsPointwise(parent, rest);
      assert forall k :: 1 <= k < |cs| ==> rest[k - 1] == cs[k];
      var head := ParseElement(cs[0]);
      var tail := ParseElements(parent, rest);
      if head.Ok? && tail.Ok? {
        assert ParseElements(parent, cs).value == [head.value] + tail.value;
      }
    }
  }

  /** A failing list carries the error of the first child that fails. */
  lemma {:induction false} ParseElementsFirstFailure(parent: Xml.Element, cs: seq<Xml.Cursor>)
    requires forall k :: 0 <= k < |cs| ==> WellFormed(cs[k]) && cs[k].element < parent
    requires ParseElements(parent, cs).Err?
    ensures exists k :: 0 <= k < |cs| && ParseElement(cs[k]) == Err(ParseElements(parent, cs).error)
                        && forall j :: 0 <= j < k ==> ParseElement(cs[j]).Ok?
  {
    assert |cs| > 0;
    if ParseElement(cs[0]).Ok? {
      var rest := ParseElements(parent, cs[1..]);
      ParseElementsFirstFailure(parent, cs[1..]);
      var k :| 0 <= k < |cs[1..]| && ParseElement(cs[1..][k]) == Err(rest.error)
               && forall j :: 0 <= j < k ==> ParseElement(cs[1..][j]).Ok?;
      assert forall j :: 1 <= j < k + 1 ==> cs[1..][j - 1] == cs[j];
      assert ParseElement(cs[k + 1]) == Err(rest.error);
    } else {
      assert ParseElement(cs[0]) == Err(ParseElements(parent, cs).error);
    }
  }

  // ---------------------------------------------------------------- the schema document

  /** Top-level XML Schema components the reader silently skips. */
  predicate Skipped(localName: string) {
    localName in ["annotation", "attribute", "attributeGroup", "group", "include", "notation", "redefine"]
  }

  /** Top-level components the reader keeps. */
  predicate Kept(localName: string) {
    localName in ["import", "simpleType", "complexType", "element"]
  }

  /** One child of the schema root: text is passed over, an element must be in the XML Schema
      namespace, skipped components give nothing, kept ones give their node, anything else fails. */
  function TopLevelNode(n: Xml.Node, scope: seq<Xml.Frame>): (r: Result<Option<SchemaNode>, Error>)
    requires n.ElementNode? ==> Xml.Everywhere(n.element, NodeWellFormed)
    ensures n.TextNode? ==> r == Ok(None)
    ensures n.ElementNode? && n.element.uri != Some(NS_XS) ==> r == Err(SchemaFailure(IncorrectNamespace))
    ensures n.ElementNode? && n.element.uri == Some(NS_XS) && Skipped(n.element.localName) ==> r == Ok(None)
    ensures n.ElementNode? && n.element.uri == Some(NS_XS) && !Skipped(n.element.localName) && !Kept(n.element.localName)
            ==> r == Err(SchemaFailure(IncorrectTopLevelElement(n.element.localName)))
    ensures r.Ok? && r.value.Some? ==> n.ElementNode? && Kept(n.element.localName)
    ensures n.ElementNode? && n.element.uri == Some(NS_XS) && n.element.localName == "import" ==>
              Wraps(r, ParseImport(Xml.Cursor(n.element, scope)), (i: Import) => Some(ImportNode(i)))
    ensures n.ElementNode? && n.element.uri == Some(NS_XS) && n.element.localName == "simpleType" ==>
              Wraps(r, ParseSimpleType(Xml.Cursor(n.element, scope)), (t: SimpleType) => Some(SimpleTypeNode(t)))
    ensures n.ElementNode? && n.element.uri == Some(NS_XS) && n.element.localName == "complexType" ==>
              Wraps(r, ParseComplexType(Xml.Cursor(n.element, scope)), (t: ComplexType) => Some(ComplexTypeNode(t)))
    ensures n.ElementNode? && n.element.uri == Some(NS_XS) && n.element.localName == "element" ==>
              Wraps(r, ParseElement(Xml.Cursor(n.element, scope)), (e: Element) => Some(ElementNode(e)))
  {
    if n.TextNode? then Ok(None)
    else
      var c := Xml.Cursor(n.element, scope);
      if n.element.uri != Some(NS_XS) then Err(SchemaFailure(IncorrectNamespace))
      else if Skipped(n.element.localName) then Ok(None)
      else if n.element.localName == "import" then
        var i :- ParseImport(c); Ok(Some(ImportNode(i)))
      else if n.element.localName == "simpleType" then
        var t :- ParseSimpleType(c); Ok(Some(SimpleTypeNode(t)))
      else if n.element.localName == "complexType" then
        var t :- ParseComplexType(c); Ok(Some(ComplexTypeNode(t)))
      else if n.element.localName == "element" then
        var e :- ParseElement(c); Ok(Some(ElementNode(e)))
      else Err(SchemaFailure(IncorrectTopLevelElement(n.element.localName)))
  }

  predicate ChildrenWellFormed(nodes: seq<Xml.Node>) {
    forall i :: 0 <= i < |nodes| ==> nodes[i].ElementNode? ==> Xml.Everywhere(nodes[i].element, NodeWellFormed)
  }

  function AsSeq(o: Option<SchemaNode>): seq<SchemaNode> {
    if o.Some? then [o.value] else []
  }

  /** The nodes the children give, in document order, or the error of the first child that fails. */
  function TopLevelNodes(nodes: seq<Xml.Node>, scope: seq<Xml.Frame>): Result<seq<SchemaNode>, Error>
    requires ChildrenWellFormed(nodes)
  {
    if |nodes| == 0 then Ok([])
    else
      var init :- TopLevelNodes(nodes[..|nodes| - 1], scope);
      var last :- TopLevelNode(nodes[|nodes| - 1], scope);
      Ok(init + AsSeq(last))
  }

  /** `Schema(deserialize:)` as a value: the root must be xs:schema; its @targetNamespace and the
      nodes of its children make the schema. */
  function SchemaOf(c: Xml.Cursor): (r: Result<Schema, Error>)
    requires WellFormed(c)
    ensures !(c.element.localName == "schema" && c.element.uri == Some(NS_XS)) ==> r == Err(SchemaFailure(SchemaParseError.IncorrectRootElement))
    ensures r.Ok? ==> r.value.targetNamespace == Xml.Attribute(c, "targetNamespace")
    ensures c.element.localName == "schema" && c.element.uri == Some(NS_XS) ==>
              ChildrenWellFormed(c.element.children)
              && Wraps(r, TopLevelNodes(c.element.children, Xml.Scope(c)),
                       (nodes: seq<SchemaNode>) => Schema(Xml.Attribute(c, "targetNamespace"), nodes))
  {
    if !(c.element.localName == "schema" && c.element.uri == Some(NS_XS)) then Err(SchemaFailure(SchemaParseError.IncorrectRootElement))
    else
      SchemaChildrenWellFormed(c);
      var nodes :- TopLevelNodes(c.element.children, Xml.Scope(c));
      Ok(Schema(Xml.Attribute(c, "targetNamespace"), nodes))
  }

  lemma SchemaChildrenWellFormed(c: Xml.Cursor)
    requires WellFormed(c)
    ensures ChildrenWellFormed(c.element.children)
  {
    forall i | 0 <= i < |c.element.children| && c.element.children[i].ElementNode?
      ensures Xml.Everywhere(c.element.children[i].element, NodeWellFormed)
    {
      Xml.EverywhereBelow(c.element, c.element.children[i].element, NodeWellFormed);
    }
  }

  /** `Schema(deserialize:)`: checks the root, then walks the children appending each kept node. */
  method ParseSchema(c: Xml.Cursor) returns (r: Result<Schema, Error>)
    requires WellFormed(c)
    ensures r == SchemaOf(c)
  {
    if !(c.element.localName == "schema" && c.element.uri == Some(NS_XS)) {
      return Err(SchemaFailure(SchemaParseError.IncorrectRootElement));
    }
    var targetNamespace := Xml.Attribute(c, "targetNamespace");
    var scope := Xml.Scope(c);
    SchemaChildrenWellFormed(c);
    var children := c.element.children;
    var nodes: seq<SchemaNode> := [];
    var i := 0;
    while i < |children|
      invariant 0 <= i <= |children|
      invariant ChildrenWellFormed(children[..i])
      invariant TopLevelNodes(children[..i], scope) == Ok(nodes)
    {
      WalkStep(children, i, scope);
      var node := TopLevelNode(children[i], scope);
      if node.Err? {
        PrefixFailure(children, i + 1, scope);
        return Err(node.error);
      }
      nodes := nodes + AsSeq(node.value);
      i := i + 1;
    }
    assert children[..i] == children;
    r := Ok(Schema(targetNamespace, nodes));
  }

  /** One more child: the walk over `nodes[..i + 1]` extends the walk over `nodes[..i]`. */
  lemma WalkStep(nodes: seq<Xml.Node>, i: nat, scope: seq<Xml.Frame>)
    requires ChildrenWellFormed(nodes) && i < |nodes|
    ensures ChildrenWellFormed(nodes[..i]) && ChildrenWellFormed(nodes[..i + 1])
    ensures TopLevelNodes(nodes[..i + 1], scope) ==
            if TopLevelNodes(nodes[..i], scope).Err? then TopLevelNodes(nodes[..i], scope)
            else if TopLevelNode(nodes[i], scope).Err? then Err(TopLevelNode(nodes[i], scope).error)
            else Ok(TopLevelNodes(nodes[..i], scope).value + AsSeq(TopLevelNode(nodes[i], scope).value))
  {
    assert nodes[..i + 1][..i] == nodes[..i];
    assert forall j :: 0 <= j < i ==> nodes[..i][j] == nodes[j];
    assert forall j :: 0 <= j <= i ==> nodes[..i + 1][j] == nodes[j];
  }

  /** Once a prefix of the children fails, the whole walk fails with the same error. */
  lemma {:induction false} PrefixFailure(nodes: seq<Xml.Node>, k: nat, scope: seq<Xml.Frame>)
    requires ChildrenWellFormed(nodes)
    requires k <= |nodes|
    requires TopLevelNodes(nodes[..k], scope).Err?
    ensures TopLevelNodes(nodes, scope) == TopLevelNodes(nodes[..k], scope)
    decreases |nodes|
  {
    if k < |nodes| {
      var init := nodes[..|nodes| - 1];
      assert init[..k] == nodes[..k];
      PrefixFailure(init, k, scope);
    } else {
      assert nodes[..k] == nodes;
    }
  }

  /** Every node the walk keeps comes from a kept XML Schema component of the same kind. */
  lemma {:induction false} KeptNodesAreKnown(nodes: seq<Xml.Node>, scope: seq<Xml.Frame>)
    requires ChildrenWellFormed(nodes)
    requires TopLevelNodes(nodes, scope).Ok?
    ensures |TopLevelNodes(nodes, scope).value| <= |nodes|
    ensures forall i :: 0 <= i < |nodes| && nodes[i].ElementNode? ==> nodes[i].element.uri == Some(NS_XS)
    ensures forall i :: 0 <= i < |nodes| && nodes[i].ElementNode? ==>
              Skipped(nodes[i].element.localName) || Kept(nodes[i].element.localName)
    decreases |nodes|
  {
    if |nodes| > 0 {
      var init := nodes[..|nodes| - 1];
      KeptNodesAreKnown(init, scope);
      forall i | 0 <= i < |nodes| && nodes[i].ElementNode?
        ensures nodes[i].element.uri == Some(NS_XS)
        ensures Skipped(nodes[i].element.localName) || Kept(nodes[i].element.localName)
      {
        if i < |nodes| - 1 { assert nodes[i] == init[i]; }
      }
    }
  }

  /** A skipped component (or a text node) can be taken out anywhere without changing the result. */
  lemma {:induction false} SkippedChildDropsOut(a: seq<Xml.Node>, n: Xml.Node, b: seq<Xml.Node>, scope: seq<Xml.Frame>)
    requires ChildrenWellFormed(a + [n] + b) && ChildrenWellFormed(a + b)
    requires n.TextNode? || (n.element.uri == Some(NS_XS) && Skipped(n.element.localName))
    ensures TopLevelNodes(a + [n] + b, scope) == TopLevelNodes(a + b, scope)
    decreases |b|
  {
    if |b| == 0 {
      assert a + [n] + b == a + [n];
      assert (a + [n])[..|a|] == a;
      assert (a + [n])[|a|] == n;
      assert a + b == a;
      assert TopLevelNode(n, scope) == Ok(None);
      if TopLevelNodes(a, scope).Ok? {
        assert TopLevelNodes(a, scope).value + AsSeq(None) == TopLevelNodes(a, scope).value;
      }
    } else {
      var b' := b[..|b| - 1];
      assert (a + [n] + b)[..|a + [n] + b| - 1] == a + [n] + b';
      assert (a + b)[..|a + b| - 1] == a + b';
      assert (a + [n] + b)[|a + [n] + b| - 1] == b[|b| - 1] == (a + b)[|a + b| - 1];
      assert ChildrenWellFormed(a + [n] + b') by {
        forall i | 0 <= i < |a + [n] + b'| ensures (a + [n] + b')[i] == (a + [n] + b)[i] { }
      }
      assert ChildrenWellFormed(a + b') by {
        forall i | 0 <= i < |a + b'| ensures (a + b')[i] == (a + b)[i] { }
      }
      SkippedChildDropsOut(a, n, b', scope);
    }
  }

  /** The nodes of concatenated children are the concatenated nodes: document order is kept. */
  lemma {:induction false} NodesFollowDocumentOrder(a: seq<Xml.Node>, b: seq<Xml.Node>, scope: seq<Xml.Frame>)
    requires ChildrenWellFormed(a) && ChildrenWellFormed(b) && ChildrenWellFormed(a + b)
    requires TopLevelNodes(a, scope).Ok? && TopLevelNodes(b, scope).Ok?
    ensures TopLevelNodes(a + b, scope) == Ok(TopLevelNodes(a, scope).value + TopLevelNodes(b, scope).value)
    decreases |b|
  {
    if |b| == 0 {
      assert a + b == a;
      assert TopLevelNodes(a, scope).value + [] == TopLevelNodes(a, scope).value;
    } else {
      var b' := b[..|b| - 1];
      assert (a + b)[..|a + b| - 1] == a + b';
      assert (a + b)[|a + b| - 1] == b[|b| - 1];
      assert ChildrenWellFormed(b') by {
        forall i | 0 <= i < |b'| ensures b'[i] == b[i] { }
      }
      assert ChildrenWellFormed(a + b') by {
        forall i | 0 <= i < |a + b'| ensures (a + b')[i] == (a + b)[i] { }
      }
      assert b[..|b| - 1] == b';
      assert TopLevelNodes(b', scope).Ok?;
      NodesFollowDocumentOrder(a, b', scope);
      var last := TopLevelNode(b[|b| - 1], scope);
      assert last.Ok?;
      assert TopLevelNodes(a, scope).value + TopLevelNodes(b', scope).value + AsSeq(last.value)
          == TopLevelNodes(a, scope).value + (TopLevelNodes(b', scope).value + AsSeq(last.value));
    }
  }
}
