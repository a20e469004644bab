/** The first XML Schema reader: a schema is a list of elements, each either an element with a
    named base type or a complex element holding the members of its sequence. Occurrence ranges
    always exist here, type names must carry a namespace prefix, and equality deliberately ignores
    the occurrence range and the members. */
module LegacyXsd {
  import opened Wrappers
  import opened Text
  import opened QualifiedNames
  import opened ParseErrors
  import Xml
  import XS = XmlSchema

  const NS_XSD := Xml.NS_XS

  datatype Element =
    | Type(name: QualifiedName, base: QualifiedName, occurs: XS.Range)
    | Complex(name: QualifiedName, occurs: XS.Range, members: seq<Element>)

  /** The `name` accessor: the name of either case. */
  function Name(e: Element): (n: QualifiedName)
    ensures e.Type? ==> n == e.name
    ensures e.Complex? ==> n == e.name
  {
    match e
    case Type(name, _, _) => name
    case Complex(name, _, _) => name
  }

  /** `==`: two base-typed elements agree on name and base, two complex elements on their name;
      the cases never equal each other. */
  predicate Equals(a: Element, b: Element) {
    match (a, b)
    case (Type(an, ab, _), Type(bn, bb, _)) => an == bn && ab == bb
    case (Complex(an, _, _), Complex(bn, _, _)) => an == bn
    case _ => false
  }

  /** `==` is an equivalence that ignores the occurrence range of a base-typed element and both the
      range and the members of a complex one. */
  lemma EqualsIsEquivalence(a: Element, b: Element, c: Element)
    ensures Equals(a, a)
    ensures Equals(a, b) ==> Equals(b, a)
    ensures Equals(a, b) && Equals(b, c) ==> Equals(a, c)
    ensures Equals(a, b) ==> a.Type? == b.Type? && Name(a) == Name(b)
  {
  }

  lemma EqualsIgnoresOccursAndMembers(name: QualifiedName, base: QualifiedName, r1: XS.Range, r2: XS.Range,
                                      m1: seq<Element>, m2: seq<Element>)
    ensures Equals(Type(name, base, r1), Type(name, base, r2))
    ensures Equals(Complex(name, r1, m1), Complex(name, r2, m2))
    ensures !Equals(Type(name, base, r1), Complex(name, r2, m2))
  {
  }

  /** `hashValue`: `name.uri.hashValue * 17 + name.localName.hashValue` with Swift's trapping
      arithmetic, for a string hash the model does not fix. */
  function Hash(e: Element, stringHash: string -> Int64): (h: Int64)
    requires INT_MIN <= stringHash(Name(e).uri) * 17 + stringHash(Name(e).localName) <= INT_MAX
  {
    stringHash(Name(e).uri) * 17 + stringHash(Name(e).localName)
  }

  /** Elements that are `==` have the same name, so they hash alike. */
  lemma EqualsConsistentWithHash(a: Element, b: Element, stringHash: string -> Int64)
    requires INT_MIN <= stringHash(Name(a).uri) * 17 + stringHash(Name(a).localName) <= INT_MAX
    requires Equals(a, b)
    ensures INT_MIN <= stringHash(Name(b).uri) * 17 + stringHash(Name(b).localName) <= INT_MAX
    ensures Hash(a, stringHash) == Hash(b, stringHash)
  {
  }

  // ---------------------------------------------------------------- occurrence ranges

  /** `range(_:_:)`: a missing bound counts as 1 and "unbounded" as `Int.max`; unlike the later
      reader, no attributes at all give the range 1..<1 rather than none. The forced unwraps and
      the range formation need `XS.OccursWellFormed`. */
  function Occurs(minOccurs: Option<string>, maxOccurs: Option<string>): (r: XS.Range)
    requires XS.OccursWellFormed(minOccurs, maxOccurs)
    ensures minOccurs.None? && maxOccurs.None? ==> r == XS.Range(1, 1)
    ensures minOccurs.None? && maxOccurs == Some("unbounded") ==> r == XS.Range(1, INT_MAX)
    ensures minOccurs.None? && maxOccurs.Some? && maxOccurs.value != "unbounded"
            ==> r == XS.Range(1, ParseInteger(maxOccurs.value).value)
    ensures minOccurs.Some? && maxOccurs.None? ==> r == XS.Range(ParseInteger(minOccurs.value).value, 1)
    ensures minOccurs.Some? && maxOccurs == Some("unbounded") ==> r == XS.Range(ParseInteger(minOccurs.value).value, INT_MAX)
    ensures minOccurs.Some? && maxOccurs.Some? && maxOccurs.value != "unbounded"
            ==> r == XS.Range(ParseInteger(minOccurs.value).value, ParseInteger(maxOccurs.value).value)
    ensures r.lo <= r.hi
  {
    XS.Range(XS.LowerBound(minOccurs), XS.UpperBound(maxOccurs))
  }

  /** The two readers agree on every range except the one without attributes, which is 1..<1 here
      and absent in the later reader. */
  lemma OccursAgreesWithElementRange(minOccurs: Option<string>, maxOccurs: Option<string>)
    requires XS.OccursWellFormed(minOccurs, maxOccurs)
    ensures minOccurs.Some? || maxOccurs.Some? ==> XS.OccursRange(minOccurs, maxOccurs) == Some(Occurs(minOccurs, maxOccurs))
    ensures minOccurs.None? && maxOccurs.None? ==>
              XS.OccursRange(minOccurs, maxOccurs).None? && Occurs(minOccurs, maxOccurs) == XS.Range(1, 1)
  {
  }

  // ---------------------------------------------------------------- parsing

  /** The facts the reader force-unwraps: the occurrence attributes of every element it reads. */
  predicate NodeWellFormed(e: Xml.Element) {
    XS.OccursWellFormed(XS.AttributeOf(e, "minOccurs"), XS.AttributeOf(e, "maxOccurs"))
  }

  predicate WellFormed(c: Xml.Cursor) {
    Xml.Everywhere(c.element, NodeWellFormed)
  }

  lemma WellFormedChildren(c: Xml.Cursor, cs: seq<Xml.Cursor>)
    requires WellFormed(c)
    requires forall k :: 0 <= k < |cs| ==> Xml.ElementNode(cs[k].element) in c.element.children
    ensures forall k :: 0 <= k < |cs| ==> WellFormed(cs[k]) && cs[k].element < c.element
  {
    forall k | 0 <= k < |cs| ensures WellFormed(cs[k]) && cs[k].element < c.element {
      Xml.EverywhereBelow(c.element, cs[k].element, NodeWellFormed);
    }
  }

  /** The first child `localName` in the XML Schema namespace; it is well-formed where its parent is. */
  function XsdChild(c: Xml.Cursor, localName: string): (r: Option<Xml.Cursor>)
    requires WellFormed(c)
    ensures r == Xml.FirstNamed(c, localName, NS_XSD)
    ensures r.Some? ==> WellFormed(r.value) && r.value.element < c.element
  {
    match Xml.FirstNamed(c, localName, NS_XSD)
    case None => None
    case Some(d) => WellFormedChildren(c, [d]); Some(d)
  }

  /** The children `localName` in the XML Schema namespace, in order, each well-formed. */
  function XsdChildren(c: Xml.Cursor, localName: string): (r: seq<Xml.Cursor>)
    requires WellFormed(c)
    ensures r == Xml.ElementsNamed(c, localName, NS_XSD)
    ensures forall k :: 0 <= k < |r| ==> WellFormed(r[k]) && r[k].element < c.element
  {
    var r := Xml.ElementsNamed(c, localName, NS_XSD);
    WellFormedChildren(c, r);
    r
  }

  /** `targetNamespace(ofNode:)`: the inherited targetNamespace, which must exist. */
  function Tns(c: Xml.Cursor): (r: Result<string, Error>)
    ensures r.Ok? <==> Xml.TargetNamespace(c).Some?
    ensures r.Ok? ==> r.value == Xml.TargetNamespace(c).value
    ensures r.Err? ==> r.error == DescriptionFailure(NodeWithoutTargetNamespace)
  {
    match Xml.TargetNamespace(c)
    case None => Err(DescriptionFailure(NodeWithoutTargetNamespace))
    case Some(tns) => Ok(tns)
  }

  predicate IsXsd(c: Xml.Cursor, localName: string) {
    c.element.localName == localName && c.element.uri == Some(NS_XSD)
  }

  /** `parseElement(node:)`: @name is required; an xs:element with @type is a base-typed element,
      one with a complexType child is complex; an xs:complexType node is complex itself; anything
      else is not supported. */
  function ParseElement(c: Xml.Cursor): (r: Result<Element, Error>)
    requires WellFormed(c)
    ensures "name" !in c.element.attributes ==> r == Err(LegacyFailure(NoName))
    decreases c.element, 2
  {
    if "name" !in c.element.attributes then Err(LegacyFailure(NoName))
    else
      var tns :- Tns(c);
      var name := QualifiedName(tns, c.element.attributes["name"]);
      assert NodeWellFormed(c.element);
      var occurs := Occurs(Xml.Attribute(c, "minOccurs"), Xml.Attribute(c, "maxOccurs"));
      if IsXsd(c, "element") && "type" in c.element.attributes then
        var base :- XS.QName(FromPrefixedType(c.element.attributes["type"], Xml.Scope(c)));
        Ok(Type(name, base, occurs))
      else if IsXsd(c, "element") && Xml.FirstNamed(c, "complexType", NS_XSD).Some? then
        var ct := Xml.FirstNamed(c, "complexType", NS_XSD).value;
        WellFormedChildren(c, [ct]);
        ParseComplexType(name, occurs, ct)
      else if IsXsd(c, "complexType") then
        ParseComplexType(name, occurs, c)
      else Err(LegacyFailure(UnsupportedType))
  }

  /** `parseComplexType(name:occurs:complexType:)`: the first xs:sequence child gives the members,
      every xs:element of it in order; without one the type is not supported. */
  function ParseComplexType(name: QualifiedName, occurs: XS.Range, ct: Xml.Cursor): (r: Result<Element, Error>)
    requires WellFormed(ct)
    ensures Xml.FirstNamed(ct, "sequence", NS_XSD).None? ==> r == Err(LegacyFailure(UnsupportedType))
    ensures r.Ok? ==>
              && Xml.FirstNamed(ct, "sequence", NS_XSD).Some?
              && r.value.Complex? && r.value.name == name && r.value.occurs == occurs
              && |r.value.members| == |Xml.ElementsNamed(Xml.FirstNamed(ct, "sequence", NS_XSD).value, "element", NS_XSD)|
    ensures XsdChild(ct, "sequence").Some? ==>
              var s := XsdChild(ct, "sequence").value;
              XS.Wraps(r, ParseMembers(s.element, XsdChildren(s, "element")),
                       (members: seq<Element>) => Complex(name, occurs, members))
    decreases ct.element, 1
  {
    match XsdChild(ct, "sequence")
    case None => Err(LegacyFailure(UnsupportedType))
    case Some(s) =>
      var members :- ParseMembers(s.element, XsdChildren(s, "element"));
      Ok(Complex(name, occurs, members))
  }

  /** `map(parseElement(node:))` over the elements of a sequence: all of them in order, or the
      first failure. */
  function ParseMembers(parent: Xml.Element, cs: seq<Xml.Cursor>): (r: Result<seq<Element>, Error>)
    requires forall k :: 0 <= k < |cs| ==> cs[k].element < parent && WellFormed(cs[k])
    ensures r.Ok? <==> forall k :: 0 <= k < |cs| ==> ParseElement(cs[k]).Ok?
    ensures r.Ok? ==> |r.value| == |cs| && forall k :: 0 <= k < |cs| ==> r.value[k] == ParseElement(cs[k]).value
    ensures r.Err? ==> exists k :: 0 <= k < |cs| && ParseElement(cs[k]) == Err(r.error)
    decreases parent, 3, |cs|
  {
    if |cs| == 0 then Ok([])
    else
      var rest := cs[1..];
      match ParseElement(cs[0])
      case Err(e) => Err(e)
      case Ok(head) =>
        match ParseMembers(parent, rest)
        case Err(e) =>
          var k :| 0 <= k < |rest| && ParseElement(rest[k]) == Err(e);
          assert rest[k] == cs[k + 1];
          Err(e)
        case Ok(tail) =>
          assert forall k :: 1 <= k < |cs| ==> rest[k - 1] == cs[k];
          Ok([head] + tail)
  }

  /** What `parseElement(node:)` gives: on success the name in the inherited targetNamespace and
      the occurrence range; a base-typed result only from an xs:element with @type, a complex one
      only from an xs:element with a complexType child or from an xs:complexType; unsupportedType
      for a named node in a namespace that is neither. */
  lemma ParseElementResult(c: Xml.Cursor)
    requires WellFormed(c)
    ensures var r := ParseElement(c);
            r.Ok? ==> "name" in c.element.attributes && Xml.TargetNamespace(c).Some?
                      && Name(r.value) == QualifiedName(Xml.TargetNamespace(c).value, c.element.attributes["name"])
                      && r.value.occurs == Occurs(Xml.Attribute(c, "minOccurs"), Xml.Attribute(c, "maxOccurs"))
    ensures var r := ParseElement(c);
            r.Ok? && r.value.Type? ==>
              IsXsd(c, "element") && "type" in c.element.attributes
              && FromPrefixedType(c.element.attributes["type"], Xml.Scope(c)) == Ok(r.value.base)
    ensures var r := ParseElement(c);
            r.Ok? && r.value.Complex? ==>
              (IsXsd(c, "element") && "type" !in c.element.attributes && Xml.FirstNamed(c, "complexType", NS_XSD).Some?)
              || IsXsd(c, "complexType")
    ensures "name" in c.element.attributes && Xml.TargetNamespace(c).Some?
            && !(IsXsd(c, "element") && ("type" in c.element.attributes || Xml.FirstNamed(c, "complexType", NS_XSD).Some?))
            && !IsXsd(c, "complexType")
            ==> ParseElement(c) == Err(LegacyFailure(UnsupportedType))
    ensures "name" in c.element.attributes && Xml.TargetNamespace(c).None? ==>
              ParseElement(c) == Err(DescriptionFailure(NodeWithoutTargetNamespace))
    ensures "name" in c.element.attributes && Xml.TargetNamespace(c).Some? ==>
              var name := QualifiedName(Xml.TargetNamespace(c).value, c.element.attributes["name"]);
              var occurs := Occurs(Xml.Attribute(c, "minOccurs"), Xml.Attribute(c, "maxOccurs"));
              && (IsXsd(c, "element") && "type" in c.element.attributes ==>
                    ParseElement(c) == match FromPrefixedType(c.element.attributes["type"], Xml.Scope(c))
                                       case Ok(base) => Ok(Type(name, base, occurs))
                                       case Err(e) => Err(QNameFailure(e)))
              && (IsXsd(c, "element") && "type" !in c.element.attributes && XsdChild(c, "complexType").Some? ==>
                    ParseElement(c) == ParseComplexType(name, occurs, XsdChild(c, "complexType").value))
              && (IsXsd(c, "complexType") ==> ParseElement(c) == ParseComplexType(name, occurs, c))
  {
  }
}
