/** The codecs of Sources/Lark/Serialization.swift between base values and the string value of an
    element: the fixed-width integers, Bool, String and QualifiedName, and the errors they throw. */
module Serialization {
  import opened Wrappers
  import opened Text
  import opened Xml
  import opened Dom
  import opened QualifiedNames
  import LarkUtils

  datatype DeserializationError = NoElementWithName(name: QualifiedName) | CannotDeserialize
  datatype SerializationError = InvalidNamespace(uri: string)

  // ---------------------------------------------------------------- integers

  /** The integer types with a codec: Int8 ... Int64, UInt8 ... UInt64 and Int, which is 64 bits wide. */
  datatype IntWidth = I8 | I16 | I32 | I64 | U8 | U16 | U32 | U64 | Word {
    function Min(): int {
      match this
      case I8 => -0x80
      case I16 => -0x8000
      case I32 => -0x8000_0000
      case I64 => INT_MIN
      case Word => INT_MIN
      case _ => 0
    }

    function Max(): int {
      match this
      case I8 => 0x7F
      case I16 => 0x7FFF
      case I32 => 0x7FFF_FFFF
      case I64 => INT_MAX
      case Word => INT_MAX
      case U8 => 0xFF
      case U16 => 0xFFFF
      case U32 => 0xFFFF_FFFF
      case U64 => 0xFFFF_FFFF_FFFF_FFFF
    }

    predicate Holds(x: int) {
      Min() <= x <= Max()
    }
  }

  /** `IntN(String)`: the decimal text of a value of that width, with an optional sign; anything
      else, a value out of range included, is nil. */
  function ReadInteger(width: IntWidth, text: string): (r: Option<int>)
    ensures r.Some? ==> width.Holds(r.value) && ParseInteger(text) == r
    ensures ParseInteger(text).Some? && width.Holds(ParseInteger(text).value) ==> r.Some?
  {
    match ParseInteger(text)
    case Some(v) => if width.Holds(v) then Some(v) else None
    case None => None
  }

  /** Every value of a width reads back from its printed text. */
  lemma IntegerRoundTrip(width: IntWidth, x: int)
    requires width.Holds(x)
    ensures ReadInteger(width, IntToString(x)) == Some(x)
  {
    IntRoundTrip(x);
  }

  /** A printed value outside the width is refused rather than wrapped or clamped. */
  lemma IntegerOutOfRangeRefused(width: IntWidth, x: int)
    requires !width.Holds(x)
    ensures ReadInteger(width, IntToString(x)) == None
  {
    IntRoundTrip(x);
  }

  lemma Int8AcceptsItsRange()
    ensures ReadInteger(I8, "-128") == Some(-128) && ReadInteger(I8, "+7") == Some(7)
  {
    assert NatToString(128) == "128" by {
      assert NatToString(12) == "12" by { assert NatToString(1) == "1"; }
    }
    IntegerRoundTrip(I8, -128);
    assert "+7"[1..] == "7";
    assert DigitsValue("7") == 7 by { assert "7"[..0] == ""; }
  }

  lemma Int8RefusesOthers()
    ensures ReadInteger(I8, "128") == None && ReadInteger(I8, "") == None && ReadInteger(I8, "-") == None
  {
    assert NatToString(128) == "128" by {
      assert NatToString(12) == "12" by { assert NatToString(1) == "1"; }
    }
    IntegerOutOfRangeRefused(I8, 128);
    assert "-"[1..] == "";
  }

  lemma NonDigitsRefused()
    ensures ReadInteger(I8, "abc") == None && ReadInteger(U8, "-1") == None
  {
    assert !IsDigit("abc"[0]);
    assert "-1"[1..] == "1";
    assert DigitsValue("1") == 1 by { assert "1"[..0] == ""; }
  }

  /** `init(deserialize:)` of the integer types: an element without text reads as "" and fails. */
  function DeserializeInteger(width: IntWidth, node: XMLElement): (r: Result<int, DeserializationError>)
    reads node
    ensures r.Ok? ==> width.Holds(r.value) && ParseInteger(node.stringValue.GetOr("")) == Some(r.value)
    ensures r.Err? ==> r.error == CannotDeserialize
    ensures node.stringValue.None? ==> r.Err?
  {
    match ReadInteger(width, node.stringValue.GetOr(""))
    case Some(v) => Ok(v)
    case None => Err(CannotDeserialize)
  }

  /** `serialize(_:)` of the integer types: the decimal text, which every width holding the value
      deserializes back. */
  method SerializeInteger(x: int, element: XMLElement)
    modifies element
    ensures element.stringValue == Some(IntToString(x)) && OnlyTextChanged(element)
    ensures forall width: IntWidth :: width.Holds(x) ==> DeserializeInteger(width, element) == Ok(x)
  {
    element.SetStringValue(Some(IntToString(x)));
    forall width: IntWidth | width.Holds(x) ensures DeserializeInteger(width, element) == Ok(x) {
      IntegerRoundTrip(width, x);
    }
  }

  // ---------------------------------------------------------------- Bool

  /** `"\(b)"`. */
  function BoolText(b: bool): string {
    if b then "true" else "false"
  }

  /** Bool's `init(deserialize:)`: "1" and "true" are true, "0" and "false" are false, and any other
      text, or none, fails. */
  function DeserializeBool(text: Option<string>): (r: Result<bool, DeserializationError>)
    ensures r.Ok? <==> text in {Some("1"), Some("true"), Some("0"), Some("false")}
    ensures r.Ok? ==> (r.value <==> text in {Some("1"), Some("true")})
    ensures r.Err? ==> r.error == CannotDeserialize
  {
    match text
    case Some(t) =>
      if t == "1" || t == "true" then Ok(true)
      else if t == "0" || t == "false" then Ok(false)
      else Err(CannotDeserialize)
    case None => Err(CannotDeserialize)
  }

  lemma BoolRoundTrip(b: bool)
    ensures DeserializeBool(Some(BoolText(b))) == Ok(b)
  {
  }

  /** Bool's `serialize(_:)`. */
  method SerializeBool(b: bool, element: XMLElement)
    modifies element
    ensures element.stringValue == Some(BoolText(b)) && OnlyTextChanged(element)
    ensures DeserializeBool(element.stringValue) == Ok(b)
  {
    element.SetStringValue(Some(BoolText(b)));
    BoolRoundTrip(b);
  }

  // ---------------------------------------------------------------- String

  /** String's `init(deserialize:)`: the text; an element without text fails. */
  function DeserializeString(text: Option<string>): (r: Result<string, DeserializationError>)
    ensures r.Ok? <==> text.Some?
    ensures r.Ok? ==> r.value == text.value
    ensures r.Err? ==> r.error == CannotDeserialize
  {
    match text
    case Some(t) => Ok(t)
    case None => Err(CannotDeserialize)
  }

  method SerializeString(s: string, element: XMLElement)
    modifies element
    ensures element.stringValue == Some(s) && OnlyTextChanged(element)
    ensures DeserializeString(element.stringValue) == Ok(s)
  {
    element.SetStringValue(Some(s));
  }

  // ---------------------------------------------------------------- QualifiedName

  /** QualifiedName's `init(deserialize:)`: the element's text read as a type name in the
      element's scope ("" when it has none). */
  function DeserializeQName(node: XMLElement): (r: Result<QualifiedName, QNameError>)
    reads node
    ensures ':' in node.stringValue.GetOr("") ==> r == FromPrefixedType(node.stringValue.GetOr(""), node.Scope())
    ensures ':' !in node.stringValue.GetOr("") ==>
              (r.Ok? <==> ScopeTargetNamespace(node.Scope()).Some?)
              && (r.Ok? ==> r.value == QualifiedName(ScopeTargetNamespace(node.Scope()).value, node.stringValue.GetOr("")))
  {
    FromType(node.stringValue.GetOr(""), node.Scope())
  }

  /** The prefix that resolving `uri` in `scope` finds, if any, reads back as `uri`: it is not empty,
      has no ':' and no nearer frame rebinds it. */
  predicate PrefixReadsBack(scope: seq<Frame>, uri: string) {
    LookupUri(scope, uri).Some? ==>
      var p := LookupUri(scope, uri).value;
      p != "" && ':' !in p && LookupPrefix(scope, p) == Some(uri)
  }

  /** QualifiedName's `serialize(_:)`: the bare local name when it is the element's target
      namespace, else "prefix:localName" under a resolved or newly added prefix. A local name
      without ':' reads back as the same name, provided a resolved prefix reads back. */
  method SerializeQName(q: QualifiedName, element: XMLElement)
    modifies element
    ensures old(LarkUtils.TargetNamespace(element)) == Some(q.uri) ==>
              element.stringValue == Some(q.localName) && element.namespaces == old(element.namespaces)
    ensures old(LarkUtils.TargetNamespace(element)) != Some(q.uri) ==>
              exists prefix :: element.stringValue == Some(prefix + ":" + q.localName)
                               && (old(element.ResolvePrefix(q.uri)).Some? ==> prefix == old(element.ResolvePrefix(q.uri)).value)
    ensures element.name == old(element.name) && element.uri == old(element.uri)
    ensures element.attributes == old(element.attributes) && element.children == old(element.children)
    ensures element.ancestors == old(element.ancestors)
    ensures ':' !in q.localName && PrefixReadsBack(old(element.Scope()), q.uri) ==> DeserializeQName(element) == Ok(q)
  {
    ghost var scope := element.Scope();
    if LarkUtils.TargetNamespace(element) == Some(q.uri) {
      element.SetStringValue(Some(q.localName));
      assert element.Scope() == scope;
      if ':' !in q.localName {
        UnprefixedRoundTrip(q, scope);
      }
    } else {
      var prefix := LarkUtils.ResolveOrAddPrefix(element, q.uri);
      element.SetStringValue(Some(prefix + ":" + q.localName));
      if ':' !in q.localName && PrefixReadsBack(scope, q.uri) {
        if LookupUri(scope, q.uri).None? {
          var i :| LarkUtils.LeastFree(scope, i) && prefix == LarkUtils.NsPrefix(i);
          LarkUtils.NsPrefixHasNoColon(i);
        } else {
          assert element.Scope() == scope;
        }
        PrefixedRoundTrip(prefix, q, element.Scope());
      }
    }
  }

  /** QualifiedName's `serialize(_:)` as written, whose new prefix comes from
      `LarkUtils.ResolveOrAddPrefixAsWritten` and is therefore always "ns1", bound on the element
      itself. That search needs the default namespace to be unbound where it runs. */
  method SerializeQNameAsWritten(q: QualifiedName, element: XMLElement)
    requires LarkUtils.TargetNamespace(element) != Some(q.uri) && element.ResolvePrefix(q.uri).None?
             ==> LookupPrefix(element.Scope(), "").None?
    modifies element
    ensures old(LarkUtils.TargetNamespace(element)) == Some(q.uri) ==>
              element.stringValue == Some(q.localName) && element.namespaces == old(element.namespaces)
    ensures old(LarkUtils.TargetNamespace(element)) != Some(q.uri) && old(element.ResolvePrefix(q.uri)).Some? ==>
              element.stringValue == Some(old(element.ResolvePrefix(q.uri)).value + ":" + q.localName)
              && element.namespaces == old(element.namespaces)
    ensures old(LarkUtils.TargetNamespace(element)) != Some(q.uri) && old(element.ResolvePrefix(q.uri)).None? ==>
              element.stringValue == Some("ns1:" + q.localName)
              && element.namespaces == Rebind(old(element.namespaces), Namespace("ns1", q.uri))
    ensures element.name == old(element.name) && element.uri == old(element.uri)
    ensures element.attributes == old(element.attributes) && element.children == old(element.children)
    ensures element.ancestors == old(element.ancestors)
    ensures ':' !in q.localName && PrefixReadsBack(old(element.Scope()), q.uri) ==> DeserializeQName(element) == Ok(q)
  {
    ghost var scope := element.Scope();
    if LarkUtils.TargetNamespace(element) == Some(q.uri) {
      element.SetStringValue(Some(q.localName));
      assert element.Scope() == scope;
      if ':' !in q.localName {
        UnprefixedRoundTrip(q, scope);
      }
    } else {
      ghost var frame := Frame(element.namespaces, element.attributes);
      var prefix := LarkUtils.ResolveOrAddPrefixAsWritten(element, q.uri);
      assert LookupUri(scope, q.uri).None? ==> prefix + ":" == "ns1:";
      element.SetStringValue(Some(prefix + ":" + q.localName));
      if ':' !in q.localName && PrefixReadsBack(scope, q.uri) {
        if LookupUri(scope, q.uri).None? {
          assert element.Scope() == [Frame(Rebind(frame.namespaces, Namespace("ns1", q.uri)), frame.attributes)] + scope[1..];
          Ns1ReadsBack(q, frame, scope[1..]);
        } else {
          assert element.Scope() == scope;
          PrefixedRoundTrip(prefix, q, scope);
        }
      }
    }
  }

  /** "ns1:localName" reads back as the name once ns1 is bound to its URI on the innermost frame. */
  lemma Ns1ReadsBack(q: QualifiedName, frame: Frame, ancestors: seq<Frame>)
    requires ':' !in q.localName
    ensures FromType(QualifiedText("ns1", q.localName),
                     [Frame(Rebind(frame.namespaces, Namespace("ns1", q.uri)), frame.attributes)] + ancestors)
            == Ok(q)
  {
    var scope := [Frame(Rebind(frame.namespaces, Namespace("ns1", q.uri)), frame.attributes)] + ancestors;
    assert BindingFor(scope[0].namespaces, "ns1") == Some(q.uri);
    assert LookupPrefix(scope, "ns1") == Some(q.uri);
    LarkUtils.FirstTwoPrefixes();
    LarkUtils.NsPrefixHasNoColon(1);
    PrefixedRoundTrip("ns1", q, scope);
  }
}
