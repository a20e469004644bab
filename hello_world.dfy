/** The generated demo client's message types (Sources/Demo/HelloWorldServiceClient.swift), built
    on LarkRuntime. Every field lives in the "spyne.examples.hello" namespace: serializing creates
    a child under the prefix the element's scope gives that namespace and appends it, and
    deserializing reads the first child of that local name and namespace. */
module HelloWorld {
  import opened Wrappers
  import opened Text
  import opened Dom
  import Xml
  import Ser = Serialization
  import LarkTypes
  import RU = RuntimeUtils

  const NS_HELLO: string := "spyne.examples.hello"

  /** LarkRuntime's `XMLDeserializationError`. */
  datatype DeserializationError = NoElementWithName(name: string)

  // ---------------------------------------------------------------- shared pieces

  /** The children of a list of elements. */
  function Grandchildren(nodes: seq<XMLElement>): set<XMLElement>
    reads nodes
  {
    set c, d | c in nodes && d in c.children :: d
  }

  /** No element of `nodes` is a field of that local name. */
  predicate NoneNamed(nodes: seq<XMLElement>, localName: string)
    reads nodes
  {
    forall i :: 0 <= i < |nodes| ==> !IsNamed(nodes[i], localName, NS_HELLO)
  }

  /** The prefix the scope gives the namespace, if any, is free of ':', so that a name made with it
      has the intended local part. */
  predicate HelloPrefixClean(element: XMLElement)
    reads element
  {
    element.ResolvePrefix(NS_HELLO).Some? ==> ':' !in element.ResolvePrefix(NS_HELLO).value
  }

  /** Between the two states only the children of `e` may differ. */
  twostate predicate OwnFieldsKept(e: XMLElement)
    reads e
  {
    e.name == old(e.name) && e.uri == old(e.uri) && e.namespaces == old(e.namespaces)
    && e.attributes == old(e.attributes) && e.stringValue == old(e.stringValue) && e.ancestors == old(e.ancestors)
  }

  /** A field element as the serializers write it. */
  predicate WrittenField(c: XMLElement, prefix: string, localName: string, value: string)
    reads c
  {
    c.name == QualifiedText(prefix, localName) && c.uri == Some(NS_HELLO)
    && c.stringValue == Some(value) && c.children == []
  }

  /** A field written under a clean prefix is found under its local name and reads back. */
  lemma WrittenFieldReadsBack(c: XMLElement, prefix: string, localName: string, value: string)
    requires WrittenField(c, prefix, localName, value)
    ensures ':' !in prefix && ':' !in localName ==> IsNamed(c, localName, NS_HELLO)
    ensures LarkTypes.DeserializeText(c) == value
  {
    if prefix != "" && ':' !in prefix {
      QualifiedTextSplits(prefix, localName);
    }
  }

  /** Selecting from nodes that all have the name keeps them all. */
  lemma {:induction false} ElementsNamedAll(nodes: seq<XMLElement>, localName: string)
    requires forall i :: 0 <= i < |nodes| ==> IsNamed(nodes[i], localName, NS_HELLO)
    ensures ElementsNamed(nodes, localName, NS_HELLO) == nodes
  {
    if |nodes| > 0 {
      ElementsNamedAll(nodes[1..], localName);
    }
  }

  /** The texts of a list of elements, "" for one without text (LarkRuntime's String decoding). */
  function Texts(nodes: seq<XMLElement>): (r: seq<string>)
    reads nodes
    ensures |r| == |nodes|
    ensures forall k :: 0 <= k < |r| ==> r[k] == LarkTypes.DeserializeText(nodes[k])
  {
    if |nodes| == 0 then [] else [LarkTypes.DeserializeText(nodes[0])] + Texts(nodes[1..])
  }

  /** `elements(forLocalName:uri:).first.flatMap(String.init(deserialize:))`: present exactly when
      some child is so named, and then the text of the first one. */
  function OptionalText(node: XMLElement, localName: string): (r: Option<string>)
    reads node, node.children
    ensures r.Some? <==> exists i :: 0 <= i < |node.children| && IsNamed(node.children[i], localName, NS_HELLO)
    ensures r.Some? ==> exists i :: 0 <= i < |node.children| && IsNamed(node.children[i], localName, NS_HELLO)
                                    && r.value == LarkTypes.DeserializeText(node.children[i])
  {
    match FirstElementNamed(node.children, localName, NS_HELLO)
    case None => None
    case Some(c) => Some(LarkTypes.DeserializeText(c))
  }

  /** One field: `createElement(localName:uri:)` in the hello namespace, the value as its text,
      then `addChild`. Without a prefix for the namespace it throws `invalidNamespace` and the
      element is left as it was. */
  method AddField(element: XMLElement, localName: string, value: string)
    returns (err: Option<Ser.SerializationError>, ghost added: seq<XMLElement>)
    modifies element
    ensures OwnFieldsKept(element) && element.Scope() == old(element.Scope())
    ensures element.children == old(element.children) + added && element !in added
    ensures err.Some? <==> element.ResolvePrefix(NS_HELLO).None?
    ensures err.Some? ==> err.value == Ser.InvalidNamespace(NS_HELLO) && added == []
    ensures err.None? ==> |added| == 1 && WrittenField(added[0], element.ResolvePrefix(NS_HELLO).value, localName, value)
  {
    var r := RU.CreateElement(element, localName, NS_HELLO, None);
    if r.Err? {
      return Some(r.error), [];
    }
    var child := r.value;
    Ser.SerializeString(value, child);
    element.AddChild(child);
    err, added := None, [child];
  }

  // ---------------------------------------------------------------- stringArray

  /** `stringArray.init(deserialize:)`: the texts of all "string" children, in order. */
  function DeserializeStringArray(node: XMLElement): (r: seq<string>)
    reads node, node.children
    ensures r == Texts(ElementsNamed(node.children, "string", NS_HELLO))
    ensures NoneNamed(node.children, "string") ==> r == []
  {
    Texts(ElementsNamed(node.children, "string", NS_HELLO))
  }

  /** `stringArray.serialize(_:)`: one "string" child per item, in order, appended after the
      element's children. The first item without a prefix for the namespace throws and nothing is
      appended. On an element with no "string" children and a clean prefix, the list reads back. */
  method SerializeStringArray(strings: seq<string>, element: XMLElement) returns (err: Option<Ser.SerializationError>)
    modifies element
    ensures OwnFieldsKept(element)
    ensures err.Some? <==> |strings| > 0 && element.ResolvePrefix(NS_HELLO).None?
    ensures err.Some? ==> err.value == Ser.InvalidNamespace(NS_HELLO) && element.children == old(element.children)
    ensures err.None? ==>
              |element.children| == |old(element.children)| + |strings|
              && element.children[..|old(element.children)|] == old(element.children)
    ensures err.None? && HelloPrefixClean(element) && NoneNamed(old(element.children), "string") ==>
              DeserializeStringArray(element) == strings
  {
    ghost var before := element.children;
    ghost var scope := element.Scope();
    ghost var prefix := element.ResolvePrefix(NS_HELLO).GetOr("");
    ghost var added: seq<XMLElement> := [];
    for i := 0 to |strings|
      invariant OwnFieldsKept(element) && element.Scope() == scope
      invariant element.children == before + added && element !in added
      invariant i > 0 ==> Xml.LookupUri(scope, NS_HELLO).Some?
      invariant WrittenFields(added, prefix, strings[..i])
    {
      ghost var field;
      err, field := AddField(element, "string", strings[i]);
      if err.Some? {
        return;
      }
      assert strings[..i + 1] == strings[..i] + [strings[i]];
      added := added + field;
    }
    err := None;
    assert strings[..|strings|] == strings;
    StringsReadBack(before, added, prefix, strings);
  }

  /** `added` are "string" fields holding `strings`, in order, under `prefix`. */
  predicate WrittenFields(added: seq<XMLElement>, prefix: string, strings: seq<string>)
    reads added
  {
    |added| == |strings| && forall j :: 0 <= j < |added| ==> WrittenField(added[j], prefix, "string", strings[j])
  }

  /** Selecting from nodes none of which has the name keeps none. */
  lemma {:induction false} ElementsNamedNone(nodes: seq<XMLElement>, localName: string)
    requires NoneNamed(nodes, localName)
    ensures ElementsNamed(nodes, localName, NS_HELLO) == []
  {
    if |nodes| > 0 {
      ElementsNamedNone(nodes[1..], localName);
    }
  }

  /** Behind children without a "string" field, "string" fields with the given texts read back as
      those texts. */
  lemma StringsReadBack(before: seq<XMLElement>, added: seq<XMLElement>, prefix: string, strings: seq<string>)
    requires WrittenFields(added, prefix, strings)
    ensures NoneNamed(before, "string") && ':' !in prefix ==>
              Texts(ElementsNamed(before + added, "string", NS_HELLO)) == strings
    ensures Texts(added) == strings
  {
    forall j | 0 <= j < |added| ensures LarkTypes.DeserializeText(added[j]) == strings[j]
                                        && (':' !in prefix ==> IsNamed(added[j], "string", NS_HELLO)) {
      WrittenFieldReadsBack(added[j], prefix, "string", strings[j]);
    }
    if NoneNamed(before, "string") && ':' !in prefix {
      ElementsNamedAppend(before, added, "string", NS_HELLO);
      ElementsNamedAll(added, "string");
      ElementsNamedNone(before, "string");
      assert ElementsNamed(before + added, "string", NS_HELLO) == added;
    }
  }

  // ---------------------------------------------------------------- say_hello

  datatype SayHello = SayHello(name: Option<string>, times: Option<Int64>)

  /** The forced unwrap of `Int.init(deserialize:)` on the first "times" child, if there is one. */
  predicate TimesReadable(node: XMLElement)
    reads node, node.children
  {
    match FirstElementNamed(node.children, "times", NS_HELLO)
    case None => true
    case Some(c) => Ser.ReadInteger(Ser.Word, c.stringValue.GetOr("")).Some?
  }

  /** `say_hello.init(deserialize:)`: the first "name" child's text and the first "times" child's
      integer, each absent when there is no such child. */
  function DeserializeSayHello(node: XMLElement): (r: SayHello)
    reads node, node.children
    requires TimesReadable(node)
    ensures r.name == OptionalText(node, "name")
    ensures r.times.Some? <==> FirstElementNamed(node.children, "times", NS_HELLO).Some?
    ensures r.times.Some? ==>
              ParseInteger(FirstElementNamed(node.children, "times", NS_HELLO).value.stringValue.GetOr("")) == Some(r.times.value as int)
  {
    var times := match FirstElementNamed(node.children, "times", NS_HELLO)
                 case None => None
                 case Some(c) => Some(LarkTypes.DeserializeForced(Ser.Word, c) as Int64);
    SayHello(OptionalText(node, "name"), times)
  }

  /** `say_hello.serialize(_:)`: a "name" child when there is a name, then a "times" child when
      there is a count. On an element with neither field and a clean prefix, it reads back. */
  method SerializeSayHello(x: SayHello, element: XMLElement) returns (err: Option<Ser.SerializationError>)
    modifies element
    ensures OwnFieldsKept(element)
    ensures err.Some? <==> (x.name.Some? || x.times.Some?) && element.ResolvePrefix(NS_HELLO).None?
    ensures err.Some? ==> err.value == Ser.InvalidNamespace(NS_HELLO) && element.children == old(element.children)
    ensures err.None? ==>
              |element.children| == |old(element.children)| + (if x.name.Some? then 1 else 0) + (if x.times.Some? then 1 else 0)
              && element.children[..|old(element.children)|] == old(element.children)
    ensures err.None? && HelloPrefixClean(element)
            && NoneNamed(old(element.children), "name") && NoneNamed(old(element.children), "times") ==>
              TimesReadable(element) && DeserializeSayHello(element) == x
  {
    ghost var before := element.children;
    ghost var nameField: seq<XMLElement> := [];
    ghost var timesField: seq<XMLElement> := [];
    err := None;
    if x.name.Some? {
      err, nameField := AddField(element, "name", x.name.value);
      if err.Some? {
        return;
      }
      WrittenFieldReadsBack(nameField[0], element.ResolvePrefix(NS_HELLO).value, "name", x.name.value);
    }
    assert element.children == before + nameField;
    if x.times.Some? {
      err, timesField := AddField(element, "times", IntToString(x.times.value));
      if err.Some? {
        return;
      }
      WrittenFieldReadsBack(timesField[0], element.ResolvePrefix(NS_HELLO).value, "times", IntToString(x.times.value));
    }
    if HelloPrefixClean(element) {
      assert FieldFor(nameField, "name", x.name);
      assert FieldFor(timesField, "times", if x.times.Some? then Some(IntToString(x.times.value)) else None);
    }
    ReadsSayHelloBack(x, element, before, nameField, timesField);
  }

  /** `nodes` is the one field of that name holding `value`, or nothing when there is no value. */
  predicate FieldFor(nodes: seq<XMLElement>, localName: string, value: Option<string>)
    reads nodes
  {
    match value
    case None => nodes == []
    case Some(v) => |nodes| == 1 && IsNamed(nodes[0], localName, NS_HELLO) && LarkTypes.DeserializeText(nodes[0]) == v
  }

  /** The reading half of the say_hello round trip: behind children without either field, a
      "name" field (when there is a name) and then a "times" field (when there is a count). */
  lemma ReadsSayHelloBack(x: SayHello, element: XMLElement, before: seq<XMLElement>,
                          nameField: seq<XMLElement>, timesField: seq<XMLElement>)
    requires element.children == before + nameField + timesField
    ensures NoneNamed(before, "name") && NoneNamed(before, "times")
            && FieldFor(nameField, "name", x.name)
            && FieldFor(timesField, "times", if x.times.Some? then Some(IntToString(x.times.value)) else None) ==>
              TimesReadable(element) && DeserializeSayHello(element) == x
  {
    if !(NoneNamed(before, "name") && NoneNamed(before, "times")
         && FieldFor(nameField, "name", x.name)
         && FieldFor(timesField, "times", if x.times.Some? then Some(IntToString(x.times.value)) else None)) {
      return;
    }
    var children := element.children;
    assert children == before + (nameField + timesField);
    FirstElementNamedSkips(before, nameField + timesField, "name", NS_HELLO);
    assert NoneNamed(before + nameField, "times") by {
      forall i | 0 <= i < |before + nameField| ensures !IsNamed((before + nameField)[i], "times", NS_HELLO) {
        if i < |before| {
          assert (before + nameField)[i] == before[i];
        }
      }
    }
    FirstElementNamedSkips(before + nameField, timesField, "times", NS_HELLO);
    if x.times.Some? {
      IntegerReadsBack(x.times.value, timesField[0]);
    }
  }

  lemma IntegerReadsBack(t: Int64, c: XMLElement)
    requires LarkTypes.DeserializeText(c) == IntToString(t)
    ensures c.stringValue.Some? && Ser.ReadInteger(Ser.Word, c.stringValue.GetOr("")) == Some(t as int)
  {
    Ser.IntegerRoundTrip(Ser.Word, t);
  }

  // ---------------------------------------------------------------- say_maybe_nothing, say_maybe_something and their responses

  /** `say_maybe_nothing`, `say_maybe_something` and their two responses each hold one optional
      string field: "name" for the requests, "say_maybe_nothingResult" and
      "say_maybe_somethingResult" for the responses. Deserializing reads it with `OptionalText`;
      serializing writes the field only when there is a value. On an element without that field
      and with a clean prefix, the value reads back. */
  method SerializeOptionalField(value: Option<string>, localName: string, element: XMLElement)
    returns (err: Option<Ser.SerializationError>)
    modifies element
    ensures OwnFieldsKept(element)
    ensures err.Some? <==> value.Some? && element.ResolvePrefix(NS_HELLO).None?
    ensures err.Some? ==> err.value == Ser.InvalidNamespace(NS_HELLO) && element.children == old(element.children)
    ensures err.None? ==>
              |element.children| == |old(element.children)| + (if value.Some? then 1 else 0)
              && element.children[..|old(element.children)|] == old(element.children)
    ensures err.None? && HelloPrefixClean(element) && NoneNamed(old(element.children), localName) && ':' !in localName ==>
              OptionalText(element, localName) == value
  {
    ghost var before := element.children;
    ghost var field: seq<XMLElement> := [];
    err := None;
    if value.Some? {
      err, field := AddField(element, localName, value.value);
      if err.Some? {
        return;
      }
      WrittenFieldReadsBack(field[0], element.ResolvePrefix(NS_HELLO).value, localName, value.value);
    }
    if NoneNamed(before, localName) {
      FirstElementNamedSkips(before, field, localName, NS_HELLO);
    }
  }

  // ---------------------------------------------------------------- say_helloResponse

  /** `say_helloResponse.init(deserialize:)`: the strings of the first "say_helloResult" child,
      or `noElementWithName("say_helloResult")` when there is none. */
  function DeserializeSayHelloResponse(node: XMLElement): (r: Result<seq<string>, DeserializationError>)
    reads node, node.children, Grandchildren(node.children)
    ensures r.Err? <==> NoneNamed(node.children, "say_helloResult")
    ensures r.Err? ==> r.error == NoElementWithName("say_helloResult")
    ensures r.Ok? ==> exists i :: 0 <= i < |node.children| && IsNamed(node.children[i], "say_helloResult", NS_HELLO)
                                  && r.value == DeserializeStringArray(node.children[i])
  {
    match FirstElementNamed(node.children, "say_helloResult", NS_HELLO)
    case None => Err(NoElementWithName("say_helloResult"))
    case Some(result) =>
      assert forall d | d in result.children :: d in Grandchildren(node.children);
      Ok(DeserializeStringArray(result))
  }

  /** A declaration-free frame in front of a scope resolves nothing of its own. */
  lemma EmptyFrameResolvesNothing(scope: seq<Xml.Frame>, uri: string)
    ensures Xml.LookupUri([Xml.Frame([], map[])] + scope, uri) == Xml.LookupUri(scope, uri)
  {
    assert ([Xml.Frame([], map[])] + scope)[1..] == scope;
  }

  /** `say_helloResponse.serialize(_:)` as written: it fills the new "say_helloResult" element
      before attaching it. That element declares no namespace and has no parent yet, so the
      hello namespace has no prefix in its scope, and the first string throws
      `invalidNamespace`; nothing is attached. Only an empty result is written. */
  method SerializeSayHelloResponseAsWritten(strings: seq<string>, element: XMLElement)
    returns (err: Option<Ser.SerializationError>)
    modifies element
    ensures OwnFieldsKept(element)
    ensures |strings| > 0 ==> err == Some(Ser.InvalidNamespace(NS_HELLO)) && element.children == old(element.children)
    ensures |strings| == 0 ==> (err.None? <==> element.ResolvePrefix(NS_HELLO).Some?)
  {
    var r := RU.CreateElement(element, "say_helloResult", NS_HELLO, None);
    if r.Err? {
      return Some(r.error);
    }
    var node := r.value;
    assert node.ResolvePrefix(NS_HELLO).None?;
    err := SerializeStringArray(strings, node);
    if err.Some? {
      return;
    }
    element.AddChild(node);
  }

  /** `say_helloResponse.serialize(_:)` with the new element attached before it is filled: then
      its scope is the element's, every string finds the prefix, and on an element without a
      "say_helloResult" child and with a clean prefix, the response reads back. */
  method SerializeSayHelloResponse(strings: seq<string>, element: XMLElement)
    returns (err: Option<Ser.SerializationError>)
    modifies element
    ensures OwnFieldsKept(element)
    ensures err.Some? <==> element.ResolvePrefix(NS_HELLO).None?
    ensures err.Some? ==> err.value == Ser.InvalidNamespace(NS_HELLO) && element.children == old(element.children)
    ensures err.None? ==>
              |element.children| == |old(element.children)| + 1
              && element.children[..|old(element.children)|] == old(element.children)
    ensures err.None? && HelloPrefixClean(element) && NoneNamed(old(element.children), "say_helloResult") ==>
              DeserializeSayHelloResponse(element) == Ok(strings)
  {
    ghost var before := element.children;
    var r := RU.CreateElement(element, "say_helloResult", NS_HELLO, None);
    if r.Err? {
      return Some(r.error);
    }
    var node := r.value;
    ghost var prefix := element.ResolvePrefix(NS_HELLO).value;
    element.AddChild(node);
    EmptyFrameResolvesNothing(element.Scope(), NS_HELLO);
    assert node.ResolvePrefix(NS_HELLO) == Some(prefix);
    err := SerializeStringArray(strings, node);
    ReadsResponseBack(element, before, node, prefix, strings);
  }

  lemma ResultNameColonFree()
    ensures ':' !in "say_helloResult"
  {
  }

  /** The reading half of the say_helloResponse round trip. */
  lemma ReadsResponseBack(element: XMLElement, before: seq<XMLElement>, node: XMLElement, prefix: string, strings: seq<string>)
    requires element.children == before + [node]
    requires node.name == QualifiedText(prefix, "say_helloResult") && node.uri == Some(NS_HELLO)
    ensures ':' !in prefix && NoneNamed(before, "say_helloResult") && DeserializeStringArray(node) == strings ==>
              DeserializeSayHelloResponse(element) == Ok(strings)
  {
    if ':' !in prefix && NoneNamed(before, "say_helloResult") && DeserializeStringArray(node) == strings {
      if prefix != "" {
        QualifiedTextSplits(prefix, "say_helloResult");
      } else {
        ResultNameColonFree();
      }
      assert IsNamed(node, "say_helloResult", NS_HELLO);
      FirstElementNamedSkips(before, [node], "say_helloResult", NS_HELLO);
      assert FirstElementNamed(element.children, "say_helloResult", NS_HELLO) == Some(node);
    }
  }
}
