/** SOAP faults (Sources/Lark/Fault.swift, repeated in Validation.swift): the code, the string, the
    actor and the detail nodes of a fault element's children, read by name as written. */
module Faults {
  import opened Wrappers
  import opened Text
  import opened Dom

  /** `faultcode` is kept as text; the actor is an absolute URL string. */
  datatype Fault = Fault(faultcode: string, faultstring: string, faultactor: Option<string>, detail: seq<XMLElement>)

  /** The first of the nodes whose name as written is `name`. */
  function FirstWithName(nodes: seq<XMLElement>, name: string): (r: Option<XMLElement>)
    reads nodes
    ensures r.Some? <==> exists i :: 0 <= i < |nodes| && nodes[i].name == name
    ensures r.Some? ==> r.value in nodes && r.value.name == name
    ensures |nodes| > 0 && nodes[0].name == name ==> r == Some(nodes[0])
  {
    var named := ElementsWithName(nodes, name);
    if |named| > 0 then Some(named[0]) else None
  }

  /** The forced unwraps of `init(deserialize:)`: a "faultcode" and a "faultstring" child, each
      with text. */
  predicate Deserializable(element: XMLElement)
    reads element, element.children
  {
    var code := FirstWithName(element.children, "faultcode");
    var text := FirstWithName(element.children, "faultstring");
    code.Some? && code.value.stringValue.Some? && text.Some? && text.value.stringValue.Some?
  }

  /** `init(deserialize:)`: the texts of the first "faultcode" and "faultstring" children, no
      actor (its reading is disabled in the source), and the children of the first "detail"
      child, or none. */
  function Deserialize(element: XMLElement): (f: Fault)
    reads element, element.children
    requires Deserializable(element)
    ensures f.faultactor.None?
    ensures Some(f.faultcode) == FirstWithName(element.children, "faultcode").value.stringValue
    ensures Some(f.faultstring) == FirstWithName(element.children, "faultstring").value.stringValue
    ensures FirstWithName(element.children, "detail").None? ==> f.detail == []
    ensures FirstWithName(element.children, "detail").Some? ==> f.detail == FirstWithName(element.children, "detail").value.children
  {
    var detail := match FirstWithName(element.children, "detail")
      case Some(d) => d.children
      case None => [];
    Fault(FirstWithName(element.children, "faultcode").value.stringValue.value,
          FirstWithName(element.children, "faultstring").value.stringValue.value,
          None, detail)
  }

  /** None of the nodes is a fault part. */
  predicate NoFaultParts(nodes: seq<XMLElement>)
    reads nodes
  {
    forall i :: 0 <= i < |nodes| ==> nodes[i].name !in {"faultcode", "faultstring", "detail"}
  }

  /** `addChild(XMLElement(name:stringValue:))`. */
  method AddPart(element: XMLElement, name: string, value: Option<string>) returns (part: XMLElement)
    modifies element
    ensures fresh(part) && part.name == name && part.uri.None? && part.stringValue == value && part.children == []
    ensures element.children == old(element.children) + [part]
    ensures element.name == old(element.name) && element.uri == old(element.uri)
    ensures element.namespaces == old(element.namespaces) && element.attributes == old(element.attributes)
    ensures element.stringValue == old(element.stringValue) && element.ancestors == old(element.ancestors)
  {
    part := new XMLElement(name, None);
    part.SetStringValue(value);
    element.AddChild(part);
  }

  /** The "detail" node and the loop that moves the detail nodes under it. */
  method DetailNode(detail: seq<XMLElement>) returns (node: XMLElement)
    modifies detail
    ensures fresh(node) && node.name == "detail" && node.uri.None? && node.stringValue.None? && node.children == detail
    ensures forall k :: 0 <= k < |detail| ==>
              detail[k].name == old(detail[k].name) && detail[k].children == old(detail[k].children)
  {
    node := new XMLElement("detail", None);
    for i := 0 to |detail|
      invariant fresh(node) && node.name == "detail" && node.uri.None? && node.stringValue.None?
      invariant node.children == detail[..i]
      invariant forall k :: 0 <= k < |detail| ==>
                  detail[k].name == old(detail[k].name) && detail[k].children == old(detail[k].children)
    {
      node.AddChild(detail[i]);
    }
  }

  /** The three parts `serialize(_:)` attaches, in order, where the element had `before` children. */
  predicate PartsAfter(element: XMLElement, before: nat, f: Fault)
    reads element, element.children
  {
    |element.children| >= before + 3
    && element.children[before].name == "faultcode" && element.children[before].stringValue == Some(f.faultcode)
    && element.children[before + 1].name == "faultstring" && element.children[before + 1].stringValue == Some(f.faultstring)
    && element.children[before + 2].name == "faultactor" && element.children[before + 2].stringValue == f.faultactor
  }

  /** Nodes none of which has the name do not change the first one that has it. */
  lemma FirstWithNameSkips(a: seq<XMLElement>, b: seq<XMLElement>, name: string)
    requires forall i :: 0 <= i < |a| ==> a[i].name != name
    ensures FirstWithName(a + b, name) == FirstWithName(b, name)
  {
    ElementsWithNameAppend(a, b, name);
  }

  /** Reading back a fault element: with no fault part among the earlier children, the first
      parts are the ones attached last. */
  lemma ReadsAttachedParts(element: XMLElement, before: seq<XMLElement>, f: Fault, rest: seq<XMLElement>)
    requires |element.children| == |before| + 3 + |rest|
    requires element.children == before + element.children[|before|..|before| + 3] + rest
    requires PartsAfter(element, |before|, f) && NoFaultParts(before)
    requires NoFaultParts(rest) || (|rest| == 1 && rest[0].name == "detail")
    ensures Deserializable(element)
    ensures Deserialize(element) == Fault(f.faultcode, f.faultstring, None, if |rest| == 1 && rest[0].name == "detail" then rest[0].children else [])
  {
    var n := |before|;
    var c, t, a := element.children[n], element.children[n + 1], element.children[n + 2];
    assert element.children[n..n + 3] == [c, t, a];
    assert element.children == before + ([c] + ([t] + ([a] + rest)));
    FirstWithNameSkips(before, [c] + ([t] + ([a] + rest)), "faultcode");
    assert FirstWithName(element.children, "faultcode") == Some(c);
    FirstWithNameSkips(before, [c] + ([t] + ([a] + rest)), "faultstring");
    FirstWithNameSkips([c], [t] + ([a] + rest), "faultstring");
    assert FirstWithName(element.children, "faultstring") == Some(t);
    FirstWithNameSkips(before, [c] + ([t] + ([a] + rest)), "detail");
    FirstWithNameSkips([c], [t] + ([a] + rest), "detail");
    FirstWithNameSkips([t], [a] + rest, "detail");
    FirstWithNameSkips([a], rest, "detail");
    assert FirstWithName(element.children, "detail") == FirstWithName(rest, "detail");
  }

  /** `serialize(_:)` as written: the code, string and actor parts are attached, but the "detail"
      node the detail is moved to is never attached, so the detail does not read back. */
  method SerializeAsWritten(f: Fault, element: XMLElement)
    modifies element, f.detail
    ensures |element.children| == |old(element.children)| + 3
    ensures element.children[..|old(element.children)|] == old(element.children)
    ensures PartsAfter(element, |old(element.children)|, f)
    ensures NoFaultParts(old(element.children)) ==>
              Deserializable(element) && Deserialize(element) == Fault(f.faultcode, f.faultstring, None, [])
  {
    ghost var before := element.children;
    var code := AddPart(element, "faultcode", Some(f.faultcode));
    var text := AddPart(element, "faultstring", Some(f.faultstring));
    var actor := AddPart(element, "faultactor", f.faultactor);
    var detailNode := DetailNode(f.detail);
    assert element.children == before + [code, text, actor] + [];
    if NoFaultParts(before) {
      ReadsAttachedParts(element, before, f, []);
    }
  }

  /** A fault whose detail is not empty does not survive `SerializeAsWritten` and `Deserialize`. */
  lemma DetailLost(f: Fault, element: XMLElement)
    requires |f.detail| > 0
    requires Deserializable(element) && Deserialize(element) == Fault(f.faultcode, f.faultstring, None, [])
    ensures Deserialize(element) != f
  {
  }

  /** `serialize(_:)` as evidently intended: the "detail" node is attached after the other parts. */
  method Serialize(f: Fault, element: XMLElement)
    modifies element, f.detail
    ensures |element.children| == |old(element.children)| + 4
    ensures element.children[..|old(element.children)|] == old(element.children)
    ensures PartsAfter(element, |old(element.children)|, f)
    ensures element.children[|old(element.children)| + 3].name == "detail"
    ensures element.children[|old(element.children)| + 3].children == f.detail
    ensures NoFaultParts(old(element.children)) ==>
              Deserializable(element) && Deserialize(element) == Fault(f.faultcode, f.faultstring, None, f.detail)
    ensures NoFaultParts(old(element.children)) && f.faultactor.None? ==> Deserialize(element) == f
  {
    ghost var before := element.children;
    var code := AddPart(element, "faultcode", Some(f.faultcode));
    var text := AddPart(element, "faultstring", Some(f.faultstring));
    var actor := AddPart(element, "faultactor", f.faultactor);
    var detailNode := DetailNode(f.detail);
    element.AddChild(detailNode);
    assert element.children == before + [code, text, actor] + [detailNode];
    if NoFaultParts(before) {
      ReadsAttachedParts(element, before, f, [detailNode]);
    }
  }

  // ---------------------------------------------------------------- description

  function XmlStrings(nodes: seq<XMLElement>, xmlString: XMLElement -> string): (r: seq<string>)
    ensures |r| == |nodes| && forall k :: 0 <= k < |nodes| ==> r[k] == xmlString(nodes[k])
  {
    if |nodes| == 0 then [] else [xmlString(nodes[0])] + XmlStrings(nodes[1..], xmlString)
  }

  /** `description`: "Fault(code=..., actor=..., string=..., detail=...)", "nil" for a missing
      actor and the details' XML joined by ", "; `xmlString` renders one node. */
  function Description(f: Fault, xmlString: XMLElement -> string): (s: string)
    ensures "Fault(code=" + f.faultcode + ", actor=" <= s
    ensures |s| > 0 && s[|s| - 1] == ')'
    ensures f.faultactor.None? && f.detail == [] ==>
              s == "Fault(code=" + f.faultcode + ", actor=nil, string=" + f.faultstring + ", detail=)"
  {
    var actor := f.faultactor.GetOr("nil");
    var detail := Join(XmlStrings(f.detail, xmlString), ", ");
    "Fault(code=" + f.faultcode + ", actor=" + actor + ", string=" + f.faultstring + ", detail=" + detail + ")"
  }
}
