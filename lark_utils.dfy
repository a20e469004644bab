/** Lark's extensions of `XMLElement` (Sources/Lark/Utils.swift): prefixed construction, generated
    namespace prefixes "ns1", "ns2", ..., child creation under a resolved or generated prefix, the
    inherited targetNamespace, and prefixed attribute nodes. */
module LarkUtils {
  import opened Wrappers
  import opened Text
  import opened Xml
  import opened Dom

  /** `XMLElement(prefix:localName:uri:)`: the prefix must not be empty. */
  method WithPrefix(prefix: string, localName: string, namespaceUri: string) returns (e: XMLElement)
    requires prefix != ""
    ensures fresh(e)
    ensures e.name == prefix + ":" + localName && e.uri == Some(namespaceUri)
    ensures e.namespaces == [] && e.children == [] && e.stringValue == None
  {
    e := new XMLElement(prefix + ":" + localName, Some(namespaceUri));
  }

  // ---------------------------------------------------------------- generated prefixes

  /** "ns<i>". */
  function NsPrefix(i: nat): (p: string)
    ensures |p| > 2 && p[..2] == "ns" && p[2..] == NatToString(i)
  {
    "ns" + NatToString(i)
  }

  lemma NsPrefixHasNoColon(i: nat)
    ensures ':' !in NsPrefix(i)
  {
    var p := NsPrefix(i);
    forall k | 0 <= k < |p| ensures p[k] != ':' {
      if k >= 2 { assert p[k] == NatToString(i)[k - 2]; }
    }
  }

  /** Different indices give different prefixes. */
  lemma NsPrefixInjective(i: nat, j: nat)
    requires NsPrefix(i) == NsPrefix(j)
    ensures i == j
  {
    NatRoundTrip(i);
    NatRoundTrip(j);
    assert NatToString(i) == NsPrefix(i)[2..];
  }

  /** The index a declared prefix of the form "ns<digits>" carries, or 0. */
  function NsIndexOf(prefix: string): nat {
    if |prefix| >= 2 && prefix[..2] == "ns" && AllDigits(prefix[2..]) then DigitsValue(prefix[2..]) else 0
  }

  /** The largest index carried by a declaration in any frame. */
  function MaxNsIndex(frames: seq<Frame>): (m: nat)
    ensures forall k, j :: 0 <= k < |frames| && 0 <= j < |frames[k].namespaces| ==>
              NsIndexOf(frames[k].namespaces[j].prefix) <= m
  {
    if |frames| == 0 then 0
    else
      var here := MaxDeclared(frames[0].namespaces);
      var rest := MaxNsIndex(frames[1..]);
      assert forall k :: 1 <= k < |frames| ==> frames[k] == frames[1..][k - 1];
      if here < rest then rest else here
  }

  function MaxDeclared(namespaces: seq<Namespace>): (m: nat)
    ensures forall j :: 0 <= j < |namespaces| ==> NsIndexOf(namespaces[j].prefix) <= m
  {
    if |namespaces| == 0 then 0
    else
      var rest := MaxDeclared(namespaces[1..]);
      assert forall j :: 1 <= j < |namespaces| ==> namespaces[j] == namespaces[1..][j - 1];
      var here := NsIndexOf(namespaces[0].prefix);
      if here < rest then rest else here
  }

  /** Only finitely many generated prefixes can be bound: a bound "ns<i>" has `i` at most the
      largest declared index, so the search below ends. */
  lemma BoundBelowMax(frames: seq<Frame>, i: nat)
    requires LookupPrefix(frames, NsPrefix(i)).Some?
    ensures i <= MaxNsIndex(frames)
  {
    var k, j :| 0 <= k < |frames| && 0 <= j < |frames[k].namespaces|
                && frames[k].namespaces[j] == Namespace(NsPrefix(i), LookupPrefix(frames, NsPrefix(i)).value);
    NatRoundTrip(i);
    assert NsIndexOf(NsPrefix(i)) == i;
  }

  /** `i` is the least index >= 1 whose prefix is unbound in `frames`. */
  predicate LeastFree(frames: seq<Frame>, i: nat) {
    i >= 1 && LookupPrefix(frames, NsPrefix(i)).None?
    && forall j :: 1 <= j < i ==> LookupPrefix(frames, NsPrefix(j)).Some?
  }

  /** Binding a prefix that is unbound everywhere in scope, on the innermost frame, changes the
      meaning of no prefix that was bound before and makes the new one resolve to its URI. */
  lemma FreshBindingKeepsScope(frame: Frame, ancestors: seq<Frame>, ns: Namespace, p: string)
    requires LookupPrefix([frame] + ancestors, ns.prefix).None?
    ensures LookupPrefix([Frame(Rebind(frame.namespaces, ns), frame.attributes)] + ancestors, ns.prefix) == Some(ns.uri)
    ensures p != ns.prefix ==>
              LookupPrefix([Frame(Rebind(frame.namespaces, ns), frame.attributes)] + ancestors, p)
              == LookupPrefix([frame] + ancestors, p)
  {
    var before := [frame] + ancestors;
    var after := [Frame(Rebind(frame.namespaces, ns), frame.attributes)] + ancestors;
    assert before[1..] == ancestors && after[1..] == ancestors;
  }

  /** One more bound index extends the run of bound indices from 1. */
  lemma BoundUpTo(scope: seq<Frame>, i: nat)
    requires forall j :: 1 <= j < i ==> LookupPrefix(scope, NsPrefix(j)).Some?
    requires LookupPrefix(scope, NsPrefix(i)).Some?
    ensures forall j :: 1 <= j < i + 1 ==> LookupPrefix(scope, NsPrefix(j)).Some?
  {
  }

  /** The search of `addNamespace(uri:)`: the least index >= 1 whose "ns<i>" is unbound. */
  method FirstFreeIndex(scope: seq<Frame>) returns (i: nat)
    ensures LeastFree(scope, i)
  {
    i := 1;
    while LookupPrefix(scope, NsPrefix(i)).Some?
      invariant i >= 1
      invariant forall j :: 1 <= j < i ==> LookupPrefix(scope, NsPrefix(j)).Some?
      decreases MaxNsIndex(scope) + 1 - i
    {
      BoundBelowMax(scope, i);
      BoundUpTo(scope, i);
      i := i + 1;
    }
  }

  /** `addNamespace(uri:)` as intended: bind the least "ns<i>", i >= 1, that is not bound in the
      element's scope, and return it. */
  method AddNamespace(element: XMLElement, namespaceUri: string) returns (prefix: string)
    modifies element
    ensures exists i :: LeastFree(old(element.Scope()), i) && prefix == NsPrefix(i)
    ensures element.namespaces == Rebind(old(element.namespaces), Namespace(prefix, namespaceUri))
    ensures LookupPrefix(element.Scope(), prefix) == Some(namespaceUri)
    ensures forall p :: p != prefix ==> LookupPrefix(element.Scope(), p) == LookupPrefix(old(element.Scope()), p)
    ensures element.name == old(element.name) && element.uri == old(element.uri)
    ensures element.attributes == old(element.attributes) && element.stringValue == old(element.stringValue)
    ensures element.children == old(element.children) && element.ancestors == old(element.ancestors)
  {
    ghost var frame := Frame(element.namespaces, element.attributes);
    ghost var ancestors := element.ancestors;
    var i := FirstFreeIndex(element.Scope());
    prefix := NsPrefix(i);
    element.AddNamespace(Namespace(prefix, namespaceUri));
    assert element.Scope() == [Frame(Rebind(frame.namespaces, Namespace(prefix, namespaceUri)), frame.attributes)] + ancestors;
    forall p ensures p != prefix ==> LookupPrefix(element.Scope(), p) == LookupPrefix([frame] + ancestors, p) {
      FreshBindingKeepsScope(frame, ancestors, Namespace(prefix, namespaceUri), p);
    }
  }

  /** The loop as written tests `resolveNamespace(forName: "ns<i>")`, which resolves the prefix of
      "ns<i>", and that is empty: every test asks for the default namespace, whatever `i` is. */
  lemma AsWrittenTestIgnoresIndex(frames: seq<Frame>, i: nat)
    ensures LookupPrefix(frames, PrefixOf(NsPrefix(i))) == LookupPrefix(frames, "")
  {
    NsPrefixHasNoColon(i);
  }

  /** `addNamespace(uri:)` as written. By `AsWrittenTestIgnoresIndex`, the first test already
      decides the outcome: with a default namespace in scope the loop never ends (the requires),
      and without one it binds "ns1" on the element, whether or not "ns1" is already bound. */
  method AddNamespaceAsWritten(element: XMLElement, namespaceUri: string) returns (prefix: string)
    requires LookupPrefix(element.Scope(), PrefixOf(NsPrefix(1))).None?
    modifies element
    ensures prefix == "ns1"
    ensures element.namespaces == Rebind(old(element.namespaces), Namespace("ns1", namespaceUri))
    ensures element.name == old(element.name) && element.uri == old(element.uri)
    ensures element.attributes == old(element.attributes) && element.stringValue == old(element.stringValue)
    ensures element.children == old(element.children) && element.ancestors == old(element.ancestors)
  {
    prefix := NsPrefix(1);
    assert prefix == "ns1";
    element.AddNamespace(Namespace(prefix, namespaceUri));
  }

  /** Under a parent that binds ns1 to `parentUri`, a child with no declarations of its own is
      given a namespace `childUri`. The prefix as written rebinds ns1 on the child, so a name the
      child wrote with ns1 (its own name, in the nested case) now resolves to `childUri`; the
      intended prefix is another one, and ns1 keeps resolving to `parentUri`. */
  lemma AsWrittenShadowsParentPrefix(child: Frame, parent: Frame, parentUri: string, childUri: string)
    requires child.namespaces == [] && BindingFor(parent.namespaces, "ns1") == Some(parentUri)
    requires BindingFor(parent.namespaces, "").None? && parentUri != childUri
    ensures LookupPrefix([child, parent], "ns1") == Some(parentUri)
    ensures LookupPrefix([child, parent], PrefixOf(NsPrefix(1))).None?
    ensures LookupPrefix([Frame(Rebind(child.namespaces, Namespace("ns1", childUri)), child.attributes), parent], "ns1")
            == Some(childUri)
    ensures forall i :: LeastFree([child, parent], i) ==>
              i != 1
              && LookupPrefix([Frame(Rebind(child.namespaces, Namespace(NsPrefix(i), childUri)), child.attributes), parent], "ns1")
                 == Some(parentUri)
  {
    var scope := [child, parent];
    assert scope[1..] == [parent];
    AsWrittenTestIgnoresIndex(scope, 1);
    var rebound := [Frame(Rebind(child.namespaces, Namespace("ns1", childUri)), child.attributes), parent];
    assert BindingFor(rebound[0].namespaces, "ns1") == Some(childUri);
    forall i | LeastFree(scope, i)
      ensures i != 1
      ensures LookupPrefix([Frame(Rebind(child.namespaces, Namespace(NsPrefix(i), childUri)), child.attributes), parent], "ns1")
              == Some(parentUri)
    {
      assert NsPrefix(1) == "ns1";
      if NsPrefix(i) == "ns1" { NsPrefixInjective(i, 1); }
      FreshBindingKeepsScope(child, [parent], Namespace(NsPrefix(i), childUri), "ns1");
    }
  }

  /** The nested case of the toolkit's own example: ns1:foo of ".../0" under a root binding ns1 to
      ".../0" is given a child of ".../1". */
  lemma AsWrittenShadowsTempuriExample()
    ensures var root := Frame([Namespace("ns1", "http://tempuri.org/0")], map[]);
            var foo := Frame([], map[]);
            LookupPrefix([Frame([Namespace("ns1", "http://tempuri.org/1")], map[]), root], "ns1") == Some("http://tempuri.org/1")
            && LeastFree([foo, root], 2)
  {
    var root := Frame([Namespace("ns1", "http://tempuri.org/0")], map[]);
    var foo := Frame([], map[]);
    var rebound := [Frame([Namespace("ns1", "http://tempuri.org/1")], map[]), root];
    assert BindingFor(rebound[0].namespaces, "ns1") == Some("http://tempuri.org/1");
    FirstTwoPrefixes();
    var scope := [foo, root];
    assert scope[1..] == [root] && [root][1..] == [];
    assert LookupPrefix(scope, "ns1").Some?;
    assert LookupPrefix(scope, "ns2").None?;
  }

  lemma FirstTwoPrefixes()
    ensures NsPrefix(1) == "ns1" && NsPrefix(2) == "ns2"
  {
    assert NatToString(1) == "1" && NatToString(2) == "2";
  }

  /** `resolveOrAddPrefix(forNamespaceURI:)`: a prefix already bound to the URI is returned and
      nothing is added; otherwise a new prefix is bound as by `AddNamespace`. */
  method ResolveOrAddPrefix(element: XMLElement, namespaceUri: string) returns (prefix: string)
    modifies element
    ensures old(element.ResolvePrefix(namespaceUri)).Some? ==>
              prefix == old(element.ResolvePrefix(namespaceUri)).value && element.namespaces == old(element.namespaces)
    ensures old(element.ResolvePrefix(namespaceUri)).None? ==>
              (exists i :: LeastFree(old(element.Scope()), i) && prefix == NsPrefix(i))
              && element.namespaces == Rebind(old(element.namespaces), Namespace(prefix, namespaceUri))
              && LookupPrefix(element.Scope(), prefix) == Some(namespaceUri)
    ensures exists k, j :: 0 <= k < |element.Scope()| && 0 <= j < |element.Scope()[k].namespaces|
                           && element.Scope()[k].namespaces[j] == Namespace(prefix, namespaceUri)
    ensures element.name == old(element.name) && element.uri == old(element.uri)
    ensures element.attributes == old(element.attributes) && element.stringValue == old(element.stringValue)
    ensures element.children == old(element.children) && element.ancestors == old(element.ancestors)
  {
    var existing := element.ResolvePrefix(namespaceUri);
    if existing.Some? {
      prefix := existing.value;
    } else {
      prefix := AddNamespace(element, namespaceUri);
    }
  }

  /** `resolveOrAddPrefix(forNamespaceURI:)` as written, on `AddNamespaceAsWritten`: a prefix
      already bound to the URI is returned; otherwise "ns1" is bound on the element, which needs
      the default namespace to be unbound (else the source's search never ends). */
  method ResolveOrAddPrefixAsWritten(element: XMLElement, namespaceUri: string) returns (prefix: string)
    requires element.ResolvePrefix(namespaceUri).None? ==> LookupPrefix(element.Scope(), "").None?
    modifies element
    ensures old(element.ResolvePrefix(namespaceUri)).Some? ==>
              prefix == old(element.ResolvePrefix(namespaceUri)).value && element.namespaces == old(element.namespaces)
    ensures old(element.ResolvePrefix(namespaceUri)).None? ==>
              prefix == "ns1" && element.namespaces == Rebind(old(element.namespaces), Namespace("ns1", namespaceUri))
    ensures element.name == old(element.name) && element.uri == old(element.uri)
    ensures element.attributes == old(element.attributes) && element.stringValue == old(element.stringValue)
    ensures element.children == old(element.children) && element.ancestors == old(element.ancestors)
  {
    var existing := element.ResolvePrefix(namespaceUri);
    if existing.Some? {
      prefix := existing.value;
    } else {
      NsPrefixHasNoColon(1);
      prefix := AddNamespaceAsWritten(element, namespaceUri);
    }
  }

  /** `createChildElement(localName:uri:stringValue:)`: a new last child named under the URI's
      prefix ("prefix:localName", or the bare local name for the empty prefix), with the text. */
  method CreateChildElement(element: XMLElement, localName: string, namespaceUri: string, value: Option<string>)
    returns (child: XMLElement)
    modifies element
    ensures fresh(child)
    ensures element.children == old(element.children) + [child]
    ensures child.uri == Some(namespaceUri) && child.stringValue == value && child.children == []
    ensures child.namespaces == [] && child.attributes == map[]
    ensures exists prefix :: child.name == QualifiedText(prefix, localName)
                             && exists k, j :: 0 <= k < |child.ancestors| && 0 <= j < |child.ancestors[k].namespaces|
                                               && child.ancestors[k].namespaces[j] == Namespace(prefix, namespaceUri)
    ensures old(element.ResolvePrefix(namespaceUri)).Some? ==>
              child.name == QualifiedText(old(element.ResolvePrefix(namespaceUri)).value, localName)
              && element.namespaces == old(element.namespaces)
    ensures old(element.ResolvePrefix(namespaceUri)).None? ==>
              (exists i :: LeastFree(old(element.Scope()), i) && child.name == NsPrefix(i) + ":" + localName
                           && element.namespaces == Rebind(old(element.namespaces), Namespace(NsPrefix(i), namespaceUri)))
              && LookupPrefix(child.Scope(), PrefixOf(child.name)) == Some(namespaceUri)
    ensures child.ancestors == element.Scope()
    ensures element.name == old(element.name) && element.uri == old(element.uri)
    ensures element.attributes == old(element.attributes) && element.stringValue == old(element.stringValue)
    ensures element.ancestors == old(element.ancestors)
  {
    var prefix := ResolveOrAddPrefix(element, namespaceUri);
    var name := if prefix != "" then prefix + ":" + localName else localName;
    assert name == QualifiedText(prefix, localName);
    child := new XMLElement(name, Some(namespaceUri));
    child.SetStringValue(value);
    element.AddChild(child);
    if old(element.ResolvePrefix(namespaceUri)).None? {
      var i :| LeastFree(old(element.Scope()), i) && prefix == NsPrefix(i);
      NsPrefixHasNoColon(i);
      QualifiedTextSplits(prefix, localName);
      assert child.Scope()[1..] == element.Scope();
    }
  }

  /** `createChildElement(localName:uri:stringValue:)` as written: as `CreateChildElement`, with
      the prefix chosen by `ResolveOrAddPrefixAsWritten`. */
  method CreateChildElementAsWritten(element: XMLElement, localName: string, namespaceUri: string, value: Option<string>)
    returns (child: XMLElement)
    requires element.ResolvePrefix(namespaceUri).None? ==> LookupPrefix(element.Scope(), "").None?
    modifies element
    ensures fresh(child)
    ensures element.children == old(element.children) + [child]
    ensures child.uri == Some(namespaceUri) && child.stringValue == value && child.children == []
    ensures child.namespaces == [] && child.attributes == map[] && child.ancestors == element.Scope()
    ensures old(element.ResolvePrefix(namespaceUri)).Some? ==>
              child.name == QualifiedText(old(element.ResolvePrefix(namespaceUri)).value, localName)
              && element.namespaces == old(element.namespaces)
    ensures old(element.ResolvePrefix(namespaceUri)).None? ==>
              child.name == "ns1:" + localName
              && element.namespaces == Rebind(old(element.namespaces), Namespace("ns1", namespaceUri))
    ensures element.name == old(element.name) && element.uri == old(element.uri)
    ensures element.attributes == old(element.attributes) && element.stringValue == old(element.stringValue)
    ensures element.ancestors == old(element.ancestors)
  {
    ghost var resolved := element.ResolvePrefix(namespaceUri);
    var prefix := ResolveOrAddPrefixAsWritten(element, namespaceUri);
    var name := if prefix != "" then prefix + ":" + localName else localName;
    assert resolved.Some? ==> name == QualifiedText(resolved.value, localName);
    assert resolved.None? ==> name == "ns1:" + localName;
    child := new XMLElement(name, Some(namespaceUri));
    child.SetStringValue(value);
    element.AddChild(child);
  }

  /** The nested example of the toolkit's own tests, as written: a root "test" is given a child foo
      of ".../0", and foo a child bar of ".../1". The root binds ns1 to ".../0", foo is ns1:foo and
      rebinds ns1 to ".../1", and bar is ns1:bar. */
  method NestedChildrenAsWritten() returns (root: XMLElement, foo: XMLElement, bar: XMLElement)
    ensures root.namespaces == [Namespace("ns1", "http://tempuri.org/0")] && root.children == [foo]
    ensures foo.name == "ns1:foo" && foo.namespaces == [Namespace("ns1", "http://tempuri.org/1")] && foo.children == [bar]
    ensures bar.name == "ns1:bar" && bar.namespaces == []
  {
    root := new XMLElement("test", None);
    NoDeclarationsNothingBound(root.Scope(), "");
    foo := CreateChildElementAsWritten(root, "foo", "http://tempuri.org/0", None);
    assert root.namespaces == [Namespace("ns1", "http://tempuri.org/0")];
    assert foo.Scope() == [Frame([], map[]), Frame([Namespace("ns1", "http://tempuri.org/0")], map[])];
    assert foo.Scope()[1..][1..] == [];
    assert foo.ResolvePrefix("http://tempuri.org/1").None?;
    assert LookupPrefix(foo.Scope(), "").None?;
    bar := CreateChildElementAsWritten(foo, "bar", "http://tempuri.org/1", None);
  }

  /** On an element with no namespaces in scope the first generated prefix is ns1. */
  lemma FirstGeneratedPrefixIsNs1(frames: seq<Frame>)
    requires forall k :: 0 <= k < |frames| ==> frames[k].namespaces == []
    ensures LeastFree(frames, 1)
  {
    NoDeclarationsNothingBound(frames, NsPrefix(1));
  }

  lemma {:induction false} NoDeclarationsNothingBound(frames: seq<Frame>, p: string)
    requires forall k :: 0 <= k < |frames| ==> frames[k].namespaces == []
    ensures LookupPrefix(frames, p).None?
  {
    if |frames| > 0 {
      NoDeclarationsNothingBound(frames[1..], p);
    }
  }

  /** `targetNamespace`: the element's own attribute wins, else the nearest ancestor's, else none. */
  function TargetNamespace(element: XMLElement): (r: Option<string>)
    reads element
    ensures "targetNamespace" in element.attributes ==> r == Some(element.attributes["targetNamespace"])
    ensures "targetNamespace" !in element.attributes ==> r == ScopeTargetNamespace(element.ancestors)
    ensures r.None? <==> "targetNamespace" !in element.attributes
                         && forall k :: 0 <= k < |element.ancestors| ==> "targetNamespace" !in element.ancestors[k].attributes
  {
    ScopeTargetNamespace(element.Scope())
  }

  /** An attribute node: its qualified name as written, its URI and its value. */
  datatype AttributeNode = AttributeNode(name: string, uri: string, value: string)

  /** `XMLNode.attribute(prefix:localName:uri:stringValue:)`: "prefix:localName" when a prefix is
      given, else the local name; a given prefix must not be empty. */
  function Attribute(prefix: Option<string>, localName: string, namespaceUri: string, value: string): (a: AttributeNode)
    requires prefix != Some("")
    ensures a.uri == namespaceUri && a.value == value
    ensures prefix.Some? ==> a.name == prefix.value + ":" + localName
    ensures prefix.Some? && ':' !in prefix.value ==> PrefixOf(a.name) == prefix.value && LocalPartOf(a.name) == localName
    ensures prefix.None? ==> a.name == localName
  {
    match prefix
    case Some(p) =>
      var a := AttributeNode(p + ":" + localName, namespaceUri, value);
      if ':' !in p then QualifiedTextSplits(p, localName); a else a
    case None => AttributeNode(localName, namespaceUri, value)
  }
}
