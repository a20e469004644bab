/** The mutable XML elements the runtime libraries build and read (Foundation's `XMLElement`, which
    the model's sources use but do not declare). An element has a qualified name as written
    ("prefix:localName" or "localName"), a namespace URI, the namespaces it declares, its
    attributes, its string value and its element children, which are shared references. A child
    records the scope of its parent (the frames of the parent and of the parent's ancestors) at
    the moment it is attached, so that prefix and targetNamespace lookups climb the parent chain
    without walking the heap. */
module Dom {
  import opened Wrappers
  import opened Text
  import opened Xml

  /** A declaration list with `ns` bound: an earlier declaration of the same prefix on the same
      element is replaced. */
  function Rebind(namespaces: seq<Namespace>, ns: Namespace): (r: seq<Namespace>)
    ensures BindingFor(r, ns.prefix) == Some(ns.uri)
    ensures forall p :: p != ns.prefix ==> BindingFor(r, p) == BindingFor(namespaces, p)
    ensures forall u :: u != ns.uri ==> (PrefixFor(r, u).Some? ==> PrefixFor(namespaces, u).Some?)
  {
    if |namespaces| == 0 then [ns]
    else if namespaces[0].prefix == ns.prefix then Rebind(namespaces[1..], ns)
    else [namespaces[0]] + Rebind(namespaces[1..], ns)
  }

  class XMLElement {
    var name: string
    var uri: Option<string>
    var namespaces: seq<Namespace>
    var attributes: map<string, string>
    var stringValue: Option<string>
    var children: seq<XMLElement>
    /** The scope of the parent when this element was attached; empty for a root. */
    var ancestors: seq<Frame>

    /** `XMLElement(name:uri:)`, and `XMLElement(name:)` with no URI. */
    constructor (name: string, uri: Option<string>)
      ensures this.name == name && this.uri == uri
      ensures namespaces == [] && attributes == map[] && stringValue == None && children == [] && ancestors == []
    {
      this.name := name;
      this.uri := uri;
      namespaces := [];
      attributes := map[];
      stringValue := None;
      children := [];
      ancestors := [];
    }

    function LocalName(): string
      reads this
    {
      LocalPartOf(name)
    }

    /** The element's own frame, then its ancestors'. */
    function Scope(): seq<Frame>
      reads this
    {
      [Frame(namespaces, attributes)] + ancestors
    }

    /** `resolveNamespace(forName:)`: the URI bound to the prefix of a qualified name. */
    function ResolveNamespace(qualifiedName: string): Option<string>
      reads this
    {
      LookupPrefix(Scope(), PrefixOf(qualifiedName))
    }

    /** `resolvePrefix(forNamespaceURI:)`: a prefix bound to the URI here or in an ancestor. */
    function ResolvePrefix(namespaceUri: string): Option<string>
      reads this
    {
      LookupUri(Scope(), namespaceUri)
    }

    /** `addNamespace(_:)`. */
    method AddNamespace(ns: Namespace)
      modifies this
      ensures namespaces == Rebind(old(namespaces), ns)
      ensures name == old(name) && uri == old(uri) && attributes == old(attributes)
      ensures stringValue == old(stringValue) && children == old(children) && ancestors == old(ancestors)
    {
      namespaces := Rebind(namespaces, ns);
    }

    /** `addAttribute(_:)` / `setAttributesWith(_:)` for one attribute. */
    method SetAttribute(attributeName: string, value: string)
      modifies this
      ensures attributes == old(attributes)[attributeName := value]
      ensures name == old(name) && uri == old(uri) && namespaces == old(namespaces)
      ensures stringValue == old(stringValue) && children == old(children) && ancestors == old(ancestors)
    {
      attributes := attributes[attributeName := value];
    }

    /** The `stringValue` setter. */
    method SetStringValue(value: Option<string>)
      modifies this
      ensures stringValue == value
      ensures name == old(name) && uri == old(uri) && namespaces == old(namespaces)
      ensures attributes == old(attributes) && children == old(children) && ancestors == old(ancestors)
    {
      stringValue := value;
    }

    /** `addChild(_:)`: the child goes last and now sees this element's scope. */
    method AddChild(child: XMLElement)
      requires child != this
      modifies this, child
      ensures children == old(children) + [child]
      ensures child.ancestors == old(Scope())
      ensures name == old(name) && uri == old(uri) && namespaces == old(namespaces)
      ensures attributes == old(attributes) && stringValue == old(stringValue) && ancestors == old(ancestors)
      ensures child.name == old(child.name) && child.uri == old(child.uri) && child.namespaces == old(child.namespaces)
      ensures child.attributes == old(child.attributes) && child.stringValue == old(child.stringValue)
      ensures child.children == old(child.children)
    {
      child.ancestors := Scope();
      children := children + [child];
    }

    /** `insertChild(_:at:)`. */
    method InsertChild(child: XMLElement, index: nat)
      requires child != this && index <= |children|
      modifies this, child
      ensures children == old(children[..index]) + [child] + old(children[index..])
      ensures child.ancestors == old(Scope())
      ensures name == old(name) && uri == old(uri) && namespaces == old(namespaces)
      ensures attributes == old(attributes) && stringValue == old(stringValue) && ancestors == old(ancestors)
      ensures child.name == old(child.name) && child.uri == old(child.uri) && child.namespaces == old(child.namespaces)
      ensures child.attributes == old(child.attributes) && child.stringValue == old(child.stringValue)
      ensures child.children == old(child.children)
    {
      child.ancestors := Scope();
      children := children[..index] + [child] + children[index..];
    }
  }

  /** `XMLDocument`: an optional root element and the declaration's version, encoding and
      standalone flag. */
  class XMLDocument {
    var rootElement: Option<XMLElement>
    var version: Option<string>
    var characterEncoding: Option<string>
    var isStandalone: bool

    /** `XMLDocument(rootElement:)`. */
    constructor (root: XMLElement)
      ensures rootElement == Some(root) && version == None && characterEncoding == None && !isStandalone
    {
      rootElement := Some(root);
      version := None;
      characterEncoding := None;
      isStandalone := false;
    }

    method SetDeclaration(version: string, characterEncoding: string, isStandalone: bool)
      modifies this
      ensures this.version == Some(version) && this.characterEncoding == Some(characterEncoding)
      ensures this.isStandalone == isStandalone && rootElement == old(rootElement)
    {
      this.version := Some(version);
      this.characterEncoding := Some(characterEncoding);
      this.isStandalone := isStandalone;
    }
  }

  /** Between the two states only the string value of `e` may differ. */
  twostate predicate OnlyTextChanged(e: XMLElement)
    reads e
  {
    e.name == old(e.name) && e.uri == old(e.uri) && e.namespaces == old(e.namespaces)
    && e.attributes == old(e.attributes) && e.children == old(e.children) && e.ancestors == old(e.ancestors)
  }

  predicate IsNamed(e: XMLElement, localName: string, namespaceUri: string)
    reads e
  {
    e.LocalName() == localName && e.uri == Some(namespaceUri)
  }

  /** `elements(forLocalName:uri:)` over a list of children: those with that local name and
      namespace, in order. */
  function ElementsNamed(nodes: seq<XMLElement>, localName: string, namespaceUri: string): (r: seq<XMLElement>)
    reads nodes
    ensures forall k :: 0 <= k < |r| ==> r[k] in nodes && IsNamed(r[k], localName, namespaceUri)
    ensures forall i :: 0 <= i < |nodes| && IsNamed(nodes[i], localName, namespaceUri) ==> nodes[i] in r
  {
    if |nodes| == 0 then []
    else
      var rest := ElementsNamed(nodes[1..], localName, namespaceUri);
      assert forall i :: 1 <= i < |nodes| ==> nodes[i] == nodes[1..][i - 1];
      if IsNamed(nodes[0], localName, namespaceUri) then [nodes[0]] + rest else rest
  }

  /** Selecting distributes over concatenation. */
  lemma {:induction false} ElementsNamedAppend(a: seq<XMLElement>, b: seq<XMLElement>, localName: string, namespaceUri: string)
    ensures ElementsNamed(a + b, localName, namespaceUri) == ElementsNamed(a, localName, namespaceUri) + ElementsNamed(b, localName, namespaceUri)
  {
    if |a| > 0 {
      assert (a + b)[1..] == a[1..] + b;
      ElementsNamedAppend(a[1..], b, localName, namespaceUri);
    } else {
      assert a + b == b;
    }
  }

  /** `elements(forLocalName:uri:).first`. */
  function FirstElementNamed(nodes: seq<XMLElement>, localName: string, namespaceUri: string): (r: Option<XMLElement>)
    reads nodes
    ensures r.Some? <==> exists i :: 0 <= i < |nodes| && IsNamed(nodes[i], localName, namespaceUri)
    ensures r.Some? ==> r.value in nodes && IsNamed(r.value, localName, namespaceUri)
    ensures |nodes| > 0 && IsNamed(nodes[0], localName, namespaceUri) ==> r == Some(nodes[0])
  {
    var named := ElementsNamed(nodes, localName, namespaceUri);
    if |named| > 0 then Some(named[0]) else None
  }

  /** Nodes none of which is so named do not change the first one that is. */
  lemma FirstElementNamedSkips(a: seq<XMLElement>, b: seq<XMLElement>, localName: string, namespaceUri: string)
    requires forall i :: 0 <= i < |a| ==> !IsNamed(a[i], localName, namespaceUri)
    ensures FirstElementNamed(a + b, localName, namespaceUri) == FirstElementNamed(b, localName, namespaceUri)
  {
    ElementsNamedAppend(a, b, localName, namespaceUri);
  }

  /** `elements(forName:)`: the children whose qualified name as written is `name`, in order. */
  function ElementsWithName(nodes: seq<XMLElement>, qualifiedName: string): (r: seq<XMLElement>)
    reads nodes
    ensures forall k :: 0 <= k < |r| ==> r[k] in nodes && r[k].name == qualifiedName
    ensures |r| == 0 <==> forall i :: 0 <= i < |nodes| ==> nodes[i].name != qualifiedName
    ensures |nodes| > 0 && nodes[0].name == qualifiedName ==> |r| > 0 && r[0] == nodes[0]
  {
    if |nodes| == 0 then []
    else
      var rest := ElementsWithName(nodes[1..], qualifiedName);
      assert forall i :: 1 <= i < |nodes| ==> nodes[i] == nodes[1..][i - 1];
      if nodes[0].name == qualifiedName then [nodes[0]] + rest else rest
  }

  lemma {:induction false} ElementsWithNameAppend(a: seq<XMLElement>, b: seq<XMLElement>, qualifiedName: string)
    ensures ElementsWithName(a + b, qualifiedName) == ElementsWithName(a, qualifiedName) + ElementsWithName(b, qualifiedName)
  {
    if |a| > 0 {
      assert (a + b)[1..] == a[1..] + b;
      ElementsWithNameAppend(a[1..], b, qualifiedName);
    } else {
      assert a + b == b;
    }
  }
}
