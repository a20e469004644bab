/** `WebServiceDescription.verify()`: every reference in a parsed description (a port to its
    binding, a binding to its port type, an operation to its messages, a message part to its
    element or type, a schema item to the types it uses) must land on a declared node or on a
    built-in XML Schema type. */
module DescriptionVerify {
  import opened Wrappers
  import opened QualifiedNames
  import opened Edges
  import XS = XmlSchema
  import WSD = WebServiceDescription
  import BaseTypes

  datatype Node =
    | ServiceNode(name: QualifiedName)
    | BindingNode(name: QualifiedName)
    | PortNode(name: QualifiedName)
    | MessageNode(name: QualifiedName)
    | ElementNode(name: QualifiedName)
    | TypeNode(name: QualifiedName)

  datatype VerifyError = MissingNodes(nodes: set<Node>)

  /** `Node ==`: the same case, and names that are `==`. */
  predicate NodeEquals(a: Node, b: Node) {
    match (a, b)
    case (ServiceNode(x), ServiceNode(y)) => Equals(x, y)
    case (BindingNode(x), BindingNode(y)) => Equals(x, y)
    case (PortNode(x), PortNode(y)) => Equals(x, y)
    case (MessageNode(x), MessageNode(y)) => Equals(x, y)
    case (ElementNode(x), ElementNode(y)) => Equals(x, y)
    case (TypeNode(x), TypeNode(y)) => Equals(x, y)
    case _ => false
  }

  /** The hand-written `==` is structural equality, so the node sets below are Swift's sets. */
  lemma NodeEqualsIsEquality(a: Node, b: Node)
    ensures NodeEquals(a, b) <==> a == b
  {
  }

  // ---------------------------------------------------------------- schema items

  /** Every edge out of a schema item leaves the item's own node and ends at a type. */
  predicate FromTo(r: seq<Edge<Node>>, from: Node) {
    forall k :: 0 <= k < |r| ==> r[k].from == from && r[k].to.TypeNode?
  }

  /** `createEdges(from:to: SimpleType)`: one edge, to the restricted base or the list item type,
      looking through wrapped lists. */
  function SimpleTypeEdges(from: Node, s: XS.SimpleType): (r: seq<Edge<Node>>)
    ensures |r| == 1 && FromTo(r, from)
    ensures s.content.RestrictionContent? ==> r[0].to == TypeNode(s.content.restriction.base)
    ensures s.content.List? ==> r[0].to == TypeNode(s.content.itemType)
    ensures s.content.ListWrapped? ==> r == SimpleTypeEdges(from, s.content.wrapped)
    decreases s
  {
    match s.content
    case RestrictionContent(restriction) => [Edge(from, TypeNode(restriction.base))]
    case List(itemType) => [Edge(from, TypeNode(itemType))]
    case ListWrapped(wrapped) => SimpleTypeEdges(from, wrapped)
  }

  /** `createEdges(from:to: Element)`: a base-typed element gives one edge to its type; a complex
      one gives its complex type's edges. */
  function ElementEdges(from: Node, e: XS.Element): (r: seq<Edge<Node>>)
    ensures FromTo(r, from)
    ensures e.content.Base? ==> r == [Edge(from, TypeNode(e.content.base))]
    decreases e
  {
    match e.content
    case Base(base) => [Edge(from, TypeNode(base))]
    case Complex(complex) => ComplexTypeEdges(from, complex)
  }

  /** `sequence.elements.flatMap { createEdges(from:to:) }`: every base-typed member contributes
      the edge to its type. */
  function ElementsEdges(from: Node, es: seq<XS.Element>): (r: seq<Edge<Node>>)
    ensures FromTo(r, from)
    ensures forall i :: 0 <= i < |es| && es[i].content.Base? ==> Edge(from, TypeNode(es[i].content.base)) in r
    decreases es
  {
    if |es| == 0 then []
    else
      var head := ElementEdges(from, es[0]);
      var rest := ElementsEdges(from, es[1..]);
      assert forall i :: 1 <= i < |es| ==> es[1..][i - 1] == es[i];
      assert forall k :: 0 <= k < |rest| ==> (head + rest)[|head| + k] == rest[k];
      head + rest
  }

  /** `createEdges(from:to: ComplexType)`: a sequence gives its members' edges, complexContent its
      own edges, and empty content none. */
  function ComplexTypeEdges(from: Node, c: XS.ComplexType): (r: seq<Edge<Node>>)
    ensures FromTo(r, from)
    ensures c.content.Empty? ==> r == []
    ensures c.content.ComplexContentOf? ==> |r| >= 1 && r[0] == Edge(from, TypeNode(c.content.complexContent.base))
    decreases c
  {
    match c.content
    case Sequence(elements) => ElementsEdges(from, elements)
    case ComplexContentOf(complexContent) => ComplexContentEdges(from, complexContent)
    case Empty => []
  }

  /** `createEdges(from:to: ComplexContent)`: first the edge to the base, then the edges of the
      sequence, whichever way the content derives from the base. */
  function ComplexContentEdges(from: Node, cc: XS.ComplexContent): (r: seq<Edge<Node>>)
    ensures FromTo(r, from)
    ensures |r| >= 1 && r[0] == Edge(from, TypeNode(cc.base)) && r[1..] == ElementsEdges(from, cc.elements)
    decreases cc
  {
    [Edge(from, TypeNode(cc.base))] + ElementsEdges(from, cc.elements)
  }

  /** A sequence's edges are its members' edges one member after the other. */
  lemma {:induction false} ElementsEdgesConcat(from: Node, a: seq<XS.Element>, b: seq<XS.Element>)
    ensures ElementsEdges(from, a + b) == ElementsEdges(from, a) + ElementsEdges(from, b)
  {
    if |a| == 0 {
      assert a + b == b;
    } else {
      assert (a + b)[0] == a[0];
      assert (a + b)[1..] == a[1..] + b;
      ElementsEdgesConcat(from, a[1..], b);
    }
  }

  /** The `simple.name!` and `complex.name!` unwraps, and the `fatalError` for any other node: the
      schema holds elements and named simple and complex types only. */
  predicate ItemWellFormed(n: XS.SchemaNode) {
    match n
    case ImportNode(_) => false
    case SimpleTypeNode(s) => s.name.Some?
    case ComplexTypeNode(c) => c.name.Some?
    case ElementNode(_) => true
  }

  /** The node a schema item declares. */
  function ItemNode(n: XS.SchemaNode): (r: Option<Node>)
    requires n.ImportNode? || ItemWellFormed(n)
    ensures r.None? <==> n.ImportNode?
  {
    match n
    case ImportNode(_) => None
    case SimpleTypeNode(s) => Some(TypeNode(s.name.value))
    case ComplexTypeNode(c) => Some(TypeNode(c.name.value))
    case ElementNode(e) => Some(ElementNode(e.name))
  }

  /** The edges out of a schema item, from the node it declares. */
  function ItemEdges(n: XS.SchemaNode): (r: seq<Edge<Node>>)
    requires ItemWellFormed(n)
    ensures FromTo(r, ItemNode(n).value)
  {
    match n
    case SimpleTypeNode(s) => SimpleTypeEdges(TypeNode(s.name.value), s)
    case ComplexTypeNode(c) => ComplexTypeEdges(TypeNode(c.name.value), c)
    case ElementNode(e) => ElementEdges(ElementNode(e.name), e)
  }

  // ---------------------------------------------------------------- the description's own parts

  /** One edge per port: from the service to the port's binding. */
  function PortEdges(s: WSD.Service): (r: seq<Edge<Node>>)
    ensures |r| == |s.ports|
    ensures forall j :: 0 <= j < |s.ports| ==> r[j] == Edge(ServiceNode(s.name), BindingNode(s.ports[j].binding))
  {
    seq(|s.ports|, j requires 0 <= j < |s.ports| => Edge(ServiceNode(s.name), BindingNode(s.ports[j].binding)))
  }

  /** Two edges per operation: from the port type to the input and to the output message. */
  function OperationEdges(pt: WSD.PortType): (r: seq<Edge<Node>>)
    ensures |r| == 2 * |pt.operations|
    ensures forall j :: 0 <= j < |pt.operations| ==>
              r[2 * j] == Edge(PortNode(pt.name), MessageNode(pt.operations[j].inputMessage))
              && r[2 * j + 1] == Edge(PortNode(pt.name), MessageNode(pt.operations[j].outputMessage))
  {
    MessageEdgesOf(PortNode(pt.name), pt.operations)
  }

  function MessageEdgesOf(from: Node, ops: seq<WSD.PortOperation>): (r: seq<Edge<Node>>)
    ensures |r| == 2 * |ops|
    ensures forall j :: 0 <= j < |ops| ==>
              r[2 * j] == Edge(from, MessageNode(ops[j].inputMessage))
              && r[2 * j + 1] == Edge(from, MessageNode(ops[j].outputMessage))
  {
    if |ops| == 0 then []
    else
      var rest := MessageEdgesOf(from, ops[1..]);
      var r := [Edge(from, MessageNode(ops[0].inputMessage)), Edge(from, MessageNode(ops[0].outputMessage))] + rest;
      MessageEdgesStep(from, ops, rest, r);
      r
  }

  /** One operation's two edges in front of the edges of the others keep every edge at its place. */
  lemma MessageEdgesStep(from: Node, ops: seq<WSD.PortOperation>, rest: seq<Edge<Node>>, r: seq<Edge<Node>>)
    requires |ops| > 0 && |rest| == 2 * (|ops| - 1)
    requires forall j :: 0 <= j < |ops| - 1 ==>
               rest[2 * j] == Edge(from, MessageNode(ops[1..][j].inputMessage))
               && rest[2 * j + 1] == Edge(from, MessageNode(ops[1..][j].outputMessage))
    requires r == [Edge(from, MessageNode(ops[0].inputMessage)), Edge(from, MessageNode(ops[0].outputMessage))] + rest
    ensures forall j :: 0 <= j < |ops| ==>
              r[2 * j] == Edge(from, MessageNode(ops[j].inputMessage))
              && r[2 * j + 1] == Edge(from, MessageNode(ops[j].outputMessage))
  {
    forall j | 0 <= j < |ops|
      ensures r[2 * j] == Edge(from, MessageNode(ops[j].inputMessage))
      ensures r[2 * j + 1] == Edge(from, MessageNode(ops[j].outputMessage))
    {
      if j > 0 {
        var k := j - 1;
        assert ops[1..][k] == ops[j];
        assert r[2 * j] == rest[2 * k];
        assert r[2 * j + 1] == rest[2 * k + 1];
      }
    }
  }

  /** The edge of one message part: to its element if it names one, else to its type, else none. */
  function PartEdge(m: WSD.Message, p: WSD.Part): (r: seq<Edge<Node>>)
    ensures p.element.Some? ==> r == [Edge(MessageNode(m.name), ElementNode(p.element.value))]
    ensures p.element.None? && p.type_.Some? ==> r == [Edge(MessageNode(m.name), TypeNode(p.type_.value))]
    ensures p.element.None? && p.type_.None? ==> r == []
  {
    if p.element.Some? then [Edge(MessageNode(m.name), ElementNode(p.element.value))]
    else if p.type_.Some? then [Edge(MessageNode(m.name), TypeNode(p.type_.value))]
    else []
  }

  function PartEdges(m: WSD.Message): seq<Edge<Node>> {
    FlatMap(m.parts, (p: WSD.Part) => PartEdge(m, p))
  }

  /** The declared nodes, union by union as the source forms them. */
  function ServiceNodes(d: WSD.Description): set<Node> {
    set i | 0 <= i < |d.services| :: ServiceNode(d.services[i].name)
  }

  function BindingNodes(d: WSD.Description): set<Node> {
    set i | 0 <= i < |d.bindings| :: BindingNode(d.bindings[i].name)
  }

  function PortTypeNodes(d: WSD.Description): set<Node> {
    set i | 0 <= i < |d.portTypes| :: PortNode(d.portTypes[i].name)
  }

  function MessageNodes(d: WSD.Description): set<Node> {
    set i | 0 <= i < |d.messages| :: MessageNode(d.messages[i].name)
  }

  predicate SchemaWellFormed(d: WSD.Description) {
    forall i :: 0 <= i < |d.schema.nodes| ==> ItemWellFormed(d.schema.nodes[i])
  }

  function SchemaItemNodes(d: WSD.Description): set<Node>
    requires SchemaWellFormed(d)
  {
    set i | 0 <= i < |d.schema.nodes| :: ItemNode(d.schema.nodes[i]).value
  }

  /** The declared edges, list by list as the source appends them. */
  function ServiceEdges(d: WSD.Description): seq<Edge<Node>> {
    FlatMap(d.services, PortEdges)
  }

  function BindingEdges(d: WSD.Description): seq<Edge<Node>> {
    seq(|d.bindings|, i requires 0 <= i < |d.bindings| => Edge(BindingNode(d.bindings[i].name), PortNode(d.bindings[i].type_)))
  }

  function PortTypeEdges(d: WSD.Description): seq<Edge<Node>> {
    FlatMap(d.portTypes, OperationEdges)
  }

  function MessageEdges(d: WSD.Description): seq<Edge<Node>> {
    FlatMap(d.messages, PartEdges)
  }

  function SchemaEdges(d: WSD.Description): seq<Edge<Node>>
    requires SchemaWellFormed(d)
  {
    FlatMap(d.schema.nodes, ItemEdges)
  }

  /** What it takes for `n` to be a node of the description, case by case. */
  predicate Declared(d: WSD.Description, n: Node) {
    match n
    case ServiceNode(q) => exists i :: 0 <= i < |d.services| && d.services[i].name == q
    case BindingNode(q) => exists i :: 0 <= i < |d.bindings| && d.bindings[i].name == q
    case PortNode(q) => exists i :: 0 <= i < |d.portTypes| && d.portTypes[i].name == q
    case MessageNode(q) => exists i :: 0 <= i < |d.messages| && d.messages[i].name == q
    case ElementNode(q) => exists i :: 0 <= i < |d.schema.nodes| && d.schema.nodes[i].ElementNode?
                                      && d.schema.nodes[i].element.name == q
    case TypeNode(q) => exists i :: 0 <= i < |d.schema.nodes| &&
                          ((d.schema.nodes[i].SimpleTypeNode? && d.schema.nodes[i].simpleType.name == Some(q))
                           || (d.schema.nodes[i].ComplexTypeNode? && d.schema.nodes[i].complexType.name == Some(q)))
  }

  function AllNodes(d: WSD.Description): (r: set<Node>)
    requires SchemaWellFormed(d)
    ensures forall n :: n in r <==> Declared(d, n)
  {
    var r := ServiceNodes(d) + BindingNodes(d) + PortTypeNodes(d) + MessageNodes(d) + SchemaItemNodes(d);
    assert forall n :: n in r <==> Declared(d, n) by {
      forall n ensures n in r <==> Declared(d, n) {
        if n in SchemaItemNodes(d) {
          var i :| 0 <= i < |d.schema.nodes| && ItemNode(d.schema.nodes[i]).value == n;
        }
        if Declared(d, n) && (n.ElementNode? || n.TypeNode?) {
          var i :| 0 <= i < |d.schema.nodes| && ItemNode(d.schema.nodes[i]) == Some(n);
          assert n in SchemaItemNodes(d);
        }
      }
    }
    r
  }

  function AllEdges(d: WSD.Description): seq<Edge<Node>>
    requires SchemaWellFormed(d)
  {
    ServiceEdges(d) + BindingEdges(d) + PortTypeEdges(d) + MessageEdges(d) + SchemaEdges(d)
  }

  /** `baseTypes.keys.map { Node.type($0) }`. */
  function BaseNodes(): set<Node> {
    set q | q in BaseTypes.Table.Keys :: TypeNode(q)
  }

  /** A reference is fine when it lands on a declared node or a built-in type. */
  predicate Resolved(d: WSD.Description, n: Node) {
    Declared(d, n) || (n.TypeNode? && n.name in BaseTypes.Table)
  }

  /** The endpoints that are neither declared nor built in. */
  function Unresolved(d: WSD.Description): set<Node>
    requires SchemaWellFormed(d)
  {
    Endpoints(AllEdges(d)) - AllNodes(d) - BaseNodes()
  }

  lemma UnresolvedMeaning(d: WSD.Description, n: Node)
    requires SchemaWellFormed(d)
    ensures n in Unresolved(d) <==>
              !Resolved(d, n) && exists i :: 0 <= i < |AllEdges(d)| && (AllEdges(d)[i].from == n || AllEdges(d)[i].to == n)
  {
    EndpointsMeaning(AllEdges(d), n);
  }

  lemma UnresolvedMeaningAll(d: WSD.Description)
    requires SchemaWellFormed(d)
    ensures forall n :: (n in Unresolved(d) <==>
              !Resolved(d, n) && exists i :: 0 <= i < |AllEdges(d)| && (AllEdges(d)[i].from == n || AllEdges(d)[i].to == n))
  {
    forall n { UnresolvedMeaning(d, n); }
  }

  lemma NothingUnresolved(d: WSD.Description)
    requires SchemaWellFormed(d)
    ensures Unresolved(d) == {} <==> forall i :: 0 <= i < |AllEdges(d)| ==>
                                       Resolved(d, AllEdges(d)[i].from) && Resolved(d, AllEdges(d)[i].to)
  {
    var edges := AllEdges(d);
    if Unresolved(d) == {} {
      forall i | 0 <= i < |edges| ensures Resolved(d, edges[i].from) && Resolved(d, edges[i].to) {
        UnresolvedMeaning(d, edges[i].from);
        UnresolvedMeaning(d, edges[i].to);
      }
    } else {
      var n :| n in Unresolved(d);
      UnresolvedMeaning(d, n);
    }
  }

  /** What `verify()` decides: it fails exactly when some edge has an unresolved endpoint, and then
      reports exactly the unresolved endpoints. */
  function Verification(d: WSD.Description): (r: Result<(), VerifyError>)
    requires SchemaWellFormed(d)
    ensures r.Ok? <==> forall i :: 0 <= i < |AllEdges(d)| ==>
                         Resolved(d, AllEdges(d)[i].from) && Resolved(d, AllEdges(d)[i].to)
    ensures r.Err? ==> r.error.nodes != {}
    ensures r.Err? ==> forall n :: (n in r.error.nodes <==>
              !Resolved(d, n) && exists i :: 0 <= i < |AllEdges(d)| && (AllEdges(d)[i].from == n || AllEdges(d)[i].to == n))
  {
    NothingUnresolved(d);
    UnresolvedMeaningAll(d);
    if |Unresolved(d)| > 0 then Err(MissingNodes(Unresolved(d))) else Ok(())
  }

  /** The method as written: the node set and edge list grown part by part, then the loop over the
      edges, then the built-in types subtracted. */
  method Verify(d: WSD.Description) returns (r: Result<(), VerifyError>)
    requires SchemaWellFormed(d)
    ensures r == Verification(d)
  {
    var nodes: set<Node> := {};
    var edges: seq<Edge<Node>> := [];
    nodes := nodes + ServiceNodes(d);
    edges := edges + ServiceEdges(d);
    assert nodes == ServiceNodes(d) && edges == ServiceEdges(d);
    nodes := nodes + BindingNodes(d);
    edges := edges + BindingEdges(d);
    nodes := nodes + PortTypeNodes(d);
    edges := edges + PortTypeEdges(d);
    nodes := nodes + MessageNodes(d);
    edges := edges + MessageEdges(d);
    nodes := nodes + SchemaItemNodes(d);
    edges := edges + SchemaEdges(d);
    assert nodes == AllNodes(d);
    assert edges == AllEdges(d);
    var missing := CollectMissing(nodes, edges);
    missing := missing - BaseNodes();
    assert missing == Unresolved(d);
    if |missing| > 0 {
      r := Err(MissingNodes(missing));
    } else {
      r := Ok(());
    }
  }

  // ---------------------------------------------------------------- consequences

  /** A port whose binding is not declared is reported, whatever else the description holds. */
  lemma UndeclaredBindingIsReported(d: WSD.Description, i: nat, j: nat)
    requires SchemaWellFormed(d)
    requires i < |d.services| && j < |d.services[i].ports|
    requires forall k :: 0 <= k < |d.bindings| ==> d.bindings[k].name != d.services[i].ports[j].binding
    ensures Verification(d).Err?
    ensures BindingNode(d.services[i].ports[j].binding) in Verification(d).error.nodes
  {
    var e := Edge(ServiceNode(d.services[i].name), BindingNode(d.services[i].ports[j].binding));
    assert e == PortEdges(d.services[i])[j];
    assert e in ServiceEdges(d);
    var all := AllEdges(d);
    var k :| 0 <= k < |ServiceEdges(d)| && ServiceEdges(d)[k] == e;
    assert all[k] == e;
    assert !Resolved(d, e.to);
    UnresolvedMeaning(d, e.to);
  }

  /** A description whose only content is one service with one port. */
  function LoneService(tns: string, address: WSD.Address): WSD.Description {
    var port := WSD.Port(QualifiedName(tns, "ImportSoap"), QualifiedName(tns, "ImportSoapBinding"), address);
    var service := WSD.Service(QualifiedName(tns, "Import"), None, [port]);
    WSD.Description([], XS.Schema(None, []), [], [], [], [service])
  }

  lemma LoneServiceEdges(tns: string, address: WSD.Address)
    ensures AllEdges(LoneService(tns, address)) ==
              [Edge(ServiceNode(QualifiedName(tns, "Import")), BindingNode(QualifiedName(tns, "ImportSoapBinding")))]
  {
    var d := LoneService(tns, address);
    var e := Edge(ServiceNode(QualifiedName(tns, "Import")), BindingNode(QualifiedName(tns, "ImportSoapBinding")));
    assert PortEdges(d.services[0]) == [e];
    assert ServiceEdges(d) == [e] by { assert d.services[1..] == []; assert FlatMap(d.services[1..], PortEdges) == []; }
    assert BindingEdges(d) == [];
    assert PortTypeEdges(d) == [] && MessageEdges(d) == [] && SchemaEdges(d) == [];
  }

  lemma LoneServiceUnresolved(tns: string, address: WSD.Address)
    ensures Unresolved(LoneService(tns, address)) == {BindingNode(QualifiedName(tns, "ImportSoapBinding"))}
  {
    var d := LoneService(tns, address);
    var binding := BindingNode(QualifiedName(tns, "ImportSoapBinding"));
    var service := ServiceNode(QualifiedName(tns, "Import"));
    LoneServiceEdges(tns, address);
    assert Resolved(d, service) by { assert d.services[0].name == service.name; }
    assert !Resolved(d, binding);
    forall n ensures n in Unresolved(d) <==> n == binding {
      UnresolvedMeaning(d, n);
      if n == binding {
        assert AllEdges(d)[0].to == n;
      }
    }
  }

  /** The missing-binding case of the source's tests: a service whose one port names a binding
      that the description lacks reports exactly that binding. */
  lemma MissingBindingReportsIt(tns: string, address: WSD.Address)
    ensures Verification(LoneService(tns, address)) ==
              Err(MissingNodes({BindingNode(QualifiedName(tns, "ImportSoapBinding"))}))
  {
    LoneServiceUnresolved(tns, address);
  }
}
