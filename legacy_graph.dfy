/** What the two older reference checks (`WSDL.verify()` and `Graph(wsdl:)`) read from a WSDL, and
    the nodes and edges both build from it. The two source files declare the node type and the
    edge builders separately, line for line alike; here they are declared once.

    Both files switch over schema nodes with element, simpleType and complexType cases, whose
    element content is a base type or a complex type, and whose complex content is a sequence or
    empty: the shapes of XSD+Extensions.swift, not of the XSD.swift shown alongside. The model gives
    them exactly that input. */
module LegacyGraph {
  import opened Wrappers
  import opened QualifiedNames
  import opened Edges
  import XS = XmlSchema
  import XE = XsdEquality
  import LW = LegacyWsdl
  import WSD = WebServiceDescription

  datatype SchemaItem =
    | ImportItem(schemaLocation: string)
    | ElementItem(element: XE.Element)
    | SimpleTypeItem(simpleType: XS.SimpleType)
    | ComplexTypeItem(complexType: XE.Complex)

  /** The fields of a `WSDL` the checks read. */
  datatype Definitions = Definitions(schema: seq<SchemaItem>, messages: seq<LW.Message>,
                                     portTypes: seq<WSD.PortType>)

  datatype Node =
    | OperationNode(name: QualifiedName)
    | MessageNode(name: QualifiedName)
    | ElementNode(name: QualifiedName)
    | TypeNode(name: QualifiedName)

  /** `Node ==`: the same case, and names that are `==`. */
  predicate NodeEquals(a: Node, b: Node) {
    match (a, b)
    case (OperationNode(x), OperationNode(y)) => Equals(x, y)
    case (MessageNode(x), MessageNode(y)) => Equals(x, y)
    case (ElementNode(x), ElementNode(y)) => Equals(x, y)
    case (TypeNode(x), TypeNode(y)) => Equals(x, y)
    case _ => false
  }

  lemma NodeEqualsIsEquality(a: Node, b: Node)
    ensures NodeEquals(a, b) <==> a == b
  {
  }

  /** Every edge out of a schema item leaves the item's own node and ends at a type. */
  predicate FromTo(r: seq<Edge<Node>>, from: Node) {
    forall k :: 0 <= k < |r| ==> r[k].from == from && r[k].to.TypeNode?
  }

  /** `createEdges(from:to: SimpleType)`: one edge, to the restricted base or the list item type,
      looking through wrapped lists. */
  function SimpleTypeEdges(from: Node, s: XS.SimpleType): (r: seq<Edge<Node>>)
    ensures |r| == 1 && FromTo(r, from)
    ensures s.content.RestrictionContent? ==> r[0].to == TypeNode(s.content.restriction.base)
    ensures s.content.List? ==> r[0].to == TypeNode(s.content.itemType)
    ensures s.content.ListWrapped? ==> r == SimpleTypeEdges(from, s.content.wrapped)
    decreases s
  {
    match s.content
    case RestrictionContent(restriction) => [Edge(from, TypeNode(restriction.base))]
    case List(itemType) => [Edge(from, TypeNode(itemType))]
    case ListWrapped(wrapped) => SimpleTypeEdges(from, wrapped)
  }

  /** `createEdges(from:to: Element)`: a base-typed element gives one edge to its type; a complex
      one gives its complex type's edges. */
  function ElementEdges(from: Node, e: XE.Element): (r: seq<Edge<Node>>)
    ensures FromTo(r, from)
    ensures e.content.Base? ==> r == [Edge(from, TypeNode(e.content.base))]
    decreases e
  {
    match e.content
    case Base(base) => [Edge(from, TypeNode(base))]
    case Complex(complex) => ComplexEdges(from, complex)
  }

  /** `createEdges(from:to: ComplexType)`: a sequence gives its members' edges, empty content none. */
  function ComplexEdges(from: Node, c: XE.Complex): (r: seq<Edge<Node>>)
    ensures FromTo(r, from)
    ensures c.content.Empty? ==> r == []
    decreases c
  {
    match c.content
    case Sequence(elements) => ElementsEdges(from, elements)
    case Empty => []
  }

  /** `sequence.elements.flatMap { createEdges(from:to:) }`: every base-typed member contributes
      the edge to its type. */
  function ElementsEdges(from: Node, es: seq<XE.Element>): (r: seq<Edge<Node>>)
    ensures FromTo(r, from)
    ensures forall i :: 0 <= i < |es| && es[i].content.Base? ==> Edge(from, TypeNode(es[i].content.base)) in r
    decreases es
  {
    if |es| == 0 then []
    else
      var head := ElementEdges(from, es[0]);
      var rest := ElementsEdges(from, es[1..]);
      assert forall i :: 1 <= i < |es| ==> es[1..][i - 1] == es[i];
      assert forall k :: 0 <= k < |rest| ==> (head + rest)[|head| + k] == rest[k];
      head + rest
  }

  /** A sequence's edges are its members' edges one member after the other. */
  lemma {:induction false} ElementsEdgesConcat(from: Node, a: seq<XE.Element>, b: seq<XE.Element>)
    ensures ElementsEdges(from, a + b) == ElementsEdges(from, a) + ElementsEdges(from, b)
  {
    if |a| == 0 {
      assert a + b == b;
    } else {
      assert (a + b)[0] == a[0];
      assert (a + b)[1..] == a[1..] + b;
      ElementsEdgesConcat(from, a[1..], b);
    }
  }

  /** `simple.name!`, `complex.name!` and the `fatalError` for any other node. */
  predicate ItemWellFormed(n: SchemaItem) {
    match n
    case ImportItem(_) => false
    case SimpleTypeItem(s) => s.name.Some?
    case ComplexTypeItem(c) => c.name.Some?
    case ElementItem(_) => true
  }

  predicate SchemaWellFormed(d: Definitions) {
    forall i :: 0 <= i < |d.schema| ==> ItemWellFormed(d.schema[i])
  }

  /** The node a schema item declares. */
  function ItemNode(n: SchemaItem): (r: Node)
    requires ItemWellFormed(n)
    ensures r.ElementNode? <==> n.ElementItem?
  {
    match n
    case SimpleTypeItem(s) => TypeNode(s.name.value)
    case ComplexTypeItem(c) => TypeNode(c.name.value)
    case ElementItem(e) => ElementNode(e.name)
  }

  function ItemEdges(n: SchemaItem): (r: seq<Edge<Node>>)
    requires ItemWellFormed(n)
    ensures FromTo(r, ItemNode(n))
  {
    match n
    case SimpleTypeItem(s) => SimpleTypeEdges(TypeNode(s.name.value), s)
    case ComplexTypeItem(c) => ComplexEdges(TypeNode(c.name.value), c)
    case ElementItem(e) => ElementEdges(ElementNode(e.name), e)
  }

  /** Two edges per operation, both from the operation itself: to its input, then to its output. */
  function OperationEdges(ops: seq<WSD.PortOperation>): (r: seq<Edge<Node>>)
    ensures |r| == 2 * |ops|
    ensures forall j :: 0 <= j < |ops| ==>
              r[2 * j] == Edge(OperationNode(ops[j].name), MessageNode(ops[j].inputMessage))
              && r[2 * j + 1] == Edge(OperationNode(ops[j].name), MessageNode(ops[j].outputMessage))
  {
    if |ops| == 0 then []
    else
      var rest := OperationEdges(ops[1..]);
      var r := [Edge(OperationNode(ops[0].name), MessageNode(ops[0].inputMessage)),
                Edge(OperationNode(ops[0].name), MessageNode(ops[0].outputMessage))] + rest;
      forall j | 1 <= j < |ops|
        ensures r[2 * j] == Edge(OperationNode(ops[j].name), MessageNode(ops[j].inputMessage))
        ensures r[2 * j + 1] == Edge(OperationNode(ops[j].name), MessageNode(ops[j].outputMessage))
      {
        assert ops[1..][j - 1] == ops[j];
        assert r[2 * j] == rest[2 * (j - 1)] && r[2 * j + 1] == rest[2 * (j - 1) + 1];
      }
      r
  }

  function PortTypeEdges(pt: WSD.PortType): seq<Edge<Node>> {
    OperationEdges(pt.operations)
  }

  /** One edge per part, from the message to the part's element. */
  function PartEdges(m: LW.Message): (r: seq<Edge<Node>>)
    ensures |r| == |m.parts|
    ensures forall j :: 0 <= j < |m.parts| ==> r[j] == Edge(MessageNode(m.name), ElementNode(m.parts[j].element))
  {
    seq(|m.parts|, j requires 0 <= j < |m.parts| => Edge(MessageNode(m.name), ElementNode(m.parts[j].element)))
  }

  /** The declared nodes, union by union. */
  function OperationNodes(d: Definitions): set<Node> {
    set i, j | 0 <= i < |d.portTypes| && 0 <= j < |d.portTypes[i].operations| :: OperationNode(d.portTypes[i].operations[j].name)
  }

  function MessageNodes(d: Definitions): set<Node> {
    set i | 0 <= i < |d.messages| :: MessageNode(d.messages[i].name)
  }

  function SchemaNodes(d: Definitions): set<Node>
    requires SchemaWellFormed(d)
  {
    set i | 0 <= i < |d.schema| :: ItemNode(d.schema[i])
  }

  /** The declared edges, list by list. */
  function OperationEdgesOf(d: Definitions): seq<Edge<Node>> {
    FlatMap(d.portTypes, PortTypeEdges)
  }

  function MessageEdgesOf(d: Definitions): seq<Edge<Node>> {
    FlatMap(d.messages, PartEdges)
  }

  function SchemaEdgesOf(d: Definitions): seq<Edge<Node>>
    requires SchemaWellFormed(d)
  {
    FlatMap(d.schema, ItemEdges)
  }

  function AllEdges(d: Definitions): seq<Edge<Node>>
    requires SchemaWellFormed(d)
  {
    OperationEdgesOf(d) + MessageEdgesOf(d) + SchemaEdgesOf(d)
  }

  /** What it takes for `n` to be a node of the definitions, case by case. */
  predicate Declared(d: Definitions, n: Node) {
    match n
    case OperationNode(q) => exists i, j :: 0 <= i < |d.portTypes| && 0 <= j < |d.portTypes[i].operations|
                                            && d.portTypes[i].operations[j].name == q
    case MessageNode(q) => exists i :: 0 <= i < |d.messages| && d.messages[i].name == q
    case ElementNode(q) => exists i :: 0 <= i < |d.schema| && d.schema[i].ElementItem? && d.schema[i].element.name == q
    case TypeNode(q) => exists i :: 0 <= i < |d.schema| &&
                          ((d.schema[i].SimpleTypeItem? && d.schema[i].simpleType.name == Some(q))
                           || (d.schema[i].ComplexTypeItem? && d.schema[i].complexType.name == Some(q)))
  }

  function AllNodes(d: Definitions): (r: set<Node>)
    requires SchemaWellFormed(d)
    ensures forall n :: n in r <==> Declared(d, n)
  {
    var r := OperationNodes(d) + MessageNodes(d) + SchemaNodes(d);
    assert forall n :: n in r <==> Declared(d, n) by {
      forall n ensures n in r <==> Declared(d, n) {
        if n in SchemaNodes(d) {
          var i :| 0 <= i < |d.schema| && ItemNode(d.schema[i]) == n;
        }
        if Declared(d, n) && (n.ElementNode? || n.TypeNode?) {
          var i :| 0 <= i < |d.schema| && ItemNode(d.schema[i]) == n;
          assert n in SchemaNodes(d);
        }
      }
    }
    r
  }

  /** Every operation reference is an edge: the input and the output message of each operation. */
  lemma OperationReferencesAreEdges(d: Definitions, i: nat, j: nat)
    requires SchemaWellFormed(d)
    requires i < |d.portTypes| && j < |d.portTypes[i].operations|
    ensures var op := d.portTypes[i].operations[j];
      Edge(OperationNode(op.name), MessageNode(op.inputMessage)) in AllEdges(d)
      && Edge(OperationNode(op.name), MessageNode(op.outputMessage)) in AllEdges(d)
  {
    var op := d.portTypes[i].operations[j];
    assert PortTypeEdges(d.portTypes[i])[2 * j] == Edge(OperationNode(op.name), MessageNode(op.inputMessage));
    assert PortTypeEdges(d.portTypes[i])[2 * j + 1] == Edge(OperationNode(op.name), MessageNode(op.outputMessage));
    var ops := OperationEdgesOf(d);
    assert forall e :: e in ops ==> e in AllEdges(d);
  }

  /** Every message part is an edge to its element. */
  lemma PartReferencesAreEdges(d: Definitions, i: nat, j: nat)
    requires SchemaWellFormed(d)
    requires i < |d.messages| && j < |d.messages[i].parts|
    ensures Edge(MessageNode(d.messages[i].name), ElementNode(d.messages[i].parts[j].element)) in AllEdges(d)
  {
    assert PartEdges(d.messages[i])[j] == Edge(MessageNode(d.messages[i].name), ElementNode(d.messages[i].parts[j].element));
    var ms := MessageEdgesOf(d);
    assert forall e :: e in ms ==> e in AllEdges(d);
  }
}
