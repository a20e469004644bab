/** `Graph`, the reference graph the generator builds from a `WSDL`: the built-in XML Schema types,
    the operations, the messages and the schema items are its nodes; constructing one runs the
    reference check, so every graph that exists has every edge endpoint among its nodes. */
module Graphs {
  import opened Wrappers
  import opened QualifiedNames
  import opened Edges
  import opened LegacyGraph
  import BaseTypes
  import WsdlVerify

  datatype Graph = Graph(nodes: set<Node>, edges: seq<Edge<Node>>)

  /** `GeneratorError`. */
  datatype GeneratorError =
    | MissingTypes(types: set<QualifiedName>)
    | MessageNotFound(message: QualifiedName)
    | MissingNodes(nodes: set<Node>)

  /** Every edge starts and ends at a node of the graph. */
  predicate Closed(g: Graph) {
    forall i :: 0 <= i < |g.edges| ==> g.edges[i].from in g.nodes && g.edges[i].to in g.nodes
  }

  /** The nodes and edges `init(wsdl:)` collects before it verifies. */
  function GraphOf(d: Definitions): (g: Graph)
    requires SchemaWellFormed(d)
    ensures forall n :: n in g.nodes <==> Declared(d, n) || n in WsdlVerify.BaseNodes(BaseTypes.Table.Keys)
    ensures g.edges == AllEdges(d)
  {
    Graph(WsdlVerify.BaseNodes(BaseTypes.Table.Keys) + AllNodes(d), AllEdges(d))
  }

  /** Every built-in XML Schema type is a node before anything else is added. */
  lemma SeededWithBaseTypes(d: Definitions, q: QualifiedName)
    requires SchemaWellFormed(d)
    requires q in BaseTypes.Table
    ensures TypeNode(q) in GraphOf(d).nodes
  {
  }

  /** `verify()`: it throws exactly when some endpoint is not a node, and names exactly those. */
  function Check(g: Graph): (r: Result<(), GeneratorError>)
    ensures r.Ok? <==> Closed(g)
    ensures r.Err? ==> r.error.MissingNodes? && r.error.nodes != {}
    ensures r.Err? ==> forall n :: n in r.error.nodes <==>
              n !in g.nodes && exists i :: 0 <= i < |g.edges| && (g.edges[i].from == n || g.edges[i].to == n)
  {
    var missing := Endpoints(g.edges) - g.nodes;
    MissingMeaning(g);
    ClosedMeaning(g);
    EmptyDifference(Endpoints(g.edges), g.nodes);
    if |missing| > 0 then Err(MissingNodes(missing)) else Ok(())
  }

  lemma MissingMeaning(g: Graph)
    ensures forall n :: n in Endpoints(g.edges) - g.nodes <==>
              n !in g.nodes && exists i :: 0 <= i < |g.edges| && (g.edges[i].from == n || g.edges[i].to == n)
  {
    forall n { EndpointsMeaning(g.edges, n); }
  }

  lemma ClosedMeaning(g: Graph)
    ensures Endpoints(g.edges) <= g.nodes <==> Closed(g)
  {
    forall i | 0 <= i < |g.edges| ensures g.edges[i].from in Endpoints(g.edges) && g.edges[i].to in Endpoints(g.edges) {
      EndpointsMeaning(g.edges, g.edges[i].from);
      EndpointsMeaning(g.edges, g.edges[i].to);
    }
    forall n | n in Endpoints(g.edges) ensures Closed(g) ==> n in g.nodes {
      EndpointsMeaning(g.edges, n);
    }
  }

  /** `init(wsdl:)`: the graph, or the error its check throws. */
  function Build(d: Definitions): (r: Result<Graph, GeneratorError>)
    requires SchemaWellFormed(d)
    ensures r.Ok? ==> r.value == GraphOf(d) && Closed(r.value)
    ensures r.Err? <==> Check(GraphOf(d)).Err?
    ensures r.Err? ==> r.error == Check(GraphOf(d)).error
  {
    var g := GraphOf(d);
    var checked := Check(g);
    if checked.Ok? then Ok(g) else Err(checked.error)
  }

  /** Built over the same definitions, the graph's check and the corrected `WSDL.verify()` agree:
      on whether it passes, and on the nodes the error names. */
  lemma BuildAgreesWithVerification(d: Definitions)
    requires SchemaWellFormed(d)
    ensures Build(d).Ok? <==> WsdlVerify.Verification(d, BaseTypes.Table.Keys).Ok?
    ensures Build(d).Err? ==> Build(d).error.nodes == WsdlVerify.Verification(d, BaseTypes.Table.Keys).error.nodes
  {
    var g := GraphOf(d);
    var base := WsdlVerify.BaseNodes(BaseTypes.Table.Keys);
    assert g.nodes == base + AllNodes(d);
    assert Endpoints(g.edges) - g.nodes == WsdlVerify.Missing(d) - base;
    EmptyDifference(Endpoints(g.edges), g.nodes);
    EmptyDifference(WsdlVerify.Missing(d), base);
  }

  /** The `verify()` method: the loop over the edges. */
  method Verify(g: Graph) returns (r: Result<(), GeneratorError>)
    ensures r == Check(g)
  {
    var missing := CollectMissing(g.nodes, g.edges);
    if |missing| > 0 {
      r := Err(MissingNodes(missing));
    } else {
      r := Ok(());
    }
  }

  /** The `init(wsdl:)` method: nodes seeded with the built-in types, then grown part by part with
      the edges, then checked. */
  method Init(d: Definitions) returns (r: Result<Graph, GeneratorError>)
    requires SchemaWellFormed(d)
    ensures r == Build(d)
  {
    var nodes := WsdlVerify.BaseNodes(BaseTypes.Table.Keys);
    var edges: seq<Edge<Node>> := [];
    nodes := nodes + OperationNodes(d);
    edges := edges + OperationEdgesOf(d);
    nodes := nodes + MessageNodes(d);
    edges := edges + MessageEdgesOf(d);
    nodes := nodes + SchemaNodes(d);
    edges := edges + SchemaEdgesOf(d);
    assert nodes == WsdlVerify.BaseNodes(BaseTypes.Table.Keys) + AllNodes(d);
    assert edges == AllEdges(d);
    var g := Graph(nodes, edges);
    var checked := Verify(g);
    if checked.Err? {
      r := Err(checked.error);
    } else {
      r := Ok(g);
    }
  }

  /** `edges(to:)` and `edges(from:)` of a graph. */
  function EdgesToNode(g: Graph, n: Node): (r: set<Node>)
    ensures forall m :: m in r <==> exists i :: 0 <= i < |g.edges| && g.edges[i] == Edge(m, n)
  {
    EdgesTo(g.edges, n)
  }

  function EdgesFromNode(g: Graph, n: Node): (r: set<Node>)
    ensures forall m :: m in r <==> exists i :: 0 <= i < |g.edges| && g.edges[i] == Edge(n, m)
  {
    EdgesFrom(g.edges, n)
  }

  /** In a graph that exists, neighbours are nodes. */
  lemma NeighboursAreNodes(g: Graph, n: Node)
    requires Closed(g)
    ensures EdgesToNode(g, n) <= g.nodes && EdgesFromNode(g, n) <= g.nodes
  {
  }
}
