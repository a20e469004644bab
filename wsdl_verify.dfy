/** `WSDL.verify()`, the older reference check: operations, messages and schema items are the
    nodes; operation-to-message, message-to-element and schema-item-to-type references are the
    edges. It throws when a reference lands on neither a node nor a built-in type, but the error it
    throws carries the endpoints before the built-in types are taken out. */
module WsdlVerify {
  import opened Wrappers
  import opened QualifiedNames
  import opened Edges
  import opened LegacyGraph
  import XS = XmlSchema
  import XE = XsdEquality
  import BaseTypes

  datatype VerifyError = MissingNodes(nodes: set<Node>)

  /** `baseTypes.keys.map { Node.type($0) }`. */
  function BaseNodes(baseTypes: set<QualifiedName>): set<Node> {
    set q | q in baseTypes :: TypeNode(q)
  }

  /** The endpoints that are not nodes, built-in types included. */
  function Missing(d: Definitions): set<Node>
    requires SchemaWellFormed(d)
  {
    Endpoints(AllEdges(d)) - AllNodes(d)
  }

  lemma MissingMeaning(d: Definitions, n: Node)
    requires SchemaWellFormed(d)
    ensures n in Missing(d) <==>
              !Declared(d, n) && exists i :: 0 <= i < |AllEdges(d)| && (AllEdges(d)[i].from == n || AllEdges(d)[i].to == n)
  {
    EndpointsMeaning(AllEdges(d), n);
  }

  /** `verify()` as written: the decision looks at the missing endpoints minus the built-in types,
      the error carries all missing endpoints. */
  function VerificationAsWritten(d: Definitions, baseTypes: set<QualifiedName>): (r: Result<(), VerifyError>)
    requires SchemaWellFormed(d)
    ensures r.Ok? <==> Missing(d) <= BaseNodes(baseTypes)
    ensures r.Err? ==> r.error.nodes == Missing(d)
  {
    EmptyDifference(Missing(d), BaseNodes(baseTypes));
    if |Missing(d) - BaseNodes(baseTypes)| > 0 then Err(MissingNodes(Missing(d))) else Ok(())
  }

  /** `verify()` with the error carrying what decided it, as `WebServiceDescription.verify()` does. */
  function Verification(d: Definitions, baseTypes: set<QualifiedName>): (r: Result<(), VerifyError>)
    requires SchemaWellFormed(d)
    ensures r.Ok? <==> Missing(d) <= BaseNodes(baseTypes)
    ensures r.Err? ==> r.error.nodes != {} && r.error.nodes == Missing(d) - BaseNodes(baseTypes)
    ensures r.Err? ==> forall n :: n in r.error.nodes ==> !(n.TypeNode? && n.name in baseTypes)
  {
    EmptyDifference(Missing(d), BaseNodes(baseTypes));
    var reported := Missing(d) - BaseNodes(baseTypes);
    if |reported| > 0 then Err(MissingNodes(reported)) else Ok(())
  }

  /** The two agree on whether the check passes; they differ only in what the error carries. */
  lemma SameDecision(d: Definitions, baseTypes: set<QualifiedName>)
    requires SchemaWellFormed(d)
    ensures VerificationAsWritten(d, baseTypes).Ok? <==> Verification(d, baseTypes).Ok?
    ensures Verification(d, baseTypes).Err? ==>
              Verification(d, baseTypes).error.nodes <= VerificationAsWritten(d, baseTypes).error.nodes
  {
  }

  /** The method: nodes and edges grown part by part, then the loop over the edges. */
  method Verify(d: Definitions) returns (r: Result<(), VerifyError>)
    requires SchemaWellFormed(d)
    ensures r == VerificationAsWritten(d, BaseTypes.Table.Keys)
  {
    var nodes: set<Node> := {};
    var edges: seq<Edge<Node>> := [];
    nodes := nodes + OperationNodes(d);
    edges := edges + OperationEdgesOf(d);
    nodes := nodes + MessageNodes(d);
    edges := edges + MessageEdgesOf(d);
    nodes := nodes + SchemaNodes(d);
    edges := edges + SchemaEdgesOf(d);
    assert nodes == AllNodes(d);
    assert edges == AllEdges(d);
    var missing := CollectMissing(nodes, edges);
    var baseNodes := BaseNodes(BaseTypes.Table.Keys);
    if |missing - baseNodes| > 0 {
      r := Err(MissingNodes(missing));
    } else {
      r := Ok(());
    }
  }

  // ---------------------------------------------------------------- the counterexample

  /** A schema of two elements: one of the built-in type xs:string and one of an undeclared type. */
  function TwoElements(tns: string, undeclared: QualifiedName): Definitions {
    var s := XE.Element(QualifiedName(tns, "greeting"), XE.Base(BaseTypes.Xs("string")));
    var u := XE.Element(QualifiedName(tns, "other"), XE.Base(undeclared));
    Definitions([ElementItem(s), ElementItem(u)], [], [])
  }

  lemma TwoElementsEdges(tns: string, undeclared: QualifiedName)
    ensures AllEdges(TwoElements(tns, undeclared)) ==
              [Edge(ElementNode(QualifiedName(tns, "greeting")), TypeNode(BaseTypes.Xs("string"))),
               Edge(ElementNode(QualifiedName(tns, "other")), TypeNode(undeclared))]
  {
    var d := TwoElements(tns, undeclared);
    assert OperationEdgesOf(d) == [] && MessageEdgesOf(d) == [];
    assert d.schema[1..][0] == d.schema[1] && d.schema[1..][1..] == [];
    assert ItemWellFormed(d.schema[1..][0]);
    assert FlatMap(d.schema[1..], ItemEdges) == ItemEdges(d.schema[1]) + FlatMap(d.schema[1..][1..], ItemEdges);
    assert SchemaEdgesOf(d) == ItemEdges(d.schema[0]) + FlatMap(d.schema[1..], ItemEdges);
  }

  lemma TwoElementsMissing(tns: string, undeclared: QualifiedName)
    ensures Missing(TwoElements(tns, undeclared)) == {TypeNode(BaseTypes.Xs("string")), TypeNode(undeclared)}
  {
    var d := TwoElements(tns, undeclared);
    TwoElementsEdges(tns, undeclared);
    assert Declared(d, ElementNode(QualifiedName(tns, "greeting"))) by { assert d.schema[0].element.name == QualifiedName(tns, "greeting"); }
    assert Declared(d, ElementNode(QualifiedName(tns, "other"))) by { assert d.schema[1].element.name == QualifiedName(tns, "other"); }
    forall n ensures n in Missing(d) <==> n == TypeNode(BaseTypes.Xs("string")) || n == TypeNode(undeclared) {
      MissingMeaning(d, n);
      if n == TypeNode(BaseTypes.Xs("string")) { assert AllEdges(d)[0].to == n; }
      if n == TypeNode(undeclared) { assert AllEdges(d)[1].to == n; }
    }
  }

  /** As written, the error for a WSDL with one genuinely undeclared type also names the built-in
      xs:string that is merely referenced; the corrected check names the undeclared type alone. */
  lemma BuiltInTypeReported(tns: string, undeclared: QualifiedName)
    requires undeclared !in BaseTypes.Table
    ensures VerificationAsWritten(TwoElements(tns, undeclared), BaseTypes.Table.Keys).Err?
    ensures TypeNode(BaseTypes.Xs("string")) in VerificationAsWritten(TwoElements(tns, undeclared), BaseTypes.Table.Keys).error.nodes
    ensures Verification(TwoElements(tns, undeclared), BaseTypes.Table.Keys) == Err(MissingNodes({TypeNode(undeclared)}))
  {
    TwoElementsMissing(tns, undeclared);
    var d := TwoElements(tns, undeclared);
    var baseNodes := BaseNodes(BaseTypes.Table.Keys);
    assert TypeNode(BaseTypes.Xs("string")) in baseNodes;
    assert TypeNode(undeclared) !in baseNodes;
    assert Missing(d) - baseNodes == {TypeNode(undeclared)};
  }
}
