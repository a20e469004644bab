/** Reference graphs as the code generator's verifiers build them: a list of directed edges between
    nodes, and the loop that collects every edge endpoint that is not a declared node. The three
    verifiers (WebServiceDescription+verify.swift, WSDL+verify.swift and Graph.swift) each write
    that loop out; here it is written once, over any node type. */
module Edges {

  datatype Edge<N> = Edge(from: N, to: N)

  /** Every node some edge starts or ends at. */
  function Endpoints<N>(edges: seq<Edge<N>>): set<N> {
    (set i | 0 <= i < |edges| :: edges[i].from) + (set i | 0 <= i < |edges| :: edges[i].to)
  }

  /** A node is an endpoint exactly when some edge starts or ends there. */
  lemma EndpointsMeaning<N>(edges: seq<Edge<N>>, n: N)
    ensures n in Endpoints(edges) <==> exists i :: 0 <= i < |edges| && (edges[i].from == n || edges[i].to == n)
  {
    if n in Endpoints(edges) {
      if n in (set i | 0 <= i < |edges| :: edges[i].from) {
        var i :| 0 <= i < |edges| && edges[i].from == n;
      } else {
        var i :| 0 <= i < |edges| && edges[i].to == n;
      }
    }
  }

  lemma EndpointsOfAppend<N>(edges: seq<Edge<N>>, e: Edge<N>)
    ensures Endpoints(edges + [e]) == Endpoints(edges) + {e.from, e.to}
  {
    var all := edges + [e];
    assert forall i :: 0 <= i < |edges| ==> all[i] == edges[i];
    assert all[|edges|] == e;
    forall n | n in Endpoints(all) ensures n in Endpoints(edges) + {e.from, e.to} {
      EndpointsMeaning(all, n);
      var i :| 0 <= i < |all| && (all[i].from == n || all[i].to == n);
      if i < |edges| { EndpointsMeaning(edges, n); }
    }
  }

  lemma EndpointsOfConcat<N>(a: seq<Edge<N>>, b: seq<Edge<N>>)
    ensures Endpoints(a + b) == Endpoints(a) + Endpoints(b)
  {
    var all := a + b;
    assert forall i :: 0 <= i < |a| ==> all[i] == a[i];
    assert forall i :: 0 <= i < |b| ==> all[|a| + i] == b[i];
    forall n | n in Endpoints(all) ensures n in Endpoints(a) + Endpoints(b) {
      EndpointsMeaning(all, n);
      var i :| 0 <= i < |all| && (all[i].from == n || all[i].to == n);
      if i < |a| { EndpointsMeaning(a, n); } else { EndpointsMeaning(b, n); assert all[i] == b[i - |a|]; }
    }
  }

  /** The `for edge in edges` loop: insert every endpoint that `nodes` does not contain. */
  method CollectMissing<N(==)>(nodes: set<N>, edges: seq<Edge<N>>) returns (missing: set<N>)
    ensures missing == Endpoints(edges) - nodes
    ensures forall n :: n in missing <==>
              n !in nodes && exists i :: 0 <= i < |edges| && (edges[i].from == n || edges[i].to == n)
  {
    missing := {};
    for i := 0 to |edges|
      invariant missing == Endpoints(edges[..i]) - nodes
    {
      var edge := edges[i];
      EndpointsOfAppend(edges[..i], edge);
      assert edges[..i + 1] == edges[..i] + [edge];
      if edge.from !in nodes {
        missing := missing + {edge.from};
      }
      if edge.to !in nodes {
        missing := missing + {edge.to};
      }
    }
    assert edges[..|edges|] == edges;
    forall n ensures n in missing <==>
      n !in nodes && exists i :: 0 <= i < |edges| && (edges[i].from == n || edges[i].to == n)
    {
      EndpointsMeaning(edges, n);
    }
  }

  /** Nothing is left after taking `b` away exactly when `b` covers everything. */
  lemma EmptyDifference<N>(m: set<N>, b: set<N>)
    ensures |m - b| == 0 <==> m <= b
  {
    if |m - b| != 0 {
      var x :| x in m - b;
      assert x in m && x !in b;
    } else {
      assert m - b == {};
      forall x | x in m ensures x in b {
        assert x !in m - b;
      }
    }
  }

  /** `edges(to:)`: the sources of the edges that end at `n`. */
  function EdgesTo<N(==, !new)>(edges: seq<Edge<N>>, n: N): (r: set<N>)
    ensures forall m :: m in r <==> exists i :: 0 <= i < |edges| && edges[i] == Edge(m, n)
  {
    if |edges| == 0 then {}
    else
      var last := edges[|edges| - 1];
      var init := edges[..|edges| - 1];
      assert forall i :: 0 <= i < |init| ==> init[i] == edges[i];
      EdgesTo(init, n) + (if last.to == n then {last.from} else {})
  }

  /** `edges(from:)`: the targets of the edges that start at `n`. */
  function EdgesFrom<N(==, !new)>(edges: seq<Edge<N>>, n: N): (r: set<N>)
    ensures forall m :: m in r <==> exists i :: 0 <= i < |edges| && edges[i] == Edge(n, m)
  {
    if |edges| == 0 then {}
    else
      var last := edges[|edges| - 1];
      var init := edges[..|edges| - 1];
      assert forall i :: 0 <= i < |init| ==> init[i] == edges[i];
      EdgesFrom(init, n) + (if last.from == n then {last.to} else {})
  }

  /** Reversing every edge swaps the two neighbourhoods. */
  lemma EdgesToIsEdgesFromReversed<N(!new)>(edges: seq<Edge<N>>, reversed: seq<Edge<N>>, n: N)
    requires |reversed| == |edges|
    requires forall i :: 0 <= i < |edges| ==> reversed[i] == Edge(edges[i].to, edges[i].from)
    ensures EdgesTo(edges, n) == EdgesFrom(reversed, n)
  {
    forall m ensures m in EdgesTo(edges, n) <==> m in EdgesFrom(reversed, n) {
      if m in EdgesTo(edges, n) {
        var i :| 0 <= i < |edges| && edges[i] == Edge(m, n);
        assert reversed[i] == Edge(n, m);
      }
      if m in EdgesFrom(reversed, n) {
        var i :| 0 <= i < |reversed| && reversed[i] == Edge(n, m);
        assert edges[i] == Edge(m, n);
      }
    }
  }

  /** `flatMap` of an edge builder over a list: the builders' edges, list element by list element. */
  function FlatMap<T, N(!new)>(xs: seq<T>, f: T --> seq<Edge<N>>): (r: seq<Edge<N>>)
    requires forall i :: 0 <= i < |xs| ==> f.requires(xs[i])
    ensures forall e :: e in r <==> exists i :: 0 <= i < |xs| && e in f(xs[i])
  {
    if |xs| == 0 then []
    else
      assert forall i :: 1 <= i < |xs| ==> xs[1..][i - 1] == xs[i];
      f(xs[0]) + FlatMap(xs[1..], f)
  }

  /** Building the edges of two lists one after the other gives the two edge lists in that order. */
  lemma {:induction false} FlatMapConcat<T, N(!new)>(a: seq<T>, b: seq<T>, f: T --> seq<Edge<N>>)
    requires forall i :: 0 <= i < |a| ==> f.requires(a[i])
    requires forall i :: 0 <= i < |b| ==> f.requires(b[i])
    ensures forall i :: 0 <= i < |a + b| ==> f.requires((a + b)[i])
    ensures FlatMap(a + b, f) == FlatMap(a, f) + FlatMap(b, f)
  {
    assert forall i :: 0 <= i < |a + b| ==> (a + b)[i] == if i < |a| then a[i] else b[i - |a|];
    if |a| > 0 {
      assert (a + b)[1..] == a[1..] + b;
      FlatMapConcat(a[1..], b, f);
    } else {
      assert a + b == b;
    }
  }
}
