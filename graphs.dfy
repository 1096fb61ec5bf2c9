/** build_graph of graphs.py: a directed adjacency dictionary built from an
    edge list, each target listed once, in the order its first edge comes. */
module Graphs {

  /** The first ends of the edges: the keys `graph[a]` creates. */
  function Sources<T>(edges: seq<(T, T)>): set<T>
  {
    if edges == [] then {} else Sources(edges[..|edges| - 1]) + {edges[|edges| - 1].0}
  }

  /** The list build_graph keeps for a: each target of an edge from a,
      appended when it is not in the list yet. */
  function Targets<T(==)>(edges: seq<(T, T)>, a: T): seq<T>
  {
    if edges == [] then []
    else
      var e := edges[|edges| - 1];
      var prev := Targets(edges[..|edges| - 1], a);
      if e.0 == a && e.1 !in prev then prev + [e.1] else prev
  }

  /** build_graph(edges): the loop over the edges, reading graph[a] (which
      creates the key) and appending b when it is missing. */
  method BuildGraph<T(==)>(edges: seq<(T, T)>) returns (graph: map<T, seq<T>>)
    ensures graph.Keys == Sources(edges)
    ensures forall a :: a in graph ==> graph[a] == Targets(edges, a)
  {
    graph := map[];
    for i := 0 to |edges|
      invariant graph.Keys == Sources(edges[..i])
      invariant forall a :: a in graph ==> graph[a] == Targets(edges[..i], a)
    {
      var (a, b) := edges[i];
      assert edges[..i + 1][..i] == edges[..i];
      if a !in graph {
        TargetsOfOther(edges[..i], a);
        graph := graph[a := []];
      }
      if b !in graph[a] {
        graph := graph[a := graph[a] + [b]];
      }
    }
    assert edges[..|edges|] == edges;
  }

  /** A node that starts no edge has an empty list. */
  lemma {:induction false} TargetsOfOther<T>(edges: seq<(T, T)>, a: T)
    requires a !in Sources(edges)
    ensures Targets(edges, a) == []
  {
    if edges != [] {
      TargetsOfOther(edges[..|edges| - 1], a);
    }
  }

  /** b is listed under a exactly when some edge goes from a to b. */
  lemma {:induction false} TargetsMeansEdge<T>(edges: seq<(T, T)>, a: T, b: T)
    ensures b in Targets(edges, a) <==> (a, b) in edges
  {
    if edges != [] {
      var init := edges[..|edges| - 1];
      TargetsMeansEdge(init, a, b);
      assert edges == init + [edges[|edges| - 1]];
    }
  }

  /** The keys are the sources; a node that is only ever a target gets no
      key, so the graph is directed. */
  lemma {:induction false} SourcesMeansEdge<T>(edges: seq<(T, T)>, a: T)
    ensures a in Sources(edges) <==> exists b :: (a, b) in edges
  {
    if edges != [] {
      var init := edges[..|edges| - 1];
      var e := edges[|edges| - 1];
      SourcesMeansEdge(init, a);
      assert edges == init + [e];
      if a in Sources(init) {
        var b :| (a, b) in init;
        assert (a, b) in edges;
      }
      if exists b :: (a, b) in edges {
        var b :| (a, b) in edges;
        if (a, b) != e {
          assert (a, b) in init;
        }
      }
    }
  }

  /** No list holds a node twice. */
  lemma {:induction false} TargetsNoDuplicates<T>(edges: seq<(T, T)>, a: T)
    ensures forall i, j :: 0 <= i < j < |Targets(edges, a)| ==> Targets(edges, a)[i] != Targets(edges, a)[j]
  {
    if edges != [] {
      TargetsNoDuplicates(edges[..|edges| - 1], a);
    }
  }

  /** The position of the first occurrence of x in s. */
  function FirstIndex<T(==)>(s: seq<T>, x: T): (k: nat)
    requires x in s
    ensures k < |s| && s[k] == x && x !in s[..k]
  {
    if s[0] == x then 0 else 1 + FirstIndex(s[1..], x)
  }

  lemma {:induction false} FirstIndexPrefix<T>(s: seq<T>, t: seq<T>, x: T)
    requires x in s
    ensures FirstIndex(s + t, x) == FirstIndex(s, x)
  {
    if s[0] != x {
      assert (s + t)[1..] == s[1..] + t;
      FirstIndexPrefix(s[1..], t, x);
    }
  }

  /** The list keeps first-occurrence order: a target listed earlier has its
      first edge from a earlier in the edge list. */
  lemma {:induction false} TargetsInEdgeOrder<T>(edges: seq<(T, T)>, a: T, i: int, j: int)
    requires 0 <= i < j < |Targets(edges, a)|
    ensures (a, Targets(edges, a)[i]) in edges && (a, Targets(edges, a)[j]) in edges
    ensures FirstIndex(edges, (a, Targets(edges, a)[i])) < FirstIndex(edges, (a, Targets(edges, a)[j]))
  {
    var ts := Targets(edges, a);
    TargetsMeansEdge(edges, a, ts[i]);
    TargetsMeansEdge(edges, a, ts[j]);
    var init := edges[..|edges| - 1];
    var e := edges[|edges| - 1];
    assert edges == init + [e];
    var prev := Targets(init, a);
    TargetsMeansEdge(init, a, ts[i]);
    if j < |prev| {
      TargetsInEdgeOrder(init, a, i, j);
      TargetsMeansEdge(init, a, ts[j]);
      FirstIndexPrefix(init, [e], (a, ts[i]));
      FirstIndexPrefix(init, [e], (a, ts[j]));
    } else {
      // the last edge brought ts[j] in, and it was not in the list before
      assert ts[j] == e.1 && e.1 !in prev;
      TargetsMeansEdge(init, a, ts[j]);
      FirstIndexPrefix(init, [e], (a, ts[i]));
    }
  }

  /** A single edge lists its target under its source and nothing under the
      target. */
  lemma OneEdge(x: int, y: int)
    requires x != y
    ensures Sources([(x, y)]) == {x} && Targets([(x, y)], x) == [y] && Targets([(x, y)], y) == []
  {
    assert [(x, y)][..0] == [];
  }
}
