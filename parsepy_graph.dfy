/** The graph helpers of build/lib/comptools/parsepy.py (the same code is in
    parsepy.py): build_graph, which turns an edge list into an undirected
    adjacency dictionary, and shortest_path, a breadth-first search over such
    a dictionary. */
module ParsepyGraph {
  import opened PyBase

  // ---------------------------------------------------------------------
  // build_graph
  // ---------------------------------------------------------------------

  /** The nodes named by some edge. */
  function Nodes<T(==)>(edges: seq<(T, T)>): set<T>
  {
    if edges == [] then {}
    else
      var e := edges[|edges| - 1];
      Nodes(edges[..|edges| - 1]) + {e.0, e.1}
  }

  /** The adjacency list build_graph gives node a: for each edge in order, its
      other end, once for each end of the edge that is a. */
  function Adjacent<T(==)>(edges: seq<(T, T)>, a: T): seq<T>
  {
    if edges == [] then []
    else
      var e := edges[|edges| - 1];
      Adjacent(edges[..|edges| - 1], a) + (if e.0 == a then [e.1] else []) + (if e.1 == a then [e.0] else [])
  }

  /** build_graph(edges): one key per node, mapped to its adjacency list. */
  method BuildGraph<T(==)>(edges: seq<(T, T)>) returns (graph: map<T, seq<T>>)
    ensures graph.Keys == Nodes(edges)
    ensures forall a :: a in graph ==> graph[a] == Adjacent(edges, a)
  {
    graph := map[];
    for i := 0 to |edges|
      invariant graph.Keys == Nodes(edges[..i])
      invariant forall a :: a in graph ==> graph[a] == Adjacent(edges[..i], a)
    {
      var (a, b) := edges[i];
      ghost var before := graph;
      graph := graph[a := (if a in graph then graph[a] else []) + [b]];
      ghost var middle := graph;
      graph := graph[b := (if b in graph then graph[b] else []) + [a]];
      EdgeAdded(edges, i, before, middle, graph);
    }
    assert edges[..|edges|] == edges;
  }

  /** One pass of build_graph's loop: adding edge i to the dictionary for
      the first i edges gives the dictionary for the first i + 1. */
  lemma EdgeAdded<T>(edges: seq<(T, T)>, i: int, before: map<T, seq<T>>, middle: map<T, seq<T>>, after: map<T, seq<T>>)
    requires 0 <= i < |edges|
    requires before.Keys == Nodes(edges[..i])
    requires forall x :: x in before ==> before[x] == Adjacent(edges[..i], x)
    requires middle == before[edges[i].0 := (if edges[i].0 in before then before[edges[i].0] else []) + [edges[i].1]]
    requires after == middle[edges[i].1 := (if edges[i].1 in middle then middle[edges[i].1] else []) + [edges[i].0]]
    ensures after.Keys == Nodes(edges[..i + 1])
    ensures forall x :: x in after ==> after[x] == Adjacent(edges[..i + 1], x)
  {
    assert edges[..i + 1][..i] == edges[..i];
    forall x | x in after
      ensures after[x] == Adjacent(edges[..i + 1], x)
    {
      if x !in Nodes(edges[..i]) {
        AdjacentOfOther(edges[..i], x);
      }
    }
  }

  /** A node no edge names has no neighbours. */
  lemma {:induction false} AdjacentOfOther<T>(edges: seq<(T, T)>, a: T)
    requires a !in Nodes(edges)
    ensures Adjacent(edges, a) == []
  {
    if edges != [] {
      AdjacentOfOther(edges[..|edges| - 1], a);
    }
  }

  /** b is a neighbour of a exactly when some edge joins them, in either
      direction. */
  lemma {:induction false} AdjacentMeansEdge<T>(edges: seq<(T, T)>, a: T, b: T)
    ensures b in Adjacent(edges, a) <==> exists k :: 0 <= k < |edges| && (edges[k] == (a, b) || edges[k] == (b, a))
  {
    if edges != [] {
      var init := edges[..|edges| - 1];
      AdjacentMeansEdge(init, a, b);
      assert forall k :: 0 <= k < |init| ==> init[k] == edges[k];
      if b in Adjacent(init, a) {
        var k :| 0 <= k < |init| && (init[k] == (a, b) || init[k] == (b, a));
        assert edges[k] == init[k];
      }
    }
  }

  /** The dictionary build_graph returns is undirected: b is a neighbour of a
      exactly when a is a neighbour of b. */
  lemma AdjacentSymmetric<T>(edges: seq<(T, T)>, a: T, b: T)
    ensures b in Adjacent(edges, a) <==> a in Adjacent(edges, b)
  {
    AdjacentMeansEdge(edges, a, b);
    AdjacentMeansEdge(edges, b, a);
  }

  /** Every neighbour is itself a node. */
  lemma {:induction false} AdjacentAreNodes<T>(edges: seq<(T, T)>, a: T, b: T)
    requires b in Adjacent(edges, a)
    ensures b in Nodes(edges)
  {
    var init := edges[..|edges| - 1];
    if b in Adjacent(init, a) {
      AdjacentAreNodes(init, a, b);
    }
  }

  /** Every neighbour in the dictionary is also a key of it. */
  predicate KeysClosed<T(==)>(graph: map<T, seq<T>>)
  {
    forall a, b :: a in graph && b in graph[a] ==> b in graph
  }

  /** What build_graph returns has every neighbour as a key. */
  lemma BuiltGraphClosed<T>(edges: seq<(T, T)>, graph: map<T, seq<T>>)
    requires graph.Keys == Nodes(edges)
    requires forall a :: a in graph ==> graph[a] == Adjacent(edges, a)
    ensures KeysClosed(graph)
  {
    forall a, b | a in graph && b in graph[a]
      ensures b in graph
    {
      AdjacentAreNodes(edges, a, b);
    }
  }

  // ---------------------------------------------------------------------
  // shortest_path
  // ---------------------------------------------------------------------

  /** p is a walk in the graph: each node but the last is a key, and the
      next node is in its adjacency list. */
  predicate IsWalk<T(==)>(graph: map<T, seq<T>>, p: seq<T>)
  {
    |p| >= 1 && forall i :: 0 <= i < |p| - 1 ==> p[i] in graph && p[i + 1] in graph[p[i]]
  }

  function Last<T>(p: seq<T>): T
    requires |p| >= 1
  {
    p[|p| - 1]
  }

  /** A walk followed by a neighbour of its end is a walk. */
  lemma WalkExtend<T>(graph: map<T, seq<T>>, p: seq<T>, v: T)
    requires IsWalk(graph, p) && Last(p) in graph && v in graph[Last(p)]
    ensures IsWalk(graph, p + [v]) && (p + [v])[0] == p[0] && Last(p + [v]) == v
  {
    var q := p + [v];
    forall i | 0 <= i < |q| - 1
      ensures q[i] in graph && q[i + 1] in graph[q[i]]
    {
      if i < |p| - 1 {
        assert q[i] == p[i] && q[i + 1] == p[i + 1];
      }
    }
  }

  /** The queued paths: each a walk from start, ends[k] the end of path k,
      none ending at goal. */
  predicate QueueOk<T(==)>(graph: map<T, seq<T>>, start: T, goal: T, queue: seq<seq<T>>, ends: seq<T>)
  {
    |ends| == |queue| &&
    (forall k :: 0 <= k < |queue| ==> IsWalk(graph, queue[k]) && queue[k][0] == start && Last(queue[k]) == ends[k]) &&
    goal !in ends
  }

  /** Every neighbour of an explored node is explored, queued or extra. */
  predicate Frontier<T(==)>(graph: map<T, seq<T>>, explored: set<T>, ends: seq<T>, extra: set<T>)
  {
    forall u, v :: u in explored && u in graph && v in graph[u] ==> v in explored || v in ends || v in extra
  }

  /** A set of keys closed under neighbours holds every walk from one of its
      nodes. */
  lemma {:induction false} ClosedHoldsWalk<T>(graph: map<T, seq<T>>, explored: set<T>, p: seq<T>)
    requires explored <= graph.Keys && Frontier(graph, explored, [], {})
    requires IsWalk(graph, p) && p[0] in explored
    ensures Last(p) in explored
    decreases |p|
  {
    if |p| > 1 {
      var init := p[..|p| - 1];
      assert IsWalk(graph, init) by {
        forall i | 0 <= i < |init| - 1
          ensures init[i] in graph && init[i + 1] in graph[init[i]]
        {
          assert init[i] == p[i] && init[i + 1] == p[i + 1];
        }
      }
      ClosedHoldsWalk(graph, explored, init);
      assert p[|p| - 2] == Last(init);
    }
  }

  /** In a graph whose neighbours are all keys, a walk from a key ends at a
      key. */
  lemma {:induction false} WalkEndsAtKey<T>(graph: map<T, seq<T>>, p: seq<T>)
    requires KeysClosed(graph) && IsWalk(graph, p) && p[0] in graph
    ensures Last(p) in graph
  {
    if |p| > 1 {
      assert p[|p| - 2] in graph && p[|p| - 1] in graph[p[|p| - 2]];
    }
  }

  /** The inner loop of shortest_path: queue path extended by each neighbour
      of its end in turn, stopping with the extended path that reaches goal. */
  method QueueNeighbours<T(==)>(graph: map<T, seq<T>>, start: T, goal: T, path: seq<T>, queue: seq<seq<T>>,
                                ghost ends: seq<T>, ghost explored: set<T>)
    returns (queue': seq<seq<T>>, ghost ends': seq<T>, found: Option<seq<T>>)
    requires QueueOk(graph, start, goal, queue, ends)
    requires IsWalk(graph, path) && path[0] == start && Last(path) in graph
    requires Frontier(graph, explored, ends, {Last(path)})
    ensures found.Some? ==> IsWalk(graph, found.value) && found.value[0] == start && Last(found.value) == goal
    ensures found.Some? ==> |found.value| == |path| + 1
    ensures found.None? ==> QueueOk(graph, start, goal, queue', ends') && Frontier(graph, explored, ends', {Last(path)})
    ensures found.None? ==> (forall v :: v in graph[Last(path)] ==> v in ends') && (forall v :: v in ends ==> v in ends')
    ensures found.None? ==> Appended(queue, ends, queue', ends', |path| + 1)
  {
    var neighbours := graph[path[|path| - 1]];
    queue', ends' := queue, ends;
    for j := 0 to |neighbours|
      invariant QueueOk(graph, start, goal, queue', ends')
      invariant forall t :: 0 <= t < j ==> neighbours[t] in ends'
      invariant forall v :: v in ends ==> v in ends'
      invariant Frontier(graph, explored, ends', {Last(path)})
      invariant Appended(queue, ends, queue', ends', |path| + 1)
    {
      var newPath := path + [neighbours[j]];
      WalkExtend(graph, path, neighbours[j]);
      if neighbours[j] == goal {
        return queue' + [newPath], ends' + [neighbours[j]], Some(newPath);
      }
      AppendOne(queue, ends, queue', ends', newPath, neighbours[j]);
      queue' := queue' + [newPath];
      ends' := ends' + [neighbours[j]];
    }
    found := None;
  }

  /** queue' and ends' are queue and ends with entries of length n
      appended. */
  predicate Appended<T(==)>(queue: seq<seq<T>>, ends: seq<T>, queue': seq<seq<T>>, ends': seq<T>, n: int)
  {
    |queue| <= |queue'| && |ends| <= |ends'| && queue'[..|queue|] == queue && ends'[..|ends|] == ends &&
    forall k :: |queue| <= k < |queue'| ==> |queue'[k]| == n
  }

  lemma AppendOne<T>(queue: seq<seq<T>>, ends: seq<T>, queue': seq<seq<T>>, ends': seq<T>, p: seq<T>, v: T)
    requires Appended(queue, ends, queue', ends', |p|)
    ensures Appended(queue, ends, queue' + [p], ends' + [v], |p|)
  {
    assert (queue' + [p])[..|queue|] == queue'[..|queue|];
    assert (ends' + [v])[..|ends|] == ends'[..|ends|];
  }

  // The breadth-first order: the queued paths have length level or
  // level + 1, shorter ones first; every walk from start shorter than level
  // ends at an explored node, and every walk of length level ends at an
  // explored node or at the end of a queued path of that length.

  predicate Levelled<T>(queue: seq<seq<T>>, level: int)
  {
    (forall k :: 0 <= k < |queue| ==> level <= |queue[k]| <= level + 1) &&
    (forall i, j :: 0 <= i < j < |queue| ==> |queue[i]| <= |queue[j]|)
  }

  ghost predicate ReachedBelow<T(!new)>(graph: map<T, seq<T>>, start: T, explored: set<T>, level: int)
  {
    forall p :: IsWalk(graph, p) && p[0] == start && |p| < level ==> Last(p) in explored
  }

  ghost predicate ReachedAt<T(!new)>(graph: map<T, seq<T>>, start: T, explored: set<T>, queue: seq<seq<T>>, ends: seq<T>,
                                     level: int)
    requires |ends| == |queue|
  {
    forall p :: IsWalk(graph, p) && p[0] == start && |p| == level ==>
      Last(p) in explored || Last(p) in EndsAt(queue, ends, level)
  }

  /** The ends of the queued paths of length level. */
  ghost function EndsAt<T>(queue: seq<seq<T>>, ends: seq<T>, level: int): set<T>
    requires |ends| == |queue|
  {
    set k | 0 <= k < |queue| && |queue[k]| == level :: ends[k]
  }

  /** The first i nodes of a walk are a walk. */
  lemma WalkPrefix<T>(graph: map<T, seq<T>>, p: seq<T>, i: int)
    requires IsWalk(graph, p) && 1 <= i <= |p|
    ensures IsWalk(graph, p[..i]) && p[..i][0] == p[0] && Last(p[..i]) == p[i - 1]
  {
    var q := p[..i];
    forall t | 0 <= t < |q| - 1
      ensures q[t] in graph && q[t + 1] in graph[q[t]]
    {
      assert q[t] == p[t] && q[t + 1] == p[t + 1];
    }
  }

  /** Once no queued path has length level, the next level is reached:
      the walks of length level end at explored nodes, and the walks one
      longer at explored or queued ones. */
  lemma LevelUp<T(!new)>(graph: map<T, seq<T>>, start: T, explored: set<T>, queue: seq<seq<T>>, ends: seq<T>, level: int)
    requires |ends| == |queue| && level >= 1
    requires Frontier(graph, explored, ends, {})
    requires forall k :: 0 <= k < |queue| ==> |queue[k]| == level + 1
    requires ReachedBelow(graph, start, explored, level)
    requires ReachedAt(graph, start, explored, queue, ends, level)
    ensures ReachedBelow(graph, start, explored, level + 1)
    ensures ReachedAt(graph, start, explored, queue, ends, level + 1)
  {
    forall p | IsWalk(graph, p) && p[0] == start && |p| == level + 1
      ensures Last(p) in explored || exists k :: 0 <= k < |queue| && |queue[k]| == level + 1 && ends[k] == Last(p)
    {
      WalkPrefix(graph, p, level);
      var u := p[level - 1];
      assert u in explored;
      assert u in graph && p[level] in graph[u];
      if Last(p) !in explored {
        var k :| 0 <= k < |ends| && ends[k] == Last(p);
      }
    }
  }

  /** The level of the front path: the current one, or the next once every
      path of the current length has been popped. */
  lemma Relevel<T(!new)>(graph: map<T, seq<T>>, start: T, explored: set<T>, queue: seq<seq<T>>, ends: seq<T>, level: int)
    returns (level': int)
    requires |ends| == |queue| >= 1 && level >= 1 && Levelled(queue, level)
    requires Frontier(graph, explored, ends, {})
    requires ReachedBelow(graph, start, explored, level)
    requires ReachedAt(graph, start, explored, queue, ends, level)
    ensures level' == |queue[0]| && level' >= 1 && Levelled(queue, level')
    ensures ReachedBelow(graph, start, explored, level')
    ensures ReachedAt(graph, start, explored, queue, ends, level')
  {
    level' := level;
    if |queue[0]| != level {
      LevelUp(graph, start, explored, queue, ends, level);
      level' := level + 1;
    }
  }

  /** Popping the front path, whose end is then explored, and appending
      longer paths keeps the level's reach. */
  lemma PopStep<T(!new)>(graph: map<T, seq<T>>, start: T, explored: set<T>, explored': set<T>,
                   queue: seq<seq<T>>, ends: seq<T>, queue': seq<seq<T>>, ends': seq<T>, level: int)
    requires |ends| == |queue| >= 1 && |ends'| == |queue'|
    requires explored <= explored' && ends[0] in explored'
    requires Appended(queue[1..], ends[1..], queue', ends', level + 1)
    requires ReachedBelow(graph, start, explored, level)
    requires ReachedAt(graph, start, explored, queue, ends, level)
    ensures ReachedBelow(graph, start, explored', level)
    ensures ReachedAt(graph, start, explored', queue', ends', level)
  {
    forall p | IsWalk(graph, p) && p[0] == start && |p| == level
      ensures Last(p) in explored' || exists k :: 0 <= k < |queue'| && |queue'[k]| == level && ends'[k] == Last(p)
    {
      if Last(p) !in explored' {
        var k :| 0 <= k < |queue| && |queue[k]| == level && ends[k] == Last(p);
        assert k > 0;
        assert queue'[k - 1] == queue[1..][k - 1] && ends'[k - 1] == ends[1..][k - 1];
      }
    }
  }

  /** Dropping the front path keeps the queue well formed. */
  lemma PopQueue<T>(graph: map<T, seq<T>>, start: T, goal: T, queue: seq<seq<T>>, ends: seq<T>)
    requires QueueOk(graph, start, goal, queue, ends) && |queue| >= 1
    ensures QueueOk(graph, start, goal, queue[1..], ends[1..])
  {
    forall k | 0 <= k < |queue| - 1
      ensures IsWalk(graph, queue[1..][k]) && queue[1..][k][0] == start && Last(queue[1..][k]) == ends[1..][k]
    {
      assert queue[1..][k] == queue[k + 1] && ends[1..][k] == ends[k + 1];
    }
  }

  /** After popping the front path, its end joins the nodes the frontier
      may reach. */
  lemma FrontierPop<T>(graph: map<T, seq<T>>, explored: set<T>, ends: seq<T>)
    requires Frontier(graph, explored, ends, {}) && |ends| >= 1
    ensures Frontier(graph, explored, ends[1..], {ends[0]})
  {
    forall u, v | u in explored && u in graph && v in graph[u] && v !in explored && v != ends[0]
      ensures v in ends[1..]
    {
      var k :| 0 <= k < |ends| && ends[k] == v;
      assert ends[1..][k - 1] == v;
    }
  }

  /** Popping a path of length level and appending paths one longer keeps
      the queue in breadth-first order. */
  lemma LevelledStep<T>(queue: seq<seq<T>>, ends: seq<T>, queue': seq<seq<T>>, ends': seq<T>, level: int)
    requires Levelled(queue, level) && |queue| >= 1 && |ends| >= 1 && |queue[0]| == level
    requires Appended(queue[1..], ends[1..], queue', ends', level + 1)
    ensures Levelled(queue', level)
  {
    var n := |queue| - 1;
    assert forall k :: 0 <= k < n ==> queue'[k] == queue[k + 1];
  }

  /** No walk from start to goal is as short as level. */
  lemma GoalFar<T(!new)>(graph: map<T, seq<T>>, start: T, goal: T, explored: set<T>, queue: seq<seq<T>>, ends: seq<T>,
                   level: int)
    requires |ends| == |queue| && goal !in explored && goal !in ends
    requires ReachedBelow(graph, start, explored, level)
    requires ReachedAt(graph, start, explored, queue, ends, level)
    ensures forall p :: IsWalk(graph, p) && p[0] == start && Last(p) == goal ==> |p| > level
  {
  }

  /** The state of the breadth-first search between two pops. */
  ghost predicate Searching<T(!new)>(graph: map<T, seq<T>>, start: T, goal: T, explored: set<T>, queue: seq<seq<T>>,
                                     ends: seq<T>, level: int)
  {
    QueueOk(graph, start, goal, queue, ends) &&
    explored <= graph.Keys && goal !in explored &&
    Frontier(graph, explored, ends, {}) &&
    (start in explored || start in ends) &&
    level >= 1 && Levelled(queue, level) &&
    ReachedBelow(graph, start, explored, level) &&
    ReachedAt(graph, start, explored, queue, ends, level)
  }

  /** One turn of the outer loop of shortest_path: pop the front path and,
      when its end is new, fail on a missing key or queue its neighbours.
      done is the value shortest_path returns during this turn, if any. */
  method Visit<T(==,!new)>(graph: map<T, seq<T>>, start: T, goal: T, explored: set<T>, queue: seq<seq<T>>,
                           ghost ends: seq<T>, ghost level: int)
    returns (explored': set<T>, queue': seq<seq<T>>, ghost ends': seq<T>, ghost level': int,
             done: Option<Result<seq<T>>>)
    requires queue != [] && Searching(graph, start, goal, explored, queue, ends, level)
    ensures done.None? ==> Searching(graph, start, goal, explored', queue', ends', level')
    ensures done.None? ==> graph.Keys - explored' < graph.Keys - explored || (explored' == explored && |queue'| < |queue|)
    ensures done.Some? && done.value.Err? ==>
      done.value.error == KeyError && !(start in graph && KeysClosed(graph)) &&
      exists p :: IsWalk(graph, p) && p[0] == start && Last(p) !in graph
    ensures done.Some? && done.value.Ok? ==>
      done.value.value != [] && IsWalk(graph, done.value.value) && done.value.value[0] == start &&
      Last(done.value.value) == goal &&
      forall p :: IsWalk(graph, p) && p[0] == start && Last(p) == goal ==> |done.value.value| <= |p|
  {
    level' := Relevel(graph, start, explored, queue, ends, level);
    var path := queue[0];
    queue' := queue[1..];
    var node := path[|path| - 1];
    ends' := ends[1..];
    explored' := explored;
    done := None;
    PopQueue(graph, start, goal, queue, ends);
    FrontierPop(graph, explored, ends);
    assert node == ends[0];
    if node !in explored {
      if node !in graph {
        if start in graph && KeysClosed(graph) {
          WalkEndsAtKey(graph, path);
        }
        done := Some(Err(KeyError));
        return;
      }
      var found;
      queue', ends', found := QueueNeighbours(graph, start, goal, path, queue', ends', explored);
      if found.Some? {
        GoalFar(graph, start, goal, explored, queue, ends, level');
        done := Some(Ok(found.value));
        return;
      }
      assert node in graph.Keys - explored;
      explored' := explored + {node};
    } else {
      assert Appended(queue[1..], ends[1..], queue', ends', level' + 1);
    }
    LevelledStep(queue, ends, queue', ends', level');
    PopStep(graph, start, explored, explored', queue, ends, queue', ends', level');
  }

  /** shortest_path(graph, start, goal): [start] when start is goal; else a
      walk from start to goal found breadth first, the goal tested as each
      neighbour is queued; [] when the search runs out; KeyError when it
      reaches a node that is not a key. */
  method ShortestPath<T(==,!new)>(graph: map<T, seq<T>>, start: T, goal: T) returns (r: Result<seq<T>>)
    ensures start == goal ==> r == Ok([start])
    ensures r.Ok? && r.value != [] ==> IsWalk(graph, r.value) && r.value[0] == start && Last(r.value) == goal
    ensures r == Ok([]) ==> forall p :: IsWalk(graph, p) && p[0] == start ==> Last(p) != goal
    ensures r.Err? ==> r.error == KeyError && exists p :: IsWalk(graph, p) && p[0] == start && Last(p) !in graph
    ensures start in graph && KeysClosed(graph) ==> r.Ok?
    ensures r.Ok? && r.value != [] ==> forall p :: IsWalk(graph, p) && p[0] == start && Last(p) == goal ==> |r.value| <= |p|
  {
    var explored: set<T> := {};
    var queue := [[start]];
    ghost var ends := [start];
    if start == goal {
      return Ok(queue[0]);
    }
    ghost var level := 1;
    assert ReachedAt(graph, start, explored, queue, ends, level) by {
      forall p | IsWalk(graph, p) && p[0] == start && |p| == 1
        ensures |queue[0]| == 1 && ends[0] == Last(p)
      {
      }
    }
    while queue != []
      invariant Searching(graph, start, goal, explored, queue, ends, level)
      decreases graph.Keys - explored, |queue|
    {
      var done;
      explored, queue, ends, level, done := Visit(graph, start, goal, explored, queue, ends, level);
      if done.Some? {
        return done.value;
      }
    }
    forall p | IsWalk(graph, p) && p[0] == start
      ensures Last(p) != goal
    {
      ClosedHoldsWalk(graph, explored, p);
    }
    r := Ok([]);
  }
}
