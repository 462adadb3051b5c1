/** An undirected multigraph: a vertex set, the edge list in insertion
    order, and an adjacency map holding, for each vertex, the edges leaving
    it (each edge is stored as given at its source and reversed at its
    target). */
module Graphs {
  import opened Edges
  import opened Connectivity
  import opened SetFacts

  datatype Graph = Graph(
    id: int,
    vertices: set<string>,
    edges: seq<Edge>,
    adjacency: map<string, seq<Edge>>)

  /** The adjacency list of `v`, or the empty list for an unknown vertex. */
  function AdjacentEdges(g: Graph, v: string): (r: seq<Edge>)
    ensures v !in g.adjacency ==> r == []
    ensures v in g.adjacency ==> r == g.adjacency[v]
  {
    if v in g.adjacency then g.adjacency[v] else []
  }

  /** The representation invariant every public operation keeps. */
  ghost predicate Valid(g: Graph) {
    && g.adjacency.Keys == g.vertices
    && Inside(g.vertices, g.edges)
    && (forall u, e :: u in g.adjacency && e in g.adjacency[u] ==>
          e.from == u && (e in g.edges || Reverse(e) in g.edges))
    && (forall e :: e in g.edges ==>
          e in AdjacentEdges(g, e.from) && Reverse(e) in AdjacentEdges(g, e.to))
  }

  /** The whole graph is one connected component (true when it is empty). */
  ghost predicate Connected(g: Graph) {
    Spans(g.vertices, g.edges)
  }

  function NewGraph(id: int): (g: Graph)
    ensures g.id == id && g.vertices == {} && g.edges == []
    ensures Valid(g)
  {
    Graph(id, {}, [], map[])
  }

  /** Adds `v` to the vertex set and gives it an empty adjacency list
      unless it already has one. */
  function AddVertex(g: Graph, v: string): (r: Graph)
    ensures r.vertices == g.vertices + {v}
    ensures r.edges == g.edges
    ensures r.adjacency.Keys == g.adjacency.Keys + {v}
    ensures forall u :: u in g.adjacency ==> r.adjacency[u] == g.adjacency[u]
    ensures v !in g.adjacency ==> r.adjacency[v] == []
    ensures v in g.vertices && v in g.adjacency ==> r == g
  {
    Graph(g.id, g.vertices + {v}, g.edges,
          if v in g.adjacency then g.adjacency else g.adjacency[v := []])
  }

  /** Appends the edge, makes sure both endpoints are vertices, and records
      the edge at `from` and its reverse at `to`. */
  function AddEdge(g: Graph, from: string, to: string, weight: int): (r: Graph)
    ensures r.edges == g.edges + [Edge(from, to, weight)]
    ensures r.vertices == g.vertices + {from, to}
    ensures r.adjacency.Keys == g.adjacency.Keys + {from, to}
  {
    var e := Edge(from, to, weight);
    Graph(g.id, g.vertices + {from, to}, g.edges + [e],
          Push(Push(g.adjacency, from, e), to, Reverse(e)))
  }

  /** Appends `f` to the list of `u`, starting an empty list if `u` has none. */
  function Push(adj: map<string, seq<Edge>>, u: string, f: Edge): map<string, seq<Edge>> {
    adj[u := (if u in adj then adj[u] else []) + [f]]
  }

  /** `AddEdge` is the statement sequence of `addEdge`: append the edge,
      add both endpoints as vertices, then append to the two lists. */
  lemma AddEdgeSteps(g: Graph, from: string, to: string, weight: int)
    ensures var e := Edge(from, to, weight);
      var g1 := AddVertex(AddVertex(g.(edges := g.edges + [e]), from), to);
      var adj1 := g1.adjacency[from := g1.adjacency[from] + [e]];
      AddEdge(g, from, to, weight) == g1.(adjacency := adj1[to := adj1[to] + [Reverse(e)]])
  {
    var e := Edge(from, to, weight);
    var g1 := AddVertex(AddVertex(g.(edges := g.edges + [e]), from), to);
    var adj1 := g1.adjacency[from := g1.adjacency[from] + [e]];
    var adj := Push(Push(g.adjacency, from, e), to, Reverse(e));
    var adj2 := adj1[to := adj1[to] + [Reverse(e)]];
    assert adj.Keys == adj2.Keys;
    forall u | u in adj
      ensures adj[u] == adj2[u]
    {
      if u != from && u != to {
        assert adj[u] == g.adjacency[u];
      }
    }
    assert adj == adj2;
  }

  /** `addEdge` appends the edge to the list of `from` and its reverse to
      the list of `to`; no other list changes. */
  lemma AddEdgeLists(g: Graph, from: string, to: string, weight: int)
    ensures var r := AddEdge(g, from, to, weight);
      && (forall u :: u in g.adjacency && u != from && u != to ==> r.adjacency[u] == g.adjacency[u])
      && (from != to ==>
            && r.adjacency[from] == AdjacentEdges(g, from) + [Edge(from, to, weight)]
            && r.adjacency[to] == AdjacentEdges(g, to) + [Edge(to, from, weight)])
      && (from == to ==>
            r.adjacency[from] == AdjacentEdges(g, from) + [Edge(from, to, weight), Edge(to, from, weight)])
  {
  }

  lemma AddVertexValid(g: Graph, v: string)
    requires Valid(g)
    ensures Valid(AddVertex(g, v))
  {
  }

  /** After `addEdge`, `f` is listed at `u` iff it was before, or it is the
      new edge at its source or the reversed copy at its target. */
  lemma AddEdgeAdjacent(g: Graph, from: string, to: string, weight: int, u: string, f: Edge)
    ensures f in AdjacentEdges(AddEdge(g, from, to, weight), u) <==>
      || f in AdjacentEdges(g, u)
      || (u == from && f == Edge(from, to, weight))
      || (u == to && f == Edge(to, from, weight))
  {
    AddEdgeLists(g, from, to, weight);
  }

  /** Every adjacency entry after `addEdge` is an edge, or reverses one,
      and leaves its list's vertex. */
  lemma AddEdgeEntries(g: Graph, from: string, to: string, weight: int)
    requires Valid(g)
    ensures var r := AddEdge(g, from, to, weight);
      forall u, f :: u in r.adjacency && f in r.adjacency[u] ==>
        f.from == u && (f in r.edges || Reverse(f) in r.edges)
  {
    var r := AddEdge(g, from, to, weight);
    forall u, f | u in r.adjacency && f in r.adjacency[u]
      ensures f.from == u && (f in r.edges || Reverse(f) in r.edges)
    {
      AddEdgeAdjacent(g, from, to, weight, u, f);
    }
  }

  /** Every edge after `addEdge` is listed at its source, reversed at its target. */
  lemma AddEdgeListed(g: Graph, from: string, to: string, weight: int)
    requires Valid(g)
    ensures var r := AddEdge(g, from, to, weight);
      forall f :: f in r.edges ==> f in AdjacentEdges(r, f.from) && Reverse(f) in AdjacentEdges(r, f.to)
  {
    var r := AddEdge(g, from, to, weight);
    forall f | f in r.edges
      ensures f in AdjacentEdges(r, f.from) && Reverse(f) in AdjacentEdges(r, f.to)
    {
      if f != Edge(from, to, weight) {
        assert f in g.edges;
      }
      AddEdgeAdjacent(g, from, to, weight, f.from, f);
      AddEdgeAdjacent(g, from, to, weight, f.to, Reverse(f));
    }
  }

  lemma AddEdgeValid(g: Graph, from: string, to: string, weight: int)
    requires Valid(g)
    ensures Valid(AddEdge(g, from, to, weight))
  {
    AddEdgeEntries(g, from, to, weight);
    AddEdgeListed(g, from, to, weight);
  }

  // ---------------------------------------------------------------------
  // Building a graph from a sequence of calls

  datatype Step = AddV(name: string) | AddE(from: string, to: string, weight: int)

  function Apply(g: Graph, s: Step): Graph {
    match s
    case AddV(v) => AddVertex(g, v)
    case AddE(a, b, w) => AddEdge(g, a, b, w)
  }

  /** Performs the calls of `steps` in order. */
  function Build(g: Graph, steps: seq<Step>): Graph {
    if steps == [] then g else Apply(Build(g, steps[..|steps| - 1]), steps[|steps| - 1])
  }

  function StepNames(s: Step): set<string> {
    match s
    case AddV(v) => {v}
    case AddE(a, b, _) => {a, b}
  }

  function StepEdges(s: Step): seq<Edge> {
    match s
    case AddV(_) => []
    case AddE(a, b, w) => [Edge(a, b, w)]
  }

  /** Every vertex name mentioned by the calls. */
  function Names(steps: seq<Step>): set<string> {
    if steps == [] then {} else Names(steps[..|steps| - 1]) + StepNames(steps[|steps| - 1])
  }

  /** The edges the calls add, in call order. */
  function EdgeSteps(steps: seq<Step>): seq<Edge> {
    if steps == [] then [] else EdgeSteps(steps[..|steps| - 1]) + StepEdges(steps[|steps| - 1])
  }

  lemma ApplyFacts(g: Graph, s: Step)
    ensures Apply(g, s).vertices == g.vertices + StepNames(s)
    ensures Apply(g, s).edges == g.edges + StepEdges(s)
    ensures Valid(g) ==> Valid(Apply(g, s))
  {
    if Valid(g) {
      match s
      case AddV(v) => AddVertexValid(g, v);
      case AddE(a, b, w) => AddEdgeValid(g, a, b, w);
    }
  }

  lemma {:induction false} BuildShape(g: Graph, steps: seq<Step>)
    ensures Build(g, steps).vertices == g.vertices + Names(steps)
    ensures Build(g, steps).edges == g.edges + EdgeSteps(steps)
  {
    if steps != [] {
      var init, last := steps[..|steps| - 1], steps[|steps| - 1];
      BuildShape(g, init);
      ApplyFacts(Build(g, init), last);
      assert EdgeSteps(steps) == EdgeSteps(init) + StepEdges(last);
      assert Build(g, steps).edges == (g.edges + EdgeSteps(init)) + StepEdges(last);
    }
  }

  lemma {:induction false} BuildValid(g: Graph, steps: seq<Step>)
    requires Valid(g)
    ensures Valid(Build(g, steps))
  {
    if steps != [] {
      var init := steps[..|steps| - 1];
      BuildValid(g, init);
      ApplyFacts(Build(g, init), steps[|steps| - 1]);
    }
  }

  /** After any sequence of calls the vertex set is exactly the names
      mentioned (re-adding a vertex changes nothing), the edge list is the
      added edges in order, and the representation invariant holds. */
  lemma BuildFacts(g: Graph, steps: seq<Step>)
    requires Valid(g)
    ensures Build(g, steps).vertices == g.vertices + Names(steps)
    ensures Build(g, steps).edges == g.edges + EdgeSteps(steps)
    ensures Valid(Build(g, steps))
  {
    BuildShape(g, steps);
    BuildValid(g, steps);
  }

  /** The vertex count of a freshly built graph is the number of distinct
      names added, and the edge count is the number of `AddE` calls. */
  lemma CountsOfBuiltGraph(id: int, steps: seq<Step>)
    ensures |Build(NewGraph(id), steps).vertices| == |Names(steps)|
    ensures |Build(NewGraph(id), steps).edges| == |EdgeSteps(steps)|
  {
    BuildFacts(NewGraph(id), steps);
  }

  // ---------------------------------------------------------------------
  // Breadth-first connectivity check

  /** An adjacency entry links its two endpoints in the graph. */
  lemma AdjacentLinked(g: Graph, u: string, e: Edge)
    requires Valid(g) && u in g.vertices && e in AdjacentEdges(g, u)
    ensures e.from == u && e.to in g.vertices
    ensures Linked(g.vertices, g.edges, u, e.to)
  {
    if e in g.edges {
      LinkedEdge(g.vertices, g.edges, e);
    } else {
      LinkedEdge(g.vertices, g.edges, Reverse(e));
    }
  }

  /** A vertex set closed under adjacency is closed under the edges. */
  lemma AdjacencyClosed(g: Graph, W: set<string>)
    requires Valid(g)
    requires forall u, e :: u in W && e in AdjacentEdges(g, u) ==> e.to in W
    ensures Closed(g.edges, W)
  {
    forall e | e in g.edges
      ensures e.from in W <==> e.to in W
    {
      assert e in AdjacentEdges(g, e.from);
      assert Reverse(e) in AdjacentEdges(g, e.to);
    }
  }

  lemma BfsConclusion(g: Graph, start: string, visited: set<string>)
    requires Valid(g)
    requires visited <= g.vertices && start in visited
    requires forall v :: v in visited ==> Linked(g.vertices, g.edges, start, v)
    requires Closed(g.edges, visited)
    ensures |visited| == |g.vertices| <==> Connected(g)
  {
    var V := g.vertices;
    if |visited| == |V| {
      assert visited == V by {
        if visited < V {
          ProperSubsetCard(visited, V);
        }
      }
      forall a, b | a in V && b in V
        ensures Linked(V, g.edges, a, b)
      {
        LinkedSym(V, g.edges, start, a);
        LinkedTrans(V, g.edges, a, start, b);
      }
    }
    if Connected(g) {
      forall v | v in V
        ensures v in visited
      {
        assert Linked(V, g.edges, start, v);
        assert Closed(g.edges, visited);
      }
      assert visited == V;
    }
  }

  /** One BFS step: every neighbour of `current` that is not yet visited is
      marked visited and queued, in adjacency order. */
  method VisitNeighbours(g: Graph, start: string, current: string, visited: set<string>, queue: seq<string>)
    returns (visited': set<string>, queue': seq<string>)
    requires Valid(g) && current in visited && visited <= g.vertices
    requires forall v :: v in visited ==> Linked(g.vertices, g.edges, start, v)
    ensures visited <= visited' <= g.vertices
    ensures forall e :: e in AdjacentEdges(g, current) ==> e.to in visited'
    ensures forall v :: v in visited' ==> Linked(g.vertices, g.edges, start, v)
    ensures |queue| <= |queue'| && queue'[..|queue|] == queue
    ensures forall q :: q in queue ==> q in queue'
    ensures forall q :: q in queue' ==> q in queue || q in visited' - visited
    ensures forall v :: v in visited' - visited ==> v in queue'
    ensures visited' == visited ==> queue' == queue
  {
    var V := g.vertices;
    var adj := AdjacentEdges(g, current);
    visited', queue' := visited, queue;
    var i := 0;
    while i < |adj|
      invariant 0 <= i <= |adj|
      invariant visited <= visited' <= V
      invariant forall v :: v in visited' ==> Linked(V, g.edges, start, v)
      invariant forall k :: 0 <= k < i ==> adj[k].to in visited'
      invariant |queue| <= |queue'| && queue'[..|queue|] == queue
      invariant forall q :: q in queue' ==> q in queue || q in visited' - visited
      invariant forall v :: v in visited' - visited ==> v in queue'
      invariant visited' == visited ==> queue' == queue
    {
      var neighbor := adj[i].to;
      if neighbor !in visited' {
        AdjacentLinked(g, current, adj[i]);
        LinkedTrans(V, g.edges, start, current, neighbor);
        visited' := visited' + {neighbor};
        queue' := queue' + [neighbor];
      }
      i := i + 1;
    }
  }

  /** What breadth-first search keeps true: every visited vertex is linked
      to the start, every queued vertex is visited, and every visited vertex
      that has left the queue has all its neighbours visited. */
  ghost predicate BfsState(g: Graph, start: string, visited: set<string>, queue: seq<string>) {
    && visited <= g.vertices && start in visited
    && (forall q :: q in queue ==> q in visited)
    && (forall v :: v in visited ==> Linked(g.vertices, g.edges, start, v))
    && (forall u, e :: u in visited && u !in queue && e in AdjacentEdges(g, u) ==> e.to in visited)
  }

  /** Dequeuing `current` and visiting its neighbours keeps the BFS state. */
  lemma BfsStep(g: Graph, start: string, visited0: set<string>, queue0: seq<string>,
                visited: set<string>, queue: seq<string>)
    requires Valid(g) && queue0 != []
    requires BfsState(g, start, visited0, queue0)
    requires visited0 <= visited <= g.vertices
    requires forall e :: e in AdjacentEdges(g, queue0[0]) ==> e.to in visited
    requires forall v :: v in visited ==> Linked(g.vertices, g.edges, start, v)
    requires forall q :: q in queue0[1..] ==> q in queue
    requires forall q :: q in queue ==> q in queue0[1..] || q in visited - visited0
    requires forall v :: v in visited - visited0 ==> v in queue
    ensures BfsState(g, start, visited, queue)
  {
    var current := queue0[0];
    forall u, e | u in visited && u !in queue && e in AdjacentEdges(g, u)
      ensures e.to in visited
    {
      assert u !in queue0[1..];
      assert u in visited0;
      if u != current {
        assert u !in queue0;
      }
    }
  }

  /** Breadth-first search from an arbitrary vertex; the graph is connected
      iff the search reaches every vertex. */
  method IsConnected(g: Graph) returns (r: bool)
    requires Valid(g)
    ensures r <==> Connected(g)
  {
    if g.vertices == {} {
      return true;
    }
    var V := g.vertices;
    var start :| start in V;
    var visited := {start};
    var queue := [start];
    LinkedRefl(V, g.edges, start);
    while queue != []
      invariant BfsState(g, start, visited, queue)
      decreases |V - visited|, |queue|
    {
      var current := queue[0];
      ghost var visited0, queue0 := visited, queue;
      visited, queue := VisitNeighbours(g, start, current, visited, queue[1..]);
      BfsStep(g, start, visited0, queue0, visited, queue);
      if visited != visited0 {
        ProperSubsetCard(V - visited, V - visited0);
      }
    }
    AdjacencyClosed(g, visited);
    BfsConclusion(g, start, visited);
    r := |visited| == |V|;
  }
}
