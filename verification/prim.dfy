/** The growth (Prim) algorithm: grow a tree from one vertex, each time
    polling the lightest queued edge; an edge leading to a new vertex is
    kept, and that vertex's edges to unvisited vertices are queued. */
module Prim {
  import opened Edges
  import opened Connectivity
  import opened Spanning
  import opened Graphs
  import opened SetFacts

  // ---------------------------------------------------------------------
  // The priority queue, as a sequence

  /** The position `poll` removes: the first entry of least weight (the
      order among equal weights is left open by a binary heap). */
  function MinIndex(pq: seq<Edge>): (i: nat)
    requires pq != []
    ensures i < |pq|
    ensures forall j :: 0 <= j < |pq| ==> pq[i].weight <= pq[j].weight
    ensures forall j :: 0 <= j < i ==> pq[j].weight > pq[i].weight
  {
    if |pq| == 1 then 0
    else
      var k := MinIndex(pq[1..]);
      if pq[0].weight <= pq[k + 1].weight then 0 else k + 1
  }

  /** `poll`: a least-weight entry, and the queue without it. */
  function Poll(pq: seq<Edge>): (res: (Edge, seq<Edge>))
    requires pq != []
    ensures res.0 in pq
    ensures forall f :: f in pq ==> res.0.weight <= f.weight
    ensures multiset(res.1) + multiset{res.0} == multiset(pq)
    ensures |res.1| == |pq| - 1
    ensures forall f :: f in res.1 ==> f in pq
    ensures forall f :: f in pq && f != res.0 ==> f in res.1
  {
    var i := MinIndex(pq);
    assert pq == pq[..i] + [pq[i]] + pq[i + 1..];
    (pq[i], pq[..i] + pq[i + 1..])
  }

  /** The adjacency entries offered to the queue: those whose far end is not
      yet visited, in adjacency order. */
  function Unvisited(es: seq<Edge>, visited: set<string>): (r: seq<Edge>)
    ensures forall e :: e in r <==> e in es && e.to !in visited
  {
    if es == [] then []
    else
      assert forall e :: e in es ==> e == es[0] || e in es[1..];
      (if es[0].to !in visited then [es[0]] else []) + Unvisited(es[1..], visited)
  }

  // ---------------------------------------------------------------------
  // The loop invariant

  /** Every kept edge joins two visited vertices. */
  ghost predicate Within(W: set<string>, M: seq<Edge>) {
    forall e :: e in M ==> e.from in W && e.to in W
  }

  /** Two queued edges leading out of `W`: the kept edges no heavier than the
      heavier of the two link their visited ends.  This is what makes the
      lightest queued edge safe to keep. */
  ghost predicate FrontierLinked(V: set<string>, W: set<string>, M: seq<Edge>, pq: seq<Edge>) {
    forall f, f' :: f in pq && f' in pq && f.to !in W && f'.to !in W && f'.weight <= f.weight ==>
      Linked(V, AtMost(M, f.weight), f.from, f'.from)
  }

  /** Every graph edge between visited vertices is spanned by the kept
      edges no heavier than it. */
  ghost predicate InternalLinked(V: set<string>, W: set<string>, M: seq<Edge>, G: seq<Edge>) {
    forall e :: e in G && e.from in W && e.to in W ==> Linked(V, AtMost(M, e.weight), e.from, e.to)
  }

  /** Every adjacency entry of a visited vertex leads to a visited vertex
      or is still queued. */
  ghost predicate FrontierQueued(g: Graph, W: set<string>, pq: seq<Edge>) {
    forall p, f :: p in W && f in AdjacentEdges(g, p) ==> f.to in W || f in pq
  }

  ghost predicate GrowState(g: Graph, start: string, W: set<string>, M: seq<Edge>, pq: seq<Edge>) {
    var V := g.vertices;
    && Graphs.Valid(g)
    && start in W && W <= V
    && Within(W, M) && Forest(V, M) && |M| + 1 == |W|
    && (forall e :: e in M ==> e in g.edges || Reverse(e) in g.edges)
    && (forall x :: x in W ==> Linked(V, M, start, x))
    && (forall f :: f in pq ==> f.from in W && f in AdjacentEdges(g, f.from))
    && FrontierQueued(g, W, pq)
    && FrontierLinked(V, W, M, pq)
    && InternalLinked(V, W, M, g.edges)
  }

  // ---------------------------------------------------------------------
  // Steps

  lemma InitState(g: Graph, start: string)
    requires Graphs.Valid(g) && start in g.vertices
    ensures GrowState(g, start, {start}, [], AdjacentEdges(g, start))
  {
    var V := g.vertices;
    LinkedRefl(V, [], start);
    assert AtMost([], 0) == [];
    forall f | f in AdjacentEdges(g, start)
      ensures f.from == start
    {
    }
    forall e | e in g.edges && e.from in {start} && e.to in {start}
      ensures Linked(V, AtMost([], e.weight), e.from, e.to)
    {
      LinkedRefl(V, AtMost([], e.weight), start);
    }
    forall f, f' | f in AdjacentEdges(g, start) && f' in AdjacentEdges(g, start)
      ensures Linked(V, AtMost([], f.weight), f.from, f'.from)
    {
      LinkedRefl(V, AtMost([], f.weight), start);
    }
  }

  /** Polling an edge whose far end is already visited only shrinks the queue. */
  lemma SkipStep(g: Graph, start: string, W: set<string>, M: seq<Edge>, pq: seq<Edge>)
    requires GrowState(g, start, W, M, pq) && pq != []
    requires Poll(pq).0.to in W
    ensures GrowState(g, start, W, M, Poll(pq).1)
  {
    var c := Poll(pq).0;
    var rest := Poll(pq).1;
    forall p, f | p in W && f in AdjacentEdges(g, p)
      ensures f.to in W || f in rest
    {
    }
    FrontierSubset(g.vertices, W, M, pq, rest);
  }

  lemma FrontierSubset(V: set<string>, W: set<string>, M: seq<Edge>, pq: seq<Edge>, pq': seq<Edge>)
    requires FrontierLinked(V, W, M, pq)
    requires forall f :: f in pq' ==> f in pq
    ensures FrontierLinked(V, W, M, pq')
  {
  }

  /** No kept edge leaves the visited set, so nothing outside it is linked
      to anything inside it. */
  lemma NotLinkedOutside(V: set<string>, W: set<string>, M: seq<Edge>, x: string, y: string)
    requires W <= V && Within(W, M) && x in W && y !in W
    ensures !Linked(V, M, x, y)
  {
    assert Closed(M, W);
  }

  /** The basic facts after keeping `c`, which leads out of `W`. */
  lemma AddBasics(g: Graph, start: string, W: set<string>, M: seq<Edge>, pq: seq<Edge>, c: Edge)
    requires GrowState(g, start, W, M, pq)
    requires c in pq && c.to !in W
    ensures var W', M' := W + {c.to}, M + [c];
      && Within(W', M') && Forest(g.vertices, M') && |M'| + 1 == |W'|
      && (forall e :: e in M' ==> e in g.edges || Reverse(e) in g.edges)
      && (forall x :: x in W' ==> Linked(g.vertices, M', start, x))
  {
    var V := g.vertices;
    var W', M' := W + {c.to}, M + [c];
    QueuedEdge(g, start, W, M, pq, c);
    NotLinkedOutside(V, W, M, c.from, c.to);
    ForestAppend(V, M, c);
    KeptInside(g, start, W, M, pq, c);
    CoveredAppend(M, c);
    forall x | x in W'
      ensures Linked(V, M', start, x)
    {
      if x in W {
        LinkedMono(V, M, M', start, x);
      } else {
        LinkedMono(V, M, M', start, c.from);
        LinkedEdge(V, M', c);
        LinkedTrans(V, M', start, c.from, x);
      }
    }
  }

  /** Thresholded links of `M` survive appending an edge. */
  lemma AtMostGrow(V: set<string>, M: seq<Edge>, c: Edge, t: int, x: string, y: string)
    requires Linked(V, AtMost(M, t), x, y)
    ensures Linked(V, AtMost(M + [c], t), x, y)
  {
    AtMostAppend(M, c, t);
    CoveredAppend(AtMost(M, t), c);
    if c.weight <= t {
      LinkedMono(V, AtMost(M, t), AtMost(M + [c], t), x, y);
    } else {
      assert AtMost(M + [c], t) == AtMost(M, t);
    }
  }

  /** A queued edge `f` leading out of `W` is no lighter than the polled
      edge `c`; after keeping `c`, the visited end of `f` reaches `c.to`
      through kept edges no heavier than `f`. */
  lemma ThroughPolled(V: set<string>, W: set<string>, M: seq<Edge>, pq: seq<Edge>, c: Edge, f: Edge)
    requires FrontierLinked(V, W, M, pq)
    requires c in pq && c.to !in W && c.from in V && c.to in V
    requires f in pq && f.to !in W && c.weight <= f.weight
    ensures Linked(V, AtMost(M + [c], f.weight), f.from, c.to)
  {
    var M' := M + [c];
    assert Linked(V, AtMost(M, f.weight), f.from, c.from);
    AtMostGrow(V, M, c, f.weight, f.from, c.from);
    AtMostAppend(M, c, f.weight);
    LinkedEdge(V, AtMost(M', f.weight), c);
    LinkedTrans(V, AtMost(M', f.weight), f.from, c.from, c.to);
  }

  /** A queued edge starts at a visited vertex and ends at a vertex. */
  lemma QueuedEdge(g: Graph, start: string, W: set<string>, M: seq<Edge>, pq: seq<Edge>, f: Edge)
    requires GrowState(g, start, W, M, pq) && f in pq
    ensures f.from in W && f.from in g.vertices && f.to in g.vertices
    ensures f in AdjacentEdges(g, f.from)
  {
    AdjacentLinked(g, f.from, f);
  }

  /** After keeping the polled edge `c`, every kept edge is inside `V`. */
  lemma KeptInside(g: Graph, start: string, W: set<string>, M: seq<Edge>, pq: seq<Edge>, c: Edge)
    requires GrowState(g, start, W, M, pq) && c in pq
    ensures Inside(g.vertices, M + [c])
  {
    QueuedEdge(g, start, W, M, pq, c);
    forall e | e in M + [c] ensures e.from in g.vertices && e.to in g.vertices {
      assert e in M || e == c;
    }
  }

  /** Keeping the lightest queued edge `c`, dropping it from the queue and
      queueing edges that leave its far end keeps the frontier property. */
  lemma FrontierGrows(V: set<string>, W: set<string>, M: seq<Edge>, pq: seq<Edge>,
                      c: Edge, rest: seq<Edge>, added: seq<Edge>)
    requires FrontierLinked(V, W, M, pq) && Inside(V, M + [c])
    requires c in pq && c.to !in W && c.from in V && c.to in V
    requires forall f :: f in pq ==> c.weight <= f.weight
    requires forall f :: f in rest ==> f in pq
    requires forall f :: f in added ==> f.from == c.to
    ensures FrontierLinked(V, W + {c.to}, M + [c], rest + added)
  {
    var v := c.to;
    var W', M' := W + {v}, M + [c];
    var pq' := rest + added;
    forall f: Edge, f': Edge | f in pq' && f' in pq' && f.to !in W' && f'.to !in W' && f'.weight <= f.weight
      ensures Linked(V, AtMost(M', f.weight), f.from, f'.from)
    {
      var A := AtMost(M', f.weight);
      assert Inside(V, A);
      var fOld, f'Old := f in rest, f' in rest;
      if fOld && f'Old {
        assert f in pq && f' in pq;
        assert Linked(V, AtMost(M, f.weight), f.from, f'.from);
        AtMostGrow(V, M, c, f.weight, f.from, f'.from);
      } else if fOld {
        // `f'` leaves the new vertex: link `f.from` to it through `c`.
        assert f'.from == v;
        ThroughPolled(V, W, M, pq, c, f);
      } else if f'Old {
        // `f` leaves the new vertex and is no lighter than `f'`, hence than `c`.
        assert f.from == v;
        assert c.weight <= f'.weight <= f.weight;
        ThroughPolled(V, W, M, pq, c, f');
        assert Linked(V, AtMost(M', f'.weight), f'.from, v);
        AtMostMono(M', f'.weight, f.weight);
        LinkedMono(V, AtMost(M', f'.weight), A, f'.from, v);
        LinkedSym(V, A, f'.from, v);
      } else {
        assert f.from == v && f'.from == v;
        LinkedRefl(V, A, v);
      }
    }
  }

  /** Keeping the polled edge keeps the frontier property for the new queue. */
  lemma AddFrontierLinked(g: Graph, start: string, W: set<string>, M: seq<Edge>, pq: seq<Edge>)
    requires GrowState(g, start, W, M, pq) && pq != []
    requires Poll(pq).0.to !in W
    ensures var c := Poll(pq).0;
      var W' := W + {c.to};
      FrontierLinked(g.vertices, W', M + [c], Poll(pq).1 + Unvisited(AdjacentEdges(g, c.to), W'))
  {
    var c, rest := Poll(pq).0, Poll(pq).1;
    var W' := W + {c.to};
    var added := Unvisited(AdjacentEdges(g, c.to), W');
    QueuedEdge(g, start, W, M, pq, c);
    KeptInside(g, start, W, M, pq, c);
    forall f | f in added
      ensures f.from == c.to
    {
      AdjacentLinked(g, c.to, f);
    }
    FrontierGrows(g.vertices, W, M, pq, c, rest, added);
  }

  /** Keeping the lightest queued edge `c` spans every edge of `G` that
      now joins two visited vertices, given that the edges from `W` to
      `c.to` are all queued. */
  lemma InternalGrows(V: set<string>, W: set<string>, M: seq<Edge>, G: seq<Edge>, pq: seq<Edge>, c: Edge)
    requires InternalLinked(V, W, M, G) && FrontierLinked(V, W, M, pq) && Inside(V, M + [c])
    requires c in pq && c.to !in W && c.from in V && c.to in V
    requires forall f :: f in pq ==> c.weight <= f.weight
    requires forall e :: e in G && e.from in W && e.to == c.to ==> e in pq
    requires forall e :: e in G && e.to in W && e.from == c.to ==> Reverse(e) in pq
    ensures InternalLinked(V, W + {c.to}, M + [c], G)
  {
    var v := c.to;
    var W', M' := W + {v}, M + [c];
    forall e | e in G && e.from in W' && e.to in W'
      ensures Linked(V, AtMost(M', e.weight), e.from, e.to)
    {
      var A := AtMost(M', e.weight);
      assert Inside(V, A);
      if e.from in W && e.to in W {
        AtMostGrow(V, M, c, e.weight, e.from, e.to);
      } else if e.from in W {
        ThroughPolled(V, W, M, pq, c, e);
      } else if e.to in W {
        ThroughPolled(V, W, M, pq, c, Reverse(e));
        LinkedSym(V, A, e.to, v);
      } else {
        LinkedRefl(V, A, v);
      }
    }
  }

  /** Keeping the polled edge spans every graph edge that now joins two
      visited vertices. */
  lemma AddInternalLinked(g: Graph, start: string, W: set<string>, M: seq<Edge>, pq: seq<Edge>)
    requires GrowState(g, start, W, M, pq) && pq != []
    requires Poll(pq).0.to !in W
    ensures var c := Poll(pq).0;
      InternalLinked(g.vertices, W + {c.to}, M + [c], g.edges)
  {
    var c := Poll(pq).0;
    QueuedEdge(g, start, W, M, pq, c);
    KeptInside(g, start, W, M, pq, c);
    forall e | e in g.edges && e.from in W && e.to == c.to
      ensures e in pq
    {
      assert e in AdjacentEdges(g, e.from);
    }
    forall e | e in g.edges && e.to in W && e.from == c.to
      ensures Reverse(e) in pq
    {
      assert Reverse(e) in AdjacentEdges(g, e.to);
    }
    InternalGrows(g.vertices, W, M, g.edges, pq, c);
  }

  /** Keeping the polled edge and queueing the new vertex's edges to
      unvisited vertices keeps every visited vertex's edges accounted for. */
  lemma AddFrontierQueued(g: Graph, start: string, W: set<string>, M: seq<Edge>, pq: seq<Edge>)
    requires GrowState(g, start, W, M, pq) && pq != []
    requires Poll(pq).0.to !in W
    ensures var c := Poll(pq).0;
      var W' := W + {c.to};
      var pq' := Poll(pq).1 + Unvisited(AdjacentEdges(g, c.to), W');
      && FrontierQueued(g, W', pq')
      && (forall f :: f in pq' ==> f.from in W' && f in AdjacentEdges(g, f.from))
  {
    var c, rest := Poll(pq).0, Poll(pq).1;
    var v := c.to;
    var W' := W + {v};
    var added := Unvisited(AdjacentEdges(g, v), W');
    var pq' := rest + added;
    QueuedEdge(g, start, W, M, pq, c);
    forall p, f | p in W' && f in AdjacentEdges(g, p)
      ensures f.to in W' || f in pq'
    {
      if f.to !in W' && p != v {
        assert f in pq && f != c;
      }
    }
    forall f: Edge | f in pq'
      ensures f.from in W' && f in AdjacentEdges(g, f.from)
    {
      if f in added {
        assert f in AdjacentEdges(g, v);
      }
    }
  }

  /** Keeping the polled edge, which leads to an unvisited vertex, and
      queueing that vertex's edges keeps the invariant. */
  lemma AddStep(g: Graph, start: string, W: set<string>, M: seq<Edge>, pq: seq<Edge>)
    requires GrowState(g, start, W, M, pq) && pq != []
    requires Poll(pq).0.to !in W
    ensures var c := Poll(pq).0;
      var W' := W + {c.to};
      GrowState(g, start, W', M + [c], Poll(pq).1 + Unvisited(AdjacentEdges(g, c.to), W'))
  {
    var c := Poll(pq).0;
    assert c in AdjacentEdges(g, c.from);
    AddBasics(g, start, W, M, pq, c);
    AddFrontierLinked(g, start, W, M, pq);
    AddInternalLinked(g, start, W, M, pq);
    AddFrontierQueued(g, start, W, M, pq);
  }

  // ---------------------------------------------------------------------
  // The algorithm

  /** One iteration of the main loop: poll the lightest edge; skip it when
      both ends are visited; otherwise visit its new end, keep the edge,
      add its weight and queue the new vertex's edges to unvisited vertices. */
  method PollEdge(g: Graph, ghost start: string, visited: set<string>, mst: seq<Edge>,
                  pq: seq<Edge>, cost: int)
    returns (visited': set<string>, mst': seq<Edge>, pq': seq<Edge>, cost': int)
    requires GrowState(g, start, visited, mst, pq) && pq != []
    requires cost == SumWeights(mst)
    ensures GrowState(g, start, visited', mst', pq')
    ensures cost' == SumWeights(mst')
    ensures visited <= visited'
    ensures visited' == visited ==> |pq'| < |pq| && mst' == mst
    ensures visited' != visited ==> |visited'| == |visited| + 1 && |mst'| == |mst| + 1
  {
    var current := Poll(pq).0;
    var rest := Poll(pq).1;
    if current.from in visited && current.to in visited {
      SkipStep(g, start, visited, mst, pq);
      return visited, mst, rest, cost;
    }
    var newVertex := if current.from in visited then current.to else current.from;
    // Queued edges always start at a visited vertex, so `newVertex` is `current.to`.
    visited', mst', pq', cost' := visited, mst, rest, cost;
    if newVertex !in visited {
      AddStep(g, start, visited, mst, pq);
      SumWeightsAppend(mst, current);
      visited' := visited + {newVertex};
      mst' := mst + [current];
      cost' := cost + current.weight;
      pq' := rest + Unvisited(AdjacentEdges(g, newVertex), visited');
    }
  }

  /** When the loop stops, the visited set is the component of `start`; if
      the graph is connected the kept edges are a minimum spanning tree. */
  lemma Conclusion(g: Graph, start: string, W: set<string>, M: seq<Edge>, pq: seq<Edge>)
    requires GrowState(g, start, W, M, pq)
    requires pq == [] || |W| >= |g.vertices|
    ensures Forest(g.vertices, M) && Within(W, M) && |M| == |W| - 1
    ensures forall e :: e in M ==> e in g.edges || Reverse(e) in g.edges
    ensures forall x, y :: x in W && y in W ==> Linked(g.vertices, M, x, y)
    ensures forall x, y :: x in W && Linked(g.vertices, g.edges, x, y) ==> y in W
    ensures Connected(g) ==> SpanningTree(g.vertices, M)
    ensures Connected(g) ==> W == g.vertices
    ensures Connected(g) ==> MinimumSpanning(g.vertices, g.edges, M)
  {
    var V := g.vertices;
    var G := g.edges;
    assert W == V || Closed(G, W) by {
      if pq == [] {
        AdjacencyClosed(g, W);
      } else if W != V {
        ProperSubsetCard(W, V);
      }
    }
    forall x, y | x in W && Linked(V, G, x, y)
      ensures y in W
    {
      if W != V {
        assert Closed(G, W);
      }
    }
    if Connected(g) {
      forall y | y in V
        ensures y in W
      {
        assert Linked(V, G, start, y);
      }
      assert W == V;
      assert Inside(V, M);
      ThresholdMinimum(V, G, M);
    }
    forall x, y | x in W && y in W
      ensures Linked(V, M, x, y)
    {
      assert Inside(V, M);
      LinkedSym(V, M, start, x);
      LinkedTrans(V, M, x, start, y);
    }
  }

  /** The main loop, from `start`: poll until the queue is empty or every
      vertex is visited. */
  method Grow(g: Graph, start: string) returns (seen: set<string>, mst: seq<Edge>, cost: int)
    requires Graphs.Valid(g) && start in g.vertices
    ensures start in seen
    ensures cost == SumWeights(mst)
    ensures Forest(g.vertices, mst) && Within(seen, mst) && |mst| == |seen| - 1
    ensures forall e :: e in mst ==> e in g.edges || Reverse(e) in g.edges
    ensures forall x, y :: x in seen && y in seen ==> Linked(g.vertices, mst, x, y)
    ensures forall x, y :: x in seen && Linked(g.vertices, g.edges, x, y) ==> y in seen
    ensures Connected(g) ==> seen == g.vertices
    ensures Connected(g) ==> MinimumSpanning(g.vertices, g.edges, mst)
    ensures Connected(g) ==> SpanningTree(g.vertices, mst)
  {
    var V := g.vertices;
    seen := {start};
    var pq := AdjacentEdges(g, start);
    mst := [];
    cost := 0;
    InitState(g, start);
    while pq != [] && |seen| < |V|
      invariant GrowState(g, start, seen, mst, pq)
      invariant cost == SumWeights(mst)
      decreases |V - seen|, |pq|
    {
      ghost var seen0 := seen;
      seen, mst, pq, cost := PollEdge(g, start, seen, mst, pq, cost);
      if seen != seen0 {
        ComplementShrinks(V, seen0, seen);
      }
    }
    Conclusion(g, start, seen, mst, pq);
  }

  /** With no vertices there are no edges, and the empty forest is minimum. */
  lemma EmptyGraph(g: Graph)
    requires Graphs.Valid(g) && g.vertices == {}
    ensures g.edges == []
    ensures MinimumSpanning(g.vertices, g.edges, []) && SpanningTree(g.vertices, [])
  {
    InsideNothing(g.edges);
    forall t, x, y | Linked(g.vertices, AtMost(g.edges, t), x, y)
      ensures Linked(g.vertices, AtMost([], t), x, y)
    {
    }
  }

  /** `findMST`: grow a tree from an arbitrary vertex (the first one the
      vertex set's iterator yields). */
  method FindMst(g: Graph) returns (r: MstResult, ghost visited: set<string>)
    requires Graphs.Valid(g)
    ensures g.vertices == {} ==> r.edges == [] && r.totalCost == 0
    ensures r.totalCost == SumWeights(r.edges)
    ensures forall e :: e in r.edges ==> e in g.edges || Reverse(e) in g.edges
    ensures Forest(g.vertices, r.edges) && Within(visited, r.edges)
    ensures g.vertices != {} ==> visited != {} && |r.edges| == |visited| - 1
    ensures forall x, y :: x in visited && y in visited ==> Linked(g.vertices, r.edges, x, y)
    ensures forall x, y :: x in visited && Linked(g.vertices, g.edges, x, y) ==> y in visited
    ensures Connected(g) ==> visited == g.vertices
    ensures Connected(g) ==> MinimumSpanning(g.vertices, g.edges, r.edges)
    ensures Connected(g) ==> SpanningTree(g.vertices, r.edges)
  {
    if |g.vertices| == 0 {
      EmptyGraph(g);
      return MstResult([], 0), {};
    }
    var start :| start in g.vertices;
    var seen, mst, cost := Grow(g, start);
    visited := seen;
    r := MstResult(mst, cost);
  }
}
