/** The sorted-edge (Kruskal) algorithm: scan the edges by increasing
    weight and keep each one whose endpoints are still in different sets of
    the disjoint-set forest, stopping once `|V| - 1` edges are kept. */
module Kruskal {
  import opened Edges
  import opened Connectivity
  import opened Spanning
  import opened Graphs
  import UnionFind

  /** The sets of `uf` are exactly the components of `(V, mst)`. */
  ghost predicate Represents(uf: UnionFind.UF, V: set<string>, mst: seq<Edge>)
    requires UnionFind.Valid(uf) && uf.parent.Keys == V
  {
    forall y, z :: y in V && z in V ==>
      (UnionFind.Root(uf, y) == UnionFind.Root(uf, z) <==> Linked(V, mst, y, z))
  }

  /** Every edge before position `i` is spanned by the kept edges no heavier
      than it. */
  ghost predicate Processed(V: set<string>, sorted: seq<Edge>, i: nat, mst: seq<Edge>)
    requires i <= |sorted|
  {
    forall j :: 0 <= j < i ==> Linked(V, AtMost(mst, sorted[j].weight), sorted[j].from, sorted[j].to)
  }

  /** The loop invariant after `i` edges of `sorted` have been examined. */
  ghost predicate ScanState(V: set<string>, G: seq<Edge>, sorted: seq<Edge>, i: nat,
                            uf: UnionFind.UF, mst: seq<Edge>)
  {
    && i <= |sorted|
    && SortedByWeight(sorted) && Inside(V, sorted) && (forall e :: e in sorted ==> e in G)
    && UnionFind.Valid(uf) && uf.parent.Keys == V
    && Inside(V, mst) && Forest(V, mst) && (forall e :: e in mst ==> e in G)
    && SortedByWeight(mst)
    && Represents(uf, V, mst)
    && (i < |sorted| ==> forall e :: e in mst ==> e.weight <= sorted[i].weight)
    && Processed(V, sorted, i, mst)
  }

  lemma InitState(V: set<string>, G: seq<Edge>, sorted: seq<Edge>)
    requires Inside(V, G) && SortedByWeight(sorted) && multiset(sorted) == multiset(G)
    ensures ScanState(V, G, sorted, 0, UnionFind.Init(V), [])
  {
    var uf := UnionFind.Init(V);
    forall e | e in sorted ensures e in G {
      assert e in multiset(sorted);
    }
    forall y, z | y in V && z in V
      ensures UnionFind.Root(uf, y) == UnionFind.Root(uf, z) <==> Linked(V, [], y, z)
    {
      assert UnionFind.Root(uf, y) == y && UnionFind.Root(uf, z) == z;
      if y == z {
        LinkedRefl(V, [], y);
      } else {
        assert Closed([], {y});
      }
    }
  }

  /** Path compression changes no set. */
  lemma FindRepresents(uf: UnionFind.UF, V: set<string>, mst: seq<Edge>, x: string)
    requires UnionFind.Valid(uf) && uf.parent.Keys == V && x in V
    requires Represents(uf, V, mst)
    ensures Represents(UnionFind.Find(uf, x).1, V, mst)
  {
    var uf' := UnionFind.Find(uf, x).1;
    forall y, z | y in V && z in V
      ensures UnionFind.Root(uf', y) == UnionFind.Root(uf', z) <==> Linked(V, mst, y, z)
    {
      assert UnionFind.Root(uf', y) == UnionFind.Root(uf, y);
      assert UnionFind.Root(uf', z) == UnionFind.Root(uf, z);
    }
  }

  /** Joining the sets of `e`'s endpoints mirrors adding `e` to the forest. */
  lemma UnionRepresents(uf: UnionFind.UF, V: set<string>, mst: seq<Edge>, e: Edge)
    requires UnionFind.Valid(uf) && uf.parent.Keys == V
    requires Inside(V, mst + [e])
    requires Represents(uf, V, mst)
    requires UnionFind.Root(uf, e.from) != UnionFind.Root(uf, e.to)
    ensures Represents(UnionFind.Union(uf, e.from, e.to).1, V, mst + [e])
  {
    var uf' := UnionFind.Union(uf, e.from, e.to).1;
    var R1, R2 := UnionFind.Root(uf, e.from), UnionFind.Root(uf, e.to);
    forall y, z | y in V && z in V
      ensures UnionFind.Root(uf', y) == UnionFind.Root(uf', z) <==> Linked(V, mst + [e], y, z)
    {
      var ry, rz := UnionFind.Root(uf, y), UnionFind.Root(uf, z);
      assert UnionFind.Root(uf', y) == if ry == R1 || ry == R2 then UnionFind.Root(uf', e.from) else ry;
      assert UnionFind.Root(uf', z) == if rz == R1 || rz == R2 then UnionFind.Root(uf', e.from) else rz;
      LinkedAppend(V, mst, e, y, z);
      assert Linked(V, mst, y, e.from) <==> ry == R1;
      assert Linked(V, mst, y, e.to) <==> ry == R2;
      assert Linked(V, mst, e.from, z) <==> rz == R1;
      assert Linked(V, mst, e.to, z) <==> rz == R2;
    }
  }

  /** The examined edge closes a cycle: it is skipped. */
  lemma RejectStep(V: set<string>, G: seq<Edge>, sorted: seq<Edge>, i: nat,
                   uf: UnionFind.UF, uf': UnionFind.UF, mst: seq<Edge>)
    requires ScanState(V, G, sorted, i, uf, mst) && i < |sorted|
    requires UnionFind.Valid(uf') && uf'.parent.Keys == V && Represents(uf', V, mst)
    requires UnionFind.Root(uf', sorted[i].from) == UnionFind.Root(uf', sorted[i].to)
    ensures ScanState(V, G, sorted, i + 1, uf', mst)
  {
    var e := sorted[i];
    assert Linked(V, mst, e.from, e.to);
    AtMostAll(mst, e.weight);
    if i + 1 < |sorted| {
      assert e.weight <= sorted[i + 1].weight;
    }
  }

  /** Keeping `sorted[i]` keeps every earlier edge spanned, and spans it. */
  lemma AcceptProcessed(V: set<string>, sorted: seq<Edge>, i: nat, mst: seq<Edge>)
    requires i < |sorted| && Processed(V, sorted, i, mst)
    requires Inside(V, mst + [sorted[i]])
    ensures Processed(V, sorted, i + 1, mst + [sorted[i]])
  {
    var e := sorted[i];
    var mst' := mst + [e];
    forall j | 0 <= j < i + 1
      ensures Linked(V, AtMost(mst', sorted[j].weight), sorted[j].from, sorted[j].to)
    {
      AtMostAppend(mst, e, sorted[j].weight);
      if j < i {
        CoveredAppend(AtMost(mst, sorted[j].weight), e);
        LinkedMono(V, AtMost(mst, sorted[j].weight), AtMost(mst', sorted[j].weight),
                   sorted[j].from, sorted[j].to);
      } else {
        LinkedEdge(V, AtMost(mst', e.weight), e);
      }
    }
  }

  /** Keeping `sorted[i]` keeps the kept edges inside `V`, drawn from `G`,
      sorted, and no heavier than the next edge to examine. */
  lemma AcceptOrder(V: set<string>, G: seq<Edge>, sorted: seq<Edge>, i: nat, mst: seq<Edge>)
    requires i < |sorted| && SortedByWeight(sorted) && Inside(V, sorted)
    requires forall e :: e in sorted ==> e in G
    requires Inside(V, mst) && (forall e :: e in mst ==> e in G) && SortedByWeight(mst)
    requires forall e :: e in mst ==> e.weight <= sorted[i].weight
    ensures Inside(V, mst + [sorted[i]]) && (forall e :: e in mst + [sorted[i]] ==> e in G)
    ensures SortedByWeight(mst + [sorted[i]])
    ensures i + 1 < |sorted| ==> forall e :: e in mst + [sorted[i]] ==> e.weight <= sorted[i + 1].weight
  {
    var e := sorted[i];
    assert e in sorted;
    assert forall f :: f in mst + [e] ==> f in mst || f == e;
    SortedAppend(mst, e);
    if i + 1 < |sorted| {
      assert e.weight <= sorted[i + 1].weight;
    }
  }

  /** The examined edge joins two components: it is kept. */
  lemma AcceptStep(V: set<string>, G: seq<Edge>, sorted: seq<Edge>, i: nat,
                   uf: UnionFind.UF, uf': UnionFind.UF, mst: seq<Edge>)
    requires ScanState(V, G, sorted, i, uf, mst) && i < |sorted|
    requires UnionFind.Valid(uf') && uf'.parent.Keys == V && Represents(uf', V, mst)
    requires UnionFind.Root(uf', sorted[i].from) != UnionFind.Root(uf', sorted[i].to)
    ensures ScanState(V, G, sorted, i + 1,
                      UnionFind.Union(uf', sorted[i].from, sorted[i].to).1, mst + [sorted[i]])
  {
    var e := sorted[i];
    AcceptOrder(V, G, sorted, i, mst);
    assert !Linked(V, mst, e.from, e.to);
    ForestAppend(V, mst, e);
    UnionRepresents(uf', V, mst, e);
    AcceptProcessed(V, sorted, i, mst);
  }

  /** One iteration: find the roots of both endpoints (compressing paths);
      if they differ, keep the edge, add its weight and join the two sets. */
  method ExamineEdge(ghost V: set<string>, ghost G: seq<Edge>, sorted: seq<Edge>, i: nat,
                     uf: UnionFind.UF, mst: seq<Edge>, cost: int)
    returns (uf': UnionFind.UF, mst': seq<Edge>, cost': int, kept: bool)
    requires ScanState(V, G, sorted, i, uf, mst) && i < |sorted|
    requires cost == SumWeights(mst)
    ensures ScanState(V, G, sorted, i + 1, uf', mst')
    ensures cost' == SumWeights(mst')
    ensures kept <==> !Linked(V, mst, sorted[i].from, sorted[i].to)
    ensures mst' == if kept then mst + [sorted[i]] else mst
  {
    var e := sorted[i];
    var root1, uf1 := UnionFind.Find(uf, e.from).0, UnionFind.Find(uf, e.from).1;
    FindRepresents(uf, V, mst, e.from);
    var root2, uf2 := UnionFind.Find(uf1, e.to).0, UnionFind.Find(uf1, e.to).1;
    FindRepresents(uf1, V, mst, e.to);
    kept := root1 != root2;
    if kept {
      AcceptStep(V, G, sorted, i, uf, uf2, mst);
      SumWeightsAppend(mst, e);
      mst' := mst + [e];
      cost' := cost + e.weight;
      uf' := UnionFind.Union(uf2, e.from, e.to).1;
    } else {
      RejectStep(V, G, sorted, i, uf, uf2, mst);
      uf', mst', cost' := uf2, mst, cost;
    }
  }

  /** When the kept edges connect everything, they do so using only edges
      no heavier than the heaviest of them. */
  lemma SpanningLinks(V: set<string>, mst: seq<Edge>, e: Edge)
    requires Spans(V, mst)
    requires forall f :: f in mst ==> f.weight <= e.weight
    requires e.from in V && e.to in V
    ensures Linked(V, AtMost(mst, e.weight), e.from, e.to)
  {
    AtMostAll(mst, e.weight);
  }

  /** Once every edge is examined, or the kept edges connect everything,
      each edge of `sorted` is spanned by the kept edges no heavier than it. */
  lemma SortedEdgeLinked(V: set<string>, sorted: seq<Edge>, i: nat, mst: seq<Edge>, j: nat)
    requires i <= |sorted| && j < |sorted| && Processed(V, sorted, i, mst)
    requires SortedByWeight(sorted) && Inside(V, sorted)
    requires i < |sorted| ==> forall e :: e in mst ==> e.weight <= sorted[i].weight
    requires i == |sorted| || Spans(V, mst)
    ensures Linked(V, AtMost(mst, sorted[j].weight), sorted[j].from, sorted[j].to)
  {
    if j >= i {
      assert sorted[i].weight <= sorted[j].weight;
      assert sorted[j] in sorted;
      SpanningLinks(V, mst, sorted[j]);
    }
  }

  /** Once every edge is examined, or `|V| - 1` edges are kept, the kept
      edges form a minimum spanning forest. */
  lemma Finish(V: set<string>, G: seq<Edge>, sorted: seq<Edge>, i: nat,
               uf: UnionFind.UF, mst: seq<Edge>)
    requires ScanState(V, G, sorted, i, uf, mst) && multiset(sorted) == multiset(G)
    requires i == |sorted| || (V != {} && |mst| == |V| - 1)
    ensures MinimumSpanning(V, G, mst)
  {
    if i < |sorted| {
      ForestSize(V, mst);
    }
    forall e | e in G
      ensures Linked(V, AtMost(mst, e.weight), e.from, e.to)
    {
      assert e in multiset(sorted);
      var j :| 0 <= j < |sorted| && sorted[j] == e;
      SortedEdgeLinked(V, sorted, i, mst, j);
    }
    ThresholdMinimum(V, G, mst);
  }

  /** `findMST`: sort the edges, then keep each edge that joins two sets of
      the disjoint-set forest, until `|V| - 1` edges are kept. */
  method FindMst(g: Graph) returns (r: MstResult)
    requires Graphs.Valid(g)
    ensures g.vertices == {} ==> r.edges == [] && r.totalCost == 0
    ensures r.totalCost == SumWeights(r.edges)
    ensures forall e :: e in r.edges ==> e in g.edges
    ensures SortedByWeight(r.edges)
    ensures MinimumSpanning(g.vertices, g.edges, r.edges)
    ensures g.vertices != {} ==> |r.edges| <= |g.vertices| - 1
    ensures Connected(g) ==> SpanningTree(g.vertices, r.edges)
    ensures Connected(g) && g.vertices != {} ==> |r.edges| == |g.vertices| - 1
  {
    var V := g.vertices;
    if |V| == 0 {
      return MstResult([], 0);
    }
    var sorted := SortByWeight(g.edges);
    var uf := UnionFind.Init(V);
    var mst: seq<Edge> := [];
    var cost := 0;
    var i := 0;
    var done := false;
    InitState(V, g.edges, sorted);
    while i < |sorted| && !done
      invariant ScanState(V, g.edges, sorted, i, uf, mst)
      invariant cost == SumWeights(mst)
      invariant done ==> |mst| == |V| - 1
      decreases |sorted| - i
    {
      var kept;
      uf, mst, cost, kept := ExamineEdge(V, g.edges, sorted, i, uf, mst, cost);
      if kept && |mst| == |V| - 1 {
        done := true;
      }
      i := i + 1;
    }
    Finish(V, g.edges, sorted, i, uf, mst);
    ForestSize(V, mst);
    if Connected(g) {
      MinimumSpanningSpans(V, g.edges, mst);
      SpanningTreeSize(V, mst);
    }
    return MstResult(mst, cost);
  }
}
