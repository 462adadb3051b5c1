/** What the unit tests ask of the two algorithms, proved for all graphs
    where they are general (same cost, `|V| - 1` edges, reproducible
    result) and for the concrete graphs they build (the four-vertex square
    of cost 6, the empty graph, the single vertex). */
module MstChecks {
  import opened Edges
  import opened Connectivity
  import opened Spanning
  import opened Graphs
  import Kruskal
  import Prim

  /** On a connected graph both algorithms return `|V| - 1` edges of the
      same total weight, and no spanning tree of the graph weighs less. */
  method BothAlgorithms(g: Graph) returns (k: MstResult, p: MstResult)
    requires Graphs.Valid(g) && Connected(g)
    ensures k.totalCost == p.totalCost
    ensures |k.edges| == |p.edges|
    ensures g.vertices != {} ==> |k.edges| == |g.vertices| - 1 && |p.edges| == |g.vertices| - 1
    ensures k.totalCost == SumWeights(k.edges) && p.totalCost == SumWeights(p.edges)
    ensures SpanningTree(g.vertices, k.edges) && SpanningTree(g.vertices, p.edges)
    ensures MinimumSpanning(g.vertices, g.edges, k.edges) && MinimumSpanning(g.vertices, g.edges, p.edges)
    ensures forall T :: SpanningForestOf(g.vertices, g.edges, T) ==>
      |T| == |k.edges| && k.totalCost <= SumWeights(T) && p.totalCost <= SumWeights(T)
  {
    k := Kruskal.FindMst(g);
    ghost var visited;
    p, visited := Prim.FindMst(g);
    SameCost(g.vertices, g.edges, k.edges, p.edges);
    forall T | SpanningForestOf(g.vertices, g.edges, T)
      ensures |T| == |k.edges| && k.totalCost <= SumWeights(T) && p.totalCost <= SumWeights(T)
    {
      MinimumIsCheapest(g.vertices, g.edges, k.edges, T);
    }
  }

  /** Running the growth algorithm twice on a connected graph gives the
      same cost and edge count, whatever start vertex each run picks. */
  method RunTwice(g: Graph) returns (r1: MstResult, r2: MstResult)
    requires Graphs.Valid(g) && Connected(g)
    ensures r1.totalCost == r2.totalCost && |r1.edges| == |r2.edges|
  {
    ghost var v1, v2;
    r1, v1 := Prim.FindMst(g);
    r2, v2 := Prim.FindMst(g);
    SameCost(g.vertices, g.edges, r1.edges, r2.edges);
  }

  // ---------------------------------------------------------------------
  // The four-vertex square used by the tests, over any four distinct names

  /** The graph built by the five `addEdge` calls of the test. */
  function Square(a: string, b: string, c: string, d: string): Graph {
    var g0 := NewGraph(2);
    var g1 := AddEdge(g0, a, b, 1);
    var g2 := AddEdge(g1, a, c, 4);
    var g3 := AddEdge(g2, b, c, 2);
    var g4 := AddEdge(g3, c, d, 3);
    AddEdge(g4, b, d, 5)
  }

  function SquareEdges(a: string, b: string, c: string, d: string): seq<Edge> {
    [Edge(a, b, 1), Edge(a, c, 4), Edge(b, c, 2), Edge(c, d, 3), Edge(b, d, 5)]
  }

  /** Its vertices are the four names, its edges the five calls in order,
      and it satisfies the representation invariant. */
  lemma SquareShape(a: string, b: string, c: string, d: string)
    ensures Square(a, b, c, d).vertices == {a, b, c, d}
    ensures Square(a, b, c, d).edges == SquareEdges(a, b, c, d)
    ensures Graphs.Valid(Square(a, b, c, d))
  {
    SquareEdgeList(a, b, c, d);
    SquareValid(a, b, c, d);
  }

  lemma SquareEdgeList(a: string, b: string, c: string, d: string)
    ensures Square(a, b, c, d).edges == SquareEdges(a, b, c, d)
  {
    var g4 := AddEdge(AddEdge(AddEdge(AddEdge(NewGraph(2), a, b, 1), a, c, 4), b, c, 2), c, d, 3);
    assert g4.edges == [Edge(a, b, 1), Edge(a, c, 4), Edge(b, c, 2), Edge(c, d, 3)];
  }

  lemma SquareValid(a: string, b: string, c: string, d: string)
    ensures Graphs.Valid(Square(a, b, c, d))
  {
    var g0 := NewGraph(2);
    var g1 := AddEdge(g0, a, b, 1);
    var g2 := AddEdge(g1, a, c, 4);
    var g3 := AddEdge(g2, b, c, 2);
    var g4 := AddEdge(g3, c, d, 3);
    AddEdgeValid(g0, a, b, 1);
    AddEdgeValid(g1, a, c, 4);
    AddEdgeValid(g2, b, c, 2);
    AddEdgeValid(g3, c, d, 3);
    AddEdgeValid(g4, b, d, 5);
  }

  /** The three lightest edges: a path `a - b - c - d`. */
  function PathOf(a: string, b: string, c: string, d: string): seq<Edge> {
    [Edge(a, b, 1), Edge(b, c, 2), Edge(c, d, 3)]
  }

  predicate Distinct(a: string, b: string, c: string, d: string) {
    a != b && a != c && a != d && b != c && b != d && c != d
  }

  lemma PathIsForest(a: string, b: string, c: string, d: string)
    requires Distinct(a, b, c, d)
    ensures Inside({a, b, c, d}, PathOf(a, b, c, d)) && Forest({a, b, c, d}, PathOf(a, b, c, d))
  {
    var V, P := {a, b, c, d}, PathOf(a, b, c, d);
    forall k | 0 <= k < |P|
      ensures !Linked(V, P[..k], P[k].from, P[k].to)
    {
      var S := if k == 0 then {a} else if k == 1 then {a, b} else {a, b, c};
      assert P[..k] == if k == 0 then [] else if k == 1 then [P[0]] else [P[0], P[1]];
      assert Closed(P[..k], S);
    }
  }

  /** The edges of the path no heavier than 1, 2 and 3 or more. */
  lemma PathThresholds(a: string, b: string, c: string, d: string)
    ensures var P := PathOf(a, b, c, d);
      && AtMost(P, 1) == [P[0]] && AtMost(P, 2) == [P[0], P[1]]
      && forall t :: t >= 3 ==> AtMost(P, t) == P
  {
    var P := PathOf(a, b, c, d);
    var e1, e2, e3 := P[0], P[1], P[2];
    assert P == [e1, e2] + [e3];
    assert [e1, e2] == [e1] + [e2];
    assert [e1] == [] + [e1];
    AtMostAppend([e1, e2], e3, 1);
    AtMostAppend([e1, e2], e3, 2);
    AtMostAppend([e1], e2, 1);
    AtMostAppend([e1], e2, 2);
    AtMostAppend([], e1, 1);
    AtMostAppend([], e1, 2);
    forall t | t >= 3
      ensures AtMost(P, t) == P
    {
      AtMostAll(P, t);
    }
  }

  /** The path links every vertex to `a`, and the edges of the path no
      heavier than 1 and 2 link the ends of its two lightest edges. */
  lemma PathLinks(a: string, b: string, c: string, d: string)
    ensures var V, P := {a, b, c, d}, PathOf(a, b, c, d);
      && (forall t :: t >= 3 ==> AtMost(P, t) == P)
      && Linked(V, AtMost(P, 1), a, b) && Linked(V, AtMost(P, 2), b, c)
      && Linked(V, P, a, b) && Linked(V, P, a, c) && Linked(V, P, a, d)
  {
    var V, P := {a, b, c, d}, PathOf(a, b, c, d);
    PathThresholds(a, b, c, d);
    LinkedEdge(V, [P[0]], P[0]);
    LinkedEdge(V, [P[0], P[1]], P[1]);
    LinkedEdge(V, P, P[0]);
    LinkedEdge(V, P, P[1]);
    LinkedEdge(V, P, P[2]);
    LinkedTrans(V, P, a, b, c);
    LinkedTrans(V, P, a, c, d);
  }

  /** The path connects all four vertices. */
  lemma PathSpans(a: string, b: string, c: string, d: string)
    ensures Spans({a, b, c, d}, PathOf(a, b, c, d))
  {
    var V, P := {a, b, c, d}, PathOf(a, b, c, d);
    PathLinks(a, b, c, d);
    LinkedRefl(V, P, a);
    assert Inside(V, P);
    forall x, y | x in V && y in V
      ensures Linked(V, P, x, y)
    {
      assert Linked(V, P, a, x) && Linked(V, P, a, y);
      LinkedSym(V, P, a, x);
      LinkedTrans(V, P, x, a, y);
    }
  }

  /** The path is a minimum spanning tree of the square. */
  lemma PathIsMinimum(a: string, b: string, c: string, d: string)
    requires Distinct(a, b, c, d)
    ensures MinimumSpanning({a, b, c, d}, SquareEdges(a, b, c, d), PathOf(a, b, c, d))
  {
    var V, G, P := {a, b, c, d}, SquareEdges(a, b, c, d), PathOf(a, b, c, d);
    PathIsForest(a, b, c, d);
    PathLinks(a, b, c, d);
    LinkedSym(V, P, a, b);
    LinkedTrans(V, P, b, a, d);
    LinkedSym(V, P, a, c);
    LinkedTrans(V, P, c, a, d);
    forall e | e in G
      ensures Linked(V, AtMost(P, e.weight), e.from, e.to)
    {
      assert e == G[0] || e == G[1] || e == G[2] || e == G[3] || e == G[4];
    }
    assert Covered(P, G);
    ThresholdMinimum(V, G, P);
  }

  /** The square is connected: the path inside it already is. */
  lemma SquareConnected(a: string, b: string, c: string, d: string)
    ensures Spans({a, b, c, d}, SquareEdges(a, b, c, d))
  {
    var V, G, P := {a, b, c, d}, SquareEdges(a, b, c, d), PathOf(a, b, c, d);
    PathSpans(a, b, c, d);
    assert Covered(P, G);
    forall x, y | x in V && y in V
      ensures Linked(V, G, x, y)
    {
      LinkedMono(V, P, G, x, y);
    }
  }

  /** The path weighs 1 + 2 + 3. */
  lemma PathCost(a: string, b: string, c: string, d: string)
    ensures SumWeights(PathOf(a, b, c, d)) == 6
  {
    var e1, e2, e3 := Edge(a, b, 1), Edge(b, c, 2), Edge(c, d, 3);
    assert [e1][..0] == [];
    assert SumWeights([e1]) == 1;
    assert [e1, e2][..1] == [e1];
    assert SumWeights([e1, e2]) == 3;
    assert [e1, e2, e3][..2] == [e1, e2];
  }

  /** Both algorithms find cost 6 and three edges on the square. */
  method SquareCost(a: string, b: string, c: string, d: string) returns (k: MstResult, p: MstResult)
    requires Distinct(a, b, c, d)
    ensures k.totalCost == 6 && p.totalCost == 6
    ensures |k.edges| == 3 && |p.edges| == 3
  {
    var g := Square(a, b, c, d);
    SquareShape(a, b, c, d);
    PathIsMinimum(a, b, c, d);
    SquareConnected(a, b, c, d);
    k, p := BothAlgorithms(g);
    var P := PathOf(a, b, c, d);
    SameCost(g.vertices, g.edges, k.edges, P);
    PathCost(a, b, c, d);
  }

  /** The test's own names. */
  method TestSquare() returns (k: MstResult, p: MstResult)
    ensures k.totalCost == 6 && p.totalCost == 6
    ensures |k.edges| == 3 && |p.edges| == 3
  {
    k, p := SquareCost("A", "B", "C", "D");
  }

  // ---------------------------------------------------------------------
  // The ten-vertex graph of the medium test, over any ten names

  /** Its fifteen `addEdge` calls, in order. */
  function MediumEdges(a: string, b: string, c: string, d: string, e: string,
                       f: string, g: string, h: string, i: string, j: string): seq<Edge> {
    [Edge(a, b, 4), Edge(a, c, 3), Edge(b, c, 2), Edge(b, d, 5),
     Edge(c, d, 7), Edge(c, e, 8), Edge(d, e, 6), Edge(e, f, 2),
     Edge(f, g, 3), Edge(g, h, 1), Edge(h, i, 4), Edge(i, j, 2),
     Edge(a, f, 10), Edge(d, h, 9), Edge(e, j, 11)]
  }

  /** The `addEdge` call that adds `x`. */
  function Call(x: Edge): Step { AddE(x.from, x.to, x.weight) }

  function Calls(es: seq<Edge>): (steps: seq<Step>)
    ensures |steps| == |es|
    ensures forall k :: 0 <= k < |es| ==> steps[k] == Call(es[k])
  {
    if es == [] then [] else Calls(es[..|es| - 1]) + [Call(es[|es| - 1])]
  }

  /** Calling `addEdge` for each edge in turn adds exactly those edges, and
      every vertex it creates is an endpoint of one of them. */
  lemma {:induction false} CallsBuild(es: seq<Edge>)
    ensures EdgeSteps(Calls(es)) == es
    ensures forall v :: v in Names(Calls(es)) ==> exists x :: x in es && (v == x.from || v == x.to)
  {
    if es != [] {
      var n := |es| - 1;
      var init, last := es[..n], es[n];
      CallsBuild(init);
      assert Calls(es)[..n] == Calls(init);
      assert es == init + [last];
      forall v | v in Names(Calls(es))
        ensures exists x :: x in es && (v == x.from || v == x.to)
      {
        if v !in Names(Calls(init)) {
          assert v == last.from || v == last.to;
        } else {
          var x :| x in init && (v == x.from || v == x.to);
          assert x in es;
        }
      }
    }
  }

  lemma MediumEnds(a: string, b: string, c: string, d: string, e: string,
                   f: string, g: string, h: string, i: string, j: string, x: Edge)
    requires x in MediumEdges(a, b, c, d, e, f, g, h, i, j)
    ensures x.from in {a, b, c, d, e, f, g, h, i, j} && x.to in {a, b, c, d, e, f, g, h, i, j}
  {
  }

  /** Calls over edges between names of `S` create only vertices of `S`. */
  lemma NamesWithin(es: seq<Edge>, S: set<string>)
    requires forall x :: x in es ==> x.from in S && x.to in S
    ensures Names(Calls(es)) <= S
  {
    CallsBuild(es);
    forall v | v in Names(Calls(es))
      ensures v in S
    {
      var x :| x in es && (v == x.from || v == x.to);
    }
  }

  function Medium(a: string, b: string, c: string, d: string, e: string,
                  f: string, g: string, h: string, i: string, j: string): Graph {
    Build(NewGraph(10), Calls(MediumEdges(a, b, c, d, e, f, g, h, i, j)))
  }

  /** The built graph holds the fifteen edges in call order, each of its
      vertices is an endpoint of one of them, and it satisfies the
      representation invariant. */
  lemma MediumShape(a: string, b: string, c: string, d: string, e: string,
                    f: string, g: string, h: string, i: string, j: string)
    ensures var G := Medium(a, b, c, d, e, f, g, h, i, j);
      && G.edges == MediumEdges(a, b, c, d, e, f, g, h, i, j)
      && G.vertices <= {a, b, c, d, e, f, g, h, i, j}
      && Graphs.Valid(G)
  {
    var es := MediumEdges(a, b, c, d, e, f, g, h, i, j);
    BuildFacts(NewGraph(10), Calls(es));
    CallsBuild(es);
    var S := {a, b, c, d, e, f, g, h, i, j};
    forall x | x in es
      ensures x.from in S && x.to in S
    {
      MediumEnds(a, b, c, d, e, f, g, h, i, j, x);
    }
    NamesWithin(es, S);
  }

  /** The medium graph is connected. */
  lemma MediumConnected(a: string, b: string, c: string, d: string, e: string,
                        f: string, g: string, h: string, i: string, j: string)
    ensures Graphs.Connected(Medium(a, b, c, d, e, f, g, h, i, j))
  {
    var M := Medium(a, b, c, d, e, f, g, h, i, j);
    MediumShape(a, b, c, d, e, f, g, h, i, j);
    TenNames(M.vertices, a, b, c, d, e, f, g, h, i, j);
    MediumSpans(M.vertices, a, b, c, d, e, f, g, h, i, j);
  }

  /** Every edge joins two of the ten names. */
  lemma MediumInside(V: set<string>, a: string, b: string, c: string, d: string, e: string,
                     f: string, g: string, h: string, i: string, j: string)
    requires a in V && b in V && c in V && d in V && e in V
    requires f in V && g in V && h in V && i in V && j in V
    ensures Inside(V, MediumEdges(a, b, c, d, e, f, g, h, i, j))
  {
    forall x | x in MediumEdges(a, b, c, d, e, f, g, h, i, j)
      ensures x.from in V && x.to in V
    {
      MediumEnds(a, b, c, d, e, f, g, h, i, j, x);
    }
  }

  /** Any vertex set made of exactly the ten names is connected by the
      fifteen edges: following edges from `a` reaches every name. */
  lemma MediumSpans(V: set<string>, a: string, b: string, c: string, d: string, e: string,
                    f: string, g: string, h: string, i: string, j: string)
    requires a in V && b in V && c in V && d in V && e in V
    requires f in V && g in V && h in V && i in V && j in V
    requires forall y :: y in V ==> AmongTen(y, a, b, c, d, e, f, g, h, i, j)
    ensures Spans(V, MediumEdges(a, b, c, d, e, f, g, h, i, j))
  {
    var G := MediumEdges(a, b, c, d, e, f, g, h, i, j);
    MediumInside(V, a, b, c, d, e, f, g, h, i, j);
    LinkedRefl(V, G, a);
    LinkedEdge(V, G, Edge(a, b, 4));
    LinkedEdge(V, G, Edge(a, c, 3));
    LinkedEdge(V, G, Edge(b, d, 5));
    LinkedTrans(V, G, a, b, d);
    LinkedEdge(V, G, Edge(c, e, 8));
    LinkedTrans(V, G, a, c, e);
    LinkedEdge(V, G, Edge(a, f, 10));
    LinkedEdge(V, G, Edge(f, g, 3));
    LinkedTrans(V, G, a, f, g);
    LinkedEdge(V, G, Edge(g, h, 1));
    LinkedTrans(V, G, a, g, h);
    LinkedEdge(V, G, Edge(h, i, 4));
    LinkedTrans(V, G, a, h, i);
    LinkedEdge(V, G, Edge(i, j, 2));
    LinkedTrans(V, G, a, i, j);
    forall y | y in V
      ensures Linked(V, G, a, y)
    {
      assert AmongTen(y, a, b, c, d, e, f, g, h, i, j);
    }
    HubSpans(V, G, a);
  }

  /** `y` is one of the ten names. */
  predicate AmongTen(y: string, a: string, b: string, c: string, d: string, e: string,
                     f: string, g: string, h: string, i: string, j: string)
  {
    y == a || y == b || y == c || y == d || y == e
    || y == f || y == g || y == h || y == i || y == j
  }

  /** A vertex set inside the ten-name set holds only the ten names. */
  lemma TenNames(V: set<string>, a: string, b: string, c: string, d: string, e: string,
                 f: string, g: string, h: string, i: string, j: string)
    requires V <= {a, b, c, d, e, f, g, h, i, j}
    ensures forall y :: y in V ==> AmongTen(y, a, b, c, d, e, f, g, h, i, j)
  {
  }

  /** Edges linking one hub to every vertex connect the graph. */
  lemma HubSpans(V: set<string>, G: seq<Edge>, hub: string)
    requires Inside(V, G)
    requires forall y :: y in V ==> Linked(V, G, hub, y)
    ensures Spans(V, G)
  {
    forall x, y | x in V && y in V
      ensures Linked(V, G, x, y)
    {
      LinkedSym(V, G, hub, x);
      LinkedTrans(V, G, x, hub, y);
    }
  }

  /** The medium test: both algorithms agree on the cost, and the growth
      algorithm keeps one edge fewer than there are vertices. */
  method MediumCost(a: string, b: string, c: string, d: string, e: string,
                    f: string, g: string, h: string, i: string, j: string)
    returns (k: MstResult, p: MstResult)
    ensures p.totalCost == k.totalCost
    ensures |p.edges| == |Medium(a, b, c, d, e, f, g, h, i, j).vertices| - 1
    ensures |k.edges| == |p.edges|
  {
    var M := Medium(a, b, c, d, e, f, g, h, i, j);
    MediumShape(a, b, c, d, e, f, g, h, i, j);
    MediumConnected(a, b, c, d, e, f, g, h, i, j);
    k, p := BothAlgorithms(M);
  }

  /** The test's own names. */
  method TestMedium() returns (k: MstResult, p: MstResult)
    ensures p.totalCost == k.totalCost
    ensures |p.edges| == |Medium("A", "B", "C", "D", "E", "F", "G", "H", "I", "J").vertices| - 1
  {
    k, p := MediumCost("A", "B", "C", "D", "E", "F", "G", "H", "I", "J");
  }

  /** A graph with no vertices gives no edges and cost 0, in both algorithms. */
  method EmptyGraph() returns (k: MstResult, p: MstResult)
    ensures k == MstResult([], 0) && p == MstResult([], 0)
  {
    var g := NewGraph(999);
    k := Kruskal.FindMst(g);
    ghost var visited;
    p, visited := Prim.FindMst(g);
  }

  /** A single vertex gives no edges and cost 0, in both algorithms. */
  method SingleVertex() returns (k: MstResult, p: MstResult)
    ensures k.edges == [] && k.totalCost == 0
    ensures p.edges == [] && p.totalCost == 0
  {
    var g := AddVertex(NewGraph(998), "A");
    AddVertexValid(NewGraph(998), "A");
    assert Connected(g) by {
      forall a, b | a in g.vertices && b in g.vertices
        ensures Linked(g.vertices, g.edges, a, b)
      {
        LinkedRefl(g.vertices, g.edges, a);
      }
    }
    k, p := BothAlgorithms(g);
  }
}
