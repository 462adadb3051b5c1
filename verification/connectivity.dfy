/** Connectivity of undirected edge lists over a finite vertex set.

    Two vertices are linked when every vertex set that is closed under the
    edges (each edge has both endpoints inside or both outside) and contains
    the first also contains the second: the least-fixpoint reading of "there
    is a path".  Closure ignores edge orientation, so an edge and its
    reversed adjacency copy link the same vertices. */
module Connectivity {
  import opened Edges
  import opened SetFacts

  /** Every edge of `es` has both endpoints in `V`. */
  ghost predicate Inside(V: set<string>, es: seq<Edge>) {
    forall e :: e in es ==> e.from in V && e.to in V
  }

  /** Without vertices there is no room for an edge. */
  lemma InsideNothing(es: seq<Edge>)
    ensures Inside({}, es) ==> es == []
  {
    if es != [] {
      assert es[0] in es;
    }
  }

  /** No edge of `es` crosses the boundary of `S`. */
  ghost predicate Closed(es: seq<Edge>, S: set<string>) {
    forall e :: e in es ==> (e.from in S <==> e.to in S)
  }

  /** `a` and `b` lie in the same connected component of `(V, es)`. */
  ghost predicate Linked(V: set<string>, es: seq<Edge>, a: string, b: string) {
    && a in V && b in V
    && forall S {:trigger Closed(es, S)} :: S <= V && Closed(es, S) && a in S ==> b in S
  }

  /** Each edge of `es1` occurs in `es2` in one orientation or the other. */
  ghost predicate Covered(es1: seq<Edge>, es2: seq<Edge>) {
    forall e :: e in es1 ==> e in es2 || Reverse(e) in es2
  }

  /** Every pair of vertices of `V` is linked: `(V, es)` is connected. */
  ghost predicate Spans(V: set<string>, es: seq<Edge>) {
    forall a, b :: a in V && b in V ==> Linked(V, es, a, b)
  }

  /** No edge closes a cycle with the edges before it. */
  ghost predicate Forest(V: set<string>, es: seq<Edge>) {
    forall k :: 0 <= k < |es| ==> !Linked(V, es[..k], es[k].from, es[k].to)
  }

  /** An acyclic edge list that connects all of `V`. */
  ghost predicate SpanningTree(V: set<string>, es: seq<Edge>) {
    Inside(V, es) && Forest(V, es) && Spans(V, es)
  }

  lemma LinkedRefl(V: set<string>, es: seq<Edge>, a: string)
    requires a in V
    ensures Linked(V, es, a, a)
  {
  }

  lemma LinkedTrans(V: set<string>, es: seq<Edge>, a: string, b: string, c: string)
    requires Linked(V, es, a, b) && Linked(V, es, b, c)
    ensures Linked(V, es, a, c)
  {
  }

  /** Linking is symmetric: the complement of a closed set is closed. */
  lemma LinkedSym(V: set<string>, es: seq<Edge>, a: string, b: string)
    requires Inside(V, es)
    requires Linked(V, es, a, b)
    ensures Linked(V, es, b, a)
  {
    forall S | S <= V && Closed(es, S) && b in S
      ensures a in S
    {
      var C := V - S;
      assert Closed(es, C);
      assert b !in C;
    }
  }

  /** The endpoints of an edge are linked, in both directions. */
  lemma LinkedEdge(V: set<string>, es: seq<Edge>, e: Edge)
    requires e in es && e.from in V && e.to in V
    ensures Linked(V, es, e.from, e.to) && Linked(V, es, e.to, e.from)
  {
  }

  lemma ClosedCovered(es1: seq<Edge>, es2: seq<Edge>, S: set<string>)
    requires Covered(es1, es2) && Closed(es2, S)
    ensures Closed(es1, S)
  {
    forall e | e in es1
      ensures e.from in S <==> e.to in S
    {
      if e !in es2 {
        assert Reverse(e) in es2;
      }
    }
  }

  /** More edges (in either orientation) link at least as much. */
  lemma LinkedMono(V: set<string>, es1: seq<Edge>, es2: seq<Edge>, a: string, b: string)
    requires Covered(es1, es2)
    requires Linked(V, es1, a, b)
    ensures Linked(V, es2, a, b)
  {
    forall S | S <= V && Closed(es2, S) && a in S
      ensures b in S
    {
      ClosedCovered(es1, es2, S);
    }
  }

  /** Storing an edge in either orientation links the same vertices. */
  lemma ReverseLinksSame(V: set<string>, es: seq<Edge>, e: Edge, a: string, b: string)
    ensures Linked(V, es + [e], a, b) <==> Linked(V, es + [Reverse(e)], a, b)
  {
    var fwd, bwd := es + [e], es + [Reverse(e)];
    assert forall x :: x in fwd ==> x in es || x == e;
    assert forall x :: x in bwd ==> x in es || x == Reverse(e);
    ReverseInvolution(e);
    assert Covered(fwd, bwd) && Covered(bwd, fwd);
    if Linked(V, fwd, a, b) {
      LinkedMono(V, fwd, bwd, a, b);
    }
    if Linked(V, bwd, a, b) {
      LinkedMono(V, bwd, fwd, a, b);
    }
  }

  lemma CoveredPrefix(es: seq<Edge>, k: nat)
    requires k <= |es|
    ensures Covered(es[..k], es)
  {
    forall e | e in es[..k]
      ensures e in es
    {
      var i :| 0 <= i < k && es[..k][i] == e;
      assert es[i] == e;
    }
  }

  lemma CoveredAppend(es: seq<Edge>, e: Edge)
    ensures Covered(es, es + [e])
    ensures e in es + [e]
  {
  }

  /** If the edges of `es2` link the endpoints of every edge of `es1`,
      then `es2` links whatever `es1` links. */
  lemma LinkedVia(V: set<string>, es1: seq<Edge>, es2: seq<Edge>, a: string, b: string)
    requires Inside(V, es2)
    requires forall e :: e in es1 ==> Linked(V, es2, e.from, e.to)
    requires Linked(V, es1, a, b)
    ensures Linked(V, es2, a, b)
  {
    forall S | S <= V && Closed(es2, S) && a in S
      ensures b in S
    {
      forall e | e in es1
        ensures e.from in S <==> e.to in S
      {
        assert Linked(V, es2, e.from, e.to);
        LinkedSym(V, es2, e.from, e.to);
      }
      assert Closed(es1, S);
    }
  }

  /** Walking along one edge of `es` does not change what `w` is linked to. */
  lemma StepAlong(V: set<string>, es: seq<Edge>, w: string, f: Edge)
    requires Inside(V, es) && f in es
    ensures Linked(V, es, w, f.from) <==> Linked(V, es, w, f.to)
  {
    LinkedEdge(V, es, f);
    if Linked(V, es, w, f.from) {
      LinkedTrans(V, es, w, f.from, f.to);
    }
    if Linked(V, es, w, f.to) {
      LinkedTrans(V, es, w, f.to, f.from);
    }
  }

  /** What one extra edge `e` adds: a link through `e`, in either direction. */
  lemma LinkedAppend(V: set<string>, es: seq<Edge>, e: Edge, x: string, y: string)
    requires Inside(V, es + [e])
    ensures Linked(V, es + [e], x, y) <==>
      || Linked(V, es, x, y)
      || (Linked(V, es, x, e.from) && Linked(V, es, e.to, y))
      || (Linked(V, es, x, e.to) && Linked(V, es, e.from, y))
  {
    var es' := es + [e];
    CoveredAppend(es, e);
    assert Inside(V, es);
    if Linked(V, es', x, y) {
      var R := set z | z in V &&
        (|| Linked(V, es, x, z)
         || (Linked(V, es, x, e.from) && Linked(V, es, e.to, z))
         || (Linked(V, es, x, e.to) && Linked(V, es, e.from, z)));
      forall f | f in es
        ensures f.from in R <==> f.to in R
      {
        StepAlong(V, es, x, f);
        StepAlong(V, es, e.to, f);
        StepAlong(V, es, e.from, f);
      }
      LinkedRefl(V, es, e.from);
      LinkedRefl(V, es, e.to);
      assert e.from in R <==> e.to in R;
      assert Closed(es', R);
      LinkedRefl(V, es, x);
      assert x in R;
      assert y in R;
    } else {
      if Linked(V, es, x, y) {
        LinkedMono(V, es, es', x, y);
      }
      LinkedEdge(V, es', e);
      if Linked(V, es, x, e.from) && Linked(V, es, e.to, y) {
        LinkedMono(V, es, es', x, e.from);
        LinkedMono(V, es, es', e.to, y);
        LinkedTrans(V, es', x, e.from, e.to);
        LinkedTrans(V, es', x, e.to, y);
      }
      if Linked(V, es, x, e.to) && Linked(V, es, e.from, y) {
        LinkedMono(V, es, es', x, e.to);
        LinkedMono(V, es, es', e.from, y);
        LinkedTrans(V, es', x, e.to, e.from);
        LinkedTrans(V, es', x, e.from, y);
      }
    }
  }

  /** A cut argument: if `x` inside `W` is linked to `v` outside it, some
      edge crosses the boundary of `W`. */
  lemma CrossingEdge(V: set<string>, es: seq<Edge>, W: set<string>, x: string, v: string)
    requires W <= V && x in W && v !in W
    requires Linked(V, es, x, v)
    ensures exists c :: c in es && (c.from in W) != (c.to in W)
  {
    if forall c :: c in es ==> (c.from in W) == (c.to in W) {
      assert Closed(es, W);
    }
  }

  /** Appending an edge keeps a forest acyclic exactly when its endpoints
      were not already linked. */
  lemma ForestAppend(V: set<string>, es: seq<Edge>, e: Edge)
    ensures Forest(V, es + [e]) <==> Forest(V, es) && !Linked(V, es, e.from, e.to)
  {
    var es' := es + [e];
    assert es'[..|es|] == es;
    forall k | 0 <= k < |es|
      ensures es'[..k] == es[..k] && es'[k] == es[k]
    {
    }
  }

  // ---------------------------------------------------------------------
  // Components

  /** The component of `v`. */
  ghost function Class(V: set<string>, es: seq<Edge>, v: string): set<string> {
    set u | u in V && Linked(V, es, v, u)
  }

  /** The set of components of `(V, es)`. */
  ghost function Classes(V: set<string>, es: seq<Edge>): set<set<string>> {
    set v | v in V :: Class(V, es, v)
  }

  lemma ClassOfLinked(V: set<string>, es: seq<Edge>, v: string, w: string)
    requires Inside(V, es) && Linked(V, es, v, w)
    ensures Class(V, es, v) == Class(V, es, w)
  {
    LinkedSym(V, es, v, w);
    forall u | u in V
      ensures Linked(V, es, v, u) <==> Linked(V, es, w, u)
    {
      if Linked(V, es, v, u) {
        LinkedTrans(V, es, w, v, u);
      }
      if Linked(V, es, w, u) {
        LinkedTrans(V, es, v, w, u);
      }
    }
  }

  lemma SingletonsCard(V: set<string>)
    ensures |set v | v in V :: {v}| == |V|
    decreases |V|
  {
    if V != {} {
      var x :| x in V;
      SingletonsCard(V - {x});
      assert (set v | v in V :: {v}) == (set v | v in V - {x} :: {v}) + {{x}};
      assert {x} !in (set v | v in V - {x} :: {v});
    }
  }

  /** Without edges every vertex is its own component. */
  lemma NoEdgeClasses(V: set<string>)
    ensures |Classes(V, [])| == |V|
  {
    forall v | v in V
      ensures Class(V, [], v) == {v}
    {
      assert Closed([], {v});
      LinkedRefl(V, [], v);
    }
    assert Classes(V, []) == set v | v in V :: {v};
    SingletonsCard(V);
  }

  /** The component of `v` once `e` is added. */
  lemma AppendClass(V: set<string>, es: seq<Edge>, e: Edge, v: string)
    requires Inside(V, es + [e]) && v in V
    ensures Class(V, es + [e], v) ==
      Class(V, es, v)
      + (if Linked(V, es, v, e.from) then Class(V, es, e.to) else {})
      + (if Linked(V, es, v, e.to) then Class(V, es, e.from) else {})
  {
    forall u | u in V
      ensures Linked(V, es + [e], v, u) <==>
        || Linked(V, es, v, u)
        || (Linked(V, es, v, e.from) && Linked(V, es, e.to, u))
        || (Linked(V, es, v, e.to) && Linked(V, es, e.from, u))
    {
      LinkedAppend(V, es, e, v, u);
    }
  }

  /** The component of `v` after adding `e` between two different components:
      the merged one for a vertex of either, the old one for any other. */
  lemma MergedClassOf(V: set<string>, es: seq<Edge>, e: Edge, v: string)
    requires Inside(V, es + [e]) && v in V
    requires !Linked(V, es, e.from, e.to)
    ensures v in Class(V, es, e.from) + Class(V, es, e.to) ==>
      Class(V, es + [e], v) == Class(V, es, e.from) + Class(V, es, e.to)
    ensures v !in Class(V, es, e.from) + Class(V, es, e.to) ==>
      Class(V, es + [e], v) == Class(V, es, v)
  {
    CoveredAppend(es, e);
    assert Inside(V, es);
    var A := Class(V, es, e.from);
    var B := Class(V, es, e.to);
    AppendClass(V, es, e, v);
    if v in A {
      ClassOfLinked(V, es, e.from, v);
      LinkedSym(V, es, e.from, v);
      if Linked(V, es, v, e.to) {
        LinkedTrans(V, es, e.from, v, e.to);
      }
    } else if v in B {
      ClassOfLinked(V, es, e.to, v);
      LinkedSym(V, es, e.to, v);
      if Linked(V, es, v, e.from) {
        LinkedTrans(V, es, e.to, v, e.from);
        LinkedSym(V, es, e.to, e.from);
      }
    } else {
      if Linked(V, es, v, e.from) {
        LinkedSym(V, es, v, e.from);
      }
      if Linked(V, es, v, e.to) {
        LinkedSym(V, es, v, e.to);
      }
    }
  }

  /** The old components other than the two merged ones survive unchanged. */
  lemma UntouchedClasses(V: set<string>, es: seq<Edge>, e: Edge)
    requires Inside(V, es + [e])
    requires !Linked(V, es, e.from, e.to)
    ensures forall C :: C in Classes(V, es) - {Class(V, es, e.from)} - {Class(V, es, e.to)} ==>
      C in Classes(V, es + [e]) && C != Class(V, es, e.from) + Class(V, es, e.to)
  {
    CoveredAppend(es, e);
    assert Inside(V, es);
    var A := Class(V, es, e.from);
    var B := Class(V, es, e.to);
    forall C | C in Classes(V, es) - {A} - {B}
      ensures C in Classes(V, es + [e]) && C != A + B
    {
      var v :| v in V && C == Class(V, es, v);
      if v in A {
        ClassOfLinked(V, es, e.from, v);
      } else if v in B {
        ClassOfLinked(V, es, e.to, v);
      }
      LinkedRefl(V, es, v);
      assert v in C && v !in A + B;
      MergedClassOf(V, es, e, v);
      assert Class(V, es + [e], v) == C;
    }
  }

  /** Every new component is the merged one or an untouched old one. */
  lemma NewClasses(V: set<string>, es: seq<Edge>, e: Edge)
    requires Inside(V, es + [e])
    requires !Linked(V, es, e.from, e.to)
    ensures Classes(V, es + [e]) ==
      (Classes(V, es) - {Class(V, es, e.from)} - {Class(V, es, e.to)})
      + {Class(V, es, e.from) + Class(V, es, e.to)}
  {
    CoveredAppend(es, e);
    assert Inside(V, es);
    var A := Class(V, es, e.from);
    var B := Class(V, es, e.to);
    var Rest := Classes(V, es) - {A} - {B};
    UntouchedClasses(V, es, e);
    forall C | C in Classes(V, es + [e])
      ensures C in Rest + {A + B}
    {
      var v :| v in V && C == Class(V, es + [e], v);
      MergedClassOf(V, es, e, v);
      if v !in A + B {
        LinkedRefl(V, es, v);
        assert Class(V, es, v) != A && Class(V, es, v) != B;
        assert Class(V, es, v) in Rest;
      }
    }
    LinkedRefl(V, es, e.from);
    MergedClassOf(V, es, e, e.from);
    assert A + B in Classes(V, es + [e]);
  }

  /** Adding an edge between two components merges exactly those two. */
  lemma MergeClasses(V: set<string>, es: seq<Edge>, e: Edge)
    requires Inside(V, es + [e])
    requires !Linked(V, es, e.from, e.to)
    ensures |Classes(V, es + [e])| == |Classes(V, es)| - 1
  {
    CoveredAppend(es, e);
    assert Inside(V, es);
    var A := Class(V, es, e.from);
    var B := Class(V, es, e.to);
    LinkedRefl(V, es, e.from);
    LinkedRefl(V, es, e.to);
    assert e.to in B && e.to !in A;
    var Old := Classes(V, es);
    assert A in Old && B in Old;
    var Rest := Old - {A} - {B};
    NewClasses(V, es, e);
    UntouchedClasses(V, es, e);
    assert A + B !in Rest;
    assert |Old - {A}| == |Old| - 1;
    assert |Rest| == |Old| - 2;
  }

  /** A forest with `k` edges over `V` leaves `|V| - k` components. */
  lemma {:induction false} ForestComponents(V: set<string>, es: seq<Edge>)
    requires Inside(V, es) && Forest(V, es)
    ensures |Classes(V, es)| + |es| == |V|
    decreases |es|
  {
    if es == [] {
      NoEdgeClasses(V);
    } else {
      var es' := es[..|es| - 1];
      var e := es[|es| - 1];
      assert es == es' + [e];
      ForestAppend(V, es', e);
      assert Inside(V, es');
      ForestComponents(V, es');
      MergeClasses(V, es', e);
    }
  }

  /** Two edge lists that link the same pairs have the same components. */
  lemma SameLinksSameClasses(V: set<string>, es1: seq<Edge>, es2: seq<Edge>)
    requires forall a, b :: Linked(V, es1, a, b) <==> Linked(V, es2, a, b)
    ensures Classes(V, es1) == Classes(V, es2)
  {
    forall v | v in V
      ensures Class(V, es1, v) == Class(V, es2, v)
    {
    }
  }

  /** A spanning tree over a non-empty vertex set has `|V| - 1` edges. */
  lemma SpanningTreeSize(V: set<string>, es: seq<Edge>)
    requires SpanningTree(V, es) && V != {}
    ensures |es| == |V| - 1
  {
    forall v | v in V
      ensures Class(V, es, v) == V
    {
    }
    var v :| v in V;
    assert Classes(V, es) == {V};
    ForestComponents(V, es);
  }

  /** A forest over a non-empty `V` has fewer than `|V|` edges, and one with
      exactly `|V| - 1` edges connects all of `V`. */
  lemma ForestSize(V: set<string>, es: seq<Edge>)
    requires Inside(V, es) && Forest(V, es) && V != {}
    ensures |es| <= |V| - 1
    ensures |es| == |V| - 1 ==> Spans(V, es)
  {
    ForestComponents(V, es);
    var v :| v in V;
    assert Class(V, es, v) in Classes(V, es);
    if |es| == |V| - 1 {
      forall a, b | a in V && b in V
        ensures Linked(V, es, a, b)
      {
        assert Class(V, es, a) in Classes(V, es) && Class(V, es, b) in Classes(V, es);
        assert |Classes(V, es)| == 1;
        assert Class(V, es, a) == Class(V, es, b) by {
          var C :| C in Classes(V, es);
          assert Classes(V, es) == {C} by {
            forall D | D in Classes(V, es) ensures D == C {
              if D != C {
                assert {C, D} <= Classes(V, es);
                assert |{C, D}| == 2;
                SubsetCard({C, D}, Classes(V, es));
              }
            }
          }
        }
        LinkedRefl(V, es, b);
        assert b in Class(V, es, b);
      }
    }
  }

  /** The vertices reachable under `es` from some member of `C`. */
  ghost function Widen(V: set<string>, es: seq<Edge>, C: set<string>): set<string> {
    set u | u in V && exists w :: w in C && Linked(V, es, w, u)
  }

  lemma WidenClass(V: set<string>, es1: seq<Edge>, es2: seq<Edge>, v: string)
    requires v in V
    requires forall a, b :: Linked(V, es1, a, b) ==> Linked(V, es2, a, b)
    ensures Widen(V, es2, Class(V, es1, v)) == Class(V, es2, v)
  {
    LinkedRefl(V, es1, v);
    forall u | u in Widen(V, es2, Class(V, es1, v))
      ensures u in Class(V, es2, v)
    {
      var w :| w in Class(V, es1, v) && Linked(V, es2, w, u);
      LinkedTrans(V, es2, v, w, u);
    }
  }

  /** Widening each set of `S` gives at most `|S|` sets. */
  lemma {:induction false} WidenCard(V: set<string>, es: seq<Edge>, S: set<set<string>>)
    ensures |set C | C in S :: Widen(V, es, C)| <= |S|
    decreases |S|
  {
    if S != {} {
      var C :| C in S;
      var S' := S - {C};
      WidenCard(V, es, S');
      var image := set D | D in S :: Widen(V, es, D);
      var image' := set D | D in S' :: Widen(V, es, D);
      assert image <= image' + {Widen(V, es, C)};
      SubsetCard(image, image' + {Widen(V, es, C)});
    }
  }

  /** An edge list that links at least what another links has at most as
      many components. */
  lemma FewerClasses(V: set<string>, es1: seq<Edge>, es2: seq<Edge>)
    requires forall a, b :: Linked(V, es1, a, b) ==> Linked(V, es2, a, b)
    ensures |Classes(V, es2)| <= |Classes(V, es1)|
  {
    var image := set C | C in Classes(V, es1) :: Widen(V, es2, C);
    forall D | D in Classes(V, es2)
      ensures D in image
    {
      var v :| v in V && D == Class(V, es2, v);
      WidenClass(V, es1, es2, v);
      assert Class(V, es1, v) in Classes(V, es1);
    }
    forall D | D in image
      ensures D in Classes(V, es2)
    {
      var C :| C in Classes(V, es1) && D == Widen(V, es2, C);
      var v :| v in V && C == Class(V, es1, v);
      WidenClass(V, es1, es2, v);
    }
    assert Classes(V, es2) == image;
    WidenCard(V, es2, Classes(V, es1));
  }
}
