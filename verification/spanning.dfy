/** Minimum spanning forests, characterised by weight thresholds.

    A forest `F` drawn from the edges `G` is minimum when, for every weight
    `t`, the edges of `F` no heavier than `t` link everything the edges of
    `G` no heavier than `t` link.  Two such forests have the same number of
    edges of each weight, hence the same cost: this is why the growth
    algorithm and the sorted-edge algorithm report the same total. */
module Spanning {
  import opened Edges
  import opened Connectivity

  /** What both algorithms return: the chosen edges and their total weight.
      Operation counts and timings are not modelled. */
  datatype MstResult = MstResult(edges: seq<Edge>, totalCost: int)

  /** The edges of `es` whose weight is at most `t`, in order. */
  function AtMost(es: seq<Edge>, t: int): (r: seq<Edge>)
    ensures forall e :: e in r <==> e in es && e.weight <= t
    ensures |r| <= |es|
  {
    if es == [] then []
    else
      var es' := es[..|es| - 1];
      assert es == es' + [es[|es| - 1]];
      AtMost(es', t) + (if es[|es| - 1].weight <= t then [es[|es| - 1]] else [])
  }

  lemma AtMostAppend(es: seq<Edge>, e: Edge, t: int)
    ensures AtMost(es + [e], t) == AtMost(es, t) + (if e.weight <= t then [e] else [])
  {
    assert (es + [e])[..|es|] == es;
  }

  /** When no edge is heavier than `t` the filter keeps everything. */
  lemma {:induction false} AtMostAll(es: seq<Edge>, t: int)
    requires forall e :: e in es ==> e.weight <= t
    ensures AtMost(es, t) == es
  {
    if es != [] {
      var es' := es[..|es| - 1];
      assert es == es' + [es[|es| - 1]];
      AtMostAll(es', t);
    }
  }

  /** `F` is a minimum spanning forest of `G` over `V`. */
  ghost predicate MinimumSpanning(V: set<string>, G: seq<Edge>, F: seq<Edge>) {
    && Inside(V, F)
    && Forest(V, F)
    && Covered(F, G)
    && forall t, x, y :: Linked(V, AtMost(G, t), x, y) ==> Linked(V, AtMost(F, t), x, y)
  }

  lemma CoveredAtMost(F: seq<Edge>, G: seq<Edge>, t: int)
    requires Covered(F, G)
    ensures Covered(AtMost(F, t), AtMost(G, t))
    ensures Covered(AtMost(F, t), F)
  {
  }

  /** Dropping the heavy edges of a forest leaves a forest. */
  lemma {:induction false} ForestAtMost(V: set<string>, es: seq<Edge>, t: int)
    requires Forest(V, es)
    ensures Forest(V, AtMost(es, t))
  {
    if es != [] {
      var es' := es[..|es| - 1];
      var e := es[|es| - 1];
      assert es == es' + [e];
      ForestAppend(V, es', e);
      ForestAtMost(V, es', t);
      AtMostAppend(es', e, t);
      var A := AtMost(es', t);
      if e.weight <= t {
        assert !Linked(V, A, e.from, e.to) by {
          if Linked(V, A, e.from, e.to) {
            LinkedMono(V, A, es', e.from, e.to);
          }
        }
        ForestAppend(V, A, e);
        assert AtMost(es, t) == A + [e];
      } else {
        assert AtMost(es, t) == A;
      }
    }
  }

  /** Edges of weight exactly `w` are the difference of two thresholds. */
  lemma {:induction false} AtMostStep(es: seq<Edge>, w: int)
    ensures |AtMost(es, w)| == |AtMost(es, w - 1)| + multiset(Weights(es))[w]
  {
    if es != [] {
      var es' := es[..|es| - 1];
      var e := es[|es| - 1];
      assert es == es' + [e];
      AtMostStep(es', w);
      AtMostAppend(es', e, w);
      AtMostAppend(es', e, w - 1);
      assert Weights(es) == Weights(es') + [e.weight];
      assert multiset(Weights(es)) == multiset(Weights(es')) + multiset{e.weight};
      if e.weight == w {
        assert multiset(Weights(es))[w] == multiset(Weights(es'))[w] + 1;
      } else {
        assert multiset(Weights(es))[w] == multiset(Weights(es'))[w];
      }
    }
  }

  /** Edge lists with equally many edges below every threshold carry the
      same multiset of weights, hence the same total weight. */
  lemma SameCountsSameCost(F1: seq<Edge>, F2: seq<Edge>)
    requires forall t :: |AtMost(F1, t)| == |AtMost(F2, t)|
    ensures multiset(Weights(F1)) == multiset(Weights(F2))
    ensures SumWeights(F1) == SumWeights(F2)
    ensures |F1| == |F2|
  {
    forall w
      ensures multiset(Weights(F1))[w] == multiset(Weights(F2))[w]
    {
      AtMostStep(F1, w);
      AtMostStep(F2, w);
    }
    assert multiset(Weights(F1)) == multiset(Weights(F2));
    SumWeightsIsSumOfWeights(F1);
    SumWeightsIsSumOfWeights(F2);
    SumPermutation(Weights(F1), Weights(F2));
    assert |Weights(F1)| == |multiset(Weights(F1))|;
    assert |Weights(F2)| == |multiset(Weights(F2))|;
  }

  /** Two minimum spanning forests keep equally many edges below any threshold. */
  lemma SameCountAtMost(V: set<string>, G: seq<Edge>, F1: seq<Edge>, F2: seq<Edge>, t: int)
    requires Inside(V, G)
    requires MinimumSpanning(V, G, F1) && MinimumSpanning(V, G, F2)
    ensures |AtMost(F1, t)| == |AtMost(F2, t)|
  {
    var A1, A2 := AtMost(F1, t), AtMost(F2, t);
    CoveredAtMost(F1, G, t);
    CoveredAtMost(F2, G, t);
    forall a, b
      ensures Linked(V, A1, a, b) <==> Linked(V, A2, a, b)
    {
      if Linked(V, A1, a, b) {
        LinkedMono(V, A1, AtMost(G, t), a, b);
      }
      if Linked(V, A2, a, b) {
        LinkedMono(V, A2, AtMost(G, t), a, b);
      }
    }
    SameLinksSameClasses(V, A1, A2);
    ForestAtMost(V, F1, t);
    ForestAtMost(V, F2, t);
    ForestComponents(V, A1);
    ForestComponents(V, A2);
  }

  /** All minimum spanning forests of a graph have the same size and cost. */
  lemma SameCost(V: set<string>, G: seq<Edge>, F1: seq<Edge>, F2: seq<Edge>)
    requires Inside(V, G)
    requires MinimumSpanning(V, G, F1) && MinimumSpanning(V, G, F2)
    ensures |F1| == |F2|
    ensures SumWeights(F1) == SumWeights(F2)
  {
    forall t
      ensures |AtMost(F1, t)| == |AtMost(F2, t)|
    {
      SameCountAtMost(V, G, F1, F2, t);
    }
    SameCountsSameCost(F1, F2);
  }

  /** Raising the threshold keeps every edge already kept. */
  lemma AtMostMono(es: seq<Edge>, s: int, t: int)
    requires s <= t
    ensures Covered(AtMost(es, s), AtMost(es, t))
  {
  }

  /** The cycle-property reading of minimality: a forest drawn from `G` is
      minimum when every edge of `G` has its endpoints linked by the forest
      edges no heavier than it. */
  lemma ThresholdMinimum(V: set<string>, G: seq<Edge>, F: seq<Edge>)
    requires Inside(V, F) && Forest(V, F) && Covered(F, G)
    requires forall e :: e in G ==> Linked(V, AtMost(F, e.weight), e.from, e.to)
    ensures MinimumSpanning(V, G, F)
  {
    forall t, x, y | Linked(V, AtMost(G, t), x, y)
      ensures Linked(V, AtMost(F, t), x, y)
    {
      forall e | e in AtMost(G, t)
        ensures Linked(V, AtMost(F, t), e.from, e.to)
      {
        AtMostMono(F, e.weight, t);
        LinkedMono(V, AtMost(F, e.weight), AtMost(F, t), e.from, e.to);
      }
      LinkedVia(V, AtMost(G, t), AtMost(F, t), x, y);
    }
  }

  /** The largest weight in `es`, or 0 when there is none. */
  function MaxWeight(es: seq<Edge>): (m: int)
    ensures forall e :: e in es ==> e.weight <= m
  {
    if es == [] then 0
    else
      var m := MaxWeight(es[1..]);
      assert forall e :: e in es ==> e == es[0] || e in es[1..];
      if es[0].weight > m then es[0].weight else m
  }

  /** A minimum spanning forest of a connected graph connects everything. */
  lemma MinimumSpanningSpans(V: set<string>, G: seq<Edge>, F: seq<Edge>)
    requires MinimumSpanning(V, G, F) && Spans(V, G)
    ensures Spans(V, F)
  {
    var t := MaxWeight(G);
    AtMostAll(G, t);
    forall a, b | a in V && b in V
      ensures Linked(V, F, a, b)
    {
      assert Linked(V, AtMost(G, t), a, b);
      CoveredAtMost(F, G, t);
      LinkedMono(V, AtMost(F, t), F, a, b);
    }
  }

  // ---------------------------------------------------------------------
  // Minimum cost

  /** A spanning forest of `G`: acyclic graph edges linking whatever `G` links. */
  ghost predicate SpanningForestOf(V: set<string>, G: seq<Edge>, T: seq<Edge>) {
    && Inside(V, T)
    && Forest(V, T)
    && Covered(T, G)
    && forall x, y :: Linked(V, G, x, y) ==> Linked(V, T, x, y)
  }

  /** The smallest weight in `es`, or 0 when there is none. */
  function MinWeight(es: seq<Edge>): (m: int)
    ensures forall e :: e in es ==> m <= e.weight
  {
    if es == [] then 0
    else
      var m := MinWeight(es[1..]);
      assert forall e :: e in es ==> e == es[0] || e in es[1..];
      if es[0].weight < m then es[0].weight else m
  }

  /** The sum of `|AtMost(es, t)|` over the thresholds `lo <= t < hi`. */
  function BelowSum(es: seq<Edge>, lo: int, hi: int): int
    decreases hi - lo
  {
    if hi <= lo then 0 else BelowSum(es, lo, hi - 1) + |AtMost(es, hi - 1)|
  }

  /** An edge of weight `w >= lo` counts once for each threshold in `[w, hi)`. */
  lemma {:induction false} BelowSumAppend(es: seq<Edge>, e: Edge, lo: int, hi: int)
    requires lo <= e.weight
    ensures BelowSum(es + [e], lo, hi) == BelowSum(es, lo, hi) + (if e.weight < hi then hi - e.weight else 0)
    decreases hi - lo
  {
    if hi > lo {
      BelowSumAppend(es, e, lo, hi - 1);
      AtMostAppend(es, e, hi - 1);
      assert |AtMost(es + [e], hi - 1)| == |AtMost(es, hi - 1)| + (if e.weight <= hi - 1 then 1 else 0);
    }
  }

  /** Summation by parts: with every weight in `[lo, hi]`, the total weight
      is `hi * |es|` less the threshold counts. */
  lemma {:induction false} WeightByThresholds(es: seq<Edge>, lo: int, hi: int)
    requires forall e :: e in es ==> lo <= e.weight <= hi
    ensures SumWeights(es) + BelowSum(es, lo, hi) == hi * |es|
  {
    if es != [] {
      var n := |es| - 1;
      var es', e := es[..n], es[n];
      assert es' + [e] == es;
      assert forall x :: x in es' ==> x in es;
      WeightByThresholds(es', lo, hi);
      BelowSumAppend(es', e, lo, hi);
      assert BelowSum(es, lo, hi) == BelowSum(es', lo, hi) + (hi - e.weight);
      assert SumWeights(es) == SumWeights(es') + e.weight;
      Distribute(hi, n);
    } else {
      BelowSumEmpty(lo, hi);
    }
  }

  lemma {:induction false} BelowSumEmpty(lo: int, hi: int)
    ensures BelowSum([], lo, hi) == 0
    decreases hi - lo
  {
    if hi > lo {
      BelowSumEmpty(lo, hi - 1);
    }
  }

  lemma Distribute(a: int, n: int)
    ensures a * (n + 1) == a * n + a
  {
  }

  lemma {:induction false} BelowSumMono(A: seq<Edge>, B: seq<Edge>, lo: int, hi: int)
    requires forall t :: |AtMost(A, t)| <= |AtMost(B, t)|
    ensures BelowSum(A, lo, hi) <= BelowSum(B, lo, hi)
    decreases hi - lo
  {
    if hi > lo {
      BelowSumMono(A, B, lo, hi - 1);
    }
  }

  /** Of two edge lists of equal length, the one with at least as many
      edges below every threshold weighs no more. */
  lemma FewerBelowCostsMore(F: seq<Edge>, T: seq<Edge>)
    requires |F| == |T|
    requires forall t :: |AtMost(T, t)| <= |AtMost(F, t)|
    ensures SumWeights(F) <= SumWeights(T)
  {
    var lo := if MinWeight(F) < MinWeight(T) then MinWeight(F) else MinWeight(T);
    var hi := if MaxWeight(F) > MaxWeight(T) then MaxWeight(F) else MaxWeight(T);
    WeightByThresholds(F, lo, hi);
    WeightByThresholds(T, lo, hi);
    BelowSumMono(T, F, lo, hi);
  }

  /** Below any threshold a minimum spanning forest keeps at least as many
      edges as any forest of graph edges. */
  lemma FewerBelow(V: set<string>, G: seq<Edge>, F: seq<Edge>, T: seq<Edge>, t: int)
    requires MinimumSpanning(V, G, F)
    requires Inside(V, T) && Forest(V, T) && Covered(T, G)
    ensures |AtMost(T, t)| <= |AtMost(F, t)|
  {
    var A, B := AtMost(T, t), AtMost(F, t);
    CoveredAtMost(T, G, t);
    forall a, b | Linked(V, A, a, b)
      ensures Linked(V, B, a, b)
    {
      LinkedMono(V, A, AtMost(G, t), a, b);
    }
    FewerClasses(V, A, B);
    ForestAtMost(V, T, t);
    ForestAtMost(V, F, t);
    ForestComponents(V, A);
    ForestComponents(V, B);
  }

  /** A minimum spanning forest is cheapest: every spanning forest of the
      graph has as many edges and at least its total weight. */
  lemma MinimumIsCheapest(V: set<string>, G: seq<Edge>, F: seq<Edge>, T: seq<Edge>)
    requires MinimumSpanning(V, G, F) && SpanningForestOf(V, G, T)
    ensures |T| == |F|
    ensures SumWeights(F) <= SumWeights(T)
  {
    forall t
      ensures |AtMost(T, t)| <= |AtMost(F, t)|
    {
      FewerBelow(V, G, F, T, t);
    }
    forall a, b | Linked(V, F, a, b)
      ensures Linked(V, T, a, b)
    {
      LinkedMono(V, F, G, a, b);
    }
    FewerClasses(V, F, T);
    ForestComponents(V, F);
    ForestComponents(V, T);
    var hi := if MaxWeight(F) > MaxWeight(T) then MaxWeight(F) else MaxWeight(T);
    AtMostAll(F, hi);
    AtMostAll(T, hi);
    FewerBelowCostsMore(F, T);
  }
}
