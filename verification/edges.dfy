/** Weighted edges between named vertices, the weight order used by both
    MST algorithms, and sums of weights. */
module Edges {

  /** An edge `(from, to, weight)`; its natural order compares weights only. */
  datatype Edge = Edge(from: string, to: string, weight: int)

  /** The copy of `e` stored in the adjacency list of `e.to`. */
  function Reverse(e: Edge): (r: Edge)
    ensures r.from == e.to && r.to == e.from && r.weight == e.weight
  {
    Edge(e.to, e.from, e.weight)
  }

  /** Reversing twice gives the edge back, and only a loop is its own
      reverse. */
  lemma ReverseInvolution(e: Edge)
    ensures Reverse(Reverse(e)) == e
    ensures Reverse(e) == e <==> e.from == e.to
  {
  }

  predicate SortedByWeight(s: seq<Edge>) {
    forall i, j :: 0 <= i < j < |s| ==> s[i].weight <= s[j].weight
  }

  /** Appending an edge no lighter than all others keeps the order. */
  lemma SortedAppend(s: seq<Edge>, e: Edge)
    requires SortedByWeight(s)
    requires forall x :: x in s ==> x.weight <= e.weight
    ensures SortedByWeight(s + [e])
  {
    assert forall k :: 0 <= k < |s| ==> (s + [e])[k] == s[k] && s[k] in s;
  }

  /** Inserts `e` in front of the first element that is not lighter than it,
      so `e` precedes the equal-weight elements already in `s`. */
  function InsertByWeight(e: Edge, s: seq<Edge>): (r: seq<Edge>)
    requires SortedByWeight(s)
    ensures SortedByWeight(r)
    ensures multiset(r) == multiset(s) + multiset{e}
    ensures |r| == |s| + 1
    ensures forall x :: x in r ==> x == e || x in s
  {
    if s == [] || e.weight <= s[0].weight then
      SortedPrepend(e, s);
      [e] + s
    else
      assert s == [s[0]] + s[1..];
      var rest := InsertByWeight(e, s[1..]);
      assert forall x :: x in rest ==> s[0].weight <= x.weight;
      SortedPrepend(s[0], rest);
      [s[0]] + rest
  }

  /** An edge no heavier than the head of a sorted list can go in front. */
  lemma SortedPrepend(h: Edge, s: seq<Edge>)
    requires SortedByWeight(s)
    requires s == [] || h.weight <= s[0].weight || forall x :: x in s ==> h.weight <= x.weight
    ensures SortedByWeight([h] + s)
  {
    forall i, j | 0 <= i < j < |[h] + s|
      ensures ([h] + s)[i].weight <= ([h] + s)[j].weight
    {
      if i == 0 {
        assert ([h] + s)[j] == s[j - 1] && s[j - 1] in s;
        if s != [] && h.weight <= s[0].weight && j > 1 {
          assert s[0].weight <= s[j - 1].weight;
        }
      }
    }
  }

  /** Insertion sort by weight: a non-decreasing permutation of `s`. */
  function SortByWeight(s: seq<Edge>): (r: seq<Edge>)
    ensures SortedByWeight(r)
    ensures multiset(r) == multiset(s)
    ensures |r| == |s|
  {
    if s == [] then []
    else
      assert s == [s[0]] + s[1..];
      InsertByWeight(s[0], SortByWeight(s[1..]))
  }

  /** Sum of the weights, accumulated from the front as the algorithms do. */
  function SumWeights(es: seq<Edge>): int
  {
    if es == [] then 0 else SumWeights(es[..|es| - 1]) + es[|es| - 1].weight
  }

  lemma SumWeightsAppend(es: seq<Edge>, e: Edge)
    ensures SumWeights(es + [e]) == SumWeights(es) + e.weight
  {
    assert (es + [e])[..|es|] == es;
  }

  /** The weights of `es`, in order. */
  function Weights(es: seq<Edge>): (ws: seq<int>)
    ensures |ws| == |es|
    ensures forall i :: 0 <= i < |es| ==> ws[i] == es[i].weight
  {
    if es == [] then [] else Weights(es[..|es| - 1]) + [es[|es| - 1].weight]
  }

  function Sum(xs: seq<int>): int
  {
    if xs == [] then 0 else Sum(xs[..|xs| - 1]) + xs[|xs| - 1]
  }

  lemma {:induction false} SumWeightsIsSumOfWeights(es: seq<Edge>)
    ensures SumWeights(es) == Sum(Weights(es))
  {
    if es != [] {
      SumWeightsIsSumOfWeights(es[..|es| - 1]);
      assert Weights(es)[..|es| - 1] == Weights(es[..|es| - 1]);
    }
  }

  lemma {:induction false} SumConcat(a: seq<int>, b: seq<int>)
    ensures Sum(a + b) == Sum(a) + Sum(b)
    decreases |b|
  {
    if b == [] {
      assert a + b == a;
    } else {
      var b' := b[..|b| - 1];
      assert (a + b)[..|a + b| - 1] == a + b';
      SumConcat(a, b');
    }
  }

  /** Summing does not depend on the order of the summands. */
  lemma {:induction false} SumPermutation(a: seq<int>, b: seq<int>)
    requires multiset(a) == multiset(b)
    ensures Sum(a) == Sum(b)
    decreases |a|
  {
    if a == [] {
      assert |b| == |multiset(b)| == 0;
    } else {
      var x := a[|a| - 1];
      var a' := a[..|a| - 1];
      assert a == a' + [x];
      assert x in multiset(b);
      var i :| 0 <= i < |b| && b[i] == x;
      var b' := b[..i] + b[i + 1..];
      RemoveAt(b, i);
      assert multiset(a) == multiset(a') + multiset{x};
      assert multiset(a') == multiset(b') by {
        assert multiset(a') + multiset{x} == multiset(b') + multiset{x};
        assert multiset(a') == (multiset(a') + multiset{x}) - multiset{x};
        assert multiset(b') == (multiset(b') + multiset{x}) - multiset{x};
      }
      SumPermutation(a', b');
      SumConcat(a', [x]);
      SumSingle(x);
    }
  }

  lemma SumSingle(x: int)
    ensures Sum([x]) == x
  {
    assert [x][..0] == [];
  }

  /** Taking out the element at `i` removes one copy of it from the
      multiset and its value from the sum. */
  lemma RemoveAt(b: seq<int>, i: nat)
    requires i < |b|
    ensures multiset(b) == multiset(b[..i] + b[i + 1..]) + multiset{b[i]}
    ensures Sum(b) == Sum(b[..i] + b[i + 1..]) + b[i]
  {
    SplitAt(b, i);
    SplitSum(b[..i], b[i], b[i + 1..]);
  }

  lemma SplitAt(b: seq<int>, i: nat)
    requires i < |b|
    ensures b == (b[..i] + [b[i]]) + b[i + 1..]
  {
    var r := (b[..i] + [b[i]]) + b[i + 1..];
    forall k | 0 <= k < |b|
      ensures r[k] == b[k]
    {
      if k < i {
        assert r[k] == b[..i][k];
      } else if k > i {
        assert r[k] == b[i + 1..][k - i - 1];
      }
    }
  }

  lemma SplitSum(p: seq<int>, x: int, q: seq<int>)
    ensures Sum((p + [x]) + q) == Sum(p + q) + x
  {
    SumConcat(p + [x], q);
    SumConcat(p, [x]);
    SumConcat(p, q);
    SumSingle(x);
  }
}
