/** Cardinality facts about finite sets. */
module SetFacts {

  lemma ProperSubsetCard<T>(A: set<T>, B: set<T>)
    requires A < B
    ensures |A| < |B|
  {
    assert B == A + (B - A);
    assert A * (B - A) == {};
    assert B - A != {};
  }

  lemma SubsetCard<T>(A: set<T>, B: set<T>)
    requires A <= B
    ensures |A| <= |B|
  {
    if A != B {
      ProperSubsetCard(A, B);
    }
  }

  /** Growing a subset of `V` shrinks what is left of `V`. */
  lemma ComplementShrinks<T>(V: set<T>, A: set<T>, B: set<T>)
    requires A < B <= V
    ensures |V - B| < |V - A|
  {
    assert B - A != {} by {
      if B - A == {} {
        forall x | x in B ensures x in A {
          assert x !in B - A;
        }
      }
    }
    var x :| x in B - A;
    assert x in (V - A) - (V - B);
    ProperSubsetCard(V - B, V - A);
  }
}
