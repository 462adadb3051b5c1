/** The disjoint-set forest used by the sorted-edge algorithm: a parent map
    and a rank map over vertex names, with path compression in `Find` and
    union by rank in `Union`. */
module UnionFind {
  import opened SetFacts

  datatype UF = UF(parent: map<string, string>, rank: map<string, nat>)

  /** Both maps cover the same vertices, parents are vertices, and a
      non-root's rank is below its parent's (so parent chains end). */
  ghost predicate Valid(uf: UF) {
    && uf.parent.Keys == uf.rank.Keys
    && uf.parent.Values <= uf.parent.Keys
    && (forall x {:trigger uf.parent[x]} :: x in uf.parent && uf.parent[x] != x ==> uf.rank[x] < uf.rank[uf.parent[x]])
  }

  /** The vertices that are their own parent. */
  ghost function Roots(uf: UF): set<string> {
    set x | x in uf.parent && uf.parent[x] == x
  }

  /** Every vertex starts as the root of its own set, with rank 0. */
  function Init(vs: set<string>): (uf: UF)
    ensures Valid(uf) && uf.parent.Keys == vs
    ensures forall v :: v in vs ==> uf.parent[v] == v && uf.rank[v] == 0
    ensures Roots(uf) == vs
  {
    UF(map v | v in vs :: v, map v | v in vs :: 0)
  }

  /** The number of vertices ranked above `x`: shrinks along parent chains. */
  ghost function Height(uf: UF, x: string): nat
    requires x in uf.rank
  {
    |set y | y in uf.rank && uf.rank[y] > uf.rank[x]|
  }

  lemma HeightDecreases(uf: UF, x: string)
    requires Valid(uf) && x in uf.parent && uf.parent[x] != x
    ensures Height(uf, uf.parent[x]) < Height(uf, x)
  {
    var p := uf.parent[x];
    var above := set y | y in uf.rank && uf.rank[y] > uf.rank[x];
    var aboveP := set y | y in uf.rank && uf.rank[y] > uf.rank[p];
    assert p in above && p !in aboveP;
    ProperSubsetCard(aboveP, above);
  }

  /** The root reached by following parents from `x`, without compressing. */
  ghost function Root(uf: UF, x: string): (r: string)
    requires Valid(uf) && x in uf.parent
    ensures r in uf.parent && uf.parent[r] == r
    ensures r == x || uf.rank[x] < uf.rank[r]
    decreases Height(uf, x)
  {
    if uf.parent[x] == x then x
    else
      HeightDecreases(uf, x);
      Root(uf, uf.parent[x])
  }

  /** `uf'` differs from `uf` only by pointing some vertices straight at
      their roots. */
  ghost predicate Compressed(uf: UF, uf': UF)
    requires Valid(uf)
  {
    && uf'.parent.Keys == uf.parent.Keys
    && uf'.rank == uf.rank
    && forall z {:trigger uf'.parent[z]} :: z in uf.parent ==> uf'.parent[z] == uf.parent[z] || uf'.parent[z] == Root(uf, z)
  }

  lemma CompressionValid(uf: UF, uf': UF)
    requires Valid(uf) && Compressed(uf, uf')
    ensures Valid(uf')
  {
  }

  lemma {:induction false} CompressionKeepsRoot(uf: UF, uf': UF, y: string)
    requires Valid(uf) && Compressed(uf, uf') && y in uf.parent
    ensures Valid(uf') && Root(uf', y) == Root(uf, y)
    decreases Height(uf, y)
  {
    CompressionValid(uf, uf');
    var p := uf'.parent[y];
    if p != y {
      if p == uf.parent[y] {
        HeightDecreases(uf, y);
        CompressionKeepsRoot(uf, uf', p);
      } else {
        assert p == Root(uf, y);
        assert uf.rank[y] < uf.rank[p];
        assert Height(uf, p) < Height(uf, y) by {
          var above := set z | z in uf.rank && uf.rank[z] > uf.rank[y];
          var aboveP := set z | z in uf.rank && uf.rank[z] > uf.rank[p];
          assert p in above && p !in aboveP;
          ProperSubsetCard(aboveP, above);
        }
        CompressionKeepsRoot(uf, uf', p);
      }
    }
  }

  /** Compression changes no vertex's root and no root. */
  lemma CompressionKeepsRoots(uf: UF, uf': UF)
    requires Valid(uf) && Compressed(uf, uf')
    ensures Valid(uf')
    ensures forall y {:trigger Root(uf, y)} :: y in uf.parent ==> Root(uf', y) == Root(uf, y)
    ensures Roots(uf') == Roots(uf)
  {
    CompressionValid(uf, uf');
    forall y {:trigger Root(uf, y)} | y in uf.parent
      ensures Root(uf', y) == Root(uf, y)
    {
      CompressionKeepsRoot(uf, uf', y);
    }
  }

  /** `find` with path compression: returns the root of `x`, and every
      vertex on the path from `x` now points straight at that root. */
  function Find(uf: UF, x: string): (res: (string, UF))
    requires Valid(uf) && x in uf.parent
    ensures res.0 == Root(uf, x)
    ensures Compressed(uf, res.1) && Valid(res.1)
    ensures res.1.parent[x] == res.0
    ensures forall y {:trigger Root(uf, y)} :: y in uf.parent ==> Root(res.1, y) == Root(uf, y)
    ensures Roots(res.1) == Roots(uf)
    decreases Height(uf, x)
  {
    if uf.parent[x] == x then (x, uf)
    else
      HeightDecreases(uf, x);
      var (r, uf1) := Find(uf, uf.parent[x]);
      var uf2 := uf1.(parent := uf1.parent[x := r]);
      CompressionKeepsRoots(uf, uf2);
      (r, uf2)
  }

  /** Making root `lo` a child of root `hi` (whose rank becomes `newRank`)
      moves exactly the vertices of `lo`'s set under `hi`. */
  lemma {:induction false} LinkKeepsRoot(uf: UF, lo: string, hi: string, newRank: nat, y: string)
    requires Valid(uf) && lo in uf.parent && hi in uf.parent && lo != hi
    requires uf.parent[lo] == lo && uf.parent[hi] == hi
    requires newRank >= uf.rank[hi] && newRank > uf.rank[lo]
    requires y in uf.parent
    ensures Valid(UF(uf.parent[lo := hi], uf.rank[hi := newRank]))
    ensures Root(UF(uf.parent[lo := hi], uf.rank[hi := newRank]), y) ==
            if Root(uf, y) == lo then hi else Root(uf, y)
    decreases Height(uf, y)
  {
    var uf' := UF(uf.parent[lo := hi], uf.rank[hi := newRank]);
    assert Valid(uf');
    if uf.parent[y] != y {
      HeightDecreases(uf, y);
      LinkKeepsRoot(uf, lo, hi, newRank, uf.parent[y]);
    }
  }

  lemma LinkFacts(uf: UF, lo: string, hi: string, newRank: nat)
    requires Valid(uf) && lo in uf.parent && hi in uf.parent && lo != hi
    requires uf.parent[lo] == lo && uf.parent[hi] == hi
    requires newRank >= uf.rank[hi] && newRank > uf.rank[lo]
    ensures Valid(UF(uf.parent[lo := hi], uf.rank[hi := newRank]))
    ensures forall y {:trigger Root(uf, y)} :: y in uf.parent ==>
      Root(UF(uf.parent[lo := hi], uf.rank[hi := newRank]), y) ==
      if Root(uf, y) == lo then hi else Root(uf, y)
    ensures Roots(UF(uf.parent[lo := hi], uf.rank[hi := newRank])) == Roots(uf) - {lo}
  {
    LinkKeepsRoot(uf, lo, hi, newRank, lo);
    forall y {:trigger Root(uf, y)} | y in uf.parent
      ensures Root(UF(uf.parent[lo := hi], uf.rank[hi := newRank]), y) ==
              if Root(uf, y) == lo then hi else Root(uf, y)
    {
      LinkKeepsRoot(uf, lo, hi, newRank, y);
    }
  }

  /** The root that stays a root when the roots `r1` and `r2` are joined:
      the higher-ranked one, or `r1` on a tie. */
  function Winner(uf: UF, r1: string, r2: string): string
    requires r1 in uf.rank && r2 in uf.rank
  {
    if uf.rank[r1] < uf.rank[r2] then r2 else r1
  }

  /** The root that is hung under the other one. */
  function Loser(uf: UF, r1: string, r2: string): string
    requires r1 in uf.rank && r2 in uf.rank
  {
    if uf.rank[r1] < uf.rank[r2] then r1 else r2
  }

  /** Joins two distinct roots by rank: the lower one is hung under the
      higher one; on equal ranks `r2` goes under `r1`, whose rank grows. */
  function Link(uf: UF, r1: string, r2: string): (r: UF)
    requires Valid(uf) && r1 in uf.parent && r2 in uf.parent && r1 != r2
    requires uf.parent[r1] == r1 && uf.parent[r2] == r2
    ensures Valid(r) && r.parent.Keys == uf.parent.Keys
    ensures forall y {:trigger Root(uf, y)} :: y in uf.parent ==>
      Root(r, y) == if Root(uf, y) == r1 || Root(uf, y) == r2 then Winner(uf, r1, r2) else Root(uf, y)
    ensures Roots(r) == Roots(uf) - {Loser(uf, r1, r2)}
  {
    var hi, lo := Winner(uf, r1, r2), Loser(uf, r1, r2);
    // Only a tie raises a rank; otherwise `hi` keeps its rank.
    var newRank := if uf.rank[r1] == uf.rank[r2] then uf.rank[r1] + 1 else uf.rank[hi];
    LinkFacts(uf, lo, hi, newRank);
    UF(uf.parent[lo := hi], uf.rank[hi := newRank])
  }

  /** Only a tie changes a rank: the rank of `r1` grows by one. */
  lemma LinkRanks(uf: UF, r1: string, r2: string)
    requires Valid(uf) && r1 in uf.parent && r2 in uf.parent && r1 != r2
    requires uf.parent[r1] == r1 && uf.parent[r2] == r2
    ensures Link(uf, r1, r2).rank.Keys == uf.rank.Keys
    ensures forall y :: y in uf.rank && y != r1 ==> Link(uf, r1, r2).rank[y] == uf.rank[y]
    ensures Link(uf, r1, r2).rank[r1] ==
      if uf.rank[r1] == uf.rank[r2] then uf.rank[r1] + 1 else uf.rank[r1]
  {
  }

  /** `union` by rank: finds both roots (compressing), and if they differ
      links them; the result says whether two sets were merged. */
  function Union(uf: UF, a: string, b: string): (res: (bool, UF))
    requires Valid(uf) && a in uf.parent && b in uf.parent
    ensures Valid(res.1) && res.1.parent.Keys == uf.parent.Keys
    ensures res.0 <==> Root(uf, a) != Root(uf, b)
    ensures Root(res.1, a) == Root(res.1, b)
    ensures Root(res.1, a) == Root(uf, a) || Root(res.1, a) == Root(uf, b)
    ensures forall y {:trigger Root(uf, y)} :: y in uf.parent ==>
      Root(res.1, y) ==
        if Root(uf, y) == Root(uf, a) || Root(uf, y) == Root(uf, b) then Root(res.1, a) else Root(uf, y)
    ensures !res.0 ==> Roots(res.1) == Roots(uf)
    ensures res.0 ==>
      Roots(res.1) == Roots(uf) - {if Root(res.1, a) == Root(uf, a) then Root(uf, b) else Root(uf, a)}
  {
    var (root1, uf1) := Find(uf, a);
    var (root2, uf2) := Find(uf1, b);
    if root1 == root2 then (false, uf2)
    else (true, Link(uf2, root1, root2))
  }
}
