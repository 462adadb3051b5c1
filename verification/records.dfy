/** Benchmark records as the two reporting scripts read them, and the
    list operations they are built from: order-preserving filters (list
    comprehensions), counts (`sum(1 for r in rs if ...)`) and sums
    (`sum(f(r) for r in rs)`). */
module Records {

  /** A JSON file that may be missing. */
  datatype Option<T> = None | Some(value: T)

  /** One algorithm's entry of a record.  Execution times are kept in
      hundredths of a millisecond, the precision the Java side rounds them
      to before writing them out. */
  datatype Run = Run(totalCost: int, operations: nat, time: nat)

  /** One benchmark record: the graph's id and size, and both runs. */
  datatype Record = Record(graphId: int, vertices: nat, edges: nat, prim: Run, kruskal: Run)

  /** The records of `rs` satisfying `p`, in order. */
  function Filter(rs: seq<Record>, p: Record -> bool): (r: seq<Record>)
    ensures |r| <= |rs|
    ensures forall x :: x in r <==> x in rs && p(x)
  {
    if rs == [] then []
    else (if p(rs[0]) then [rs[0]] else []) + Filter(rs[1..], p)
  }

  /** How many records of `rs` satisfy `p`. */
  function Count(rs: seq<Record>, p: Record -> bool): (n: nat)
    ensures n <= |rs|
  {
    if rs == [] then 0
    else (if p(rs[0]) then 1 else 0) + Count(rs[1..], p)
  }

  /** The sum of `f` over `rs`. */
  function Sum(rs: seq<Record>, f: Record -> int): int {
    if rs == [] then 0 else f(rs[0]) + Sum(rs[1..], f)
  }

  /** Counting is the length of the filter. */
  lemma {:induction false} CountIsFilterLength(rs: seq<Record>, p: Record -> bool)
    ensures Count(rs, p) == |Filter(rs, p)|
  {
    if rs != [] {
      CountIsFilterLength(rs[1..], p);
    }
  }

  /** Sums split over concatenation: totals over merged lists are the sum
      of the totals. */
  lemma {:induction false} SumAppend(a: seq<Record>, b: seq<Record>, f: Record -> int)
    ensures Sum(a + b, f) == Sum(a, f) + Sum(b, f)
  {
    if a != [] {
      assert (a + b)[1..] == a[1..] + b;
      SumAppend(a[1..], b, f);
    } else {
      assert a + b == b;
    }
  }

  lemma {:induction false} CountAppend(a: seq<Record>, b: seq<Record>, p: Record -> bool)
    ensures Count(a + b, p) == Count(a, p) + Count(b, p)
  {
    if a != [] {
      assert (a + b)[1..] == a[1..] + b;
      CountAppend(a[1..], b, p);
    } else {
      assert a + b == b;
    }
  }

  /** Counts of two predicates that never hold together add up to the
      count of their disjunction. */
  lemma {:induction false} CountDisjoint(rs: seq<Record>, p: Record -> bool, q: Record -> bool, pq: Record -> bool)
    requires forall x :: x in rs ==> !(p(x) && q(x)) && (pq(x) <==> p(x) || q(x))
    ensures Count(rs, p) + Count(rs, q) == Count(rs, pq)
  {
    if rs != [] {
      assert rs[0] in rs;
      CountDisjoint(rs[1..], p, q, pq);
    }
  }

  /** A predicate that holds for every record counts every record. */
  lemma {:induction false} CountAll(rs: seq<Record>, p: Record -> bool)
    requires forall x :: x in rs ==> p(x)
    ensures Count(rs, p) == |rs|
  {
    if rs != [] {
      assert rs[0] in rs;
      CountAll(rs[1..], p);
    }
  }

  /** Filtering by three predicates exactly one of which holds of each
      record splits the records: every record lands in exactly one part. */
  lemma {:induction false} FilterPartition(rs: seq<Record>, p: Record -> bool, q: Record -> bool, r: Record -> bool)
    requires forall x :: x in rs ==>
      (p(x) || q(x) || r(x)) && !(p(x) && q(x)) && !(p(x) && r(x)) && !(q(x) && r(x))
    ensures multiset(Filter(rs, p)) + multiset(Filter(rs, q)) + multiset(Filter(rs, r)) == multiset(rs)
    ensures |Filter(rs, p)| + |Filter(rs, q)| + |Filter(rs, r)| == |rs|
  {
    if rs != [] {
      assert rs[0] in rs;
      FilterPartition(rs[1..], p, q, r);
      assert rs == [rs[0]] + rs[1..];
    }
  }
}
