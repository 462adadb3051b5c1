/** The combined report over the primary and test result files: merge,
    totals and means, cost agreement, the win/loss/tie tally, the size and
    density buckets, and the per-bucket and overall winner rules.  Printing
    and the markdown file are left out; what they would print is the
    `Summary` value. */
module Report {
  import opened Records

  datatype Algorithm = Prim | Kruskal

  // ---------------------------------------------------------------------
  // Per-record tests

  predicate PrimFaster(r: Record) { r.prim.time < r.kruskal.time }
  predicate KruskalFaster(r: Record) { r.kruskal.time < r.prim.time }
  predicate SameTime(r: Record) { r.prim.time == r.kruskal.time }
  predicate CostsMatch(r: Record) { r.prim.totalCost == r.kruskal.totalCost }

  predicate IsSmall(r: Record) { r.vertices <= 6 }
  predicate IsMedium(r: Record) { 7 <= r.vertices <= 15 }
  predicate IsLarge(r: Record) { r.vertices >= 16 }

  function Vertices(r: Record): int { r.vertices }
  function EdgeCount(r: Record): int { r.edges }
  function PrimOps(r: Record): int { r.prim.operations }
  function KruskalOps(r: Record): int { r.kruskal.operations }
  function PrimTime(r: Record): int { r.prim.time }
  function KruskalTime(r: Record): int { r.kruskal.time }

  /** Edges over the edge count of the complete graph on `v` vertices. */
  function Density(v: nat, e: nat): real
    requires v > 1
  {
    (e as real) / ((v * (v - 1)) as real / 2.0)
  }

  /** The `if density < 0.3` branch, for graphs with more than one vertex. */
  predicate IsSparse(r: Record) {
    r.vertices > 1 && Density(r.vertices, r.edges) < 0.3
  }

  /** The `elif density > 0.6` branch. */
  predicate IsDense(r: Record) {
    r.vertices > 1 && !(Density(r.vertices, r.edges) < 0.3) && Density(r.vertices, r.edges) > 0.6
  }

  /** The density thresholds are exact integer comparisons: sparse means
      `20 e < 3 v (v - 1)` and dense means `10 e > 3 v (v - 1)`. */
  lemma DensityExact(r: Record)
    ensures IsSparse(r) <==> r.vertices > 1 && 20 * r.edges < 3 * r.vertices * (r.vertices - 1)
    ensures IsDense(r) <==> r.vertices > 1 && 10 * r.edges > 3 * r.vertices * (r.vertices - 1)
  {
    var v, e := r.vertices, r.edges;
    if v > 1 {
      var w := v * (v - 1);
      var m := w as real / 2.0;
      assert Density(v, e) == e as real / m;
      BelowThreshold(e as real, m, 0.3);
      AboveThreshold(e as real, m, 0.6);
      assert 0.3 * m == (3 * w) as real / 20.0;
      assert 0.6 * m == (3 * w) as real / 10.0;
      assert 3 * v * (v - 1) == 3 * w;
    }
  }

  lemma BelowThreshold(e: real, m: real, k: real)
    requires m > 0.0
    ensures e / m < k <==> e < k * m
  {
    assert (e / m) * m == e;
  }

  lemma AboveThreshold(e: real, m: real, k: real)
    requires m > 0.0
    ensures e / m > k <==> e > k * m
  {
    assert (e / m) * m == e;
  }

  /** No graph is both sparse and dense; a graph with at most one vertex,
      or with density between 0.3 and 0.6 inclusive, is neither. */
  lemma DensityBucketsDisjoint(r: Record)
    ensures !(IsSparse(r) && IsDense(r))
    ensures r.vertices <= 1 ==> !IsSparse(r) && !IsDense(r)
    ensures r.vertices > 1 && 0.3 <= Density(r.vertices, r.edges) <= 0.6 ==> !IsSparse(r) && !IsDense(r)
  {
  }

  // ---------------------------------------------------------------------
  // One bucket

  /** What `analyze_category` prints for a non-empty bucket. */
  datatype Category = Category(
    count: nat,
    avgPrimOps: real, avgKruskalOps: real,
    avgPrimTime: real, avgKruskalTime: real,
    winner: Algorithm)

  /** `m` is the mean of `n` values adding up to `total`. */
  predicate IsMean(m: real, total: int, n: nat) {
    m * n as real == total as real
  }

  function Mean(total: int, n: nat): (m: real)
    requires n > 0
    ensures IsMean(m, total, n)
  {
    total as real / n as real
  }

  /** `analyze_category`: nothing for an empty bucket; otherwise the means
      and the winner, "Prim" only on a strict majority of Prim wins. */
  function Analyze(graphs: seq<Record>): (c: Option<Category>)
    ensures c.None? <==> graphs == []
    ensures c.Some? ==> c.value.count == |graphs|
    ensures c.Some? ==>
      && c.value.avgPrimOps * |graphs| as real == Sum(graphs, PrimOps) as real
      && c.value.avgKruskalOps * |graphs| as real == Sum(graphs, KruskalOps) as real
      && c.value.avgPrimTime * |graphs| as real == Sum(graphs, PrimTime) as real
      && c.value.avgKruskalTime * |graphs| as real == Sum(graphs, KruskalTime) as real
    ensures c.Some? ==> (c.value.winner == Prim <==> 2 * Count(graphs, PrimFaster) > |graphs|)
  {
    if graphs == [] then None
    else
      var n := |graphs|;
      var primWins := Count(graphs, PrimFaster);
      Some(Category(
        n,
        Mean(Sum(graphs, PrimOps), n), Mean(Sum(graphs, KruskalOps), n),
        Mean(Sum(graphs, PrimTime), n), Mean(Sum(graphs, KruskalTime), n),
        if primWins as real > n as real / 2.0 then Prim else Kruskal))
  }

  /** An exact half is not a majority: the bucket goes to Kruskal. */
  lemma HalfGoesToKruskal(graphs: seq<Record>)
    requires graphs != [] && 2 * Count(graphs, PrimFaster) == |graphs|
    ensures Analyze(graphs).value.winner == Kruskal
  {
  }

  // ---------------------------------------------------------------------
  // The whole report

  datatype Summary = Summary(
    totalGraphs: nat,
    totalVertices: int, totalEdges: int,
    costMatches: nat,
    primTotalOps: int, kruskalTotalOps: int,
    primTotalTime: int, kruskalTotalTime: int,
    primWins: nat, kruskalWins: nat, ties: int,
    overallWinner: Algorithm, winnerWins: nat)

  /** The five category analyses, by size and by density. */
  datatype Categories = Categories(
    small: Option<Category>, medium: Option<Category>, large: Option<Category>,
    sparse: Option<Category>, dense: Option<Category>)

  /** The whole printed report: the statistics and the category analyses. */
  datatype Combined = Combined(summary: Summary, categories: Categories)

  function Categorize(all: seq<Record>): Categories {
    Categories(
      Analyze(Filter(all, IsSmall)), Analyze(Filter(all, IsMedium)), Analyze(Filter(all, IsLarge)),
      Analyze(Filter(all, IsSparse)), Analyze(Filter(all, IsDense)))
  }

  /** A per-graph average the report prints: a total over `total_graphs`. */
  function Average(s: Summary, total: int): (m: real)
    requires s.totalGraphs > 0
    ensures IsMean(m, total, s.totalGraphs)
  {
    Mean(total, s.totalGraphs)
  }

  /** A share the report prints as a percentage: `count / total_graphs * 100`. */
  function Percent(s: Summary, count: int): (p: real)
    requires s.totalGraphs > 0
    ensures p * s.totalGraphs as real == 100.0 * count as real
  {
    100.0 * Mean(count, s.totalGraphs)
  }

  /** A dataset that is missing or empty. */
  predicate Unusable(d: Option<seq<Record>>) {
    d.None? || d.value == []
  }

  /** The statistics over the merged list. */
  function Statistics(all: seq<Record>): (s: Summary)
    requires all != []
    ensures s.totalGraphs == |all|
    ensures s.costMatches <= s.totalGraphs
    ensures s.primWins + s.kruskalWins + s.ties == s.totalGraphs
  {
    var n := |all|;
    var primWins := Count(all, PrimFaster);
    var kruskalWins := Count(all, KruskalFaster);
    Summary(
      n,
      Sum(all, Vertices), Sum(all, EdgeCount),
      Count(all, CostsMatch),
      Sum(all, PrimOps), Sum(all, KruskalOps),
      Sum(all, PrimTime), Sum(all, KruskalTime),
      primWins, kruskalWins, n - primWins - kruskalWins,
      if primWins > kruskalWins then Prim else Kruskal,
      if primWins >= kruskalWins then primWins else kruskalWins)
  }

  /** `generate_combined_report`: stop if either dataset is missing or
      empty, otherwise report on the primary records followed by the test
      records. */
  function GenerateReport(primary: Option<seq<Record>>, test: Option<seq<Record>>): (r: Option<Combined>)
    ensures r.None? <==> Unusable(primary) || Unusable(test)
    ensures r.Some? ==> r.value.summary.totalGraphs == |primary.value| + |test.value|
  {
    if Unusable(primary) then None
    else if Unusable(test) then None
    else
      var all := primary.value + test.value;
      Some(Combined(Statistics(all), Categorize(all)))
  }

  // ---------------------------------------------------------------------
  // Properties of the report

  /** The wins are strict, so no record counts for both sides, and the
      ties are exactly the records with equal times. */
  lemma WinTally(all: seq<Record>)
    requires all != []
    ensures Statistics(all).ties == Count(all, SameTime) >= 0
    ensures Statistics(all).primWins + Statistics(all).kruskalWins <= |all|
  {
    var faster := (r: Record) => PrimFaster(r) || KruskalFaster(r);
    CountDisjoint(all, PrimFaster, KruskalFaster, faster);
    CountDisjoint(all, faster, SameTime, r => true);
    CountAll(all, r => true);
  }

  /** Every total of the report adds up its field over the merged list,
      and every count counts the matching records; with `Average` each
      printed average times `total_graphs` is the sum over the list. */
  lemma StatisticsTotals(all: seq<Record>)
    requires all != []
    ensures var s := Statistics(all);
      && s.totalVertices == Sum(all, Vertices) && s.totalEdges == Sum(all, EdgeCount)
      && s.primTotalOps == Sum(all, PrimOps) && s.kruskalTotalOps == Sum(all, KruskalOps)
      && s.primTotalTime == Sum(all, PrimTime) && s.kruskalTotalTime == Sum(all, KruskalTime)
      && s.costMatches == Count(all, CostsMatch)
      && s.primWins == Count(all, PrimFaster) && s.kruskalWins == Count(all, KruskalFaster)
  {
  }

  /** Each printed average times `total_graphs` is the sum of its field
      over the merged list. */
  lemma StatisticsAverages(all: seq<Record>)
    requires all != []
    ensures var s := Statistics(all);
      && IsMean(Average(s, s.totalVertices), Sum(all, Vertices), |all|)
      && IsMean(Average(s, s.totalEdges), Sum(all, EdgeCount), |all|)
      && IsMean(Average(s, s.primTotalOps), Sum(all, PrimOps), |all|)
      && IsMean(Average(s, s.kruskalTotalOps), Sum(all, KruskalOps), |all|)
      && IsMean(Average(s, s.primTotalTime), Sum(all, PrimTime), |all|)
      && IsMean(Average(s, s.kruskalTotalTime), Sum(all, KruskalTime), |all|)
  {
    StatisticsTotals(all);
  }

  /** The printed percentages of cost matches, Prim wins, Kruskal wins and
      ties each lie between 0 and 100, and the three win shares add up to
      100. */
  lemma StatisticsPercentages(all: seq<Record>)
    requires all != []
    ensures var s := Statistics(all);
      && 0.0 <= Percent(s, s.costMatches) <= 100.0
      && 0.0 <= Percent(s, s.primWins) <= 100.0
      && 0.0 <= Percent(s, s.kruskalWins) <= 100.0
      && 0.0 <= Percent(s, s.ties) <= 100.0
      && Percent(s, s.primWins) + Percent(s, s.kruskalWins) + Percent(s, s.ties) == 100.0
  {
    var s := Statistics(all);
    WinTally(all);
    StatisticsTotals(all);
    ShareBounds(s.totalGraphs, s.costMatches);
    ShareBounds(s.totalGraphs, s.primWins);
    ShareBounds(s.totalGraphs, s.kruskalWins);
    ShareBounds(s.totalGraphs, s.ties);
    SharesAddUp(s.totalGraphs, s.primWins, s.kruskalWins, s.ties);
  }

  /** A share of `0 <= k <= n` is between 0 and 100 percent. */
  lemma ShareBounds(n: nat, k: int)
    requires 0 <= k <= n && n > 0
    ensures 0.0 <= 100.0 * Mean(k, n) <= 100.0
  {
    var m, N := Mean(k, n), n as real;
    assert (1.0 - m) * N == N - k as real;
  }

  /** Shares of parts that make up the whole add up to 100 percent. */
  lemma SharesAddUp(n: nat, a: int, b: int, c: int)
    requires n > 0 && a + b + c == n
    ensures 100.0 * Mean(a, n) + 100.0 * Mean(b, n) + 100.0 * Mean(c, n) == 100.0
  {
    var ma, mb, mc, N := Mean(a, n), Mean(b, n), Mean(c, n), n as real;
    assert (ma + mb + mc) * N == ma * N + mb * N + mc * N;
    assert (ma + mb + mc - 1.0) * N == 0.0;
  }

  /** The totals of the merged report are the totals of the two datasets. */
  lemma MergedTotals(primary: seq<Record>, test: seq<Record>)
    requires primary != [] && test != []
    ensures var s := GenerateReport(Some(primary), Some(test)).value.summary;
      && s.totalVertices == Sum(primary, Vertices) + Sum(test, Vertices)
      && s.totalEdges == Sum(primary, EdgeCount) + Sum(test, EdgeCount)
      && s.primTotalOps == Sum(primary, PrimOps) + Sum(test, PrimOps)
      && s.kruskalTotalOps == Sum(primary, KruskalOps) + Sum(test, KruskalOps)
      && s.primTotalTime == Sum(primary, PrimTime) + Sum(test, PrimTime)
      && s.kruskalTotalTime == Sum(primary, KruskalTime) + Sum(test, KruskalTime)
      && s.costMatches == Count(primary, CostsMatch) + Count(test, CostsMatch)
      && s.primWins == Count(primary, PrimFaster) + Count(test, PrimFaster)
      && s.kruskalWins == Count(primary, KruskalFaster) + Count(test, KruskalFaster)
  {
    SumAppend(primary, test, Vertices);
    SumAppend(primary, test, EdgeCount);
    SumAppend(primary, test, PrimOps);
    SumAppend(primary, test, KruskalOps);
    SumAppend(primary, test, PrimTime);
    SumAppend(primary, test, KruskalTime);
    CountAppend(primary, test, CostsMatch);
    CountAppend(primary, test, PrimFaster);
    CountAppend(primary, test, KruskalFaster);
  }

  /** The size buckets split the records: each record is in exactly one. */
  lemma SizeBucketsPartition(all: seq<Record>)
    ensures multiset(Filter(all, IsSmall)) + multiset(Filter(all, IsMedium)) + multiset(Filter(all, IsLarge))
      == multiset(all)
    ensures |Filter(all, IsSmall)| + |Filter(all, IsMedium)| + |Filter(all, IsLarge)| == |all|
    ensures forall r :: r in all ==> (IsSmall(r) || IsMedium(r) || IsLarge(r))
    ensures forall r :: !(IsSmall(r) && IsMedium(r)) && !(IsSmall(r) && IsLarge(r)) && !(IsMedium(r) && IsLarge(r))
  {
    FilterPartition(all, IsSmall, IsMedium, IsLarge);
  }

  /** The overall winner is Prim exactly when Prim won strictly more
      comparisons; an even split goes to Kruskal; and the win count printed
      next to the winner (the larger of the two) is the winner's own. */
  lemma OverallWinner(all: seq<Record>)
    requires all != []
    ensures Statistics(all).overallWinner == Prim <==> Count(all, PrimFaster) > Count(all, KruskalFaster)
    ensures Count(all, PrimFaster) == Count(all, KruskalFaster) ==> Statistics(all).overallWinner == Kruskal
    ensures var s := Statistics(all);
      s.winnerWins == (if s.overallWinner == Prim then s.primWins else s.kruskalWins)
  {
  }

  /** The density loop of the report: each graph with more than one vertex
      goes to the sparse list, or else maybe to the dense list. */
  method DensityBuckets(all: seq<Record>) returns (sparse: seq<Record>, dense: seq<Record>)
    ensures sparse == Filter(all, IsSparse) && dense == Filter(all, IsDense)
  {
    sparse, dense := [], [];
    var i := 0;
    while i < |all|
      invariant 0 <= i <= |all|
      invariant sparse == Filter(all[..i], IsSparse) && dense == Filter(all[..i], IsDense)
    {
      var r := all[i];
      var v, e := r.vertices, r.edges;
      if v > 1 {
        var density := Density(v, e);
        if density < 0.3 {
          sparse := sparse + [r];
        } else if density > 0.6 {
          dense := dense + [r];
        }
      }
      BucketsStep(all, i);
      i := i + 1;
    }
    assert all[..i] == all;
  }

  lemma BucketsStep(all: seq<Record>, i: nat)
    requires i < |all|
    ensures Filter(all[..i + 1], IsSparse) == Filter(all[..i], IsSparse) + (if IsSparse(all[i]) then [all[i]] else [])
    ensures Filter(all[..i + 1], IsDense) == Filter(all[..i], IsDense) + (if IsDense(all[i]) then [all[i]] else [])
  {
    assert all[..i + 1] == all[..i] + [all[i]];
    FilterSnoc(all[..i], all[i], IsSparse);
    FilterSnoc(all[..i], all[i], IsDense);
  }

  /** Filtering a list with one more record at the end. */
  lemma {:induction false} FilterSnoc(rs: seq<Record>, x: Record, p: Record -> bool)
    ensures Filter(rs + [x], p) == Filter(rs, p) + (if p(x) then [x] else [])
  {
    var t := rs + [x];
    if rs == [] {
      assert t == [x] && t[1..] == [];
    } else {
      assert t[0] == rs[0] && t[1..] == rs[1..] + [x];
      FilterSnoc(rs[1..], x, p);
      var h := if p(rs[0]) then [rs[0]] else [];
      var tail := if p(x) then [x] else [];
      assert Filter(t, p) == h + (Filter(rs[1..], p) + tail);
      assert h + (Filter(rs[1..], p) + tail) == (h + Filter(rs[1..], p)) + tail;
    }
  }
}
