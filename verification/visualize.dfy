/** The data side of the plotting script: the records turned into eight
    parallel columns, and the rows of the summary table drawn from them
    (density and the per-graph winner).  The plots themselves are left out. */
module Visualize {
  import opened Records
  import opened Report

  /** The eight parallel columns of `extract_data`. */
  datatype Columns = Columns(
    graphIds: seq<int>, vertices: seq<int>, edges: seq<int>,
    primOps: seq<int>, kruskalOps: seq<int>,
    primTime: seq<int>, kruskalTime: seq<int>,
    totalCosts: seq<int>)

  /** All columns have one entry per graph. */
  predicate Aligned(c: Columns) {
    var n := |c.graphIds|;
    |c.vertices| == n && |c.edges| == n && |c.primOps| == n && |c.kruskalOps| == n
    && |c.primTime| == n && |c.kruskalTime| == n && |c.totalCosts| == n
  }

  function GraphId(r: Record): int { r.graphId }
  function PrimCost(r: Record): int { r.prim.totalCost }

  /** `f` applied to each record, in order. */
  function Column(rs: seq<Record>, f: Record -> int): (col: seq<int>)
    ensures |col| == |rs|
    ensures forall i :: 0 <= i < |rs| ==> col[i] == f(rs[i])
  {
    if rs == [] then [] else Column(rs[..|rs| - 1], f) + [f(rs[|rs| - 1])]
  }

  function ColumnSum(s: seq<int>): int {
    if s == [] then 0 else ColumnSum(s[..|s| - 1]) + s[|s| - 1]
  }

  /** Adding up a column gives the report's total of the same field. */
  lemma {:induction false} ColumnSumIsSum(rs: seq<Record>, f: Record -> int)
    ensures ColumnSum(Column(rs, f)) == Sum(rs, f)
  {
    if rs != [] {
      var init, last := rs[..|rs| - 1], rs[|rs| - 1];
      ColumnSumIsSum(init, f);
      assert Column(rs, f)[..|rs| - 1] == Column(init, f);
      SumAppend(init, [last], f);
      assert init + [last] == rs;
      assert Sum([last], f) == f(last) + Sum([last][1..], f);
    }
  }

  /** The two scripts agree on the totals: each total of the report is the
      sum of the column the plotting script extracts for that field. */
  lemma ReportTotalsAreColumnSums(all: seq<Record>)
    requires all != []
    ensures var s, c := Statistics(all), ColumnsOf(all);
      && s.totalVertices == ColumnSum(c.vertices) && s.totalEdges == ColumnSum(c.edges)
      && s.primTotalOps == ColumnSum(c.primOps) && s.kruskalTotalOps == ColumnSum(c.kruskalOps)
      && s.primTotalTime == ColumnSum(c.primTime) && s.kruskalTotalTime == ColumnSum(c.kruskalTime)
  {
    StatisticsTotals(all);
    ColumnSumIsSum(all, Vertices);
    ColumnSumIsSum(all, EdgeCount);
    ColumnSumIsSum(all, PrimOps);
    ColumnSumIsSum(all, KruskalOps);
    ColumnSumIsSum(all, PrimTime);
    ColumnSumIsSum(all, KruskalTime);
  }

  /** The columns of `rs`, field by field. */
  function ColumnsOf(rs: seq<Record>): Columns {
    Columns(
      Column(rs, GraphId), Column(rs, Vertices), Column(rs, EdgeCount),
      Column(rs, PrimOps), Column(rs, KruskalOps),
      Column(rs, PrimTime), Column(rs, KruskalTime),
      Column(rs, PrimCost))
  }

  /** One iteration of the loop: each field of `r` appended to its column. */
  function AppendRecord(c: Columns, r: Record): Columns {
    Columns(
      c.graphIds + [r.graphId], c.vertices + [r.vertices], c.edges + [r.edges],
      c.primOps + [r.prim.operations], c.kruskalOps + [r.kruskal.operations],
      c.primTime + [r.prim.time], c.kruskalTime + [r.kruskal.time],
      c.totalCosts + [r.prim.totalCost])
  }

  /** `extract_data`: one pass over the records, appending each field to
      its column; the cost column takes the growth algorithm's cost. */
  method ExtractData(results: seq<Record>) returns (c: Columns)
    ensures c == ColumnsOf(results)
    ensures Aligned(c) && |c.graphIds| == |results|
  {
    c := Columns([], [], [], [], [], [], [], []);
    var i := 0;
    while i < |results|
      invariant 0 <= i <= |results|
      invariant c == ColumnsOf(results[..i])
    {
      c := AppendRecord(c, results[i]);
      ExtractStep(results, i);
      i := i + 1;
    }
    assert results[..i] == results;
  }

  lemma ExtractStep(results: seq<Record>, i: nat)
    requires i < |results|
    ensures ColumnsOf(results[..i + 1]) == AppendRecord(ColumnsOf(results[..i]), results[i])
  {
    var p := results[..i + 1];
    assert p[..i] == results[..i] && p[i] == results[i];
  }

  // ---------------------------------------------------------------------
  // The summary table

  /** One row of the table image; density is shown to three places, the
      times to two, which the model does not round. */
  datatype Row = Row(
    graphId: int, vertices: int, edges: int, density: real,
    primOps: int, kruskalOps: int, primTime: int, kruskalTime: int,
    mstCost: int, winner: Algorithm)

  /** Edges over `v (v - 1) / 2`, or 0 for at most one vertex. */
  function RowDensity(v: int, e: int): (d: real)
    ensures v <= 1 ==> d == 0.0
    ensures v > 1 ==> d * (v * (v - 1)) as real == 2.0 * e as real
  {
    if v > 1 then e as real / ((v * (v - 1)) as real / 2.0) else 0.0
  }

  /** `create_summary_table`'s rows: one per graph, in order; the winner
      column names Prim whenever its time is not larger, ties included. */
  method SummaryTable(c: Columns) returns (rows: seq<Row>)
    requires Aligned(c)
    ensures |rows| == |c.graphIds|
    ensures forall i :: 0 <= i < |rows| ==>
      && rows[i].graphId == c.graphIds[i] && rows[i].vertices == c.vertices[i] && rows[i].edges == c.edges[i]
      && rows[i].primOps == c.primOps[i] && rows[i].kruskalOps == c.kruskalOps[i]
      && rows[i].primTime == c.primTime[i] && rows[i].kruskalTime == c.kruskalTime[i]
      && rows[i].mstCost == c.totalCosts[i]
      && rows[i].density == RowDensity(c.vertices[i], c.edges[i])
      && (rows[i].winner == Prim <==> c.primTime[i] <= c.kruskalTime[i])
  {
    rows := [];
    var i := 0;
    while i < |c.graphIds|
      invariant 0 <= i <= |c.graphIds|
      invariant |rows| == i
      invariant forall j :: 0 <= j < i ==>
        && rows[j].graphId == c.graphIds[j] && rows[j].vertices == c.vertices[j] && rows[j].edges == c.edges[j]
        && rows[j].primOps == c.primOps[j] && rows[j].kruskalOps == c.kruskalOps[j]
        && rows[j].primTime == c.primTime[j] && rows[j].kruskalTime == c.kruskalTime[j]
        && rows[j].mstCost == c.totalCosts[j]
        && rows[j].density == RowDensity(c.vertices[j], c.edges[j])
        && (rows[j].winner == Prim <==> c.primTime[j] <= c.kruskalTime[j])
    {
      var v := c.vertices[i];
      var e := c.edges[i];
      var density := if v > 1 then e as real / ((v * (v - 1)) as real / 2.0) else 0.0;
      var winner := if c.primTime[i] <= c.kruskalTime[i] then Prim else Kruskal;
      rows := rows + [Row(c.graphIds[i], v, e, density, c.primOps[i], c.kruskalOps[i],
                          c.primTime[i], c.kruskalTime[i], c.totalCosts[i], winner)];
      i := i + 1;
    }
  }

  /** The table, from the records. */
  method Table(results: seq<Record>) returns (rows: seq<Row>)
    ensures |rows| == |results|
    ensures PrimRows(rows) == Count(results, PrimFaster) + Count(results, SameTime)
    ensures forall i :: 0 <= i < |rows| ==>
      (IsSparse(results[i]) <==> rows[i].vertices > 1 && rows[i].density < 0.3)
  {
    var c := ExtractData(results);
    rows := SummaryTable(c);
    TableCreditsTies(rows, results);
    forall i | 0 <= i < |rows|
      ensures IsSparse(results[i]) <==> rows[i].vertices > 1 && rows[i].density < 0.3
    {
      DensitiesAgree(results[i]);
    }
  }

  /** How many rows name Prim. */
  function PrimRows(rows: seq<Row>): nat {
    if rows == [] then 0 else (if rows[0].winner == Prim then 1 else 0) + PrimRows(rows[1..])
  }

  predicate PrimNotSlower(r: Record) { r.prim.time <= r.kruskal.time }

  /** The table credits ties to Prim while the report counts them apart:
      the table's Prim rows are the report's Prim wins plus its ties. */
  lemma TableCreditsTies(rows: seq<Row>, results: seq<Record>)
    requires |rows| == |results|
    requires forall i :: 0 <= i < |rows| ==> (rows[i].winner == Prim <==> PrimNotSlower(results[i]))
    ensures PrimRows(rows) == Count(results, PrimFaster) + Count(results, SameTime)
  {
    PrimRowsCount(rows, results);
    CountDisjoint(results, PrimFaster, SameTime, PrimNotSlower);
  }

  lemma {:induction false} PrimRowsCount(rows: seq<Row>, results: seq<Record>)
    requires |rows| == |results|
    requires forall i :: 0 <= i < |rows| ==> (rows[i].winner == Prim <==> PrimNotSlower(results[i]))
    ensures PrimRows(rows) == Count(results, PrimNotSlower)
  {
    if rows != [] {
      assert rows[0].winner == Prim <==> PrimNotSlower(results[0]);
      forall i | 0 <= i < |rows[1..]|
        ensures rows[1..][i].winner == Prim <==> PrimNotSlower(results[1..][i])
      {
        assert rows[1..][i] == rows[i + 1] && results[1..][i] == results[i + 1];
      }
      PrimRowsCount(rows[1..], results[1..]);
    }
  }

  /** The table and the report compute the same density, so a graph the
      report files as sparse is shown below 0.3 in the table. */
  lemma DensitiesAgree(r: Record)
    ensures r.vertices > 1 ==> RowDensity(r.vertices, r.edges) == Density(r.vertices, r.edges)
    ensures IsSparse(r) <==> r.vertices > 1 && RowDensity(r.vertices, r.edges) < 0.3
    ensures IsDense(r) <==> r.vertices > 1 && RowDensity(r.vertices, r.edges) > 0.6
  {
  }
}
