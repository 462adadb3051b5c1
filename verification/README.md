# Minimum spanning trees for a city transport network, and the benchmark report

This project models the core of a small benchmark of two minimum spanning
tree algorithms over road networks, and proves properties of the model.

- **`Graphs`** (`graph.dfy`) is the undirected multigraph. It holds a vertex
  set, the edge list in insertion order, and an adjacency map. The map keeps
  each edge at its source and a reversed copy at its target. The module also
  has the breadth-first connectivity check.
- **`UnionFind`** (`unionfind.dfy`) is the disjoint-set forest, with path
  compression and union by rank. **`Kruskal`** (`kruskal.dfy`) is the
  sorted-edge algorithm built on it.
- **`Prim`** (`prim.dfy`) is the growth algorithm. It keeps a visited set and
  a priority queue of edges.
- **`Edges`**, **`Connectivity`**, **`Spanning`** and **`SetFacts`** are the
  shared vocabulary:
  - edges, weight sums and sorting;
  - reachability as "every edge-closed vertex set containing `a` contains
    `b`";
  - forests, spanning trees and component counting;
  - minimum spanning forests, characterised by thresholds: for every weight
    `t`, the chosen edges of weight at most `t` link exactly what the
    graph's edges of weight at most `t` link.

  The edge-scanning algorithm is proved to return such a forest on every
  graph. The growth algorithm returns one on a connected graph; on a
  disconnected graph it returns a spanning tree of the start vertex's
  component. Any two such forests
  have the same number of edges and the same cost (`Spanning.SameCost`).
  Such a forest is also cheapest in the ordinary sense: every spanning
  forest of the graph has as many edges and at least its cost
  (`Spanning.MinimumIsCheapest`). The proof counts edges below each
  threshold and sums by parts.
- **`MstChecks`** (`checks.dfy`) states what the unit tests ask. It covers
  same cost, `|V| - 1` edges, reproducibility, cost 6 on the four-vertex
  square, cost agreement and `|V| - 1` edges on the fixed ten-vertex graph,
  and the empty and single-vertex graphs.
- **`Records`**, **`Report`** and **`Visualize`** (`records.dfy`,
  `report.dfy`, `visualize.dfy`) model the pure parts of the two Python
  reporting scripts:
  - merging the two result files;
  - totals and means;
  - cost agreement;
  - the win/loss/tie tally;
  - size and density buckets;
  - the bucket and overall winners;
  - column extraction and the summary table rows.

Modelling choices:

- **Results.** A result (`MSTResult`) is the pair `MstResult(edges, totalCost)`.
- **Edges.** `Edge` is `(from, to, weight)` and is compared by weight.
  `Edge.java` is not part of this model.
- **Time.** Execution times are natural numbers in hundredths of a
  millisecond. That is the precision at which the loader writes them
  (`src/main/java/GraphDataLoader.java:100`). Means are `real`.
- **Density.** Density thresholds are compared exactly. "Sparse" is
  `20 e < 3 v (v - 1)` and "dense" is `10 e > 3 v (v - 1)`; this is proved
  in `Report.DensityExact`.
- **Start vertex.** The growth algorithm starts from an arbitrary vertex,
  because the vertex set's iteration order is unspecified.
- **Ties in the queue.** Among queued edges of equal weight, the first one
  is polled. The binary heap's tie order is unspecified, and the proofs do
  not depend on it.
- **Valid graphs.** Every graph built by the constructor, `addVertex` and
  `addEdge` satisfies `Graphs.Valid` (`Graphs.BuildFacts`). The algorithms
  require it of their input.

## Model

| member | source | states |
|---|---|---|
| Graphs.AdjacentEdges | src/main/java/Graph.java:42-44 | an unknown vertex has the empty list; a known one has its stored list |
| Graphs.NewGraph | src/main/java/Graph.java:9-14 | a new graph has the given id, no vertices, no edges, and satisfies the invariant |
| Graphs.AddVertex | src/main/java/Graph.java:16-19 | the vertex is added and the edges are unchanged; existing lists are kept, and a new vertex gets an empty list; adding a present vertex changes nothing |
| Graphs.AddEdge | src/main/java/Graph.java:21-32 | exactly one edge is appended to the edge list; both endpoints become vertices with adjacency lists |
| Graphs.AddEdgeSteps | src/main/java/Graph.java:21-32 | the model equals the Java sequence: append the edge, `addVertex(from)`, `addVertex(to)`, then append to the two lists |
| Graphs.AddEdgeLists | src/main/java/Graph.java:30-31 | `from`'s list gains the edge and `to`'s list the reversed edge (both, for a loop); no other list changes |
| Graphs.AddEdgeAdjacent | src/main/java/Graph.java:30-31 | an entry is in a vertex's new list iff it was there before or is the edge at `from` or its reverse at `to` |
| Graphs.AddVertexValid | src/main/java/Graph.java:16-19 | `addVertex` keeps the representation invariant (every listed entry leaves its vertex and stands for a graph edge) |
| Graphs.AddEdgeValid | src/main/java/Graph.java:21-32 | `addEdge` keeps the representation invariant |
| Graphs.BuildFacts | src/main/java/Graph.java:16-32 | any sequence of calls yields the names used as vertices, the edges in call order, and a valid graph |
| Graphs.CountsOfBuiltGraph | src/main/java/Graph.java:46-52 | the vertex count is the number of distinct names used; the edge count is the number of `addEdge` calls |
| Graphs.AdjacentLinked | src/main/java/Graph.java:70-71 | a neighbour found through the adjacency list is reachable from the vertex |
| Graphs.AdjacencyClosed | src/main/java/Graph.java:68-77 | a visited set that holds every neighbour of its members is closed under the graph's edges |
| Graphs.VisitNeighbours | src/main/java/Graph.java:70-76 | the inner loop marks and enqueues each unvisited neighbour; it visits only reachable vertices and keeps the queue's old entries in order |
| Graphs.BfsConclusion | src/main/java/Graph.java:79 | for a closed set of vertices reachable from the start, equal size with the vertex set holds iff the graph is connected |
| Graphs.IsConnected | src/main/java/Graph.java:58-79 | the breadth-first search answers true iff every pair of vertices is linked (true for the empty graph) |
| UnionFind.Init | src/main/java/KruskalAlgorithm.java:11-18 | each vertex is its own parent with rank 0; the roots are all the vertices |
| UnionFind.Find | src/main/java/KruskalAlgorithm.java:20-25 | returns the root of `x`; path compression leaves `x` pointing at it and keeps every vertex's root and the set of roots |
| UnionFind.CompressionKeepsRoots | src/main/java/KruskalAlgorithm.java:22 | re-pointing vertices at their roots changes no vertex's root |
| UnionFind.Link | src/main/java/KruskalAlgorithm.java:36-46 | linking two roots by rank keeps the forest valid; exactly the loser's set moves under the winner; the loser stops being a root |
| UnionFind.LinkRanks | src/main/java/KruskalAlgorithm.java:36-46 | only `root1`'s rank can change, and it grows by one exactly when the two ranks were equal |
| UnionFind.Union | src/main/java/KruskalAlgorithm.java:27-48 | returns false iff the two already share a root; afterwards they share a root that was one of their old roots; vertices outside both sets keep their roots |
| Connectivity.ReverseLinksSame | src/main/java/Graph.java:29-31 | storing an edge reversed at its target loses nothing: an edge list ending in the edge or in its reverse links exactly the same pairs |
| Edges.InsertByWeight | src/main/java/KruskalAlgorithm.java:63-64 | inserting into a weight-sorted list gives a sorted permutation with one more entry |
| Edges.SortByWeight | src/main/java/KruskalAlgorithm.java:63-64 | the sorted copy is ordered by weight and is a permutation of the edges |
| Edges.SumWeightsAppend | src/main/java/KruskalAlgorithm.java:84 | adding an edge's weight to the running cost keeps the cost equal to the weight sum |
| Spanning.SameCost | src/test/java/MSTAlgorithmTest.java:28-30 | two minimum spanning forests of one graph have the same number of edges and the same cost |
| Spanning.ThresholdMinimum | src/test/java/MSTAlgorithmTest.java:75-80 | a forest of graph edges whose lighter edges span every graph edge's ends is a minimum spanning forest |
| Spanning.MinimumIsCheapest | src/test/java/MSTAlgorithmTest.java:74-80 | a minimum spanning forest costs no more than any spanning forest of the same graph (acyclic graph edges linking whatever the graph links), which has the same number of edges |
| Spanning.FewerBelow | src/test/java/MSTAlgorithmTest.java:74-80 | below every weight threshold a minimum spanning forest keeps at least as many edges as any forest of graph edges |
| Connectivity.ForestSize | src/main/java/KruskalAlgorithm.java:89-92 | a forest over a nonempty vertex set has at most `|V| - 1` edges, and with exactly that many it connects all vertices |
| Connectivity.SpanningTreeSize | src/test/java/MSTAlgorithmTest.java:32-36 | a spanning tree has exactly `|V| - 1` edges |
| Connectivity.ForestAppend | src/main/java/KruskalAlgorithm.java:81-85 | adding an edge keeps a forest iff its endpoints were not yet linked |
| Kruskal.InitState | src/main/java/KruskalAlgorithm.java:63-68 | after sorting and creating the union-find, the scan invariant holds with no edge kept |
| Kruskal.FindRepresents | src/main/java/KruskalAlgorithm.java:77-78 | a `find` keeps the union-find sets equal to the components of the kept edges |
| Kruskal.UnionRepresents | src/main/java/KruskalAlgorithm.java:85 | joining two different sets matches adding the edge to the kept edges |
| Kruskal.RejectStep | src/main/java/KruskalAlgorithm.java:93-95 | skipping an edge whose ends share a root keeps the scan invariant |
| Kruskal.AcceptStep | src/main/java/KruskalAlgorithm.java:81-85 | keeping an edge between different roots keeps the scan invariant (acyclic, sorted, sets match components) |
| Kruskal.ExamineEdge | src/main/java/KruskalAlgorithm.java:70-95 | one iteration keeps the edge iff its ends were not yet linked, and keeps the cost equal to the weight sum |
| Kruskal.Finish | src/main/java/KruskalAlgorithm.java:89-92 | after all edges, or after `|V| - 1` kept edges, the kept edges are a minimum spanning forest |
| Kruskal.FindMst | src/main/java/KruskalAlgorithm.java:51-102 | for the empty graph: no edges and cost 0; otherwise a sorted minimum spanning forest of graph edges with at most `|V| - 1` edges; on a connected graph, a spanning tree with `|V| - 1` edges |
| Prim.MinIndex | src/main/java/PrimAlgorithm.java:32 | `poll` takes an entry of least weight |
| Prim.Poll | src/main/java/PrimAlgorithm.java:32 | the polled edge is a lightest queued edge, and the rest is the queue without one copy of it |
| Prim.Unvisited | src/main/java/PrimAlgorithm.java:57-67 | only the new vertex's edges to unvisited vertices are queued |
| Prim.InitState | src/main/java/PrimAlgorithm.java:19-27 | visiting the start vertex and queueing its edges establishes the loop invariant |
| Prim.SkipStep | src/main/java/PrimAlgorithm.java:40-43 | skipping an edge with both ends visited keeps the invariant |
| Prim.AddStep | src/main/java/PrimAlgorithm.java:46-67 | keeping an edge to a new vertex and queueing that vertex's edges keeps the invariant |
| Prim.PollEdge | src/main/java/PrimAlgorithm.java:32-68 | one iteration keeps the invariant and the cost; `visited` only grows; a kept edge adds exactly one vertex and one edge |
| Prim.Conclusion | src/main/java/PrimAlgorithm.java:31 | when the queue is empty or all vertices are visited, the visited set is a whole component spanned by the kept tree; if the graph is connected that tree is a minimum spanning tree |
| Prim.Grow | src/main/java/PrimAlgorithm.java:31-69 | the loop ends with `|mst| == |visited| - 1`, an acyclic set of graph edges, and on a connected graph a minimum spanning tree |
| Prim.EmptyGraph | src/main/java/PrimAlgorithm.java:14-16 | a graph with no vertices has no edges, and the empty forest is its minimum spanning tree |
| Prim.FindMst | src/main/java/PrimAlgorithm.java:6-75 | for the empty graph: no edges and cost 0; otherwise a tree over the start vertex's component with cost equal to the weight sum; on a connected graph, a minimum spanning tree |
| MstChecks.BothAlgorithms | src/test/java/MSTAlgorithmTest.java:28-36 | on a connected graph both algorithms give the same cost and `|V| - 1` edges, and no spanning tree of the graph costs less |
| MstChecks.RunTwice | src/test/java/MSTAlgorithmTest.java:158-164 | two runs of the growth algorithm give the same cost and edge count, whatever start vertices they pick |
| MstChecks.SquareShape | src/test/java/MSTAlgorithmTest.java:189-197 | the test graph has the four names as vertices, the five edges in call order, and is valid |
| MstChecks.PathIsForest | src/test/java/MSTAlgorithmTest.java:47-50 | the path `a-b-c-d` of weights 1, 2, 3 is acyclic |
| MstChecks.PathIsMinimum | src/test/java/MSTAlgorithmTest.java:75-80 | that path is a minimum spanning tree of the square |
| MstChecks.SquareConnected | src/test/java/MSTAlgorithmTest.java:61-64 | the square is connected |
| MstChecks.PathCost | src/test/java/MSTAlgorithmTest.java:76 | the path weighs 6 |
| MstChecks.SquareCost | src/test/java/MSTAlgorithmTest.java:67-81 | on the square over any four distinct names, both algorithms find cost 6 with three edges |
| MstChecks.TestSquare | src/test/java/MSTAlgorithmTest.java:189-197 | the same holds for the test's names A, B, C, D |
| MstChecks.MediumShape | src/test/java/MSTAlgorithmTest.java:200-221 | the fifteen `addEdge` calls give exactly those edges in order, only the ten names as vertices, and a valid graph |
| MstChecks.MediumConnected | src/test/java/MSTAlgorithmTest.java:203 | the ten-vertex graph is connected, whatever the names |
| MstChecks.MediumCost | src/test/java/MSTAlgorithmTest.java:85-95 | on the ten-vertex graph both algorithms give the same cost and the growth algorithm keeps `getVertexCount() - 1` edges |
| MstChecks.TestMedium | src/test/java/MSTAlgorithmTest.java:85-95 | the same for the test's names A to J |
| MstChecks.EmptyGraph | src/test/java/MSTAlgorithmTest.java:97-109 | a graph with no vertices gives no edges and cost 0 in both algorithms |
| MstChecks.SingleVertex | src/test/java/MSTAlgorithmTest.java:111-123 | a single vertex gives no edges and cost 0 in both algorithms |
| Records.Filter | generate_combined_report.py:98-100 | a list comprehension keeps exactly the matching records and is no longer than its input |
| Records.Count | generate_combined_report.py:60 | a count is at most the number of records, so `cost_matches <= total_graphs` |
| Records.CountIsFilterLength | generate_combined_report.py:98-100 | counting the matching records is the length of the comprehension |
| Records.SumAppend | generate_combined_report.py:40 | a total over the merged list is the sum of the two lists' totals |
| Records.CountAppend | generate_combined_report.py:40 | a count over the merged list is the sum of the two counts |
| Records.CountDisjoint | generate_combined_report.py:87-89 | counts of two conditions that never hold together add up to the count of either |
| Records.FilterPartition | generate_combined_report.py:98-100 | three exclusive, covering conditions split the list: the parts' multisets and lengths add up to the whole |
| Report.DensityExact | generate_combined_report.py:139-148 | sparse iff `v > 1` and `20 e < 3 v (v - 1)`; dense iff `v > 1` and `10 e > 3 v (v - 1)` |
| Report.DensityBucketsDisjoint | generate_combined_report.py:139-148 | no graph is both sparse and dense; graphs with `v <= 1` or density in [0.3, 0.6] are in neither |
| Report.Mean | generate_combined_report.py:65-66 | the mean times the number of graphs is the total |
| Report.Analyze | generate_combined_report.py:107-123 | an empty bucket is skipped; otherwise each average times the count is its total, and the winner is Prim iff `2 * prim_wins > n` |
| Report.HalfGoesToKruskal | generate_combined_report.py:123 | an exact half of Prim wins names Kruskal |
| Report.Statistics | generate_combined_report.py:49-89 | `total_graphs` is the length of the list; `cost_matches <= total_graphs`; wins plus ties is the total |
| Report.StatisticsAverages | generate_combined_report.py:65-83 | each printed average (vertices, edges, both operation counts, both times) times `total_graphs` is the sum of its field over the merged list |
| Report.Average | generate_combined_report.py:65-83 | a printed average times `total_graphs` is the total it divides |
| Report.Percent | generate_combined_report.py:92-94 | a printed percentage times `total_graphs` is 100 times the count it divides |
| Report.StatisticsPercentages | generate_combined_report.py:70-94 | the printed shares of cost matches, Prim wins, Kruskal wins and ties each lie between 0 and 100, and the three win shares add up to 100 |
| Report.GenerateReport | generate_combined_report.py:23-40 | no report iff either dataset is missing or empty; otherwise it covers `len(primary) + len(test)` graphs |
| Report.WinTally | generate_combined_report.py:87-89 | the ties are exactly the records with equal times, never negative; the two win counts never exceed the total |
| Report.MergedTotals | generate_combined_report.py:40-88 | every total and count of the merged report is the primary's plus the test's |
| Report.SizeBucketsPartition | generate_combined_report.py:98-100 | the three size buckets are disjoint and together hold every record |
| Report.OverallWinner | generate_combined_report.py:179 | Prim iff strictly more Prim wins; a draw goes to Kruskal; the printed win count is the named winner's |
| Report.DensityBuckets | generate_combined_report.py:136-148 | the density loop builds exactly the sparse and dense comprehensions, in order |
| Visualize.Column | visualize_complexity.py:26-35 | a column has one entry per record, entry `i` taken from record `i` |
| Visualize.ColumnSumIsSum | visualize_complexity.py:26-35 | adding up a column gives the report's total of that field |
| Visualize.ReportTotalsAreColumnSums | visualize_complexity.py:14-46 | the report's vertex, edge, operation and time totals equal the sums of the columns `extract_data` builds from the same records, so the two scripts agree on every total |
| Visualize.ExtractData | visualize_complexity.py:14-46 | the loop builds the eight columns of the records in order, all of length `len(results)`; the cost column is Prim's |
| Visualize.RowDensity | visualize_complexity.py:261 | density is 0 for at most one vertex, otherwise `density * v (v - 1) == 2 e` |
| Visualize.SummaryTable | visualize_complexity.py:257-276 | one row per graph in order, copied from the columns, with the row density and winner Prim iff `prim_time <= kruskal_time` |
| Visualize.Table | visualize_complexity.py:257-276 | the table has one row per record; its Prim rows are the report's Prim wins plus ties; it shows below 0.3 exactly the report's sparse graphs |
| Visualize.TableCreditsTies | visualize_complexity.py:262 | since the table credits ties to Prim, its Prim rows number `prim_wins + ties` |
| Visualize.DensitiesAgree | visualize_complexity.py:261 | the table's density equals the report's for `v > 1`, so both scripts agree on what is sparse and dense |

## Left out

- Timing and operation counting in both algorithms. These use `System.nanoTime`, `double` milliseconds and a floating-point logarithm. Records carry the counts as opaque numbers.
- `GraphDataLoader.java` and `Main.java` are not part of this model. They are JSON parsing, file output and console printing. Their one computation, rounding times to two decimals, is reflected in the choice of hundredths as the time unit.
- `MSTResult.java` is only a holder; it is the datatype `Spanning.MstResult`.
- `toString`, and the copying getters `getVertices` and `getEdges`. Graphs are immutable values here, so no caller can alter one through a returned collection.
- `getAdjacentEdges` hands out the graph's own list rather than a copy, so a Java caller could change the graph through it. `Graphs.AdjacentEdges` returns a value, which cannot express that aliasing; no caller in the core writes to the list.
- The 32-bit `int` cost accumulator: costs are unbounded integers, so overflow on huge weight sums is not modelled.
- The Java priority queue's tie order and `HashSet` iteration order. The start vertex is arbitrary, and among equal weights the first queued edge is polled. Every proved property holds whichever choice is made.
- The large test graph, whose weights come from `java.util.Random`. Its properties (same cost, `|V| - 1` edges, acyclic, connecting) are covered for every connected graph by `MstChecks.BothAlgorithms`.
- Kruskal.FindMst: states that the kept edges are graph edges in weight order, not that they form a subsequence of the sorted list (each iteration's `Kruskal.ExamineEdge` states that it appends the examined edge or nothing).
- MstChecks.RunTwice: reproducibility is proved for connected graphs, where the test's graph is. On a disconnected graph the growth algorithm's result depends on the start vertex.
- Union's boolean result is ignored by `findMST`; the model checks the roots itself before calling it, as the source does.
- Floating-point rounding of Python sums, means and percentages. Means are exact reals, and formatting to fixed decimals is not modelled.
- All plotting in `visualize_complexity.py`: the theoretical curves, log-log fits, ratios, the vectorised density, and the pasted graph corpus.
- The console and markdown output of `generate_combined_report.py`, including its fixed claims ("15 primary + 15 test", "PASS", the key-findings text). The printed values are the fields of `Report.Summary` and `Report.Categories`; the averages are `Report.Average` of its totals, and the percentages (of cost matches, wins and ties, in the console and in the markdown table) are `Report.Percent` of its counts.
- `load_results`' file reading: a missing file is the `None` input of `Report.GenerateReport`.
