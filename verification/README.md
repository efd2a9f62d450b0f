# Verified models of the graph engines and drivers

This project models the two graph engines that the benchmark driver carries as baselines, and the parts of
the driver around them, and proves what they compute.

* **The compressed sparse row engine** (`library/baseline/csr.cpp`) is the fast form: loading from an edge
  stream, direction-optimizing BFS, delta-stepping SSSP, Shiloach-Vishkin WCC, PageRank in place, CDLP with two
  buffers, clustering by hashing and by sort-merge with workers.
* **The adjacency list** (`library/baseline/adjacency_list.cpp`) is the updatable reference: additions and
  removals, FIFO BFS, Dijkstra, min-label WCC, PageRank, CDLP and clustering over hash maps.
* Around them: the byte-packed edge stream, the asynchronous batches, the validator of kernel outputs, the
  latency statistics and the replay of an update log by several workers.

Each kernel is an imperative method over arrays, or a class where the source has one, proved against a
specification that does not mention the kernel: walks and distances (`Paths`), weak connectivity
(`Components`), neighbour pairs (`Triangles`), synchronous rounds (`Cdlp`), mass (`PageRank`). `TwoEngines`
then loads one stream into both engines, runs a kernel on either side and ensures that the results are equal
through the vertex mapping. Where threads race, the code is also a state machine of atomic steps with an
invariant that every step keeps (`BfsRace`, `SsspRace`, `WccRace`, `LccWorkers`, `AsyncBatch`, and the
interleavings of `Replay`); no state before the end is stuck, and every step lowers a rank (`SsspRace`, `BfsProgress`,
`WccProgress`, `LccProgress`, and `AsyncBatch` from two batches on).

`dafny verify dfyconfig.toml` checks everything.

## Modelling decisions

* Weights and distances are integers: units of the smallest double, of which every finite double is a
  multiple. Scores are exact reals. Ids are unbounded naturals; 64 bit limits appear where they matter
  (the sentinel of the loader, the cap of min-label WCC, the byte widths, the latency sums, the residues).
* The loader is the only writer of the CSR arrays and the kernels are const methods, so a loaded graph is one
  immutable value. The gapbs queue, bitmap and compare-and-swap are modelled by what they do; the SSSP frontier
  is a growable sequence, and the largest bin number is a value of its own.
* OpenMP loops are sequential loops in the kernels; `BfsRace`, `SsspRace`, `WccRace` and `LccWorkers` are the same
  loops with racing threads, and end in the same results. Iteration over hash maps and sets takes an arbitrary order.
  Random choices (weights for updates with weight 0, swapped end points) are arbitrary.
* Assertions are compiled out: where the assertion at library/baseline/csr.cpp:350 fails, both entries are kept.
* The number of bytes for the largest id 0 is the conversion of minus infinity to an integer, which is undefined;
  it counts as a width that the byte array refuses, like 0.
* A stop requested from outside is a bound on the number of updates a worker still performs.

## What is not as its documentation or name suggests

* `m_stddev` holds the variance (experiment/details/latency.cpp:66).
* The loader starts from 2^64-1 as "no vertex yet"; a stream in which all edges leave that vertex is counted
  for vertex 0 (`CsrLoad.MisplacedRows`, `CsrLoad.LoadAndLookUp`).
* The byte width is computed for the largest id itself, which gets lost when it is a power of 256, and for which
  no byte is kept when it is 1 (`EdgeStream.PermutationIsLosslessIff`,
  `CsrLoad.LoadAndLookUp`). With the sentinel above, this is the exact condition of `CsrLoad.LoadIsRightIff`.
* Isolated vertices get different labels from the two label propagations (`CdlpAgreement.AgreeIffNoneIsolated`).
* `delete_vertex0` edits copies of the lists of the neighbours (`AdjacencyList.ErasureIsSafeIffIsolated`,
  `AdjacencyList.ErasureLeavesDanglingEdge`).
* Workers are numbered from 1, so updates with residue 0 are served by nobody (`Replay.ServedIff`,
  `Replay.ResidueZeroIsLost`).
* `AsyncBatch` accepts one batch, and then blocks (`AsyncBatch.SingleBatchBlocks`).
* The validator counts reference lines instead of reference vertices; `Validate.JudgedRightIff` and
  `Validate.ExactlyRightIff` say for which references it is right all the same.

## Model

| member | source | states |
|---|---|---|
| `EdgeStream.WeightedEdgeStream.SortBySrcDst` | graph/edge_stream.cpp:262-294 | sorts the positions by source and destination of the ids as they are, then leaves the edges in that order with ids reduced to the byte width; throws exactly for a non-empty stream with a largest id below 2 |
| `EdgeStream.WeightedEdgeStream.SortByDstSrc` | graph/edge_stream.cpp:296-319 | the same by destination and source |
| `ByteArray.CByteArray.Sort` | graph/cbytearray.cpp:116-118 | sorts the elements in place and keeps each as often as it was there |
| `EdgeStream.WeightedEdgeStream.VertexList` | graph/edge_stream.cpp:199-222 | every end point of the stream once, in any order of the hash map, each reduced to the byte width; throws exactly for a largest id below 2 |
| `CsrLoad.MapVertices` | library/baseline/csr.cpp:253-257 | the row of every id in the list has that id; of two equal ids the later row wins |
| `CsrLoad.LoadVertices` | library/baseline/csr.cpp:245-258 | the sorted list of the reduced end points and the mapping onto its rows |
| `CsrLoad.PackedIndex` | library/baseline/csr.cpp:245-258 | if the largest id is no power of 256 and at least 2, the two mappings cover exactly the end points of the stream |
| `CsrLoad.IndexKeepsOrder` | library/baseline/csr.cpp:253-257 | external and logical ids are order-preserving inverses |
| `CsrLoad.CursorStep` | library/baseline/csr.cpp:267-277 | which vertex an edge is counted for, whatever the order of the edges: vertex 0 as long as all edges so far leave 2^64-1, the sentinel |
| `CsrLoad.CountRows` | library/baseline/csr.cpp:261-284 | each counter holds the number of edges counted for its vertex, each slot the logical target and the weight of its edge |
| `CsrLoad.PrefixSum` | library/baseline/csr.cpp:287-289 | the vertex array ends up with the number of edges of all rows up to each vertex |
| `CsrLoad.RowsByNumber` | library/baseline/csr.cpp:183-190 | after the prefix sum the interval of a vertex holds exactly the positions counted for it |
| `CsrLoad.GroupedIsSorted` | library/baseline/csr.cpp:261-289 | on a stream without repeated edges every interval is strictly increasing |
| `CsrLoad.PlacedRows` | library/baseline/csr.cpp:261-289 | the rows hold exactly the edges of the stream under the vertex mapping, unless all edges leave vertex 2^64-1 |
| `CsrLoad.MisplacedRows` | library/baseline/csr.cpp:267-277 | if all edges leave vertex 2^64-1 and one of them is not a loop, all of them land in row 0 and the rows are wrong |
| `CsrLoad.LoadDirected` | library/baseline/csr.cpp:242-321 | throws exactly for a largest id below 2; both directions hold as many edges as the stream, and the right ones if and only if the largest id is no power of 256 and not all edges leave (or enter) 2^64-1; a lost largest id is in no mapping; rows strictly sorted on simple streams |
| `CsrLoad.LoadIsRightIff` | library/baseline/csr.cpp:242-321 | the loaded graph is the stream if and only if its largest id is no power of 256 and neither direction is misplaced |
| `CsrLoad.WeightsAreRightIff` | library/baseline/csr.cpp:156-173 | get_weight gives the weight of the stream for all pairs of vertices if and only if the largest id is no power of 256 and the stream is not misplaced |
| `CsrLoad.LoadAndLookUp` | library/baseline/csr.cpp:242-321 | every stream with one edge: not loaded exactly for a largest id below 2; else get_weight finds the edge exactly if its largest id is no power of 256 and it does not leave 2^64-1, unless as a loop: 256 -> 3 and 2^64-1 -> 0 are loaded and gone, 0 -> 1 is not loaded |
| `CsrLoad.LoadedIsTranspose` | library/baseline/csr.cpp:291-321 | the incoming rows are the transpose of the outgoing ones, weights included |
| `CsrLoad.GetWeight` | library/baseline/csr.cpp:156-173 | on sorted rows: w exactly when the graph stores an edge with weight w, in spite of the early exit, and None when there is none; in every case a weight that is returned is stored, and an unknown id has none |
| `CsrLoad.StoredIffInStream` | library/baseline/csr.cpp:156-173 | the weight read back is the one given in the stream |
| `UndirectedLoad.MergeElements` | library/baseline/csr.cpp:349-379 | merging two rows keeps all their edges and their number |
| `UndirectedLoad.MergeAscends` | library/baseline/csr.cpp:349-379 | merging two strictly sorted rows without a common target gives a strictly sorted row |
| `UndirectedLoad.MergeVertex` | library/baseline/csr.cpp:339-380 | the three loops append the merge of the two rows of a vertex to what is already written, and stay inside the arrays |
| `UndirectedLoad.FlatEdges` | library/baseline/csr.cpp:337-380 | the edges emitted for the vertices below v are their outgoing and incoming edges |
| `UndirectedLoad.MergeDirections` | library/baseline/csr.cpp:337-397 | 2 * num_edges entries, the union of both directions; strictly sorted if both are and the assertion of line 350 holds |
| `UndirectedLoad.RowsDisjoint` | library/baseline/csr.cpp:350 | the asserted precondition of the merge follows when the stream has no loops and never both directions of an edge |
| `UndirectedLoad.LoadUndirected` | library/baseline/csr.cpp:323-397 | throws exactly for a largest id below 2; the loaded graph holds every edge in both directions if and only if the largest id is no power of 256 and the stream is not a star around 2^64-1 |
| `UndirectedLoad.WeightsAreRightIff` | library/baseline/csr.cpp:156-173 | get_weight gives the weight of the stream for all pairs, in both directions, if and only if the largest id is no power of 256 and the stream is not a star around 2^64-1 |
| `UndirectedLoad.UndirectedIsValid` | library/baseline/csr.cpp:323-397 | the loaded graph is symmetric with equal weights, without loops, strictly sorted |
| `UndirectedLoad.StoredBothWays` | library/baseline/csr.cpp:156-173 | get_weight(s, d) and get_weight(d, s) agree, and give the weight of the stream |
| `ByteArray.DecodeEncode` | graph/cbytearray.cpp:63-92 | keeping the lowest bytes of a value keeps it modulo 256^width |
| `ByteArray.EncodeDecode` | graph/cbytearray.cpp:63-92 | writing back what was read changes no byte |
| `ByteArray.CByteArray.GetValueAt` | graph/cbytearray.cpp:63-77 | reads the element at the index, a value that fits the width |
| `ByteArray.CByteArray.SetValueAt` | graph/cbytearray.cpp:81-94 | the element becomes the value modulo 256^width and no other element changes |
| `ByteArray.Merge` | graph/cbytearray.cpp:126-156 | the elements of all non-null arrays in order; fails exactly when two of them have different widths |
| `ByteArray.BytesPerElementIsLeast` | graph/cbytearray.cpp:24-28 | the computed width is the least w with value <= 256^w |
| `ByteArray.WidthHoldsMaximumIff` | graph/cbytearray.cpp:24-28 | the width computed for a maximum holds every smaller value, and the maximum itself if and only if that is no power of 256 |
| `EdgeStream.WeightedEdgeStream.constructor` | graph/edge_stream.cpp:110-125 | the stream holds exactly the edges of the vector and knows their largest id |
| `EdgeStream.PlanTasks` | graph/edge_stream.cpp:173-184 | the ranges of the threads tile the edges and differ in length by at most one |
| `EdgeStream.TilesCover` | graph/edge_stream.cpp:173-184 | every position belongs to some range |
| `EdgeStream.TilesAreDisjoint` | graph/edge_stream.cpp:173-184 | no position belongs to two ranges |
| `EdgeStream.RunTasks` | graph/edge_stream.cpp:165-185 | however the iterations of the threads are interleaved, the new arrays hold the input composed with the permutation, ids reduced to the width |
| `EdgeStream.WeightedEdgeStream.DoPermuteEdges` | graph/edge_stream.cpp:159-191 | the new edges are the permuted ones with ids reduced to the computed width; it throws exactly for a largest id below 2, leaving the stream as it was |
| `EdgeStream.PermutationIsLosslessIff` | graph/edge_stream.cpp:159-191 | the permutation loses nothing if and only if the largest id is no power of 256 |
| `EdgeStream.PowerOf256IsNarrowed` | graph/edge_stream.cpp:159-191 | the edge from 256 to 3 comes out as one from 0 to 3 |
| `Bfs.TDStep` | library/baseline/csr.cpp:567-600 | one top-down step: unvisited successors of the frontier get the new distance, all else stays; the queue receives each discovery once and never overflows; the returned count is exact |
| `Bfs.BUStep` | library/baseline/csr.cpp:535-565 | one bottom-up step computes the same next level, although bits of older vertices may be left in the bitmap |
| `Bfs.ParentIffReached` | library/baseline/csr.cpp:549-560 | a stale bit never causes a discovery: an unvisited vertex finds a parent bit exactly when the frontier reaches it |
| `Bfs.BottomUp` | library/baseline/csr.cpp:657-662 | the loop ends and leaves a bitmap that is exactly the current frontier |
| `Bfs.BitmapToQueue` | library/baseline/csr.cpp:610-621 | the new window lists the vertices of the bitmap once each, within the capacity of the queue |
| `Bfs.LevelStep` | library/baseline/csr.cpp:650-671 | every level keeps: labels are achieved hop counts, and edges out of expanded vertices are closed |
| `Bfs.DoBfs` | library/baseline/csr.cpp:633-674 | for every root, alpha and beta: the exact hop distance of every vertex, negative exactly when it is unreachable |
| `BfsRace.StepInv` | library/baseline/csr.cpp:567-600 | threads racing for the labels of a top-down step: every read, compare-and-swap and flush keeps the invariant |
| `BfsRace.FinishedTopDown` | library/baseline/csr.cpp:567-600 | however the threads race: the labels of the sequential step, every discovery in the queue once, the scouted degrees exact |
| `BfsRace.MoveInv` | library/baseline/csr.cpp:535-565 | threads of a bottom-up step: every access keeps the invariant, also the two of set_bit, which is not atomic |
| `BfsRace.FinishedBottomUp` | library/baseline/csr.cpp:535-565 | the labels of the sequential step and exactly the awakened vertices in the bitmap: no bit is lost, because a chunk of 1024 vertices is made of whole words |
| `BfsProgress.NoDeadlock` | library/baseline/csr.cpp:567-600 | in a racing top-down step every thread that is not done can move |
| `BfsProgress.EveryStepLowersTheRank` | library/baseline/csr.cpp:567-600 | every access and every flush of a top-down step lowers a rank, so every run ends |
| `BfsProgress.TopDownCanFinish` | library/baseline/csr.cpp:567-600 | every run of a top-down step can be continued until all threads are done |
| `BfsProgress.NoClimbDeadlock` | library/baseline/csr.cpp:535-565 | in a racing bottom-up step every thread that has not left can move |
| `BfsProgress.EveryMoveLowersTheRank` | library/baseline/csr.cpp:535-565 | every access of a bottom-up step lowers a rank, so every run ends |
| `BfsProgress.BottomUpCanFinish` | library/baseline/csr.cpp:535-565 | every run of a bottom-up step can be continued until all threads have left |
| `Sssp.RelaxRow` | library/baseline/csr.cpp:1281-1305 | relaxing a row keeps labels achieved, settles the row, and bins every vertex it improves |
| `Sssp.DropStale` | library/baseline/csr.cpp:1280 | an entry of the frontier with a distance below the current bin can be skipped |
| `Sssp.ProcessFrontier` | library/baseline/csr.cpp:1278-1307 | after a frontier every vertex that is not settled is in a bin no earlier than the current one |
| `Sssp.FirstBin` | library/baseline/csr.cpp:1309-1315 | the next bin is the first non-empty one, and there is none exactly when all bins from the current one on are empty |
| `Sssp.DoSssp` | library/baseline/csr.cpp:1255-1341 | for every positive delta the loop ends with the length of a shortest path to every vertex, infinite exactly when there is none |
| `SsspRace.NextInv` | library/baseline/csr.cpp:1266-1335 | any number of threads with bins of their own: every access to distances, frontier and shared indexes, and both barriers, keep the invariant |
| `SsspRace.FinishedRunIsCorrect` | library/baseline/csr.cpp:1255-1341 | however the threads race, a finished run leaves the length of a shortest path to every vertex |
| `SsspRace.NoDeadlock` | library/baseline/csr.cpp:1266-1335 | until the search has finished some thread can move or a barrier opens |
| `SsspRace.NextAnnounced` | library/baseline/csr.cpp:1309-1315 | the bin announced as the next one is not empty: the refilled frontier has an entry |
| `SsspRace.EveryStepLowersTheRank` | library/baseline/csr.cpp:1266-1335 | every step of every thread lowers a rank, so every run ends |
| `SsspRace.RunCanFinish` | library/baseline/csr.cpp:1266-1341 | from every state of a run the search can be finished |
| `Wcc.HookAll` | library/baseline/csr.cpp:903-919 | hooking keeps labels connected and no larger than the vertex, lowers the sum of labels when it reports a change, and otherwise leaves them equal across all edges |
| `Wcc.JumpToRoot` | library/baseline/csr.cpp:923-925 | jumping ends at a root, keeps the labels valid and the roots found before |
| `Wcc.DoWcc` | library/baseline/csr.cpp:887-930 | every vertex gets the smallest logical id of its weakly connected component; both loops end |
| `WccRace.InitInv` | library/baseline/csr.cpp:887-899 | the invariant of the racing kernel holds at the start |
| `WccRace.NextInv` | library/baseline/csr.cpp:900-928 | every unsynchronised read, write or barrier of any thread keeps the invariant |
| `WccRace.FinishedRunIsCorrect` | library/baseline/csr.cpp:887-930 | whatever the races between threads do, a finished run names the components |
| `WccRace.RoundsLoseRoots` | library/baseline/csr.cpp:900-928 | every round that reports a change costs a root, so there are fewer rounds than vertices |
| `WccRace.JumpsLowerTheSum` | library/baseline/csr.cpp:921-926 | every write of the jumping phase lowers a label, under any interleaving |
| `WccProgress.NoDeadlock` | library/baseline/csr.cpp:900-928 | until the kernel has finished some thread can move or a barrier opens |
| `WccProgress.EveryStepLowersTheRank` | library/baseline/csr.cpp:900-928 | every access of every thread and every barrier lowers a rank, so every run ends |
| `WccProgress.RunCanFinish` | library/baseline/csr.cpp:887-930 | every run can be continued to one that has finished, with the components named |
| `AdjacencyWcc.Wcc` | library/baseline/adjacency_list.cpp:484-519 | for any iteration order the loop ends with the smallest label of each component, capped at INT64_MAX |
| `AdjacencyWcc.CappedIsRightIff` | library/baseline/adjacency_list.cpp:500 | the result is right if and only if every component has an id up to INT64_MAX |
| `AdjacencyWcc.CappedIsMin` | library/baseline/adjacency_list.cpp:484-519 | every label is the smallest vertex of the component, or INT64_MAX if that is smaller |
| `Components.SameLabelIffConnected` | library/baseline/csr.cpp:887-930 | two vertices carry one label exactly when they are weakly connected |
| `PageRank.DoPagerank` | library/baseline/csr.cpp:750-797 | the scores updated in place are those of the specified iteration |
| `AdjacencyPageRank.Pagerank` | library/baseline/adjacency_list.cpp:425-468 | the reference with its two hash maps computes the specified rounds, for any order of lists, sinks and vertices |
| `PageRankAgreement.PagerankAgrees` | library/baseline/adjacency_list.cpp:425-468 | after every number of rounds the two engines give a vertex the same score |
| `PageRank.IterationConservesMass` | library/baseline/csr.cpp:764-794 | an iteration turns total mass t into 1 - d + d * t: contributions and dangling sum together lose nothing |
| `PageRank.MassIsOne` | library/baseline/csr.cpp:750-797 | the scores sum to 1 after every iteration |
| `PageRank.RanksNonNegative` | library/baseline/csr.cpp:750-797 | no score is ever negative |
| `PageRankShares.OnlyTargetsGain` | library/baseline/csr.cpp:770-793 | raising the score of a vertex by x raises the new score of each of its k targets by d * x / k and no other; only a vertex without targets raises all n scores, by d * x / n |
| `PageRankShares.ZeroScoresShareTheBase` | library/baseline/csr.cpp:783-793 | from zero scores an iteration gives every vertex (1 - d) / n |
| `Cdlp.SelectLabel` | library/baseline/csr.cpp:997-1007 | for any iteration order of the histogram: the label occurs, none occurs more often, and every label that occurs as often is not smaller |
| `Cdlp.Pass` | library/baseline/csr.cpp:972-1013 | one pass is one synchronous round, and reports a change exactly when some label changed |
| `Cdlp.StableForever` | library/baseline/csr.cpp:972 | once a round changes nothing no later round does |
| `Cdlp.RoundAdoptsLeastMode` | library/baseline/csr.cpp:972-1013 | after every round the label of a vertex with neighbours is one its neighbours had before it, none of which was more frequent, and the smallest of those as frequent |
| `Cdlp.ReferenceAdoptsLeastMode` | library/baseline/adjacency_list.cpp:553-587 | the same for the labels of the reference |
| `Cdlp.DoCdlp` | library/baseline/csr.cpp:955-1020 | the returned buffer holds the labels after all max_iterations synchronous rounds, early exit or not |
| `Cdlp.ReferencePass` | library/baseline/adjacency_list.cpp:553-587 | one pass of the reference is one synchronous round, for any order of vertices and histogram |
| `Cdlp.ReferenceCdlp` | library/baseline/adjacency_list.cpp:534-589 | the reference returns the labels after all max_iterations rounds |
| `CdlpAgreement.RoundAgrees` | library/baseline/adjacency_list.cpp:570 | engines that agree before a round agree on a vertex after it if and only if the vertex has a neighbour |
| `CdlpAgreement.AgreeIffNoneIsolated` | library/baseline/csr.cpp:998 | from the first round on the engines agree everywhere if and only if no vertex is isolated |
| `CdlpAgreement.NamedIsNotIsolated` | library/baseline/csr.cpp:242-258 | a vertex loaded from an edge stream is not isolated |
| `Triangles.SharesCountWedges` | library/baseline/csr.cpp:1514-1563 | crediting every triangle twice to each corner gives every vertex its ordered number of adjacent neighbour pairs |
| `Triangles.WedgesBound` | library/baseline/csr.cpp:1429 | a positive count needs two neighbours, and is at most degree * (degree - 1) |
| `Triangles.CoefficientIsAFraction` | library/baseline/csr.cpp:1422-1434 | every coefficient lies between 0 and 1 |
| `Triangles.CoefficientIsShareOfPairs` | library/baseline/csr.cpp:1429-1430 | the coefficient of a vertex times the number of ordered pairs of its neighbours is the number of adjacent ones; 0 for a vertex with fewer than two neighbours |
| `Triangles.OneIffClique` | library/baseline/csr.cpp:1429-1430 | with two neighbours or more the coefficient is 1 if and only if every two neighbours are adjacent |
| `Lcc.MergeRow` | library/baseline/csr.cpp:1528-1557 | the merge finds exactly the common neighbours below n2, each once, and credits them; neither early exit cuts off a match |
| `Lcc.ProcessVertex` | library/baseline/csr.cpp:1514-1563 | processing a vertex adds its share of every counter: two per triangle filed under it and corner; every addition is to a counter of the graph |
| `Lcc.ComputeScores` | library/baseline/csr.cpp:1422-1434 | from the finished counters, the clustering coefficient of every vertex, never dividing by zero |
| `Lcc.HashScore` | library/baseline/csr.cpp:1144-1198 | the hash kernel computes the same coefficient |
| `Lcc.SortMergeScores` | library/baseline/csr.cpp:1422-1434 | all vertices processed by one worker: the coefficient of every vertex |
| `LccWorkers.StepInv` | library/baseline/csr.cpp:1440-1508 | every atomic step of any worker keeps the balance between counters, debts and windows still to be fetched |
| `LccWorkers.StoppedRunCountsWedges` | library/baseline/csr.cpp:1469-1508 | when all workers have stopped, under any interleaving, every counter is the number of adjacent neighbour pairs |
| `LccProgress.NoDeadlock` | library/baseline/csr.cpp:1440-1508 | every worker that has not stopped can move: there is a sequence of additions for every vertex |
| `LccProgress.EveryStepLowersTheRank` | library/baseline/csr.cpp:1440-1508 | every atomic step lowers a rank, so every run ends |
| `LccProgress.RunCanFinish` | library/baseline/csr.cpp:1440-1508 | every run can be continued until all workers have stopped |
| `AdjacencyLcc.ScanVertex` | library/baseline/adjacency_list.cpp:623-650 | skipping smaller neighbours and carrying counts in already_visited still yields the full count of a vertex |
| `AdjacencyLcc.LeafCarriesNothing` | library/baseline/adjacency_list.cpp:620 | skipping a vertex of degree below 2 loses no count |
| `AdjacencyLcc.LccUndirected` | library/baseline/adjacency_list.cpp:604-661 | the coefficient of every vertex |
| `DirectedLcc.HashScore` | library/baseline/csr.cpp:1061-1142 | directed kernel: links between the distinct in- or out-neighbours, over their ordered pairs |
| `DirectedLcc.ReferenceScore` | library/baseline/adjacency_list.cpp:663-691 | the double loop of the reference, for any order of its hash sets, computes the same coefficient |
| `DirectedLcc.LccDirected` | library/baseline/adjacency_list.cpp:663-691 | the coefficient of every vertex, for any order of the vertices |
| `DirectedLcc.CoefficientIsAFraction` | library/baseline/csr.cpp:1061-1142 | every directed coefficient lies between 0 and 1 |
| `DirectedLcc.CoefficientIsShareOfPairs` | library/baseline/csr.cpp:1135-1136 | the directed coefficient times the number of ordered pairs of neighbours is the number of directed links among them |
| `DirectedLcc.OneIffComplete` | library/baseline/csr.cpp:1135-1136 | with two neighbours or more it is 1 if and only if there is a link from each neighbour to each other |
| `AdjacencyList.AdjacencyList.GetWeight` | library/baseline/adjacency_list.cpp:107-121 | reads the abstract map: the weight, or nothing |
| `AdjacencyList.AdjacencyList.AddVertex` | library/baseline/adjacency_list.cpp:202-206 | adds the vertex and reports whether it is new; the edges stay |
| `AdjacencyList.AdjacencyList.AddEdge0` | library/baseline/adjacency_list.cpp:300-323 | inserts or overwrites in the map, in both directions when undirected, and counts a new edge once |
| `AdjacencyList.AdjacencyList.AddEdge` | library/baseline/adjacency_list.cpp:254-278 | as add_edge0; refuses loops and unknown vertices without any change |
| `AdjacencyList.AdjacencyList.AddEdgeV2` | library/baseline/adjacency_list.cpp:281-298 | as add_edge0 after creating the end points; refuses loops |
| `AdjacencyList.AdjacencyList.RemoveEdge` | library/baseline/adjacency_list.cpp:325-362 | removes the edge from the map in both directions when undirected; false and no change when it is absent |
| `AdjacencyList.AdjacencyList.RemoveVertex` | library/baseline/adjacency_list.cpp:217-252 | only the vertex goes: the object stays consistent when it had no edges, and represents no graph at all otherwise |
| `AdjacencyList.InsertRepresents` | library/baseline/adjacency_list.cpp:300-323 | both list updates together keep lists and map in step, without duplicates |
| `AdjacencyList.DeleteRepresents` | library/baseline/adjacency_list.cpp:334-362 | both list removals together keep lists and map in step |
| `AdjacencyList.ErasureIsSafeIffIsolated` | library/baseline/adjacency_list.cpp:217-252 | erasing a vertex leaves a represented graph if and only if no edge touches it |
| `AdjacencyList.ErasureLeavesDanglingEdge` | library/baseline/adjacency_list.cpp:217-252 | erasing vertex 1 of the graph with the one edge from 1 to 2 leaves an object that represents no graph |
| `AdjacencySearch.ExtractStep` | library/baseline/adjacency_list.cpp:737-739 | the first extraction of a vertex carries its final distance; later ones change nothing |
| `AdjacencySearch.Dijkstra` | library/baseline/adjacency_list.cpp:734-748 | shortest distances, extracted in non-decreasing order |
| `AdjacencySearch.Sssp` | library/baseline/adjacency_list.cpp:719-749 | the map of shortest distances over all vertices; an unknown source becomes an isolated vertex |
| `AdjacencySearch.Bfs` | library/baseline/adjacency_list.cpp:385-403 | hop distances of exactly the reachable vertices; fails exactly for an unknown source |
| `Renaming.DistanceRenamed` | library/baseline/csr.cpp:253-257 | a distance over logical ids is the distance over external ids |
| `Renaming.LeastRenamed` | library/baseline/csr.cpp:253-257 | an order-preserving mapping takes the smallest vertex of a component to its smallest logical id |
| `Agreement.LoadReference` | library/baseline/adjacency_list.cpp:281-323 | inserting the stream edge by edge gives the reference exactly the edges of the stream |
| `Agreement.LoadedForLcc` | library/baseline/csr.cpp:323-397 | a loaded undirected graph meets the assumptions of the clustering kernels |
| `TwoEngines.Load` | library/baseline/csr.cpp:232-240 | after loading the same stream the adjacency list represents it, and the rows of csr.cpp are its image under the vertex mapping |
| `TwoEngines.BfsOnBoth` | library/baseline/csr.cpp:676-691 | both engines throw for an unknown source; else the same hop counts, those of the stream, for every alpha and beta |
| `TwoEngines.SsspOnBoth` | library/baseline/csr.cpp:1343-1360 | for a known source the same shortest distances, those of the stream, for every delta; for an unknown one the kernel throws and the reference takes it for an isolated vertex |
| `TwoEngines.WccOnBoth` | library/baseline/csr.cpp:932-947 | the kernel reports the logical id of the smallest vertex of the component, the reference that vertex or INT64_MAX, if that is smaller |
| `TwoEngines.CdlpOnBoth` | library/baseline/csr.cpp:1022-1038 | the same labels for every max_iterations: no vertex of a stream is isolated |
| `TwoEngines.PagerankOnBoth` | library/baseline/csr.cpp:799-816 | the same scores, which sum to 1 |
| `TwoEngines.DirectedLccOnBoth` | library/baseline/csr.cpp:1200-1216 | the same directed clustering coefficients |
| `TwoEngines.UndirectedLccOnAll` | library/baseline/csr.cpp:1386-1400 | hashing, sort-merge and carried counting give the same undirected clustering coefficients |
| `AsyncBatch.NextInv` | experiment/details/async_batch.cpp:91-189 | every step of either thread keeps the invariant: the queue between send index and fill index, its contents, the program counters |
| `AsyncBatch.DeliveredInOrder` | experiment/details/async_batch.cpp:91-189 | under every interleaving what was delivered is a prefix of the updates passed to add_edge and remove_edge, and whenever the caller has control all of these are stored |
| `AsyncBatch.SyncMeansDelivered` | experiment/details/async_batch.cpp:138-161 | when flush(true) returns, everything passed in before it was called has been delivered, and nothing else |
| `AsyncBatch.FlushHandsOver` | experiment/details/async_batch.cpp:138-161 | when any flush returns, everything passed in before it is delivered or in a batch handed to the sender, in order |
| `AsyncBatch.DestroyedMeansDelivered` | experiment/details/async_batch.cpp:65-82 | when the destructor has returned everything ever passed in has been delivered |
| `AsyncBatch.AddDoesNotSync` | experiment/details/async_batch.cpp:169-189 | an update never waits for the sender to be idle: only flush(true) and the destructor do |
| `AsyncBatch.NoSlotIsShared` | experiment/details/async_batch.cpp:169-189 | while a batch is being delivered the producer fills another slot |
| `AsyncBatch.NoDeadlock` | experiment/details/async_batch.cpp:138-161 | with two batches or more some thread can always move until everything is sent |
| `AsyncBatch.SingleBatchBlocks` | experiment/details/async_batch.cpp:142 | with one batch a flush blocks for ever |
| `AsyncBatch.EveryStepCountsDown` | experiment/details/async_batch.cpp:91-161 | every step lowers a rank, so every call returns after finitely many steps |
| `Validate.EquivalenceMatch` | utility/graphalytics_validate.cpp:285-350 | for every max_num_errors it passes exactly when all reference vertices are in the result, share components there as here, and are no fewer than the result has; with distinct reference vertices, and a vertex map m that keeps them apart, exactly when the result has the vertices m[v] and two of them share a component there as v and w do in the reference |
| `Validate.EquivalentIffRenamed` | utility/graphalytics_validate.cpp:285-350 | with distinct reference vertices: accepted if and only if the vertex sets are equal and a bijection of component ids turns one output into the other |
| `Validate.JudgedRightIff` | utility/graphalytics_validate.cpp:285-350 | every result is judged right if and only if no reference vertex is repeated, or one is repeated with different components |
| `Validate.ContradictionIsRejected` | utility/graphalytics_validate.cpp:322-338 | a reference that puts a vertex in two components accepts nothing, and rightly so |
| `Validate.RepetitionHidesVertex` | utility/graphalytics_validate.cpp:343-345 | any other reference with a repetition accepts some result that has an extra vertex |
| `Validate.MappedStaysDistinct` | utility/graphalytics_validate.cpp:316 | an injective vertex map keeps reference vertices distinct |
| `Validate.EquivalentThroughMap` | utility/graphalytics_validate.cpp:310-350 | with distinct reference vertices, and a vertex map that keeps them apart: accepted if and only if the map takes the partition of the reference to that of the result |
| `Validate.RepeatedReferenceHidesVertex` | utility/graphalytics_validate.cpp:343-345 | two equal lines for vertex 1 let a result with vertices 1 and 2 pass |
| `Validate.ExactMatch` | utility/graphalytics_validate.cpp:160-198 | for every max_num_errors it passes exactly when the result names no vertex twice, the map knows all vertices (and values, if they are relabelled), all lines are confirmed, and the numbers are equal; with distinct reference vertices, and a vertex map m that keeps them apart, exactly when the result table is the reference table with every v at m[v], and every value x at m[x] exactly if relabel_value is set |
| `Validate.ExactIsMapEquality` | utility/graphalytics_validate.cpp:160-198 | with distinct reference vertices: accepted if and only if the two tables are equal |
| `Validate.ExactlyRightIff` | utility/graphalytics_validate.cpp:160-198 | every result is judged right if and only if no reference vertex is repeated |
| `Validate.ExactThroughMap` | utility/graphalytics_validate.cpp:102-124 | with distinct reference vertices, and a vertex map that keeps them apart: accepted if and only if the result table is the image of the reference table under the map |
| `Validate.RepeatedLineHidesVertex` | utility/graphalytics_validate.cpp:191-193 | a repeated reference line lets two different tables pass |
| `Latency.SquareOfSum` | experiment/details/latency.cpp:50-66 | the square of the sum is at most n times the sum of squares |
| `Latency.VarianceNotNegative` | experiment/details/latency.cpp:65-66 | with both quotients rounded down the subtraction never goes below zero |
| `Latency.ComputeStatistics` | experiment/details/latency.cpp:41-138 | mean and second moment modulo 2^64, extremes, median and percentiles by rank in the data, a description of every chunk; the array comes back sorted |
| `Latency.VarianceIsExact` | experiment/details/latency.cpp:65-66 | while the sum of squares fits in 64 bits the moments are exact |
| `Latency.PercentilesAscend` | experiment/details/latency.cpp:126-129 | min <= p90 <= p95 <= p97 <= p99 <= max |
| `Latency.PercentileMeans` | experiment/details/latency.cpp:36-39 | p is the percentile of index i of n values if and only if 100 * (number below p + 1) <= i * n < 100 * (number up to p + 1), or p is the smallest value and i * n < 100 |
| `Latency.MedianIsCentral` | experiment/details/latency.cpp:132-136 | at least half of the values are up to the median, at most half below it, as long as two values add up in 64 bits |
| `Latency.ChunksPartition` | experiment/details/latency.cpp:82-84 | the chunks partition the array, all but the last with the full size |
| `Latency.ChunkExtremes` | experiment/details/latency.cpp:94-98 | the extremes of the chunk extremes are those of the whole array |
| `Replay.Worker.LoadEdges` | experiment/details/aging2_worker.cpp:289-333 | a worker holds exactly its share of the log so far, in order, with weights resolved, and counts its insertions and deletions |
| `Replay.Worker.ExecuteUpdates` | experiment/details/aging2_worker.cpp:213-286 | in both memory modes the updates loaded are performed in order up to the stop, for any granularity |
| `Replay.RunWorker` | experiment/details/aging2_master.cpp:115-158 | for any split of the log into blocks, a worker holds exactly the log positions whose end points add up, modulo 2^64 and then the number of threads, to its id, in order, and performs their updates up to the stop |
| `Replay.LoadedShare` | experiment/details/aging2_worker.cpp:289-333 | the vectors of a worker hold exactly the log positions whose end points add up to its id, in order, with the source, destination and weight of the log, zero weights replaced by positive ones |
| `Replay.RunWorkers` | experiment/details/aging2_master.cpp:98-158 | the operations of all workers: every interleaving of them leaves the graph of one resolved log, replayed in order without the updates nobody serves |
| `Replay.WorkersReplayTheLog` | experiment/details/aging2_worker.cpp:289-333 | the same for any operations with the contract of the workers, from any graph |
| `Replay.NoRemovalIsRepeated` | experiment/details/aging2_worker.cpp:405-431 | when every update has a worker and the deletions of the log succeed in order, no call to remove an edge ever fails, in any interleaving |
| `Replay.SelectPositions` | experiment/details/aging2_worker.cpp:303-331 | the share of a worker lists, in log order, exactly the updates with its residue |
| `Replay.ServedIff` | experiment/details/aging2_master.cpp:98-106 | an update has a worker if and only if the sum of its end points, modulo 2^64 and then the number of threads, is not 0 |
| `Replay.ResidueZeroIsLost` | experiment/details/aging2_master.cpp:98-106 | with four threads the update between 1 and 3 is executed by nobody |
| `Replay.PairHasOneWorker` | experiment/details/aging2_worker.cpp:304 | an edge and its reverse belong to the same worker |
| `Replay.SwapIsHarmless` | experiment/details/aging2_worker.cpp:388-389 | swapping the end points of an undirected update does not change its effect |
| `Replay.PerformAll` | experiment/details/aging2_worker.cpp:388-440 | the operations of any schedule, performed on the reference engine, leave the graph that the replay lemmas speak of |
| `Replay.ScheduleDoesNotMatter` | experiment/details/aging2_worker.cpp:370-386 | under every interleaving of the workers the graph is the one of the sequential replay without the updates nobody serves |
| `Replay.ServedLogIsReplayed` | experiment/details/aging2_worker.cpp:370-386 | when every update has a worker all interleavings leave the graph of the sequential replay, and deletions that succeed there always succeed |

## Left out

- Bfs.TDStep: one thread; the race for the labels is `BfsRace`, whose finished runs have the same result.
- Bfs.DoBfs: the steps of a level run one after the other; `BfsRace` replaces each of them, a flush of a queue buffer being one step.
- Sssp.RelaxRow: one thread; the retries of the compare-and-swap are in `SsspRace`.
- Sssp.ProcessFrontier: one thread with one set of bins; the shared frontier is in `SsspRace`.
- Sssp.DoSssp: one thread; shared frontier, alternating indexes and barriers are in `SsspRace`, which ends with the same distances.
- Wcc.DoWcc: one thread; the racing threads are in `WccRace`, which proves every run correct and bounds the rounds and the writes.
- SsspRace.FinishedRunIsCorrect: the frontier has room for all entries of a bin; its fixed size of num_edges is not modelled.
- PageRank.DoPagerank: exact reals, no rounding of doubles.
- AdjacencyPageRank.Pagerank: exact reals.
- EdgeStream.WeightedEdgeStream.SortBySrcDst: any correct sort of the positions; the parallel sort of the common library is not part of this model.
- ByteArray.BytesPerElementIsLeast: exact logarithm; rounding of log2 on doubles above 2^53 is not modelled.
- EdgeStream.WeightedEdgeStream.DoPermuteEdges: requires a non-empty stream, since the callers return early on an empty one.
- Latency.ComputeStatistics: the position of a percentile is computed without wrap-around, as arrays are far shorter than 2^57.
- Replay.Worker.ExecuteUpdates: progress reports, memory footprint and latency recording are left out, as is the retry loop of an insertion that fails.
- AdjacencyList.AdjacencyList.RemoveVertex: no more is claimed for a vertex with edges, because the source leaves the lists of its neighbours as they are.
- Timestamps of edges: not permuted with the edges, not filled by the vector constructor, not copied by the batches.
- Timeouts inside kernels, locks and latches, and `AdjacencyList::load`, which takes its own mutex twice.
- `epsilon_match` and the parsing of result files.
- Readers, compressed logs, network client and server, configuration, database, memory profiler, benchmarks and the main driver: input and output.
- Drivers for other graph libraries: wrappers over code that is not in the repository.
