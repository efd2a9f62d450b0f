/** One stream, both engines, every kernel: the stream is loaded by csr.cpp and by adjacency_list.cpp, the
    kernel is run on either side, and the two results are equal through the vertex mapping. */
module TwoEngines {
  import opened Agreement
  import opened Counting
  import opened Csr
  import opened CsrLoad
  import opened EdgeStream
  import opened Numbers
  import opened Options
  import opened Paths
  import opened Streams
  import opened UndirectedLoad

  import AdjacencyLcc
  import AdjacencyPageRank
  import AdjacencySearch
  import AdjacencyWcc
  import AL = AdjacencyList
  import Bfs
  import ByteArray
  import Cdlp
  import CdlpAgreement
  import Components
  import DirectedLcc
  import Lcc
  import LccAgreement
  import PageRank
  import PageRankAgreement
  import Renaming
  import Sssp
  import Triangles
  import Wcc

  // ---- Loading ----

  /** The streams that both engines hold as they are: no edge twice, no loops, on undirected graphs no edge in
      both directions, and the conditions under which the load of csr.cpp is right. */
  ghost predicate Loadable(directed: bool, edges: seq<Edge>) {
    && SimpleStream(edges) && (!directed ==> OneWay(EdgeSet(edges)))
    && RightlyLoaded(edges)
  }

  /** For one, the stream with the edge from 2 to 3. */
  lemma SomethingIsLoadable(directed: bool)
    ensures Loadable(directed, [Edge(2, 3, 1)])
  {
    var e := Edge(2, 3, 1);
    assert [e][..0] == [] && EdgeSet([e]) == {e};
    assert MaxId([e]) == 3;
    forall k: nat
      ensures ByteArray.Pow256(k) != 3
    {}
    assert e in {e} && Edge(3, 2, 1) in Flip({e});
  }

  /** The graph of csr.cpp, as the kernels need it. */
  ghost predicate Mirrored(directed: bool, g: Csr, ids: seq<nat>, index: map<nat, nat>, G: set<Edge>) {
    && CdlpAgreement.MirrorsBoth(directed, g, ids, index, G)
    && g.Valid() && g.Simple()
    && (!directed ==> g.inc == g.out && Lcc.UndirectedCsr(g))
  }

  lemma KeysAreEndpoints(edges: seq<Edge>, ids: seq<nat>, index: map<nat, nat>)
    requires MapsExactly(ids, index, EdgeSet(edges))
    ensures index.Keys == Endpoints(edges)
  {
    forall x | x in index
      ensures x in Endpoints(edges)
    {
      var e :| e in EdgeSet(edges) && (x == e.src || x == e.dst);
      EndpointsCover(edges, e);
    }
    forall x | x in Endpoints(edges)
      ensures x in index
    {
      var e := EndpointOf(edges, x);
      assert e in EdgeSet(edges);
    }
  }

  lemma SimpleIsLoopless(edges: seq<Edge>)
    requires SimpleStream(edges)
    ensures Loopless(EdgeSet(edges))
  {}

  lemma RenamedHasNoLoops(g: Csr, ids: seq<nat>, index: map<nat, nat>, G: set<Edge>)
    requires Mirrors(g, ids, index, G) && Loopless(G)
    ensures forall u: nat :: !g.out.HasEdge(u, u)
  {
    forall x | x in g.out.Edges()
      ensures x.src != x.dst
    {
      var e :| e in G && x == Edge(index[e.src], index[e.dst], e.weight);
      IndexKeepsOrder(ids, index, e.src, e.dst);
    }
    forall u: nat
      ensures !g.out.HasEdge(u, u)
    {
      HasEdgeIff(g.out, u, u);
    }
  }

  lemma DirectedIsMirrored(g: Csr, ids: seq<nat>, index: map<nat, nat>, E: set<Edge>)
    requires DirectedLoad(g, ids, index, E) && !Misplaced(E) && !Misplaced(Flip(E)) && Loopless(E)
    requires g.out.StrictlySorted() && g.inc.StrictlySorted()
    ensures Mirrored(true, g, ids, index, E)
  {
    DirectedMirrors(g, ids, index, E);
    LoadedIsTranspose(g, ids, index, E);
    RenamedHasNoLoops(g, ids, index, E);
  }

  lemma UndirectedIsMirrored(g: Csr, ids: seq<nat>, index: map<nat, nat>, E: set<Edge>)
    requires LoadedUndirected(g, ids, index, E)
    ensures Mirrored(false, g, ids, index, E + Flip(E))
  {
    UndirectedMirrors(g, ids, index, E);
    UndirectedIsValid(g, ids, index, E);
    LoadedForLcc(g, ids, index, E);
  }

  method LoadDirectedRows(edges: seq<Edge>, hardwareConcurrency: nat) returns (g: Csr, ids: seq<nat>, index: map<nat, nat>)
    requires Loadable(true, edges)
    ensures Mirrored(true, g, ids, index, Seen(true, EdgeSet(edges))) && index.Keys == Endpoints(edges)
  {
    SimpleIsLoopless(edges);
    var stream := new WeightedEdgeStream(edges);
    var done;
    done, g, ids, index := LoadDirected(stream, hardwareConcurrency);
    DirectedIsMirrored(g, ids, index, EdgeSet(edges));
    KeysAreEndpoints(edges, ids, index);
  }

  method LoadUndirectedRows(edges: seq<Edge>, hardwareConcurrency: nat) returns (g: Csr, ids: seq<nat>, index: map<nat, nat>)
    requires Loadable(false, edges)
    ensures Mirrored(false, g, ids, index, Seen(false, EdgeSet(edges))) && index.Keys == Endpoints(edges)
  {
    SimpleIsLoopless(edges);
    var stream := new WeightedEdgeStream(edges);
    var done;
    done, g, ids, index := LoadUndirected(stream, hardwareConcurrency);
    UndirectedIsMirrored(g, ids, index, EdgeSet(edges));
    KeysAreEndpoints(edges, ids, index);
  }

  /** What both engines hold after loading the same stream. */
  ghost predicate Twins(directed: bool, g: Csr, ids: seq<nat>, index: map<nat, nat>, nodes: AL.NodeList, graph: AL.EdgeMap) {
    && AL.Represents(directed, nodes, graph) && nodes.Keys == index.Keys
    && Mirrored(directed, g, ids, index, AdjacencySearch.EdgeSet(graph))
  }

  /** CSR::load and the loop over add_edge_v2. */
  method Load(directed: bool, edges: seq<Edge>, hardwareConcurrency: nat)
    returns (g: Csr, ids: seq<nat>, index: map<nat, nat>, nodes: AL.NodeList, ghost graph: AL.EdgeMap)
    requires Loadable(directed, edges)
    ensures Twins(directed, g, ids, index, nodes, graph) && index.Keys == Endpoints(edges)
    ensures AdjacencySearch.EdgeSet(graph) == Seen(directed, EdgeSet(edges))
  {
    if directed {
      g, ids, index := LoadDirectedRows(edges, hardwareConcurrency);
    } else {
      g, ids, index := LoadUndirectedRows(edges, hardwareConcurrency);
    }
    var list := LoadReference(directed, edges);
    nodes, graph := list.nodes, list.edges;
  }

  lemma RowOf(g: Csr, ids: seq<nat>, index: map<nat, nat>, v: nat)
    requires IsIndex(ids, index) && g.n == |ids| && v in index
    ensures index[v] < g.n
  {
    IndexKeepsOrder(ids, index, v, v);
  }

  // ---- Breadth-first search ----

  /** Unreached there, negative here; else equal. */
  ghost predicate SameHops(index: map<nat, nat>, theirs: map<nat, nat>, ours: seq<int>) {
    forall v | v in index ::
      && index[v] < |ours|
      && (v in theirs <==> ours[index[v]] >= 0)
      && (v in theirs ==> ours[index[v]] == theirs[v])
  }

  lemma HopsAgree(g: Csr, ids: seq<nat>, index: map<nat, nat>, G: set<Edge>, s: nat, theirs: map<nat, nat>, ours: seq<int>)
    requires Mirrors(g, ids, index, G) && s in index && |ours| == g.n
    requires AreDistances(Hops(G), s, AdjacencySearch.Labels(theirs))
    requires forall x | x !in theirs :: IsDistance(Hops(G), s, x, Infinite)
    requires AreDistances(Hops(g.out.Edges()), index[s], Bfs.Table(ours))
    ensures SameHops(index, theirs, ours)
  {
    forall v | v in index
      ensures index[v] < |ours| && (v in theirs <==> ours[index[v]] >= 0) && (v in theirs ==> ours[index[v]] == theirs[v])
    {
      BfsAgrees(g, ids, index, G, s, theirs, ours, v);
    }
  }

  /** CSR::bfs and AdjacencyList::bfs: both throw for an unknown source; else the same hop counts, which are those of
      the stream, for every alpha and beta. */
  method BfsOnBoth(directed: bool, edges: seq<Edge>, source: nat, alpha: int, beta: int, hardwareConcurrency: nat)
    returns (index: map<nat, nat>, ours: Option<seq<int>>, theirs: Option<map<nat, nat>>)
    requires Loadable(directed, edges) && alpha > 0 && beta > 0
    ensures index.Keys == Endpoints(edges)
    ensures ours.None? <==> source !in index
    ensures theirs.None? <==> source !in index
    ensures ours.Some? ==> SameHops(index, theirs.value, ours.value)
    ensures theirs.Some? ==> AreDistances(Hops(Seen(directed, EdgeSet(edges))), source, AdjacencySearch.Labels(theirs.value))
  {
    var g, ids, nodes;
    ghost var graph;
    g, ids, index, nodes, graph := Load(directed, edges, hardwareConcurrency);
    ghost var G := AdjacencySearch.EdgeSet(graph);
    AdjacencySearch.RepresentsOutLists(directed, nodes, graph);
    theirs := AdjacencySearch.Bfs(nodes, G, source);
    if source !in index {
      return index, None, theirs;
    }
    RowOf(g, ids, index, source);
    var distances := Bfs.DoBfs(g, index[source], alpha, beta);
    ours := Some(distances[..]);
    HopsAgree(g, ids, index, G, source, theirs.value, distances[..]);
  }

  // ---- Shortest paths ----

  ghost predicate SameDistances(index: map<nat, nat>, theirs: map<nat, Distance>, ours: seq<Distance>) {
    forall v | v in index :: v in theirs && index[v] < |ours| && ours[index[v]] == theirs[v]
  }

  lemma PathsAgree(g: Csr, ids: seq<nat>, index: map<nat, nat>, G: set<Edge>, s: nat, theirs: map<nat, Distance>, ours: seq<Distance>)
    requires Mirrors(g, ids, index, G) && s in index && |ours| == g.n && index.Keys <= theirs.Keys
    requires AreDistances(G, s, theirs) && AreDistances(g.out.Edges(), index[s], Sssp.Table(ours))
    ensures SameDistances(index, theirs, ours)
  {
    forall v | v in index
      ensures v in theirs && index[v] < |ours| && ours[index[v]] == theirs[v]
    {
      SsspAgrees(g, ids, index, G, s, theirs, ours, v);
    }
  }

  lemma WeightsStayNonNegative(directed: bool, E: set<Edge>, index: map<nat, nat>)
    requires NonNegative(E) && Renaming.Names(Seen(directed, E), index)
    ensures NonNegative(Seen(directed, E)) && NonNegative(Rename(Seen(directed, E), index))
  {}

  /** CSR::sssp and AdjacencyList::sssp: the kernel throws for an unknown source, the reference takes it for an isolated
      vertex; else the same lengths of shortest paths, for every delta. */
  method SsspOnBoth(directed: bool, edges: seq<Edge>, source: nat, delta: nat, hardwareConcurrency: nat)
    returns (index: map<nat, nat>, ours: Option<seq<Distance>>, theirs: map<nat, Distance>)
    requires Loadable(directed, edges) && NonNegative(EdgeSet(edges)) && delta > 0
    ensures index.Keys == Endpoints(edges)
    ensures ours.None? <==> source !in index
    ensures ours.Some? ==> SameDistances(index, theirs, ours.value)
    ensures AreDistances(Seen(directed, EdgeSet(edges)), source, theirs) && theirs.Keys == index.Keys + {source}
  {
    var g, ids, nodes;
    ghost var graph;
    g, ids, index, nodes, graph := Load(directed, edges, hardwareConcurrency);
    ghost var G := AdjacencySearch.EdgeSet(graph);
    WeightsStayNonNegative(directed, EdgeSet(edges), index);
    var distances, nodes', order := AdjacencySearch.Sssp(directed, nodes, graph, source);
    theirs := distances;
    if source !in index {
      return index, None, theirs;
    }
    RowOf(g, ids, index, source);
    var dist := Sssp.DoSssp(g, index[source], delta);
    ours := Some(dist[..]);
    PathsAgree(g, ids, index, G, source, theirs, dist[..]);
  }

  // ---- Weakly connected components ----

  /** The kernel names a component by the logical id of its smallest vertex, the reference by that vertex, or by
      INT64_MAX if that is smaller. */
  ghost predicate SameComponents(G: set<Edge>, ids: seq<nat>, index: map<nat, nat>, theirs: map<nat, nat>, ours: seq<nat>) {
    forall v | v in index ::
      && index[v] < |ours| && ours[index[v]] < |ids| && v in theirs
      && Components.IsLeast(G, index.Keys, v, ids[ours[index[v]]])
      && theirs[v] == Min(ids[ours[index[v]]], INT64_MAX)
  }

  lemma LabelsAgree(g: Csr, ids: seq<nat>, index: map<nat, nat>, G: set<Edge>, theirs: map<nat, nat>, ours: seq<nat>)
    requires Mirrors(g, ids, index, G) && |ours| == g.n
    requires AdjacencyWcc.AreCapped(G, theirs) && theirs.Keys == index.Keys
    requires Components.AreComponents(g.out.Edges(), Wcc.Table(ours))
    ensures SameComponents(G, ids, index, theirs, ours)
  {
    forall v | v in index
      ensures index[v] < |ours| && ours[index[v]] < |ids| && Components.IsLeast(G, index.Keys, v, ids[ours[index[v]]])
      ensures theirs[v] == Min(ids[ours[index[v]]], INT64_MAX)
    {
      WccAgrees(g, ids, index, G, theirs, ours, v);
    }
  }

  /** CSR::wcc and AdjacencyList::wcc. */
  method WccOnBoth(directed: bool, edges: seq<Edge>, hardwareConcurrency: nat)
    returns (ids: seq<nat>, index: map<nat, nat>, ours: seq<nat>, theirs: map<nat, nat>)
    requires Loadable(directed, edges)
    ensures index.Keys == theirs.Keys == Endpoints(edges)
    ensures SameComponents(Seen(directed, EdgeSet(edges)), ids, index, theirs, ours)
  {
    var g, nodes;
    ghost var graph;
    g, ids, index, nodes, graph := Load(directed, edges, hardwareConcurrency);
    ghost var G := AdjacencySearch.EdgeSet(graph);
    AdjacencyWcc.RepresentsNeighbourLists(directed, nodes, graph);
    var order := ListOf(nodes.Keys);
    theirs := AdjacencyWcc.Wcc(nodes, G, order);
    var comp := Wcc.DoWcc(g);
    ours := comp[..];
    LabelsAgree(g, ids, index, G, theirs, ours);
  }

  // ---- Label propagation ----

  lemma NobodyIsIsolated(directed: bool, edges: seq<Edge>, nodes: AL.NodeList, graph: AL.EdgeMap)
    requires AL.Represents(directed, nodes, graph) && nodes.Keys == Endpoints(edges)
    requires AdjacencySearch.EdgeSet(graph) == Seen(directed, EdgeSet(edges))
    ensures forall v | v in nodes :: !CdlpAgreement.Isolated(nodes, v)
  {
    forall v | v in nodes
      ensures !CdlpAgreement.Isolated(nodes, v)
    {
      var e := EndpointOf(edges, v);
      assert e in EdgeSet(edges);
      CdlpAgreement.NamedIsNotIsolated(directed, nodes, graph, e, v);
    }
  }

  lemma RepresentedIsClosed(directed: bool, nodes: AL.NodeList, graph: AL.EdgeMap)
    requires AL.Represents(directed, nodes, graph)
    ensures Cdlp.Closed(nodes)
  {
    AdjacencyPageRank.RepresentedIsLinked(directed, nodes, graph);
    forall v | v in nodes
      ensures Cdlp.NeighboursKnown(nodes, v)
    {
      assert AdjacencyPageRank.ListLinked(nodes, nodes[v].out) && AdjacencyPageRank.ListLinked(nodes, nodes[v].inc);
    }
  }

  ghost predicate SameLabels(index: map<nat, nat>, theirs: map<nat, nat>, ours: seq<nat>) {
    forall v | v in index :: v in theirs && index[v] < |ours| && ours[index[v]] == theirs[v]
  }

  /** CSR::cdlp and AdjacencyList::cdlp: no vertex of a stream is isolated, so the labels agree. */
  method CdlpOnBoth(directed: bool, edges: seq<Edge>, maxIterations: nat, hardwareConcurrency: nat)
    returns (index: map<nat, nat>, ours: seq<nat>, theirs: map<nat, nat>)
    requires Loadable(directed, edges)
    ensures index.Keys == theirs.Keys == Endpoints(edges) && SameLabels(index, theirs, ours)
  {
    var g, ids, nodes;
    ghost var graph;
    g, ids, index, nodes, graph := Load(directed, edges, hardwareConcurrency);
    NobodyIsIsolated(directed, edges, nodes, graph);
    RepresentedIsClosed(directed, nodes, graph);
    theirs := Cdlp.ReferenceCdlp(nodes, maxIterations);
    var labels := Cdlp.DoCdlp(g, directed, ids, maxIterations);
    ours := labels[..];
    forall v | v in index
      ensures v in theirs && index[v] < |ours| && ours[index[v]] == theirs[v]
    {
      CdlpAgreement.CdlpAgrees(directed, nodes, graph, g, ids, index, maxIterations, theirs, ours, v);
    }
  }

  // ---- PageRank ----

  lemma TwinsMatch(directed: bool, g: Csr, ids: seq<nat>, index: map<nat, nat>, nodes: AL.NodeList, graph: AL.EdgeMap)
    requires Twins(directed, g, ids, index, nodes, graph)
    ensures PageRankAgreement.Matched(nodes, directed, g, index) && PageRank.Loaded(g)
  {
    IndexIsRenaming(ids, index);
    CdlpAgreement.LoadedListsMatch(directed, nodes, graph, g, ids, index);
    LoadedForPageRank(g);
  }

  ghost predicate SameScores(index: map<nat, nat>, theirs: map<nat, real>, ours: seq<real>) {
    forall v | v in index :: v in theirs && index[v] < |ours| && ours[index[v]] == theirs[v]
  }

  /** CSR::pagerank and AdjacencyList::pagerank. */
  method PagerankOnBoth(directed: bool, edges: seq<Edge>, numIterations: nat, d: real, hardwareConcurrency: nat)
    returns (index: map<nat, nat>, ours: seq<real>, theirs: map<nat, real>)
    requires Loadable(directed, edges)
    ensures index.Keys == theirs.Keys == Endpoints(edges) && SameScores(index, theirs, ours)
    ensures edges != [] ==> PageRank.Sum(ours) == 1.0
  {
    var g, ids, nodes;
    ghost var graph;
    g, ids, index, nodes, graph := Load(directed, edges, hardwareConcurrency);
    TwinsMatch(directed, g, ids, index, nodes, graph);
    AdjacencyPageRank.RepresentedIsLinked(directed, nodes, graph);
    theirs := AdjacencyPageRank.Pagerank(nodes, directed, numIterations, d);
    var scores := PageRank.DoPagerank(g, numIterations, d);
    ours := scores[..];
    PageRankAgreement.PagerankAgrees(nodes, directed, g, index, d, numIterations);
    if edges != [] {
      EndpointsCover(edges, edges[0]);
      RowOf(g, ids, index, edges[0].src);
      PageRank.MassIsOne(g, d, numIterations);
    }
  }

  // ---- Clustering ----

  /** CSR::lcc and AdjacencyList::lcc on directed graphs. */
  method DirectedLccOnBoth(edges: seq<Edge>, hardwareConcurrency: nat)
    returns (index: map<nat, nat>, ours: seq<real>, theirs: map<nat, real>)
    requires Loadable(true, edges)
    ensures index.Keys == theirs.Keys == Endpoints(edges) && SameScores(index, theirs, ours)
  {
    var g, ids, nodes;
    ghost var graph;
    g, ids, index, nodes, graph := Load(true, edges, hardwareConcurrency);
    TwinsMatch(true, g, ids, index, nodes, graph);
    theirs := DirectedLcc.LccDirected(nodes, graph);
    var scores := DirectedLcc.HashScores(g);
    ours := scores[..];
    forall v | v in index
      ensures v in theirs && index[v] < |ours| && ours[index[v]] == theirs[v]
    {
      LccAgreement.DirectedLccAgrees(nodes, g, index, v);
    }
  }

  lemma TwinsAreUndirected(g: Csr, ids: seq<nat>, index: map<nat, nat>, nodes: AL.NodeList, graph: AL.EdgeMap)
    requires Twins(false, g, ids, index, nodes, graph)
    ensures AdjacencyLcc.Simple(nodes) && Triangles.Undirected(AdjacencyLcc.NeighbourMap(nodes))
  {
    AdjacencyLcc.UndirectedNeighbours(nodes, graph);
  }

  lemma CoefficientsAgree(g: Lcc.UndirectedGraph, ids: seq<nat>, index: map<nat, nat>, nodes: AdjacencyLcc.UndirectedNodes, graph: AL.EdgeMap,
                          theirs: map<nat, real>, ours: seq<real>)
    requires AL.Represents(false, nodes, graph) && Mirrors(g, ids, index, AdjacencySearch.EdgeSet(graph))
    requires nodes.Keys == index.Keys == theirs.Keys && AdjacencyLcc.Scored(nodes, theirs)
    requires |ours| == g.n && forall x: nat | x < g.n :: ours[x] == Triangles.Coefficient(Lcc.NeighboursOf(g), x)
    ensures SameScores(index, theirs, ours)
  {
    forall v | v in index
      ensures v in theirs && index[v] < |ours| && ours[index[v]] == theirs[v]
    {
      LccAgrees(g, ids, index, nodes, graph, v);
    }
  }

  lemma SameArrays(a: seq<real>, b: seq<real>, n: nat)
    requires |a| == |b| == n && forall x: nat | x < n :: a[x] == b[x]
    ensures a == b
  {}

  /** The two kernels of csr.cpp on an undirected graph: hashing and sort-merge. */
  method UndirectedScores(g: Lcc.UndirectedGraph) returns (hashed: seq<real>, merged: seq<real>)
    ensures |hashed| == g.n && hashed == merged
    ensures forall x: nat | x < g.n :: hashed[x] == Triangles.Coefficient(Lcc.NeighboursOf(g), x)
  {
    var scores := Lcc.HashScores(g);
    var scores' := Lcc.SortMergeScores(g);
    hashed, merged := scores[..], scores'[..];
    SameArrays(hashed, merged, g.n);
  }

  /** CSR::lcc, CSR_LCC and AdjacencyList::lcc on undirected graphs: hashing, sort-merge and carried counts. */
  method UndirectedLccOnAll(edges: seq<Edge>, hardwareConcurrency: nat)
    returns (index: map<nat, nat>, hashed: seq<real>, merged: seq<real>, theirs: map<nat, real>)
    requires Loadable(false, edges)
    ensures index.Keys == theirs.Keys == Endpoints(edges) && hashed == merged && SameScores(index, theirs, hashed)
  {
    var g, ids, nodes;
    ghost var graph;
    g, ids, index, nodes, graph := Load(false, edges, hardwareConcurrency);
    TwinsAreUndirected(g, ids, index, nodes, graph);
    var order := AdjacencyLcc.SortedVertices(nodes);
    theirs := AdjacencyLcc.LccUndirected(nodes, order);
    hashed, merged := UndirectedScores(g);
    CoefficientsAgree(g, ids, index, nodes, graph, theirs, hashed);
  }
}
