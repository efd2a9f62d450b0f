/** The two engines agree: what the kernels of csr.cpp compute over logical ids, read back through
    the vertex mapping, is what the reference engine of adjacency_list.cpp computes for the same stream. */
module Agreement {
  import AdjacencyLcc
  import AdjacencySearch
  import AdjacencyWcc
  import AL = AdjacencyList
  import Bfs
  import PageRank
  import Sssp
  import Wcc

  import opened Components
  import opened Counting
  import opened Csr
  import opened CsrLoad
  import opened Lcc
  import opened Numbers
  import opened Paths
  import opened Renaming
  import opened Triangles
  import opened UndirectedLoad
  import opened Streams

  /** The outgoing rows hold the graph G under the vertex mapping. */
  ghost predicate Mirrors(g: Csr, ids: seq<nat>, index: map<nat, nat>, G: set<Edge>) {
    && IsIndex(ids, index) && g.n == |ids| && g.out.Valid(g.n)
    && Names(G, index)
    && g.out.Edges() == Rename(G, index)
  }

  lemma IndexIsRenaming(ids: seq<nat>, index: map<nat, nat>)
    requires IsIndex(ids, index)
    ensures Injective(index) && KeepsOrder(index)
    ensures index.Values == Below(|ids|)
  {
    forall x, y | x in index && y in index
      ensures index[x] < |ids| && (index[x] < index[y] <==> x < y) && (index[x] == index[y] ==> x == y)
    {
      IndexKeepsOrder(ids, index, x, y);
    }
    forall i | 0 <= i < |ids|
      ensures i in index.Values
    {
      assert ids[i] in index && index[ids[i]] == i;
    }
  }

  lemma DirectedMirrors(g: Csr, ids: seq<nat>, index: map<nat, nat>, E: set<Edge>)
    requires DirectedLoad(g, ids, index, E) && !Misplaced(E)
    ensures Mirrors(g, ids, index, E)
  {
    IndexIsRenaming(ids, index);
  }

  lemma UndirectedMirrors(g: Csr, ids: seq<nat>, index: map<nat, nat>, E: set<Edge>)
    requires LoadedUndirected(g, ids, index, E)
    ensures Mirrors(g, ids, index, E + Flip(E))
  {
    IndexIsRenaming(ids, index);
    RenameUnion(E, Flip(E), index);
  }

  /** Direction-optimizing and FIFO breadth-first search: unreached there, negative here; else equal. */
  lemma BfsAgrees(g: Csr, ids: seq<nat>, index: map<nat, nat>, G: set<Edge>, s: nat,
                  theirs: map<nat, nat>, ours: seq<int>, v: nat)
    requires Mirrors(g, ids, index, G) && s in index && v in index && |ours| == g.n
    requires AreDistances(Hops(G), s, AdjacencySearch.Labels(theirs))
    requires forall x | x !in theirs :: IsDistance(Hops(G), s, x, Infinite)
    requires AreDistances(Hops(g.out.Edges()), index[s], Bfs.Table(ours))
    ensures index[v] < g.n
    ensures v in theirs <==> ours[index[v]] >= 0
    ensures v in theirs ==> ours[index[v]] == theirs[v]
  {
    IndexKeepsOrder(ids, index, v, v);
    HopsRenamed(G, index);
    var d := Bfs.Table(ours)[index[v]];
    DistanceRenamed(Hops(G), index, s, v, d);
    var x := if v in theirs then AdjacencySearch.Labels(theirs)[v] else Infinite;
    assert IsDistance(Hops(G), s, v, x);
    DistanceUnique(Hops(G), s, v, d, x);
  }

  /** Delta-stepping and Dijkstra. */
  lemma SsspAgrees(g: Csr, ids: seq<nat>, index: map<nat, nat>, G: set<Edge>, s: nat,
                   theirs: map<nat, Distance>, ours: seq<Distance>, v: nat)
    requires Mirrors(g, ids, index, G) && s in index && v in index && |ours| == g.n && v in theirs
    requires AreDistances(G, s, theirs) && AreDistances(g.out.Edges(), index[s], Sssp.Table(ours))
    ensures index[v] < g.n && ours[index[v]] == theirs[v]
  {
    IndexKeepsOrder(ids, index, v, v);
    DistanceRenamed(G, index, s, v, Sssp.Table(ours)[index[v]]);
    DistanceUnique(G, s, v, theirs[v], Sssp.Table(ours)[index[v]]);
  }

  lemma LabelOf(E: set<Edge>, comp: map<nat, nat>, v: nat)
    requires AreComponents(E, comp) && v in comp
    ensures IsLeast(E, comp.Keys, v, comp[v])
  {}

  lemma WccTableKeys(comp: seq<nat>)
    ensures Wcc.Table(comp).Keys == Below(|comp|)
  {}

  lemma LeastMirrored(g: Csr, ids: seq<nat>, index: map<nat, nat>, G: set<Edge>, v: nat, y: nat)
    requires Mirrors(g, ids, index, G) && v in index && index[v] < g.n && y < g.n && IsLeast(g.out.Edges(), Below(g.n), index[v], y)
    ensures IsLeast(G, index.Keys, v, ids[y])
  {
    IndexIsRenaming(ids, index);
    assert ids[y] in index && index[ids[y]] == y;
    LeastRenamed(G, index, v, ids[y]);
  }

  /** Shiloach-Vishkin and min-label propagation: the reference reports the vertex with the smallest id of the
      component, but no id above INT64_MAX; the kernel reports the logical id of that vertex. */
  lemma WccAgrees(g: Csr, ids: seq<nat>, index: map<nat, nat>, G: set<Edge>, theirs: map<nat, nat>, ours: seq<nat>, v: nat)
    requires Mirrors(g, ids, index, G) && v in index && |ours| == g.n
    requires AdjacencyWcc.AreCapped(G, theirs) && theirs.Keys == index.Keys
    requires AreComponents(g.out.Edges(), Wcc.Table(ours))
    ensures index[v] < g.n && ours[index[v]] < g.n && IsLeast(G, index.Keys, v, ids[ours[index[v]]])
    ensures theirs[v] == Min(ids[ours[index[v]]], INT64_MAX)
  {
    IndexKeepsOrder(ids, index, v, v);
    WccTableKeys(ours);
    LabelOf(g.out.Edges(), Wcc.Table(ours), index[v]);
    LeastMirrored(g, ids, index, G, v, ours[index[v]]);
    AdjacencyWcc.CappedIsMin(G, theirs, v, ids[ours[index[v]]]);
  }

  // ---- Clustering on undirected graphs ----

  lemma RowMembers(r: Rows, u: nat, x: nat)
    requires r.Valid(|r.v|) && u < |r.v|
    ensures x in r.Row(u) <==> exists w :: Edge(u, x, w) in r.Edges()
  {
    RowInBounds(r, |r.v|, u);
    HasEdgeIff(r, u, x);
    if x in r.Row(u) {
      var j: nat :| j < |r.Row(u)| && r.Row(u)[j] == x;
      assert r.InRow(u, r.First(u) + j);
    }
    if r.HasEdge(u, x) {
      var i: nat :| r.InRow(u, i) && i < |r.e| && r.e[i] == x;
      assert r.Row(u)[i - r.First(u)] == x;
    }
  }

  lemma RowIncreases(r: Rows, u: nat)
    requires r.Valid(|r.v|) && r.StrictlySorted() && u < |r.v|
    ensures Increasing(r.Row(u))
  {
    RowInBounds(r, |r.v|, u);
    forall i, j | 0 <= i < j < |r.Row(u)|
      ensures r.Row(u)[i] < r.Row(u)[j]
    {
      assert r.InRow(u, r.First(u) + i) && r.InRow(u, r.First(u) + j);
    }
  }

  lemma NeighbourSetsAreUndirected(g: Csr)
    requires g.out.Valid(g.n) && Flip(g.out.Edges()) == g.out.Edges() && Loopless(g.out.Edges())
    ensures Undirected(NeighbourSets(g))
  {
    var N := NeighbourSets(g);
    forall u, w | u in N && w in N[u]
      ensures w in N && u in N[w] && u != w
    {
      RowMembers(g.out, u, w);
      var x :| Edge(u, w, x) in g.out.Edges();
      assert Edge(w, u, x) in Flip(g.out.Edges());
      HasEdgeIffHop(g.out, u, w);
      RowMembers(g.out, w, u);
    }
  }

  /** The loaded graph is what the clustering kernels ask for. */
  lemma LoadedForLcc(g: Csr, ids: seq<nat>, index: map<nat, nat>, E: set<Edge>)
    requires LoadedUndirected(g, ids, index, E)
    ensures UndirectedCsr(g)
  {
    forall u: nat | u < g.n
      ensures Increasing(g.out.Row(u))
    {
      RowIncreases(g.out, u);
    }
    BothWaysIsSymmetric(ids, index, E);
    NeighbourSetsAreUndirected(g);
  }

  /** The loaded graph is what PageRank asks for. */
  lemma LoadedForPageRank(g: Csr)
    requires g.Valid() && g.out.StrictlySorted() && g.inc.StrictlySorted()
    ensures PageRank.Loaded(g)
  {
    forall u: nat | u < g.n
      ensures Distinct(g.out.Row(u)) && Distinct(g.inc.Row(u))
    {
      RowIncreases(g.out, u);
      RowIncreases(g.inc, u);
    }
    forall u: nat, v: nat | u < g.n && v < g.n
      ensures v in g.out.Row(u) <==> u in g.inc.Row(v)
    {
      RowMembers(g.out, u, v);
      RowMembers(g.inc, v, u);
      HasEdgeIff(g.out, u, v);
      HasEdgeIff(g.inc, v, u);
    }
  }

  lemma ListMembers(nodes: AL.NodeList, edges: AL.EdgeMap, u: nat, w: nat)
    requires AL.Represents(false, nodes, edges) && u in nodes
    ensures w in AdjacencyLcc.NeighbourMap(nodes)[u] <==> exists x :: Edge(u, w, x) in AdjacencySearch.EdgeSet(edges)
  {
    if h :| h in nodes[u].out && h.to == w {
      AdjacencySearch.OutEdge(false, nodes, edges, u, w, h.weight);
    }
    if x :| Edge(u, w, x) in AdjacencySearch.EdgeSet(edges) {
      AdjacencySearch.OutEdge(false, nodes, edges, u, w, x);
    }
  }

  lemma MirroredEdge(g: Csr, ids: seq<nat>, index: map<nat, nat>, G: set<Edge>, u: nat, w: nat)
    requires Mirrors(g, ids, index, G) && u in index && w in index
    ensures (exists x :: Edge(u, w, x) in G) <==> exists x :: Edge(index[u], index[w], x) in g.out.Edges()
  {
    if x :| Edge(u, w, x) in G {
      assert Edge(index[u], index[w], x) in Rename(G, index);
    }
    if x :| Edge(index[u], index[w], x) in g.out.Edges() {
      var e :| e in G && Edge(index[u], index[w], x) == Edge(index[e.src], index[e.dst], e.weight);
      assert e == Edge(u, w, x);
    }
  }

  lemma NeighbourMirrored(g: UndirectedGraph, ids: seq<nat>, index: map<nat, nat>, nodes: AdjacencyLcc.UndirectedNodes, edges: AL.EdgeMap,
                          u: nat, w: nat)
    requires AL.Represents(false, nodes, edges) && Mirrors(g, ids, index, AdjacencySearch.EdgeSet(edges))
    requires nodes.Keys == index.Keys && u in index && w in index
    ensures index[u] < g.n
    ensures SameEdge(AdjacencyLcc.NeighboursOf(nodes), index, NeighboursOf(g), u, w)
  {
    IndexKeepsOrder(ids, index, u, w);
    ListMembers(nodes, edges, u, w);
    MirroredEdge(g, ids, index, AdjacencySearch.EdgeSet(edges), u, w);
    RowMembers(g.out, index[u], index[w]);
  }

  lemma KeysMirrored(g: UndirectedGraph, ids: seq<nat>, index: map<nat, nat>)
    requires IsIndex(ids, index) && g.n == |ids|
    ensures Injective(index) && NeighboursOf(g).Keys == index.Values
  {
    IndexIsRenaming(ids, index);
  }

  lemma NeighboursMirrored(g: UndirectedGraph, ids: seq<nat>, index: map<nat, nat>, nodes: AdjacencyLcc.UndirectedNodes, edges: AL.EdgeMap)
    requires AL.Represents(false, nodes, edges) && Mirrors(g, ids, index, AdjacencySearch.EdgeSet(edges))
    requires nodes.Keys == index.Keys
    ensures SameNeighbours(AdjacencyLcc.NeighboursOf(nodes), index, NeighboursOf(g))
  {
    KeysMirrored(g, ids, index);
    forall u, w | u in index && w in index
      ensures index[u] in NeighboursOf(g) && SameEdge(AdjacencyLcc.NeighboursOf(nodes), index, NeighboursOf(g), u, w)
    {
      NeighbourMirrored(g, ids, index, nodes, edges, u, w);
    }
  }

  /** Sort-merge, hash and carried counting: one coefficient for every vertex. */
  lemma LccAgrees(g: UndirectedGraph, ids: seq<nat>, index: map<nat, nat>, nodes: AdjacencyLcc.UndirectedNodes, edges: AL.EdgeMap, v: nat)
    requires AL.Represents(false, nodes, edges) && Mirrors(g, ids, index, AdjacencySearch.EdgeSet(edges))
    requires nodes.Keys == index.Keys && v in index
    ensures index[v] < g.n
    ensures Coefficient(NeighboursOf(g), index[v]) == Coefficient(AdjacencyLcc.NeighboursOf(nodes), v)
  {
    NeighboursMirrored(g, ids, index, nodes, edges);
    CoefficientsAgree(AdjacencyLcc.NeighboursOf(nodes), index, NeighboursOf(g), v);
  }

  // ---- The reference engine loaded from the same stream ----

  /** The edges the engines see: an undirected edge counts in both directions. */
  ghost function Seen(directed: bool, E: set<Edge>): set<Edge> {
    if directed then E else E + Flip(E)
  }

  ghost predicate NewPair(directed: bool, edges: AL.EdgeMap, e: Edge) {
    e.src != e.dst && (e.src, e.dst) !in edges && (!directed ==> (e.dst, e.src) !in edges)
  }

  lemma InsertSeen(directed: bool, edges: AL.EdgeMap, E: set<Edge>, e: Edge)
    requires AdjacencySearch.EdgeSet(edges) == Seen(directed, E) && NewPair(directed, edges, e)
    ensures AdjacencySearch.EdgeSet(AL.Insert(directed, edges, e.src, e.dst, e.weight)) == Seen(directed, E + {e})
  {
    var after := AL.Insert(directed, edges, e.src, e.dst, e.weight);
    var back := Edge(e.dst, e.src, e.weight);
    var more := if directed then {e} else {e, back};
    forall x | x in AdjacencySearch.EdgeSet(edges) + more
      ensures x in AdjacencySearch.EdgeSet(after)
    {
      assert (x.src, x.dst) in after && after[(x.src, x.dst)] == x.weight;
    }
    assert AdjacencySearch.EdgeSet(after) == AdjacencySearch.EdgeSet(edges) + more;
    assert Flip(E + {e}) == Flip(E) + {back};
  }

  lemma SeenAt(directed: bool, stream: seq<Edge>, x: Edge) returns (k: nat)
    requires x in Seen(directed, EdgeSet(stream))
    ensures k < |stream|
    ensures stream[k] == x || (!directed && stream[k] == Edge(x.dst, x.src, x.weight))
  {
    if x in EdgeSet(stream) {
      k :| k < |stream| && stream[k] == x;
    } else {
      var e :| e in EdgeSet(stream) && x == Edge(e.dst, e.src, e.weight);
      k :| k < |stream| && stream[k] == e;
    }
  }

  lemma PrefixIsNew(directed: bool, stream: seq<Edge>, i: nat, edges: AL.EdgeMap)
    requires i < |stream| && SimpleStream(stream) && (!directed ==> OneWay(EdgeSet(stream)))
    requires AdjacencySearch.EdgeSet(edges) == Seen(directed, EdgeSet(stream[..i]))
    ensures NewPair(directed, edges, stream[i])
  {
    var e := stream[i];
    assert e in EdgeSet(stream);
    forall p | p in edges
      ensures p != (e.src, e.dst) && (!directed ==> p != (e.dst, e.src))
    {
      var x := Edge(p.0, p.1, edges[p]);
      assert x in AdjacencySearch.EdgeSet(edges);
      var k := SeenAt(directed, stream[..i], x);
      assert stream[k] in EdgeSet(stream);
    }
  }

  ghost predicate LoadedUpTo(list: AL.AdjacencyList, stream: seq<Edge>)
    reads list
  {
    && list.Valid()
    && AdjacencySearch.EdgeSet(list.edges) == Seen(list.directed, EdgeSet(stream))
    && list.nodes.Keys == Endpoints(stream)
  }

  method LoadOne(list: AL.AdjacencyList, stream: seq<Edge>, i: nat)
    requires SimpleStream(stream) && (!list.directed ==> OneWay(EdgeSet(stream)))
    requires i < |stream| && LoadedUpTo(list, stream[..i])
    modifies list
    ensures LoadedUpTo(list, stream[..i + 1])
  {
    TakeSnoc(stream, i);
    PrefixIsNew(list.directed, stream, i, list.edges);
    InsertSeen(list.directed, list.edges, EdgeSet(stream[..i]), stream[i]);
    assert EdgeSet(stream[..i + 1]) == EdgeSet(stream[..i]) + {stream[i]};
    var _ := list.AddEdgeV2(stream[i].src, stream[i].dst, stream[i].weight);
  }

  /** add_edge_v2 for every edge of the stream. */
  method LoadReference(directed: bool, stream: seq<Edge>) returns (list: AL.AdjacencyList)
    requires SimpleStream(stream) && (!directed ==> OneWay(EdgeSet(stream)))
    ensures fresh(list) && list.directed == directed && LoadedUpTo(list, stream)
  {
    list := new AL.AdjacencyList(directed);
    assert AdjacencySearch.EdgeSet(list.edges) == {} == EdgeSet([]);
    for i := 0 to |stream|
      invariant fresh(list) && list.directed == directed && LoadedUpTo(list, stream[..i])
    {
      LoadOne(list, stream, i);
    }
    assert stream[..|stream|] == stream;
  }
}
