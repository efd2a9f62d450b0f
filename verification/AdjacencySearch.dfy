/** The reference searches of library/baseline/adjacency_list.cpp: FIFO breadth-first search
    (lines 385-403) and Dijkstra with lazy deletion (lines 719-749). */
module AdjacencySearch {
  import opened AdjacencyList
  import opened Options
  import opened Paths

  ghost function EdgeSet(edges: EdgeMap): set<Edge> {
    set p | p in edges :: Edge(p.0, p.1, edges[p])
  }

  /** The outgoing lists are the edges of the abstract graph. */
  lemma OutEdge(directed: bool, nodes: NodeList, edges: EdgeMap, u: nat, v: nat, w: int)
    requires Represents(directed, nodes, edges)
    ensures Edge(u, v, w) in EdgeSet(edges) <==> u in nodes && Half(v, w) in nodes[u].out
    ensures Edge(u, v, w) in EdgeSet(edges) ==> v in nodes
  {
    assert Edge(u, v, w) in EdgeSet(edges) <==> Has(edges, u, v, w);
    if u in nodes {
      assert Holds(nodes[u].out, v, w) <==> Has(edges, u, v, w);
    }
  }

  ghost function EdgesFrom(u: nat, out: seq<Half>): set<Edge> {
    set h | h in out :: Edge(u, h.to, h.weight)
  }

  lemma EdgesFromSplit(u: nat, out: seq<Half>, i: nat)
    requires i < |out|
    ensures EdgesFrom(u, out[i..]) == EdgesFrom(u, out[i + 1..]) + {Edge(u, out[i].to, out[i].weight)}
  {
    assert out[i..] == [out[i]] + out[i + 1..];
  }

  // ---- Dijkstra ----

  datatype Elt = Elt(v: nat, d: nat)

  /** The visited vertices keep their distance and their edges are relaxed, those in open excepted. */
  ghost predicate Finished(E: set<Edge>, dist: map<nat, Distance>, visited: set<nat>, last: nat, open: set<Edge>) {
    && (forall v | v in visited :: v in dist && dist[v].Finite? && dist[v].d <= last)
    && (forall e | e in E && e.src in visited && e !in open :: Relaxed(dist, e))
  }

  /** The queue holds the label of every vertex waiting; stale entries are larger than the label. */
  ghost predicate QueueInv(dist: map<nat, Distance>, Q: multiset<Elt>, visited: set<nat>, last: nat) {
    && (forall v | v in dist && v !in visited && dist[v].Finite? :: Elt(v, dist[v].d) in Q)
    && (forall x | x in Q :: x.v in dist && dist[x.v].Finite? && dist[x.v].d <= x.d && last <= x.d)
  }

  /** What holds while the edges open of the visited vertices are still to be relaxed; last is the
      distance extracted last. */
  ghost predicate DijkstraInv(E: set<Edge>, s: nat, dist: map<nat, Distance>, Q: multiset<Elt>, visited: set<nat>, last: nat, open: set<Edge>) {
    && s in dist && dist[s] == Finite(0)
    && Sound(E, s, dist)
    && Finished(E, dist, visited, last, open)
    && QueueInv(dist, Q, visited, last)
  }

  lemma PushKeepsQueue(dist: map<nat, Distance>, Q: multiset<Elt>, visited: set<nat>, last: nat, v: nat, d: nat)
    requires QueueInv(dist, Q, visited, last) && v in dist && Closer(d, dist[v]) && last <= d
    ensures QueueInv(dist[v := Finite(d)], Q + multiset{Elt(v, d)}, visited, last)
  {
    var dist', Q' := dist[v := Finite(d)], Q + multiset{Elt(v, d)};
    forall u | u in dist' && u !in visited && dist'[u].Finite?
      ensures Elt(u, dist'[u].d) in Q'
    {
      assert u != v ==> Elt(u, dist[u].d) in Q;
    }
    forall x | x in Q'
      ensures x.v in dist' && dist'[x.v].Finite? && dist'[x.v].d <= x.d && last <= x.d
    {
      assert x in Q || x == Elt(v, d);
    }
  }

  lemma ImproveKeepsFinished(E: set<Edge>, dist: map<nat, Distance>, visited: set<nat>, last: nat, open: set<Edge>, e: Edge, open': set<Edge>)
    requires Finished(E, dist, visited, last, open) && open <= open' + {e} && e in E && e.weight >= 0 && e.src in visited
    requires e.dst in dist && dist[e.src] == Finite(last) && Closer(last + e.weight, dist[e.dst])
    ensures e.dst !in visited && Finished(E, dist[e.dst := Finite(last + e.weight)], visited, last, open')
  {
    var dist' := dist[e.dst := Finite(last + e.weight)];
    forall f | f in E && f.src in visited && f !in open'
      ensures Relaxed(dist', f)
    {
      assert f == e || Relaxed(dist, f);
    }
  }

  lemma DijkstraImproves(E: set<Edge>, s: nat, dist: map<nat, Distance>, Q: multiset<Elt>, visited: set<nat>, last: nat,
                         open: set<Edge>, e: Edge, open': set<Edge>, d: nat)
    requires DijkstraInv(E, s, dist, Q, visited, last, open) && open <= open' + {e}
    requires e in E && e.weight >= 0 && e.src in visited && e.dst in dist && dist[e.src] == Finite(last)
    requires d == last + e.weight && Closer(d, dist[e.dst])
    ensures e.dst !in visited && DijkstraInv(E, s, dist[e.dst := Finite(d)], Q + multiset{Elt(e.dst, d)}, visited, last, open')
  {
    var dist', Q' := dist[e.dst := Finite(d)], Q + multiset{Elt(e.dst, d)};
    assert Sound(E, s, dist') by { RelaxKeepsSound(E, s, dist, e); }
    assert QueueInv(dist', Q', visited, last) by { PushKeepsQueue(dist, Q, visited, last, e.dst, d); }
    assert e.dst !in visited && Finished(E, dist', visited, last, open') by {
      ImproveKeepsFinished(E, dist, visited, last, open, e, open');
    }
  }

  lemma DijkstraSkips(E: set<Edge>, s: nat, dist: map<nat, Distance>, Q: multiset<Elt>, visited: set<nat>, last: nat,
                      open: set<Edge>, e: Edge, open': set<Edge>)
    requires DijkstraInv(E, s, dist, Q, visited, last, open) && open <= open' + {e}
    requires e.src in dist && e.dst in dist && dist[e.src] == Finite(last) && last + e.weight >= 0 && !Closer(last + e.weight, dist[e.dst])
    ensures DijkstraInv(E, s, dist, Q, visited, last, open')
  {
    forall f | f in E && f.src in visited && f !in open'
      ensures Relaxed(dist, f)
    {
      assert f == e || f !in open;
    }
  }

  /** The loop over the outgoing edges of the extracted vertex u. */
  method RelaxOut(out: seq<Half>, ghost E: set<Edge>, ghost s: nat, ghost u: nat, d: nat, ghost visited: set<nat>,
                  dist: map<nat, Distance>, Q: multiset<Elt>)
    returns (dist': map<nat, Distance>, Q': multiset<Elt>)
    requires DijkstraInv(E, s, dist, Q, visited, d, EdgesFrom(u, out)) && u in visited && dist[u] == Finite(d)
    requires EdgesFrom(u, out) <= E && NonNegative(E) && forall h | h in out :: h.to in dist
    ensures DijkstraInv(E, s, dist', Q', visited, d, {}) && dist'.Keys == dist.Keys
    ensures forall v | v in visited :: dist'[v] == dist[v]
  {
    dist', Q' := dist, Q;
    assert out[0..] == out;
    for i := 0 to |out|
      invariant DijkstraInv(E, s, dist', Q', visited, d, EdgesFrom(u, out[i..])) && dist'.Keys == dist.Keys
      invariant forall v | v in visited :: dist'[v] == dist[v]
    {
      var h := out[i];
      ghost var e := Edge(u, h.to, h.weight);
      EdgesFromSplit(u, out, i);
      assert h in out && e in EdgesFrom(u, out);
      var newDist: nat := d + h.weight;
      if Closer(newDist, dist'[h.to]) {
        DijkstraImproves(E, s, dist', Q', visited, d, EdgesFrom(u, out[i..]), e, EdgesFrom(u, out[i + 1..]), newDist);
        dist' := dist'[h.to := Finite(newDist)];
        Q' := Q' + multiset{Elt(h.to, newDist)};
      } else {
        DijkstraSkips(E, s, dist', Q', visited, d, EdgesFrom(u, out[i..]), e, EdgesFrom(u, out[i + 1..]));
      }
    }
    assert out[|out|..] == [];
  }

  lemma LeastExists(Q: multiset<Elt>)
    requires |Q| > 0
    ensures exists x :: x in Q && forall y | y in Q :: x.d <= y.d
    decreases |Q|
  {
    var x :| x in Q;
    if |Q - multiset{x}| == 0 {
      assert Q == Q - multiset{x} + multiset{x};
    } else {
      LeastExists(Q - multiset{x});
      var m :| m in Q - multiset{x} && forall y | y in Q - multiset{x} :: m.d <= y.d;
      assert forall y | y in Q :: y == x || y in Q - multiset{x};
      var least := if x.d <= m.d then x else m;
      assert least in Q && forall y | y in Q :: least.d <= y.d;
    }
  }

  /** The first extraction of x.v has its final distance; later ones change nothing. */
  lemma ExtractStep(E: set<Edge>, s: nat, dist: map<nat, Distance>, Q: multiset<Elt>, visited: set<nat>, last: nat, x: Elt, out: set<Edge>)
    requires DijkstraInv(E, s, dist, Q, visited, last, {}) && x in Q && forall y | y in Q :: x.d <= y.d
    requires forall e | e in E && e.src == x.v :: e in out
    ensures x.v in visited ==> DijkstraInv(E, s, dist, Q - multiset{x}, visited, x.d, {})
    ensures x.v !in visited ==> dist[x.v] == Finite(x.d) && DijkstraInv(E, s, dist, Q - multiset{x}, visited + {x.v}, x.d, out)
  {
    if x.v !in visited {
      assert Elt(x.v, dist[x.v].d) in Q;
    }
    forall v | v in dist && v !in visited && v != x.v && dist[v].Finite?
      ensures Elt(v, dist[v].d) in Q - multiset{x}
    {
      assert Elt(v, dist[v].d) in Q;
    }
    assert forall y | y in Q - multiset{x} :: y in Q;
  }

  ghost predicate Ascending(order: seq<Elt>) {
    forall i, j | 0 <= i < j < |order| :: order[i].d <= order[j].d
  }

  ghost predicate OrderOk(order: seq<Elt>, dist: map<nat, Distance>, visited: set<nat>, last: nat) {
    Ascending(order) && forall x | x in order :: x.d <= last && x.v in visited && x.v in dist && dist[x.v] == Finite(x.d)
  }

  lemma OrderSnoc(order: seq<Elt>, dist: map<nat, Distance>, visited: set<nat>, last: nat, x: Elt)
    requires OrderOk(order, dist, visited, last) && last <= x.d && x.v in dist && dist[x.v] == Finite(x.d)
    ensures OrderOk(order + [x], dist, visited + {x.v}, x.d)
  {
    forall i, j | 0 <= i < j < |order + [x]|
      ensures (order + [x])[i].d <= (order + [x])[j].d
    {
      assert order[i] in order;
    }
    assert forall y | y in order + [x] :: y in order || y == x;
  }

  /** The outgoing lists hold exactly the edges E. */
  ghost predicate OutLists(nodes: NodeList, E: set<Edge>) {
    && (forall u | u in nodes :: EdgesFrom(u, nodes[u].out) <= E && forall h | h in nodes[u].out :: h.to in nodes)
    && (forall e | e in E :: e.src in nodes && e.dst in nodes && e in EdgesFrom(e.src, nodes[e.src].out))
  }

  lemma RepresentsOutLists(directed: bool, nodes: NodeList, edges: EdgeMap)
    requires Represents(directed, nodes, edges)
    ensures OutLists(nodes, EdgeSet(edges))
  {
    forall u, h | u in nodes && h in nodes[u].out
      ensures Edge(u, h.to, h.weight) in EdgeSet(edges) && h.to in nodes
    {
      OutEdge(directed, nodes, edges, u, h.to, h.weight);
    }
    forall e | e in EdgeSet(edges)
      ensures e.src in nodes && e.dst in nodes && e in EdgesFrom(e.src, nodes[e.src].out)
    {
      OutEdge(directed, nodes, edges, e.src, e.dst, e.weight);
    }
  }

  lemma DijkstraDone(E: set<Edge>, s: nat, dist: map<nat, Distance>, visited: set<nat>, last: nat)
    requires DijkstraInv(E, s, dist, multiset{}, visited, last, {})
    ensures AreDistances(E, s, dist)
  {
    SoundAndClosedAreDistances(E, s, dist);
  }

  /** The priority-queue loop. order lists the extractions that were not skipped. */
  method Dijkstra(nodes: NodeList, ghost E: set<Edge>, source: nat) returns (distances: map<nat, Distance>, ghost order: seq<Elt>)
    requires OutLists(nodes, E) && NonNegative(E) && source in nodes
    ensures distances.Keys == nodes.Keys && AreDistances(E, source, distances)
    ensures Ascending(order) && forall x | x in order :: x.v in distances && distances[x.v] == Finite(x.d)
  {
    var visited: set<nat> := {};
    distances := (map v | v in nodes :: Infinite)[source := Finite(0)];
    var Q := multiset{Elt(source, 0)};
    ghost var last: nat := 0;
    order := [];
    EmptyWalk(E, source);
    while |Q| > 0
      invariant distances.Keys == nodes.Keys && visited <= nodes.Keys
      invariant DijkstraInv(E, source, distances, Q, visited, last, {})
      invariant OrderOk(order, distances, visited, last)
      decreases nodes.Keys - visited, |Q|
    {
      LeastExists(Q);
      var x :| x in Q && forall y | y in Q :: x.d <= y.d;
      assert last <= x.d;
      ghost var out := EdgesFrom(x.v, nodes[x.v].out);
      ExtractStep(E, source, distances, Q, visited, last, x, out);
      Q := Q - multiset{x};
      if x.v !in visited {
        OrderSnoc(order, distances, visited, last, x);
        visited := visited + {x.v};
        order := order + [x];
        distances, Q := RelaxOut(nodes[x.v].out, E, source, x.v, x.d, visited, distances, Q);
      }
      last := x.d;
    }
    DijkstraDone(E, source, distances, visited, last);
  }

  /** AdjacencyList::sssp. An unknown source becomes an isolated vertex of the graph, as the
      operator[] on the node list makes it. */
  method Sssp(directed: bool, nodes: NodeList, ghost edges: EdgeMap, source: nat)
    returns (distances: map<nat, Distance>, nodes': NodeList, ghost order: seq<Elt>)
    requires Represents(directed, nodes, edges) && NonNegative(EdgeSet(edges))
    ensures distances.Keys == nodes.Keys + {source} && AreDistances(EdgeSet(edges), source, distances)
    ensures nodes' == if source in nodes then nodes else nodes[source := EdgePair([], [])]
    ensures Represents(directed, nodes', edges)
    ensures Ascending(order) && forall x | x in order :: x.v in distances && distances[x.v] == Finite(x.d)
  {
    nodes' := if source in nodes then nodes else nodes[source := EdgePair([], [])];
    RepresentsOutLists(directed, nodes', edges);
    distances, order := Dijkstra(nodes', EdgeSet(edges), source);
  }

  // ---- Breadth-first search with a FIFO queue ----

  ghost function Labels(dist: map<nat, nat>): map<nat, Distance> {
    map v | v in dist :: Finite(dist[v])
  }

  /** While the vertex u at distance d is expanded: the queue is sorted, spans two levels at most, and
      every vertex that left it is finished, except for the edges open of u. */
  ghost predicate FifoInv(H: set<Edge>, s: nat, dist: map<nat, nat>, queue: seq<nat>, d: nat, open: set<Edge>) {
    && s in dist && dist[s] == 0 && Sound(H, s, Labels(dist))
    && (forall v | v in queue :: v in dist && d <= dist[v])
    && (forall i, j | 0 <= i < j < |queue| :: queue[i] in dist && queue[j] in dist && dist[queue[i]] <= dist[queue[j]])
    && (forall v | v in dist :: dist[v] <= d + 1)
    && (forall e | e in H && e.src in dist && e.src !in queue && e !in open :: e.dst in dist && dist[e.dst] <= dist[e.src] + 1)
  }

  lemma FifoEmplace(H: set<Edge>, s: nat, dist: map<nat, nat>, queue: seq<nat>, d: nat, open: set<Edge>, e: Edge, open': set<Edge>)
    requires FifoInv(H, s, dist, queue, d, open) && open <= open' + {e}
    requires e in H && e.weight == 1 && e.src in dist && dist[e.src] == d
    ensures e.dst in dist ==> FifoInv(H, s, dist, queue, d, open')
    ensures e.dst !in dist ==> FifoInv(H, s, dist[e.dst := d + 1], queue + [e.dst], d, open')
  {
    if e.dst !in dist {
      var dist', queue' := dist[e.dst := d + 1], queue + [e.dst];
      RelaxKeepsSound(H, s, Labels(dist), e);
      assert Labels(dist') == Labels(dist)[e.dst := Finite(d + 1)];
      assert forall v | v in queue' :: v in queue || v == e.dst;
      forall f | f in H && f.src in dist' && f.src !in queue' && f !in open'
        ensures f.dst in dist' && dist'[f.dst] <= dist'[f.src] + 1
      {
        assert e.dst in queue' && forall v | v in queue :: v in queue';
      }
    }
  }

  method EmplaceAll(out: seq<Half>, ghost H: set<Edge>, ghost s: nat, ghost u: nat, d: nat, dist: map<nat, nat>, queue: seq<nat>)
    returns (dist': map<nat, nat>, queue': seq<nat>)
    requires FifoInv(H, s, dist, queue, d, Hops(EdgesFrom(u, out))) && u in dist && dist[u] == d
    requires Hops(EdgesFrom(u, out)) <= H
    ensures FifoInv(H, s, dist', queue', d, {})
    ensures dist.Keys <= dist'.Keys && (dist'.Keys == dist.Keys ==> queue' == queue)
    ensures forall v | v in dist' && v !in dist :: exists h :: h in out && h.to == v
  {
    dist', queue' := dist, queue;
    assert out[0..] == out;
    for i := 0 to |out|
      invariant FifoInv(H, s, dist', queue', d, Hops(EdgesFrom(u, out[i..]))) && u in dist' && dist'[u] == d
      invariant dist.Keys <= dist'.Keys && (dist'.Keys == dist.Keys ==> queue' == queue)
      invariant forall v | v in dist' && v !in dist :: exists h :: h in out && h.to == v
    {
      ghost var e := Edge(u, out[i].to, 1);
      EdgesFromSplit(u, out, i);
      assert Edge(u, out[i].to, out[i].weight) in EdgesFrom(u, out) by { assert out[i] in out; }
      assert e in Hops(EdgesFrom(u, out));
      FifoEmplace(H, s, dist', queue', d, Hops(EdgesFrom(u, out[i..])), e, Hops(EdgesFrom(u, out[i + 1..])));
      if out[i].to !in dist' {
        dist' := dist'[out[i].to := d + 1];
        queue' := queue' + [out[i].to];
      }
    }
    assert Hops(EdgesFrom(u, out[|out|..])) == {};
  }

  /** AdjacencyList::bfs; at() throws for an unknown source. */
  method Bfs(nodes: NodeList, ghost E: set<Edge>, source: nat) returns (r: Option<map<nat, nat>>)
    requires OutLists(nodes, E)
    ensures r.None? <==> source !in nodes
    ensures r.Some? ==> AreDistances(Hops(E), source, Labels(r.value))
    ensures r.Some? ==> forall v | v !in r.value :: IsDistance(Hops(E), source, v, Infinite)
  {
    if source !in nodes {
      return None;
    }
    ghost var H := Hops(E);
    var distances: map<nat, nat> := map[source := 0];
    var queue := [source];
    EmptyWalk(H, source);
    ghost var last: nat := 0;
    while queue != []
      invariant FifoInv(H, source, distances, queue, last, {}) && distances.Keys <= nodes.Keys
      decreases nodes.Keys - distances.Keys, |queue|
    {
      var u := queue[0];
      assert u in queue;
      FifoPop(E, source, distances, queue, last, EdgesFrom(u, nodes[u].out));
      last := distances[u];
      distances, queue := EmplaceAll(nodes[u].out, H, source, u, distances[u], distances, queue[1..]);
    }
    FifoDone(H, source, distances, last);
    return Some(distances);
  }

  lemma FifoPop(E: set<Edge>, s: nat, dist: map<nat, nat>, queue: seq<nat>, d: nat, out: set<Edge>)
    requires FifoInv(Hops(E), s, dist, queue, d, {}) && queue != [] && out <= E
    requires forall e | e in E && e.src == queue[0] :: e in out
    ensures queue[0] in dist && FifoInv(Hops(E), s, dist, queue[1..], dist[queue[0]], Hops(out)) && Hops(out) <= Hops(E)
  {
    assert queue[0] in queue && queue == [queue[0]] + queue[1..];
    assert forall v | v in queue[1..] :: v in queue;
    forall e | e in Hops(E) && e.src == queue[0]
      ensures e in Hops(out)
    {
      var f :| f in E && e == Edge(f.src, f.dst, 1);
      assert f in out;
    }
  }

  lemma FifoDone(H: set<Edge>, s: nat, dist: map<nat, nat>, d: nat)
    requires FifoInv(H, s, dist, [], d, {}) && forall e | e in H :: e.weight == 1
    ensures AreDistances(H, s, Labels(dist))
    ensures forall v | v !in dist :: IsDistance(H, s, v, Infinite)
  {
    assert Closed(H, Labels(dist));
    SoundAndClosedAreDistances(H, s, Labels(dist));
    forall v, p | v !in dist
      ensures !IsWalk(H, s, p, v)
    {
      if IsWalk(H, s, p, v) {
        ClosedIsLowerBound(H, s, Labels(dist), p, v);
      }
    }
  }
}
