/** The updatable reference engine, library/baseline/adjacency_list.cpp:107-362, as a refinement of
    a finite map from pairs of vertices to weights. */
module AdjacencyList {
  import opened Options
  import opened Paths

  datatype Half = Half(to: nat, weight: int)

  datatype EdgePair = EdgePair(out: seq<Half>, inc: seq<Half>)

  /** INVALID_ARGUMENT of add_edge. */
  datatype Outcome = Done(result: bool) | InvalidArgument

  // ---- Edge lists ----

  ghost predicate NoDuplicates(l: seq<Half>) {
    forall i, j | 0 <= i < j < |l| :: l[i].to != l[j].to
  }

  ghost predicate Listed(l: seq<Half>, x: nat) {
    exists i :: 0 <= i < |l| && l[i].to == x
  }

  /** The list holds x with weight w. */
  ghost predicate Holds(l: seq<Half>, x: nat, w: int) {
    Half(x, w) in l
  }

  lemma ListedHolds(l: seq<Half>, x: nat)
    ensures Listed(l, x) <==> exists w :: Holds(l, x, w)
  {
    if i :| 0 <= i < |l| && l[i].to == x {
      assert l[i] == Half(x, l[i].weight);
      assert Holds(l, x, l[i].weight);
    }
  }

  /** std::find_if over the list. */
  method FindIf(l: seq<Half>, x: nat) returns (i: nat)
    ensures i <= |l|
    ensures i < |l| ==> l[i].to == x
    ensures i == |l| ==> !Listed(l, x)
  {
    i := 0;
    while i < |l| && l[i].to != x
      invariant i <= |l| && forall j | 0 <= j < i :: l[j].to != x
    {
      i := i + 1;
    }
  }

  ghost predicate SetsEntry(l: seq<Half>, x: nat, w: int, r: seq<Half>) {
    && NoDuplicates(r)
    && (forall y, w' :: Holds(r, y, w') <==> if y == x then w' == w else Holds(l, y, w'))
  }

  ghost predicate DropsEntry(l: seq<Half>, x: nat, r: seq<Half>) {
    && NoDuplicates(r)
    && (forall y, w' :: Holds(r, y, w') <==> y != x && Holds(l, y, w'))
  }

  method Upsert(l: seq<Half>, x: nat, w: int) returns (r: seq<Half>, added: bool)
    requires NoDuplicates(l)
    ensures SetsEntry(l, x, w, r)
    ensures added <==> !Listed(l, x)
  {
    var i := FindIf(l, x);
    added := i == |l|;
    r := if added then l + [Half(x, w)] else l[i := Half(x, w)];
    if added {
      assert forall h :: h in r <==> h in l || h == Half(x, w);
      assert forall h | h in l :: Listed(l, h.to);
    } else {
      forall y, w'
        ensures Holds(r, y, w') <==> if y == x then w' == w else Holds(l, y, w')
      {
        assert r[i] == Half(x, w);
        if Holds(l, y, w') && y != x {
          var k :| 0 <= k < |l| && l[k] == Half(y, w');
          assert r[k] == l[k];
        }
      }
    }
  }

  method Erase(l: seq<Half>, i: nat) returns (r: seq<Half>)
    requires NoDuplicates(l) && i < |l|
    ensures DropsEntry(l, l[i].to, r)
  {
    r := l[..i] + l[i + 1..];
    forall y, w'
      ensures Holds(r, y, w') <==> y != l[i].to && Holds(l, y, w')
    {
      if Holds(l, y, w') && y != l[i].to {
        var k :| 0 <= k < |l| && l[k] == Half(y, w');
        assert r[if k < i then k else k - 1] == l[k];
      }
      if Holds(r, y, w') {
        var k :| 0 <= k < |r| && r[k] == Half(y, w');
        assert l[if k < i then k else k + 1] == r[k];
      }
    }
  }

  // ---- The abstraction ----

  type NodeList = map<nat, EdgePair>
  type EdgeMap = map<(nat, nat), int>

  ghost predicate Has(edges: EdgeMap, u: nat, v: nat, w: int) {
    (u, v) in edges && edges[(u, v)] == w
  }

  ghost predicate ListsOk(directed: bool, nodes: NodeList) {
    forall u | u in nodes :: NoDuplicates(nodes[u].out) && NoDuplicates(nodes[u].inc) && (!directed ==> nodes[u].inc == [])
  }

  /** The lists hold exactly the edges of the map, forwards and backwards; an undirected edge is
      entered once from each end. */
  ghost predicate Represents(directed: bool, nodes: NodeList, edges: EdgeMap) {
    && ListsOk(directed, nodes)
    && (forall p | p in edges :: p.0 in nodes && p.1 in nodes && p.0 != p.1)
    && (forall u, v, w | u in nodes :: Holds(nodes[u].out, v, w) <==> Has(edges, u, v, w))
    && (directed ==> forall u, v, w | v in nodes :: Holds(nodes[v].inc, u, w) <==> Has(edges, u, v, w))
    && (!directed ==> forall u, v, w :: Has(edges, u, v, w) <==> Has(edges, v, u, w))
  }

  ghost predicate Counts(directed: bool, numEdges: nat, edges: EdgeMap) {
    |edges| == if directed then numEdges else 2 * numEdges
  }

  ghost function Insert(directed: bool, edges: EdgeMap, s: nat, d: nat, w: int): EdgeMap {
    if directed then edges[(s, d) := w] else edges[(s, d) := w][(d, s) := w]
  }

  ghost function Delete(directed: bool, edges: EdgeMap, s: nat, d: nat): EdgeMap {
    if directed then edges - {(s, d)} else edges - {(s, d), (d, s)}
  }

  lemma PutSize(m: EdgeMap, k: (nat, nat), w: int)
    ensures |m[k := w]| == if k in m then |m| else |m| + 1
  {
    if k in m {
      assert m[k := w].Keys == m.Keys;
    } else {
      assert m[k := w].Keys == m.Keys + {k};
    }
  }

  lemma InsertCounts(directed: bool, numEdges: nat, edges: EdgeMap, s: nat, d: nat, w: int)
    requires Counts(directed, numEdges, edges) && s != d
    requires !directed ==> ((s, d) in edges <==> (d, s) in edges)
    ensures Counts(directed, if (s, d) in edges then numEdges else numEdges + 1, Insert(directed, edges, s, d, w))
  {
    PutSize(edges, (s, d), w);
    if !directed {
      PutSize(edges[(s, d) := w], (d, s), w);
      assert (d, s) in edges[(s, d) := w] <==> (d, s) in edges;
    }
  }

  lemma DeleteCounts(directed: bool, numEdges: nat, edges: EdgeMap, s: nat, d: nat)
    requires Counts(directed, numEdges, edges) && s != d && (s, d) in edges
    requires !directed ==> (d, s) in edges
    ensures numEdges > 0 && Counts(directed, numEdges - 1, Delete(directed, edges, s, d))
  {
    var one := edges - {(s, d)};
    assert edges.Keys == one.Keys + {(s, d)};
    if !directed {
      var two := edges - {(s, d), (d, s)};
      assert one.Keys == two.Keys + {(d, s)};
    }
  }

  lemma IsolatedRepresents(directed: bool, nodes: NodeList, edges: EdgeMap, v: nat)
    requires Represents(directed, nodes, edges) && v !in nodes
    ensures Represents(directed, nodes[v := EdgePair([], [])], edges)
  {}

  class AdjacencyList {
    const directed: bool
    var nodes: NodeList
    var numEdges: nat
    /** The abstract graph. */
    ghost var edges: EdgeMap

    ghost predicate Valid()
      reads this
    {
      Represents(directed, nodes, edges) && Counts(directed, numEdges, edges)
    }

    constructor (directed: bool)
      ensures Valid() && this.directed == directed && nodes == map[] && edges == map[]
    {
      this.directed := directed;
      nodes, numEdges, edges := map[], 0, map[];
    }

    method GetWeight(source: nat, destination: nat) returns (w: Option<int>)
      requires Valid()
      ensures w == if (source, destination) in edges then Some(edges[(source, destination)]) else None
    {
      if source !in nodes {
        return None;
      }
      var l := nodes[source].out;
      var i := FindIf(l, destination);
      AddedIffNew(directed, nodes, edges, source, destination);
      if i == |l| {
        return None;
      }
      assert Holds(l, destination, l[i].weight);
      assert Has(edges, source, destination, l[i].weight);
      return Some(l[i].weight);
    }

    method AddVertex(v: nat) returns (inserted: bool)
      requires Valid()
      modifies this`nodes
      ensures Valid()
      ensures inserted == (v !in old(nodes)) && nodes.Keys == old(nodes).Keys + {v}
    {
      inserted := v !in nodes;
      if inserted {
        IsolatedRepresents(directed, nodes, edges, v);
        nodes := nodes[v := EdgePair([], [])];
      }
    }

    /** add_edge0: both end points exist. */
    method AddEdge0(s: nat, d: nat, w: int)
      requires Valid() && s in nodes && d in nodes && s != d
      modifies this
      ensures Valid() && nodes.Keys == old(nodes.Keys)
      ensures edges == Insert(directed, old(edges), s, d, w)
    {
      var after, added := InsertHalves(directed, nodes, edges, s, d, w);
      AddedIffNew(directed, nodes, edges, s, d);
      InsertCounts(directed, numEdges, edges, s, d, w);
      nodes := after;
      if added {
        numEdges := numEdges + 1;
      }
      edges := Insert(directed, edges, s, d, w);
    }

    /** add_edge: refuses unknown vertices. */
    method AddEdge(s: nat, d: nat, w: int) returns (r: Outcome)
      requires Valid()
      modifies this
      ensures Valid() && nodes.Keys == old(nodes.Keys)
      ensures r == if s == d then InvalidArgument else Done(s in old(nodes) && d in old(nodes))
      ensures edges == if r == Done(true) then Insert(directed, old(edges), s, d, w) else old(edges)
    {
      if s == d {
        return InvalidArgument;
      }
      if s !in nodes || d !in nodes {
        return Done(false);
      }
      AddEdge0(s, d, w);
      return Done(true);
    }

    /** add_edge_v2: creates unknown vertices. */
    method AddEdgeV2(s: nat, d: nat, w: int) returns (r: Outcome)
      requires Valid()
      modifies this
      ensures Valid()
      ensures r == if s == d then InvalidArgument else Done(true)
      ensures edges == if r == Done(true) then Insert(directed, old(edges), s, d, w) else old(edges)
      ensures nodes.Keys == if r == Done(true) then old(nodes.Keys) + {s, d} else old(nodes.Keys)
    {
      if s == d {
        return InvalidArgument;
      }
      var _ := AddVertex(s);
      var _ := AddVertex(d);
      assert nodes.Keys == old(nodes.Keys) + {s, d};
      AddEdge0(s, d, w);
      return Done(true);
    }

    /** remove_edge: delete_edge0. */
    method RemoveEdge(s: nat, d: nat) returns (removed: bool)
      requires Valid()
      modifies this
      ensures Valid() && nodes.Keys == old(nodes.Keys)
      ensures removed <==> (s, d) in old(edges)
      ensures edges == if removed then Delete(directed, old(edges), s, d) else old(edges)
    {
      if s !in nodes || d !in nodes {
        return false;
      }
      AddedIffNew(directed, nodes, edges, s, d);
      nodes, removed := DeleteHalves(directed, nodes, edges, s, d);
      if removed {
        DeleteCounts(directed, numEdges, edges, s, d);
        numEdges := numEdges - 1;
        edges := Delete(directed, edges, s, d);
      }
    }

    /** delete_vertex0: the lists of the neighbours are edited in copies (`auto lst`), so only the
        vertex itself goes. */
    method RemoveVertex(v: nat) returns (removed: bool)
      requires Valid()
      modifies this`nodes
      ensures removed <==> v in old(nodes)
      ensures nodes == old(nodes) - {v}
      ensures removed && Incident(edges, v) ==> forall e :: !(Represents(directed, nodes, e) && Counts(directed, numEdges, e))
      ensures !removed || !Incident(edges, v) ==> Valid()
    {
      if v !in nodes {
        assert nodes - {v} == nodes;
        return false;
      }
      var out, inc := nodes[v].out, nodes[v].inc;
      for i := 0 to |out|
        modifies {}
      {
        assert Holds(out, out[i].to, out[i].weight);
        assert Has(edges, v, out[i].to, out[i].weight);
        BackLinkListed(directed, nodes, edges, v, out[i].to);
        var back := if directed then nodes[out[i].to].inc else nodes[out[i].to].out;
        var it := FindIf(back, v);
        var _ := Erase(back, it);
      }
      for i := 0 to |inc|
        modifies {}
      {
        assert Holds(inc, inc[i].to, inc[i].weight);
        assert Has(edges, inc[i].to, v, inc[i].weight);
        AddedIffNew(directed, nodes, edges, inc[i].to, v);
        var fwd := nodes[inc[i].to].out;
        var it := FindIf(fwd, v);
        var _ := Erase(fwd, it);
      }
      ErasureIsSafeIffIsolated(directed, nodes, numEdges, edges, v);
      nodes := nodes - {v};
      return true;
    }
  }

  ghost predicate Incident(edges: EdgeMap, v: nat) {
    exists p :: p in edges && (p.0 == v || p.1 == v)
  }

  /** Erasing v alone leaves a list that still names v whenever v had an edge; then no graph at all
      is represented any more. */
  lemma ErasureIsSafeIffIsolated(directed: bool, nodes: NodeList, numEdges: nat, edges: EdgeMap, v: nat)
    requires Represents(directed, nodes, edges) && Counts(directed, numEdges, edges) && v in nodes
    ensures (exists e :: Represents(directed, nodes - {v}, e) && Counts(directed, numEdges, e)) <==> !Incident(edges, v)
    ensures !Incident(edges, v) ==> Represents(directed, nodes - {v}, edges)
  {
    var nodes' := nodes - {v};
    if p :| p in edges && (p.0 == v || p.1 == v) {
      var w := edges[p];
      assert Has(edges, p.0, p.1, w) && (!directed ==> Has(edges, p.1, p.0, w));
      assert p.1 == v ==> Holds(nodes'[p.0].out, v, w);
      assert p.0 == v ==> Holds(if directed then nodes'[p.1].inc else nodes'[p.1].out, v, w);
      forall e
        ensures !Represents(directed, nodes', e)
      {
        assert Has(e, p.0, p.1, w) || Has(e, p.1, p.0, w) || !Represents(directed, nodes', e);
      }
    } else {
      assert Represents(directed, nodes', edges);
    }
  }

  /** Erasing vertex 1 of the graph with the one edge from 1 to 2 leaves 2 with an edge from nowhere. */
  lemma ErasureLeavesDanglingEdge()
    ensures var nodes: NodeList, edges: EdgeMap := map[1 := EdgePair([Half(2, 7)], []), 2 := EdgePair([], [Half(1, 7)])], map[(1, 2) := 7];
            && Represents(true, nodes, edges) && Counts(true, 1, edges)
            && forall e :: !(Represents(true, nodes - {1}, e) && Counts(true, 1, e))
  {
    var nodes: NodeList, edges: EdgeMap := map[1 := EdgePair([Half(2, 7)], []), 2 := EdgePair([], [Half(1, 7)])], map[(1, 2) := 7];
    assert (1, 2) in edges && Incident(edges, 1);
    ErasureIsSafeIffIsolated(true, nodes, 1, edges, 1);
  }

  /** Both list updates of add_edge0. */
  method InsertHalves(directed: bool, nodes: NodeList, ghost edges: EdgeMap, s: nat, d: nat, w: int)
    returns (nodes': NodeList, added: bool)
    requires Represents(directed, nodes, edges) && s in nodes && d in nodes && s != d
    ensures Represents(directed, nodes', Insert(directed, edges, s, d, w)) && nodes'.Keys == nodes.Keys
    ensures added <==> (s, d) !in edges
  {
    var out;
    out, added := Upsert(nodes[s].out, d, w);
    AddedIffNew(directed, nodes, edges, s, d);
    nodes' := nodes[s := nodes[s].(out := out)];
    if directed {
      var inc, _ := Upsert(nodes[d].inc, s, w);
      nodes' := nodes'[d := nodes[d].(inc := inc)];
    } else {
      var inc, _ := Upsert(nodes[d].out, s, w);
      nodes' := nodes'[d := nodes[d].(out := inc)];
    }
    InsertRepresents(directed, nodes, edges, s, d, w, nodes');
  }

  /** Both list updates of delete_edge0; the second find_if never fails. */
  method DeleteHalves(directed: bool, nodes: NodeList, ghost edges: EdgeMap, s: nat, d: nat)
    returns (nodes': NodeList, removed: bool)
    requires Represents(directed, nodes, edges) && s in nodes && d in nodes
    ensures removed <==> (s, d) in edges
    ensures nodes'.Keys == nodes.Keys
    ensures Represents(directed, nodes', if removed then Delete(directed, edges, s, d) else edges)
  {
    var i := FindIf(nodes[s].out, d);
    AddedIffNew(directed, nodes, edges, s, d);
    if i == |nodes[s].out| {
      return nodes, false;
    }
    BackLinkListed(directed, nodes, edges, s, d);
    var out := Erase(nodes[s].out, i);
    nodes' := nodes[s := nodes[s].(out := out)];
    var back := if directed then nodes[d].inc else nodes[d].out;
    var j := FindIf(back, s);
    back := Erase(back, j);
    nodes' := nodes'[d := if directed then nodes[d].(inc := back) else nodes[d].(out := back)];
    DeleteRepresents(directed, nodes, edges, s, d, nodes');
    removed := true;
  }

  // ---- Proofs about the lists ----

  /** The edge is new exactly when find_if on the outgoing list says so. */
  lemma AddedIffNew(directed: bool, nodes: NodeList, edges: EdgeMap, s: nat, d: nat)
    requires Represents(directed, nodes, edges) && s in nodes
    ensures Listed(nodes[s].out, d) <==> (s, d) in edges
    ensures !directed ==> ((s, d) in edges <==> (d, s) in edges)
  {
    ListedHolds(nodes[s].out, d);
    if (s, d) in edges {
      assert Has(edges, s, d, edges[(s, d)]);
    }
    if (d, s) in edges {
      assert Has(edges, d, s, edges[(d, s)]);
    }
    if w :| Holds(nodes[s].out, d, w) {
      assert Has(edges, s, d, w);
    }
  }

  lemma BackLinkListed(directed: bool, nodes: NodeList, edges: EdgeMap, s: nat, d: nat)
    requires Represents(directed, nodes, edges) && (s, d) in edges
    ensures Listed(if directed then nodes[d].inc else nodes[d].out, s)
  {
    var back := if directed then nodes[d].inc else nodes[d].out;
    assert Has(edges, s, d, edges[(s, d)]);
    assert Holds(back, s, edges[(s, d)]);
    ListedHolds(back, s);
  }

  lemma InsertRepresents(directed: bool, nodes: NodeList, edges: EdgeMap, s: nat, d: nat, w: int, nodes': NodeList)
    requires Represents(directed, nodes, edges) && s in nodes && d in nodes && s != d
    requires nodes'.Keys == nodes.Keys && forall u | u in nodes && u != s && u != d :: nodes'[u] == nodes[u]
    requires SetsEntry(nodes[s].out, d, w, nodes'[s].out) && nodes'[s].inc == nodes[s].inc
    requires directed ==> SetsEntry(nodes[d].inc, s, w, nodes'[d].inc) && nodes'[d].out == nodes[d].out
    requires !directed ==> SetsEntry(nodes[d].out, s, w, nodes'[d].out) && nodes'[d].inc == nodes[d].inc
    ensures Represents(directed, nodes', Insert(directed, edges, s, d, w))
  {
    var edges' := Insert(directed, edges, s, d, w);
    forall u, v, x
      ensures Has(edges', u, v, x) <==> if (u == s && v == d) || (!directed && u == d && v == s) then x == w else Has(edges, u, v, x)
    {}
  }

  lemma DeleteRepresents(directed: bool, nodes: NodeList, edges: EdgeMap, s: nat, d: nat, nodes': NodeList)
    requires Represents(directed, nodes, edges) && s in nodes && d in nodes && s != d
    requires nodes'.Keys == nodes.Keys && forall u | u in nodes && u != s && u != d :: nodes'[u] == nodes[u]
    requires DropsEntry(nodes[s].out, d, nodes'[s].out) && nodes'[s].inc == nodes[s].inc
    requires directed ==> DropsEntry(nodes[d].inc, s, nodes'[d].inc) && nodes'[d].out == nodes[d].out
    requires !directed ==> DropsEntry(nodes[d].out, s, nodes'[d].out) && nodes'[d].inc == nodes[d].inc
    ensures Represents(directed, nodes', Delete(directed, edges, s, d))
  {
    var edges' := Delete(directed, edges, s, d);
    forall u, v, x
      ensures Has(edges', u, v, x) <==> !(u == s && v == d) && !(!directed && u == d && v == s) && Has(edges, u, v, x)
    {}
  }
}
