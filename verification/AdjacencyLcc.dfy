/** Local clustering coefficient of the reference engine on undirected graphs,
    library/baseline/adjacency_list.cpp:604-658. */
module AdjacencyLcc {
  import opened AdjacencyList
  import opened Counting
  import opened Lcc
  import opened Triangles

  ghost function Targets(l: seq<Half>): set<nat> {
    set h | h in l :: h.to
  }

  ghost function NeighbourMap(nodes: NodeList): Neighbours {
    map v | v in nodes :: Targets(nodes[v].out)
  }

  lemma UndirectedNeighbours(nodes: NodeList, edges: EdgeMap)
    requires Represents(false, nodes, edges)
    ensures Undirected(NeighbourMap(nodes))
  {
    var N := NeighbourMap(nodes);
    forall u, w | u in N && w in N[u]
      ensures w in N && u in N[w] && u != w
    {
      var h :| h in nodes[u].out && h.to == w;
      assert Holds(nodes[u].out, w, h.weight);
      assert Has(edges, u, w, h.weight) && Has(edges, w, u, h.weight);
      assert Holds(nodes[w].out, u, h.weight);
    }
  }

  predicate Simple(nodes: NodeList) {
    forall v | v in nodes :: forall i, j | 0 <= i < j < |nodes[v].out| :: nodes[v].out[i].to != nodes[v].out[j].to
  }

  /** The node list of an undirected graph. */
  type UndirectedNodes = nodes: NodeList | Simple(nodes) && Undirected(NeighbourMap(nodes)) witness map[]

  ghost function NeighboursOf(nodes: UndirectedNodes): SimpleGraph {
    NeighbourMap(nodes)
  }

  lemma NeighbourIsNode(nodes: UndirectedNodes, v: nat, u: nat)
    requires v in nodes && u in NeighboursOf(nodes)[v]
    ensures u in nodes && u != v
  {
    assert u in NeighboursOf(nodes);
  }

  lemma PrefixTargets(nodes: UndirectedNodes, v: nat, i: nat)
    requires v in nodes && i < |nodes[v].out|
    ensures var out := nodes[v].out;
            out[i].to in NeighboursOf(nodes)[v] && out[i].to !in Targets(out[..i])
            && Targets(out[..i + 1]) == Targets(out[..i]) + {out[i].to}
  {
    TakeSnoc(nodes[v].out, i);
  }

  function Get(m: map<nat, nat>, v: nat): nat {
    if v in m then m[v] else 0
  }

  /** The wedges at v that were counted when their first corner, a smaller vertex of S, was processed. */
  ghost function Carried(N: SimpleGraph, v: nat, S: set<nat>): set<(nat, nat)>
    requires v in N
  {
    set p | p in Wedges(N, v) && p.0 < v && p.0 in S
  }

  /** The wedges at v with first corner u. */
  ghost function WedgesFrom(N: SimpleGraph, v: nat, u: nat): set<(nat, nat)>
    requires v in N && u in N
  {
    set w | w in N[u] * N[v] :: (u, w)
  }

  lemma WedgesFromSize(N: SimpleGraph, v: nat, u: nat)
    requires v in N && u in N
    ensures |WedgesFrom(N, v, u)| == |N[u] * N[v]|
  {
    InjectionSize(N[u] * N[v], WedgesFrom(N, v, u), w => (u, w));
    InjectionSize(WedgesFrom(N, v, u), N[u] * N[v], (p: (nat, nat)) => p.1);
  }

  lemma CarryMore(N: SimpleGraph, v: nat, S: set<nat>, u: nat)
    requires v in N && u in N && u !in S && u in N[v] && u < v
    ensures |Carried(N, v, S + {u})| == |Carried(N, v, S)| + |N[u] * N[v]|
  {
    WedgesFromSize(N, v, u);
    assert Carried(N, v, S + {u}) == Carried(N, v, S) + WedgesFrom(N, v, u);
    assert Carried(N, v, S) !! WedgesFrom(N, v, u);
  }

  lemma CarrySame(N: SimpleGraph, v: nat, S: set<nat>, u: nat)
    requires v in N && !(u in N[v] && u < v)
    ensures Carried(N, v, S + {u}) == Carried(N, v, S)
  {}

  /** A vertex with fewer than two neighbours shares no neighbour with the vertices next to it. */
  lemma LeafCarriesNothing(N: SimpleGraph, v: nat, u: nat)
    requires v in N && u in N && |N[u]| < 2 && u in N[v]
    ensures N[u] * N[v] == {}
  {
    if w :| w in N[u] * N[v] {
      SubsetSize({v, w}, N[u]);
    }
  }

  // ---- Counting at one vertex ----

  method CountIn(l: seq<Half>, H: set<nat>) returns (count: nat)
    requires forall i, j | 0 <= i < j < |l| :: l[i].to != l[j].to
    ensures count == |Targets(l) * H|
  {
    count := 0;
    ghost var common: set<nat> := {};
    for j := 0 to |l|
      invariant common == Targets(l[..j]) * H && count == |common|
    {
      TakeSnoc(l, j);
      assert l[j].to !in Targets(l[..j]);
      assert Targets(l[..j + 1]) == Targets(l[..j]) + {l[j].to};
      if l[j].to in H {
        count := count + 1;
        common := common + {l[j].to};
      }
    }
    assert l[..|l|] == l;
  }

  /** The wedges at v counted after the neighbours `firsts` have been looked at. */
  ghost function Counted(N: SimpleGraph, v: nat, firsts: set<nat>): set<(nat, nat)>
    requires v in N
  {
    set p | p in Wedges(N, v) && (p.0 < v || p.0 in firsts)
  }

  lemma CountMore(N: SimpleGraph, v: nat, firsts: set<nat>, u: nat)
    requires v in N && u in N[v] && u !in firsts && u > v
    ensures |Counted(N, v, firsts + {u})| == |Counted(N, v, firsts)| + |N[u] * N[v]|
  {
    WedgesFromSize(N, v, u);
    assert Counted(N, v, firsts + {u}) == Counted(N, v, firsts) + WedgesFrom(N, v, u);
    assert Counted(N, v, firsts) !! WedgesFrom(N, v, u);
  }

  lemma CountSame(N: SimpleGraph, v: nat, firsts: set<nat>, u: nat)
    requires v in N && u < v
    ensures Counted(N, v, firsts + {u}) == Counted(N, v, firsts)
  {}

  /** already_visited, while v hands its counts to the larger ones among the neighbours firsts. */
  ghost predicate CarriedOk(N: SimpleGraph, already: map<nat, nat>, S: set<nat>, v: nat, firsts: set<nat>)
  {
    forall x | x in N :: Get(already, x) == |Carried(N, x, if x in firsts then S + {v} else S)|
  }

  lemma CarriedStep(N: SimpleGraph, already: map<nat, nat>, S: set<nat>, v: nat, firsts: set<nat>, u: nat, count: nat)
    requires v in N && u in N[v] && u > v && u !in firsts && v !in S && CarriedOk(N, already, S, v, firsts)
    requires count == |N[u] * N[v]|
    ensures CarriedOk(N, already[u := Get(already, u) + count], S, v, firsts + {u})
  {
    CarryMore(N, u, S, v);
    assert N[u] * N[v] == N[v] * N[u];
  }

  lemma CarriedSkip(N: SimpleGraph, already: map<nat, nat>, S: set<nat>, v: nat, firsts: set<nat>, u: nat)
    requires u in N && u < v && CarriedOk(N, already, S, v, firsts)
    ensures CarriedOk(N, already, S, v, firsts + {u})
  {
    CarrySame(N, u, S, v);
  }

  /** The count of v and the counts carried to others once the neighbours firsts have been looked at. */
  ghost predicate Scanned(N: SimpleGraph, v: nat, S: set<nat>, numTriangles: nat, already: map<nat, nat>, firsts: set<nat>)
    requires v in N
  {
    numTriangles == |Counted(N, v, firsts)| && CarriedOk(N, already, S, v, firsts)
  }

  /** The body of the loop over the neighbours. */
  method ScanNeighbour(nodes: UndirectedNodes, v: nat, u: nat, H: set<nat>, num: nat, already: map<nat, nat>,
                       ghost S: set<nat>, ghost firsts: set<nat>)
    returns (num': nat, already': map<nat, nat>)
    requires v in nodes && v !in S && (forall x | x in NeighboursOf(nodes)[v] && x < v :: x in S)
    requires u in NeighboursOf(nodes)[v] && u !in firsts && H == NeighboursOf(nodes)[v]
    requires Scanned(NeighboursOf(nodes), v, S, num, already, firsts)
    ensures Scanned(NeighboursOf(nodes), v, S, num', already', firsts + {u})
  {
    ghost var N: SimpleGraph := NeighboursOf(nodes);
    num', already' := num, already;
    NeighbourIsNode(nodes, v, u);
    if u < v {
      CountSame(N, v, firsts, u);
      CarriedSkip(N, already, S, v, firsts, u);
      return;
    }
    var count := CountIn(nodes[u].out, H);
    CountMore(N, v, firsts, u);
    CarriedStep(N, already, S, v, firsts, u, count);
    num' := num + count;
    already' := already[u := Get(already, u) + count];
  }

  /** The two loops over the neighbours of v, adjacency_list.cpp:623-650. */
  method ScanVertex(nodes: UndirectedNodes, v: nat, already: map<nat, nat>, ghost S: set<nat>)
    returns (numTriangles: nat, already': map<nat, nat>)
    requires v in nodes && v !in S && (forall u | u in NeighboursOf(nodes)[v] && u < v :: u in S)
    requires CarriedOk(NeighboursOf(nodes), already, S, v, {})
    ensures numTriangles == |Wedges(NeighboursOf(nodes), v)|
    ensures CarriedOk(NeighboursOf(nodes), already', S, v, NeighboursOf(nodes)[v])
  {
    ghost var N: SimpleGraph := NeighboursOf(nodes);
    var out := nodes[v].out;
    var H: set<nat> := set h | h in out :: h.to;
    assert H == N[v];
    numTriangles, already' := Get(already, v), already;
    assert Counted(N, v, {}) == Carried(N, v, S) && Targets(out[..0]) == {};
    for i := 0 to |out|
      invariant Scanned(N, v, S, numTriangles, already', Targets(out[..i]))
    {
      PrefixTargets(nodes, v, i);
      numTriangles, already' := ScanNeighbour(nodes, v, out[i].to, H, numTriangles, already', S, Targets(out[..i]));
    }
    assert out[..|out|] == out;
    assert Counted(N, v, N[v]) == Wedges(N, v);
  }

  lemma CarriedDone(N: SimpleGraph, already: map<nat, nat>, S: set<nat>, v: nat)
    requires v in N && v !in S && CarriedOk(N, already, S, v, N[v])
    ensures CarriedOk(N, already, S + {v}, v, {})
  {
    forall x | x in N
      ensures Get(already, x) == |Carried(N, x, S + {v})|
    {
      if x !in N[v] {
        CarrySame(N, x, S, v);
      }
    }
  }

  lemma LeafDone(N: SimpleGraph, already: map<nat, nat>, S: set<nat>, v: nat)
    requires v in N && v !in S && |N[v]| < 2 && CarriedOk(N, already, S, v, {})
    ensures CarriedOk(N, already, S + {v}, v, {})
  {
    forall x | x in N
      ensures Get(already, x) == |Carried(N, x, S + {v})|
    {
      if v in N[x] && v < x {
        CarryMore(N, x, S, v);
        LeafCarriesNothing(N, x, v);
      } else {
        CarrySame(N, x, S, v);
      }
    }
  }

  /** The body of the loop over the sorted vertices. */
  method ScoreVertex(nodes: UndirectedNodes, v: nat, already: map<nat, nat>, ghost S: set<nat>)
    returns (score: real, already': map<nat, nat>)
    requires v in nodes && v !in S && (forall u | u in NeighboursOf(nodes)[v] && u < v :: u in S)
    requires CarriedOk(NeighboursOf(nodes), already, S, v, {})
    ensures score == Coefficient(NeighboursOf(nodes), v)
    ensures CarriedOk(NeighboursOf(nodes), already', S + {v}, v, {})
  {
    var degree := |nodes[v].out|;
    OutDegree(nodes, v);
    if degree >= 2 {
      var numTriangles;
      numTriangles, already' := ScanVertex(nodes, v, already, S);
      score := Ratio(numTriangles, degree);
      CarriedDone(NeighboursOf(nodes), already', S, v);
    } else {
      score, already' := 0.0, already;
      LeafDone(NeighboursOf(nodes), already, S, v);
    }
  }

  lemma SmallerNeighboursSeen(nodes: UndirectedNodes, order: seq<nat>, i: nat)
    requires Increasing(order) && Elements(order) == nodes.Keys && i < |order|
    ensures order[i] in nodes && order[i] !in Elements(order[..i])
    ensures Elements(order[..i + 1]) == Elements(order[..i]) + {order[i]}
    ensures forall u | u in NeighboursOf(nodes)[order[i]] && u < order[i] :: u in Elements(order[..i])
  {
    TakeSnoc(order, i);
    assert order[i] in Elements(order);
    forall u | u in NeighboursOf(nodes)[order[i]] && u < order[i]
      ensures u in Elements(order[..i])
    {
      NeighbourIsNode(nodes, order[i], u);
      assert u in Elements(order);
      var k :| 0 <= k < |order| && order[k] == u;
      assert order[..i][k] == u;
    }
  }

  ghost predicate Scored(nodes: UndirectedNodes, result: map<nat, real>) {
    forall v | v in result :: v in nodes && result[v] == Coefficient(NeighboursOf(nodes), v)
  }

  lemma ScoredSnoc(nodes: UndirectedNodes, result: map<nat, real>, v: nat, score: real)
    requires Scored(nodes, result) && v in nodes && score == Coefficient(NeighboursOf(nodes), v)
    ensures Scored(nodes, result[v := score])
  {}

  method InsertId(ids: seq<nat>, x: nat) returns (r: seq<nat>)
    requires Increasing(ids) && x !in ids
    ensures Increasing(r) && Elements(r) == Elements(ids) + {x}
  {
    var k := 0;
    while k < |ids| && ids[k] < x
      invariant k <= |ids| && forall j | 0 <= j < k :: ids[j] < x
    {
      k := k + 1;
    }
    r := ids[..k] + [x] + ids[k..];
    assert ids == ids[..k] + ids[k..];
    assert Elements(r) == Elements(ids) + {x};
  }

  /** The vector of the vertices, lines 609-611, with any correct sort. */
  method SortedVertices(nodes: NodeList) returns (order: seq<nat>)
    ensures Increasing(order) && Elements(order) == nodes.Keys
  {
    order := [];
    var rest := nodes.Keys;
    while rest != {}
      invariant Increasing(order) && rest <= nodes.Keys && Elements(order) == nodes.Keys - rest
      decreases rest
    {
      var v :| v in rest;
      assert v !in Elements(order);
      order := InsertId(order, v);
      rest := rest - {v};
    }
  }

  /** AdjacencyList::lcc_undirected; order is the sorted list of vertices. */
  method LccUndirected(nodes: UndirectedNodes, order: seq<nat>) returns (result: map<nat, real>)
    requires Increasing(order) && Elements(order) == nodes.Keys
    ensures result.Keys == nodes.Keys && Scored(nodes, result)
  {
    var already: map<nat, nat> := map[];
    result := map[];
    assert CarriedOk(NeighboursOf(nodes), already, {}, 0, {});
    for i := 0 to |order|
      invariant Elements(order[..i]) == result.Keys && Scored(nodes, result)
      invariant CarriedOk(NeighboursOf(nodes), already, Elements(order[..i]), 0, {})
    {
      SmallerNeighboursSeen(nodes, order, i);
      var score;
      score, already := ScoreVertex(nodes, order[i], already, Elements(order[..i]));
      ScoredSnoc(nodes, result, order[i], score);
      result := result[order[i] := score];
    }
    assert order[..|order|] == order;
  }

  lemma OutDegree(nodes: UndirectedNodes, v: nat)
    requires v in nodes
    ensures |NeighboursOf(nodes)[v]| == |nodes[v].out|
  {
    var ids := seq(|nodes[v].out|, i requires 0 <= i < |nodes[v].out| => nodes[v].out[i].to);
    DistinctSize(ids);
    assert Elements(ids) == Targets(nodes[v].out) by {
      forall h | h in nodes[v].out
        ensures h.to in ids
      {
        var i :| 0 <= i < |nodes[v].out| && nodes[v].out[i] == h;
        assert ids[i] == h.to;
      }
    }
  }
}
