/** Weakly connected components by propagating the smallest label, library/baseline/adjacency_list.cpp:484-519. */
module AdjacencyWcc {
  import opened AdjacencyList
  import opened AdjacencySearch
  import opened Components
  import opened Counting
  import opened Numbers
  import opened Paths

  predicate Names(l: seq<Half>, x: nat) {
    exists h :: h in l && h.to == x
  }

  ghost predicate Neighbours(nodes: NodeList, v: nat, x: nat) {
    v in nodes && (Names(nodes[v].out, x) || Names(nodes[v].inc, x))
  }

  /** The two lists of a vertex name exactly the other ends of its edges. */
  ghost predicate NeighbourLists(nodes: NodeList, E: set<Edge>) {
    && (forall e | e in E :: Neighbours(nodes, e.src, e.dst) && Neighbours(nodes, e.dst, e.src))
    && (forall v, x | Neighbours(nodes, v, x) :: x in nodes && Connected(E, v, x))
  }

  lemma RepresentsNeighbourLists(directed: bool, nodes: NodeList, edges: EdgeMap)
    requires Represents(directed, nodes, edges)
    ensures NeighbourLists(nodes, EdgeSet(edges))
  {
    var E := EdgeSet(edges);
    forall e | e in E
      ensures Neighbours(nodes, e.src, e.dst) && Neighbours(nodes, e.dst, e.src)
    {
      OutEdge(directed, nodes, edges, e.src, e.dst, e.weight);
      assert Has(edges, e.src, e.dst, e.weight);
      if directed {
        assert Holds(nodes[e.dst].inc, e.src, e.weight);
        assert Names(nodes[e.dst].inc, e.src);
      } else {
        assert Has(edges, e.dst, e.src, e.weight);
        assert Holds(nodes[e.dst].out, e.src, e.weight);
        assert Names(nodes[e.dst].out, e.src);
      }
    }
    forall v, x | Neighbours(nodes, v, x)
      ensures x in nodes && Connected(E, v, x)
    {
      if h :| h in nodes[v].out && h.to == x {
        OutEdge(directed, nodes, edges, v, x, h.weight);
        ConnectedEdge(E, Edge(v, x, h.weight));
      } else {
        var h :| h in nodes[v].inc && h.to == x;
        assert Holds(nodes[v].inc, x, h.weight);
        assert Has(edges, x, v, h.weight);
        OutEdge(directed, nodes, edges, x, v, h.weight);
        ConnectedEdge(E, Edge(x, v, h.weight));
        ConnectedSym(E, x, v);
      }
    }
  }

  /** A label is the id of a connected vertex or the initial minimum, and never larger than the vertex. */
  ghost predicate LabelsOk(E: set<Edge>, keys: set<nat>, comp: map<nat, nat>) {
    && comp.Keys == keys
    && forall v | v in comp :: comp[v] <= v && (comp[v] == INT64_MAX || (comp[v] in comp && Connected(E, v, comp[v])))
  }

  ghost function SumOver(order: seq<nat>, comp: map<nat, nat>): nat
    requires forall v | v in order :: v in comp
  {
    if order == [] then 0 else SumOver(order[..|order| - 1], comp) + comp[order[|order| - 1]]
  }

  lemma {:induction false} SumLowered(order: seq<nat>, comp: map<nat, nat>, v: nat, m: nat)
    requires (forall x | x in order :: x in comp) && v in comp && m < comp[v]
    ensures SumOver(order, comp[v := m]) <= SumOver(order, comp)
    ensures v in order ==> SumOver(order, comp[v := m]) < SumOver(order, comp)
  {
    if order != [] {
      SumLowered(order[..|order| - 1], comp, v, m);
      assert order == order[..|order| - 1] + [order[|order| - 1]];
    }
  }

  method MinLabel(l: seq<Half>, comp: map<nat, nat>, start: nat) returns (m: nat)
    requires forall h | h in l :: h.to in comp
    ensures m <= start && (forall h | h in l :: m <= comp[h.to])
    ensures m == start || exists h :: h in l && m == comp[h.to]
  {
    m := start;
    for i := 0 to |l|
      invariant m <= start && (forall j | 0 <= j < i :: m <= comp[l[j].to])
      invariant m == start || exists h :: h in l && m == comp[h.to]
    {
      assert l[i] in l;
      if comp[l[i].to] < m {
        m := comp[l[i].to];
      }
    }
  }

  /** No neighbour of v has a smaller label, nor is v above the initial minimum. */
  ghost predicate Stable(nodes: NodeList, comp: map<nat, nat>, v: nat)
    requires v in comp
  {
    comp[v] <= INT64_MAX && forall x | Neighbours(nodes, v, x) && x in comp :: comp[v] <= comp[x]
  }

  lemma LowerOk(E: set<Edge>, nodes: NodeList, comp: map<nat, nat>, v: nat, m: nat)
    requires NeighbourLists(nodes, E) && LabelsOk(E, nodes.Keys, comp) && v in nodes && m < comp[v]
    requires m == INT64_MAX || exists x :: Neighbours(nodes, v, x) && x in comp && m == comp[x]
    ensures LabelsOk(E, nodes.Keys, comp[v := m])
  {
    if m != INT64_MAX {
      var x :| Neighbours(nodes, v, x) && x in comp && m == comp[x];
      ConnectedTrans(E, v, x, comp[x]);
    }
  }

  method Propagate(nodes: NodeList, ghost E: set<Edge>, comp: map<nat, nat>, v: nat) returns (comp': map<nat, nat>, stable: bool, ghost m: nat)
    requires NeighbourLists(nodes, E) && LabelsOk(E, nodes.Keys, comp) && v in nodes
    ensures LabelsOk(E, nodes.Keys, comp')
    ensures stable ==> comp' == comp && Stable(nodes, comp, v)
    ensures !stable ==> m < comp[v] && comp' == comp[v := m]
  {
    forall h | h in nodes[v].out || h in nodes[v].inc
      ensures Neighbours(nodes, v, h.to)
    {
      assert h in nodes[v].out ==> Names(nodes[v].out, h.to);
      assert h in nodes[v].inc ==> Names(nodes[v].inc, h.to);
    }
    var minComponent := MinLabel(nodes[v].out, comp, INT64_MAX);
    minComponent := MinLabel(nodes[v].inc, comp, minComponent);
    m := minComponent;
    if comp[v] > minComponent {
      LowerOk(E, nodes, comp, v, minComponent);
      comp', stable := comp[v := minComponent], false;
    } else {
      comp', stable := comp, true;
    }
  }

  /** Every component is named after its smallest vertex, but no label exceeds INT64_MAX. */
  ghost predicate AreCapped(E: set<Edge>, comp: map<nat, nat>) {
    forall v | v in comp ::
      && comp[v] <= INT64_MAX
      && (forall u | u in comp && Connected(E, v, u) :: comp[v] <= u)
      && (comp[v] == INT64_MAX || (comp[v] in comp && Connected(E, v, comp[v])))
  }

  lemma StableIsCapped(E: set<Edge>, nodes: NodeList, comp: map<nat, nat>)
    requires NeighbourLists(nodes, E) && LabelsOk(E, nodes.Keys, comp)
    requires forall v | v in comp :: Stable(nodes, comp, v)
    ensures AreCapped(E, comp)
  {
    forall e | e in E
      ensures e.src in comp && e.dst in comp && comp[e.src] == comp[e.dst]
    {
      assert Stable(nodes, comp, e.src) && Stable(nodes, comp, e.dst);
    }
    forall v, u | v in comp && u in comp && Connected(E, v, u)
      ensures comp[v] <= u
    {
      var p :| IsWalk(Both(E), v, p, u);
      LabelConstant(E, comp, v, p, u);
    }
  }

  ghost predicate StablePrefix(nodes: NodeList, comp: map<nat, nat>, order: seq<nat>, i: nat) {
    i <= |order| && forall j | 0 <= j < i :: order[j] in comp && Stable(nodes, comp, order[j])
  }

  lemma StableSnoc(nodes: NodeList, comp: map<nat, nat>, order: seq<nat>, i: nat)
    requires i < |order| && StablePrefix(nodes, comp, order, i) && order[i] in comp && Stable(nodes, comp, order[i])
    ensures StablePrefix(nodes, comp, order, i + 1)
  {}

  /** One pass over the hash map, whatever its iteration order. */
  method Round(nodes: NodeList, ghost E: set<Edge>, order: seq<nat>, comp: map<nat, nat>) returns (comp': map<nat, nat>, converged: bool)
    requires NeighbourLists(nodes, E) && LabelsOk(E, nodes.Keys, comp) && forall v | v in order :: v in nodes
    ensures LabelsOk(E, nodes.Keys, comp')
    ensures converged ==> comp' == comp && StablePrefix(nodes, comp, order, |order|)
    ensures !converged ==> SumOver(order, comp') < SumOver(order, comp)
  {
    comp', converged := comp, true;
    for i := 0 to |order|
      invariant LabelsOk(E, nodes.Keys, comp')
      invariant converged ==> comp' == comp && StablePrefix(nodes, comp, order, i)
      invariant !converged ==> SumOver(order, comp') < SumOver(order, comp)
    {
      ghost var mid := comp';
      var stable;
      ghost var m;
      comp', stable, m := Propagate(nodes, E, comp', order[i]);
      if !stable {
        SumLowered(order, mid, order[i], m);
        converged := false;
      } else if converged {
        StableSnoc(nodes, comp, order, i);
      }
    }
  }

  /** AdjacencyList::wcc. */
  method Wcc(nodes: NodeList, ghost E: set<Edge>, order: seq<nat>) returns (components: map<nat, nat>)
    requires NeighbourLists(nodes, E) && Elements(order) == nodes.Keys
    ensures components.Keys == nodes.Keys && AreCapped(E, components)
  {
    components := map v | v in nodes :: v;
    forall v: nat
      ensures Connected(E, v, v)
    {
      ConnectedRefl(E, v);
    }
    var converged := false;
    assert forall v | v in order :: v in Elements(order);
    while !converged
      invariant LabelsOk(E, nodes.Keys, components)
      invariant converged ==> StablePrefix(nodes, components, order, |order|)
      decreases SumOver(order, components), if converged then 0 else 1
    {
      components, converged := Round(nodes, E, order, components);
    }
    assert forall v | v in components :: v in Elements(order);
    StableIsCapped(E, nodes, components);
  }

  /** The component of v has an id that fits. */
  ghost predicate HasSmallId(E: set<Edge>, comp: map<nat, nat>, v: nat) {
    exists u :: u in comp && Connected(E, v, u) && u <= INT64_MAX
  }

  lemma SmallIdIffNamed(E: set<Edge>, comp: map<nat, nat>, v: nat)
    requires AreCapped(E, comp) && v in comp
    ensures HasSmallId(E, comp, v) <==> comp[v] in comp && Connected(E, v, comp[v])
  {
    if u :| u in comp && Connected(E, v, u) && u <= INT64_MAX {
      assert comp[v] <= u;
    }
  }

  /** The result is right for exactly the graphs in which every component has an id up to INT64_MAX. */
  lemma CappedIsRightIff(E: set<Edge>, comp: map<nat, nat>)
    requires AreCapped(E, comp)
    ensures AreComponents(E, comp) <==> forall v | v in comp :: HasSmallId(E, comp, v)
  {
    forall v | v in comp
      ensures HasSmallId(E, comp, v) <==> comp[v] in comp && Connected(E, v, comp[v])
    {
      SmallIdIffNamed(E, comp, v);
    }
  }

  /** Each label is the smallest vertex of the component, or INT64_MAX if that is larger. */
  lemma CappedIsMin(E: set<Edge>, comp: map<nat, nat>, v: nat, least: nat)
    requires AreCapped(E, comp) && v in comp && IsLeast(E, comp.Keys, v, least)
    ensures comp[v] == Min(least, INT64_MAX)
  {}
}
