/** Local clustering coefficient on directed graphs: the hash kernel of library/baseline/csr.cpp:1061-1142
    and the double loop of library/baseline/adjacency_list.cpp:663-691. */
module DirectedLcc {
  import opened AdjacencyList
  import opened Counting
  import opened Csr
  import opened Triangles

  import AdjacencyLcc
  import Lcc
  import PageRank

  // ---- What is counted ----

  /** The edges between vertices of near; succ gives the targets of every vertex. */
  ghost function Links(succ: Neighbours, near: set<nat>): set<(nat, nat)> {
    set u, w | u in near && u in succ && w in succ[u] && w in near :: (u, w)
  }

  ghost function LinksFrom(succ: Neighbours, near: set<nat>, firsts: set<nat>): set<(nat, nat)> {
    set p | p in Links(succ, near) && p.0 in firsts
  }

  ghost predicate Loopless(succ: Neighbours) {
    forall u | u in succ :: u !in succ[u]
  }

  /** A vertex reached by an edge in both directions is one neighbour. */
  ghost function Coefficient(succ: Neighbours, near: set<nat>): real {
    if |near| < 2 then 0.0 else Ratio(|Links(succ, near)|, |near|)
  }

  lemma CoefficientIsAFraction(succ: Neighbours, near: set<nat>)
    requires Loopless(succ)
    ensures 0.0 <= Coefficient(succ, near) <= 1.0
  {
    if |near| >= 2 {
      assert Links(succ, near) <= Pairs(near);
      SubsetSize(Links(succ, near), Pairs(near));
      PairsSize(near);
      RatioBound(|Links(succ, near)|, |near|);
    }
  }

  lemma FewLinks(succ: Neighbours, near: set<nat>)
    requires Loopless(succ) && |near| < 2
    ensures Links(succ, near) == {}
  {
    FewPairs(near);
    assert Links(succ, near) <= Pairs(near);
  }

  /** The coefficient is the share of the ordered pairs of distinct neighbours with an edge from the first to the
      second; 0 without such pairs. */
  lemma CoefficientIsShareOfPairs(succ: Neighbours, near: set<nat>)
    requires Loopless(succ)
    ensures Coefficient(succ, near) * |Pairs(near)| as real == |Links(succ, near)| as real
    ensures |near| < 2 ==> Coefficient(succ, near) == 0.0
  {
    if |near| < 2 {
      FewPairs(near);
      FewLinks(succ, near);
    } else {
      RatioTimesPairs(|Links(succ, near)|, near);
    }
  }

  /** It is 1 exactly when every neighbour has an edge to every other. */
  lemma OneIffComplete(succ: Neighbours, near: set<nat>)
    requires Loopless(succ) && |near| >= 2
    ensures Coefficient(succ, near) == 1.0 <==> forall u, w | u in near && w in near && u != w :: u in succ && w in succ[u]
  {
    CoefficientIsShareOfPairs(succ, near);
    RatioTimesPairs(|Links(succ, near)|, near);
    OneIfEqual(Coefficient(succ, near), |Pairs(near)|, |Links(succ, near)|);
    assert Links(succ, near) <= Pairs(near);
    if |Links(succ, near)| == |Pairs(near)| {
      SameSizeSameSet(Links(succ, near), Pairs(near));
      forall u, w | u in near && w in near && u != w
        ensures u in succ && w in succ[u]
      {
        assert (u, w) in Pairs(near);
      }
    }
    if forall u, w | u in near && w in near && u != w :: u in succ && w in succ[u] {
      assert Pairs(near) == Links(succ, near);
    }
  }

  lemma LinksFromMore(succ: Neighbours, near: set<nat>, firsts: set<nat>, u: nat)
    requires u in near && u in succ && u !in firsts
    ensures |LinksFrom(succ, near, firsts + {u})| == |LinksFrom(succ, near, firsts)| + |succ[u] * near|
  {
    var more := set w | w in succ[u] * near :: (u, w);
    assert LinksFrom(succ, near, firsts + {u}) == LinksFrom(succ, near, firsts) + more;
    assert LinksFrom(succ, near, firsts) !! more;
    assert |more| == |succ[u] * near| by {
      InjectionSize(succ[u] * near, more, w => (u, w));
      InjectionSize(more, succ[u] * near, (p: (nat, nat)) => p.1);
    }
  }

  lemma LinksFromAll(succ: Neighbours, near: set<nat>)
    ensures LinksFrom(succ, near, {}) == {} && LinksFrom(succ, near, near) == Links(succ, near)
  {}

  // ---- The CSR kernel ----

  ghost function Successors(g: PageRank.Graph): Neighbours {
    map u: nat | u < g.n :: Elements(g.out.Row(u))
  }

  ghost function Near(g: PageRank.Graph, v: nat): set<nat>
    requires v < g.n
  {
    Elements(g.out.Row(v)) + Elements(g.inc.Row(v))
  }

  /** The outgoing row, then the incoming vertices that are not in it. */
  method CollectNeighbours(row: seq<nat>, incoming: seq<nat>) returns (edges: seq<nat>, neighbours: set<nat>)
    requires Distinct(row) && Distinct(incoming)
    ensures Distinct(edges) && neighbours == Elements(edges) == Elements(row) + Elements(incoming)
  {
    edges, neighbours := row, set u | u in row;
    for i := 0 to |incoming|
      invariant Distinct(edges) && neighbours == Elements(edges) == Elements(row) + Elements(incoming[..i])
    {
      TakeSnoc(incoming, i);
      assert Elements(incoming[..i + 1]) == Elements(incoming[..i]) + {incoming[i]};
      if incoming[i] !in neighbours {
        assert incoming[i] !in Elements(edges);
        assert Elements(edges + [incoming[i]]) == Elements(edges) + {incoming[i]};
        edges := edges + [incoming[i]];
        neighbours := neighbours + {incoming[i]};
      }
    }
    assert incoming[..|incoming|] == incoming;
  }

  lemma RowMembersBelow(r: Rows, n: nat, v: nat)
    requires r.Valid(n) && v < n
    ensures forall u | u in Elements(r.Row(v)) :: u < n
  {
    PageRank.RowBelow(r, n, v);
  }

  /** The two loops over the edges between the neighbours, csr.cpp:1115-1133. */
  method CountLinks(g: PageRank.Graph, edges: seq<nat>, neighbours: set<nat>) returns (numTriangles: nat)
    requires Distinct(edges) && Elements(edges) == neighbours && forall u | u in neighbours :: u < g.n
    ensures numTriangles == |Links(Successors(g), neighbours)|
  {
    ghost var succ := Successors(g);
    LinksFromAll(succ, neighbours);
    numTriangles := 0;
    for i := 0 to |edges|
      invariant numTriangles == |LinksFrom(succ, neighbours, Elements(edges[..i]))|
    {
      TakeSnoc(edges, i);
      assert edges[i] in Elements(edges) && edges[i] !in edges[..i];
      var count := Lcc.CountCommon(g.out.Row(edges[i]), neighbours);
      LinksFromMore(succ, neighbours, Elements(edges[..i]), edges[i]);
      assert Elements(edges[..i + 1]) == Elements(edges[..i]) + {edges[i]};
      numTriangles := numTriangles + count;
    }
    assert edges[..|edges|] == edges;
  }

  lemma NearSize(g: PageRank.Graph, v: nat)
    requires v < g.n
    ensures |Near(g, v)| <= g.out.Degree(v) + g.inc.Degree(v)
  {
    var a, b := Elements(g.out.Row(v)), Elements(g.inc.Row(v));
    DistinctSize(g.out.Row(v));
    DistinctSize(g.inc.Row(v));
    assert a + b == a + (b - a);
    SubsetSize(b - a, b);
  }

  ghost function Expected(g: PageRank.Graph, v: nat): real
    requires v < g.n
  {
    Coefficient(Successors(g), Near(g, v))
  }

  /** The body of the loop of do_lcc_directed. */
  method HashScore(g: PageRank.Graph, v: nat) returns (score: real)
    requires v < g.n
    ensures score == Expected(g, v)
  {
    NearSize(g, v);
    if g.out.Degree(v) + g.inc.Degree(v) < 2 {
      return 0.0;
    }
    var edges, neighbours := CollectNeighbours(g.out.Row(v), g.inc.Row(v));
    DistinctSize(edges);
    if |edges| < 2 {
      return 0.0;
    }
    RowMembersBelow(g.out, g.n, v);
    RowMembersBelow(g.inc, g.n, v);
    var numTriangles := CountLinks(g, edges, neighbours);
    score := Ratio(numTriangles, |edges|);
  }

  ghost predicate ScoredBelow(g: PageRank.Graph, s: seq<real>, k: nat) {
    k <= g.n == |s| && forall u: nat | u < k :: s[u] == Expected(g, u)
  }

  lemma ScoredSnoc(g: PageRank.Graph, s: seq<real>, k: nat, score: real)
    requires ScoredBelow(g, s, k) && k < g.n && score == Expected(g, k)
    ensures ScoredBelow(g, s[k := score], k + 1)
  {}

  method PutScore(g: PageRank.Graph, scores: array<real>, v: nat, score: real)
    requires ScoredBelow(g, scores[..], v) && v < g.n && score == Expected(g, v)
    modifies scores
    ensures ScoredBelow(g, scores[..], v + 1)
  {
    ghost var before := scores[..];
    ScoredSnoc(g, before, v, score);
    scores[v] := score;
    assert scores[..] == before[v := score];
  }

  /** CSR::do_lcc_directed. */
  method HashScores(g: PageRank.Graph) returns (scores: array<real>)
    ensures fresh(scores) && ScoredBelow(g, scores[..], g.n)
  {
    scores := new real[g.n](_ => 0.0);
    for v := 0 to g.n
      modifies scores
      invariant ScoredBelow(g, scores[..], v)
    {
      var score := HashScore(g, v);
      PutScore(g, scores, v, score);
    }
  }

  // ---- The reference ----

  ghost function SuccessorLists(nodes: NodeList): Neighbours {
    map u | u in nodes :: AdjacencyLcc.Targets(nodes[u].out)
  }

  ghost function NearLists(nodes: NodeList, v: nat): set<nat>
    requires v in nodes
  {
    AdjacencyLcc.Targets(nodes[v].out) + AdjacencyLcc.Targets(nodes[v].inc)
  }

  /** check_directed_edge_exists. */
  method EdgeExists(nodes: NodeList, u: nat, w: nat) returns (found: bool)
    requires u in nodes
    ensures found <==> w in SuccessorLists(nodes)[u]
  {
    var l := nodes[u].out;
    for i := 0 to |l|
      invariant forall j | 0 <= j < i :: l[j].to != w
    {
      if l[i].to == w {
        return true;
      }
    }
    found := false;
  }

  lemma HitsGrow(targets: set<nat>, seen: set<nat>, w: nat)
    requires w !in seen
    ensures |targets * (seen + {w})| == |targets * seen| + if w in targets then 1 else 0
  {
    if w in targets {
      assert targets * (seen + {w}) == targets * seen + {w};
    } else {
      assert targets * (seen + {w}) == targets * seen;
    }
  }

  /** The body of the inner loop: a vertex is not paired with itself. */
  method Probe(nodes: NodeList, u: nat, w: nat) returns (found: bool)
    requires u in nodes && u !in SuccessorLists(nodes)[u]
    ensures found <==> w in SuccessorLists(nodes)[u]
  {
    found := false;
    if u != w {
      found := EdgeExists(nodes, u, w);
    }
  }

  lemma OneFewer(near: set<nat>, rest: set<nat>, w: nat)
    requires rest <= near && w in rest
    ensures near - (rest - {w}) == (near - rest) + {w} && w !in near - rest
  {}

  /** The inner loop of for_all_edges: the vertices come in the order of a hash set. */
  method CountFrom(nodes: NodeList, near: set<nat>, u: nat) returns (count: nat)
    requires u in near && u in nodes && u !in SuccessorLists(nodes)[u]
    ensures count == |SuccessorLists(nodes)[u] * near|
  {
    ghost var targets := SuccessorLists(nodes)[u];
    var rest := near;
    count := 0;
    while rest != {}
      invariant rest <= near && count == |targets * (near - rest)|
      decreases rest
    {
      var w :| w in rest;
      var found := Probe(nodes, u, w);
      OneFewer(near, rest, w);
      HitsGrow(targets, near - rest, w);
      count := count + if found then 1 else 0;
      rest := rest - {w};
    }
    assert near - {} == near;
  }

  /** The body of the loop of lcc_directed. */
  method ReferenceScore(nodes: NodeList, v: nat) returns (score: real)
    requires v in nodes && Loopless(SuccessorLists(nodes)) && NearLists(nodes, v) <= nodes.Keys
    ensures score == Coefficient(SuccessorLists(nodes), NearLists(nodes, v))
  {
    var near: set<nat> := (set h | h in nodes[v].out :: h.to) + (set h | h in nodes[v].inc :: h.to);
    assert near == NearLists(nodes, v);
    if |near| < 2 {
      return 0.0;
    }
    ghost var succ := SuccessorLists(nodes);
    LinksFromAll(succ, near);
    var numTriangles := 0;
    var rest := near;
    while rest != {}
      invariant rest <= near && numTriangles == |LinksFrom(succ, near, near - rest)|
      decreases rest
    {
      var u :| u in rest;
      var count := CountFrom(nodes, near, u);
      LinksFromMore(succ, near, near - rest, u);
      assert near - (rest - {u}) == (near - rest) + {u};
      numTriangles := numTriangles + count;
      rest := rest - {u};
    }
    assert near - {} == near;
    score := Ratio(numTriangles, |near|);
  }

  /** The class keeps what the reference needs. */
  lemma RepresentedIsLoopless(nodes: NodeList, edges: EdgeMap, v: nat)
    requires Represents(true, nodes, edges) && v in nodes
    ensures Loopless(SuccessorLists(nodes)) && NearLists(nodes, v) <= nodes.Keys
  {
    forall u, h | u in nodes && h in nodes[u].out
      ensures h.to != u && h.to in nodes
    {
      assert Holds(nodes[u].out, h.to, h.weight);
      assert Has(edges, u, h.to, h.weight);
    }
    forall h | h in nodes[v].inc
      ensures h.to in nodes
    {
      assert Holds(nodes[v].inc, h.to, h.weight);
      assert Has(edges, h.to, v, h.weight);
    }
  }

  /** AdjacencyList::lcc_directed, over the vertices in any order. */
  method LccDirected(nodes: NodeList, ghost edges: EdgeMap) returns (result: map<nat, real>)
    requires Represents(true, nodes, edges)
    ensures result.Keys == nodes.Keys
    ensures forall v | v in nodes :: result[v] == Coefficient(SuccessorLists(nodes), NearLists(nodes, v))
  {
    result := map[];
    var rest := nodes.Keys;
    while rest != {}
      invariant rest <= nodes.Keys && result.Keys == nodes.Keys - rest
      invariant forall v | v in result :: result[v] == Coefficient(SuccessorLists(nodes), NearLists(nodes, v))
      decreases rest
    {
      var v :| v in rest;
      RepresentedIsLoopless(nodes, edges, v);
      var score := ReferenceScore(nodes, v);
      result := result[v := score];
      rest := rest - {v};
    }
  }

  // ---- Agreement ----

  /** The neighbourhoods and the edges inside them correspond under f. */
  ghost predicate SameNeighbourhood(succ: Neighbours, near: set<nat>, f: map<nat, nat>, succ': Neighbours, near': set<nat>) {
    && (forall u | u in near :: u in f && f[u] in near' && u in succ && f[u] in succ')
    && (forall y | y in near' :: exists u :: u in near && f[u] == y)
    && (forall u, w | u in near && w in near && f[u] == f[w] :: u == w)
    && forall u, w | u in near && w in near :: w in succ[u] <==> f[w] in succ'[f[u]]
  }

  ghost predicate Inverts(near: set<nat>, f: map<nat, nat>, near': set<nat>, back: map<nat, nat>) {
    back.Keys == near' && forall y | y in near' :: back[y] in near && back[y] in f && f[back[y]] == y
  }

  lemma SameNeighbourCount(succ: Neighbours, near: set<nat>, f: map<nat, nat>, succ': Neighbours, near': set<nat>, back: map<nat, nat>)
    requires SameNeighbourhood(succ, near, f, succ', near') && Inverts(near, f, near', back)
    ensures |near| == |near'|
  {
    InjectionSize(near, near', (u: nat) => if u in f then f[u] else u);
    InjectionSize(near', near, (y: nat) => if y in back then back[y] else y);
  }

  lemma LinksForth(succ: Neighbours, near: set<nat>, f: map<nat, nat>, succ': Neighbours, near': set<nat>)
    requires SameNeighbourhood(succ, near, f, succ', near')
    ensures |Links(succ, near)| <= |Links(succ', near')|
  {
    forall p | p in Links(succ, near)
      ensures p.0 in f && p.1 in f && (f[p.0], f[p.1]) in Links(succ', near')
    {
      assert p.0 in near && p.1 in near;
    }
    InjectionSize(Links(succ, near), Links(succ', near'), (p: (nat, nat)) => if p.0 in f && p.1 in f then (f[p.0], f[p.1]) else p);
  }

  lemma LinksBack(succ: Neighbours, near: set<nat>, f: map<nat, nat>, succ': Neighbours, near': set<nat>, back: map<nat, nat>)
    requires SameNeighbourhood(succ, near, f, succ', near') && Inverts(near, f, near', back)
    ensures |Links(succ', near')| <= |Links(succ, near)|
  {
    forall p | p in Links(succ', near')
      ensures p.0 in back && p.1 in back && (back[p.0], back[p.1]) in Links(succ, near)
    {
      assert p.0 in near' && p.1 in near';
      assert back[p.0] in near && back[p.1] in near;
    }
    InjectionSize(Links(succ', near'), Links(succ, near), (p: (nat, nat)) => if p.0 in back && p.1 in back then (back[p.0], back[p.1]) else p);
  }

  /** One coefficient in both engines. */
  lemma CoefficientsAgree(succ: Neighbours, near: set<nat>, f: map<nat, nat>, succ': Neighbours, near': set<nat>)
    requires SameNeighbourhood(succ, near, f, succ', near')
    ensures Coefficient(succ, near) == Coefficient(succ', near')
  {
    var back := map y | y in near' :: var u :| u in near && f[u] == y; u;
    SameNeighbourCount(succ, near, f, succ', near', back);
    LinksForth(succ, near, f, succ', near');
    LinksBack(succ, near, f, succ', near', back);
  }
}
