/** PageRank of the reference engine, library/baseline/adjacency_list.cpp:425-468: scores in two hash maps
    that are swapped after each round, over lists and sets in any order. */
module AdjacencyPageRank {
  import opened AdjacencyList

  import AdjacencyLcc
  import PageRank

  type Ranking = map<nat, real>

  // ---- Sums over sets ----

  ghost function SumSet(S: set<nat>, c: Ranking): real
    requires S <= c.Keys
  {
    if S == {} then 0.0
    else
      var x :| x in S;
      SumSet(S - {x}, c) + c[x]
  }

  /** Any element may be added last. */
  lemma {:induction false} SumSetPick(S: set<nat>, c: Ranking, x: nat)
    requires S <= c.Keys && x in S
    ensures SumSet(S, c) == SumSet(S - {x}, c) + c[x]
    decreases |S|
  {
    var y :| y in S && SumSet(S, c) == SumSet(S - {y}, c) + c[y];
    if y != x {
      SumSetPick(S - {y}, c, x);
      SumSetPick(S - {x}, c, y);
      assert S - {y} - {x} == S - {x} - {y};
    }
  }

  lemma SumSetAdd(S: set<nat>, c: Ranking, x: nat)
    requires S + {x} <= c.Keys && x !in S
    ensures SumSet(S + {x}, c) == SumSet(S, c) + c[x]
  {
    SumSetPick(S + {x}, c, x);
    assert S + {x} - {x} == S;
  }

  // ---- One round ----

  /** Lists without repetitions, of vertices of the graph. */
  predicate Linked(nodes: NodeList) {
    forall v | v in nodes :: ListLinked(nodes, nodes[v].out) && ListLinked(nodes, nodes[v].inc)
  }

  predicate ListLinked(nodes: NodeList, l: seq<Half>) {
    && (forall i, j | 0 <= i < j < |l| :: l[i].to != l[j].to)
    && forall i | 0 <= i < |l| :: l[i].to in nodes
  }

  type LinkedNodes = nodes: NodeList | Linked(nodes) witness map[]

  lemma RepresentedIsLinked(directed: bool, nodes: NodeList, edges: EdgeMap)
    requires Represents(directed, nodes, edges)
    ensures Linked(nodes)
  {
    forall v, h | v in nodes && (h in nodes[v].out || h in nodes[v].inc)
      ensures h.to in nodes
    {
      if h in nodes[v].out {
        assert Holds(nodes[v].out, h.to, h.weight);
        assert Has(edges, v, h.to, h.weight);
      } else {
        assert Holds(nodes[v].inc, h.to, h.weight);
        assert Has(edges, h.to, v, h.weight);
      }
    }
    forall v | v in nodes
      ensures ListLinked(nodes, nodes[v].out) && ListLinked(nodes, nodes[v].inc)
    {
      assert forall i | 0 <= i < |nodes[v].out| :: nodes[v].out[i] in nodes[v].out;
      assert forall i | 0 <= i < |nodes[v].inc| :: nodes[v].inc[i] in nodes[v].inc;
    }
  }

  /** get_incoming_edges. */
  function Incoming(directed: bool, p: EdgePair): seq<Half> {
    if directed then p.inc else p.out
  }

  function Sinks(nodes: NodeList): set<nat> {
    set v | v in nodes && nodes[v].out == []
  }

  ghost function Contribution(nodes: NodeList, rank: Ranking): Ranking
    requires rank.Keys == nodes.Keys
  {
    map u | u in nodes :: if nodes[u].out == [] then 0.0 else rank[u] / |nodes[u].out| as real
  }

  ghost predicate Known(nodes: NodeList, l: seq<Half>) {
    AdjacencyLcc.Targets(l) <= nodes.Keys
  }

  lemma ListIsKnown(nodes: LinkedNodes, directed: bool, v: nat)
    requires v in nodes
    ensures Known(nodes, Incoming(directed, nodes[v])) && |nodes| > 0
  {
    assert v in nodes.Keys;
    assert ListLinked(nodes, nodes[v].out) && ListLinked(nodes, nodes[v].inc);
  }

  ghost function NewRank(nodes: LinkedNodes, directed: bool, d: real, rank: Ranking, v: nat): real
    requires rank.Keys == nodes.Keys && v in nodes
  {
    ListIsKnown(nodes, directed, v);
    PageRank.ScoreFrom(|nodes|, d, SumSet(AdjacencyLcc.Targets(Incoming(directed, nodes[v])), Contribution(nodes, rank)),
                       SumSet(Sinks(nodes), rank))
  }

  ghost function NextRanks(nodes: LinkedNodes, directed: bool, d: real, rank: Ranking): (r: Ranking)
    requires rank.Keys == nodes.Keys
    ensures r.Keys == nodes.Keys
  {
    map v | v in nodes :: NewRank(nodes, directed, d, rank, v)
  }

  /** The scores after k synchronous rounds. */
  ghost function RanksAfter(nodes: LinkedNodes, directed: bool, d: real, k: nat): (r: Ranking)
    ensures r.Keys == nodes.Keys
  {
    if k == 0 then map v | v in nodes :: Uniform(nodes)
    else NextRanks(nodes, directed, d, RanksAfter(nodes, directed, d, k - 1))
  }

  function Uniform(nodes: NodeList): real {
    if |nodes| == 0 then 0.0 else 1.0 / |nodes| as real
  }

  // ---- The loops ----

  /** The sum over a hash set. */
  method Total(members: set<nat>, rank: Ranking) returns (total: real)
    requires members <= rank.Keys
    ensures total == SumSet(members, rank)
  {
    total := 0.0;
    var rest := members;
    while rest != {}
      invariant rest <= members && total == SumSet(members - rest, rank)
      decreases rest
    {
      var v :| v in rest;
      SumSetAdd(members - rest, rank, v);
      assert members - (rest - {v}) == members - rest + {v};
      total := total + rank[v];
      rest := rest - {v};
    }
    assert members - {} == members;
  }

  lemma PrefixTargets(nodes: NodeList, l: seq<Half>, i: nat)
    requires ListLinked(nodes, l) && i < |l|
    ensures Known(nodes, l[..i]) && Known(nodes, l[..i + 1]) && l[i].to in nodes
    ensures l[i].to !in AdjacencyLcc.Targets(l[..i])
    ensures AdjacencyLcc.Targets(l[..i + 1]) == AdjacencyLcc.Targets(l[..i]) + {l[i].to}
  {
    assert l[..i + 1] == l[..i] + [l[i]];
  }

  /** The inner loop: rank / nout for the sources of the incoming edges. */
  method IncomingScore(nodes: NodeList, l: seq<Half>, rank: Ranking) returns (score: real)
    requires ListLinked(nodes, l) && rank.Keys == nodes.Keys
    ensures Known(nodes, l) && score == SumSet(AdjacencyLcc.Targets(l), Contribution(nodes, rank))
  {
    ghost var c := Contribution(nodes, rank);
    score := 0.0;
    assert AdjacencyLcc.Targets(l[..0]) == {};
    for i := 0 to |l|
      invariant Known(nodes, l[..i]) && score == SumSet(AdjacencyLcc.Targets(l[..i]), c)
    {
      PrefixTargets(nodes, l, i);
      SumSetAdd(AdjacencyLcc.Targets(l[..i]), c, l[i].to);
      var nout := |nodes[l[i].to].out|;
      if nout > 0 {
        score := score + rank[l[i].to] / nout as real;
      }
    }
    assert l[..|l|] == l;
  }

  /** The expression of line 460. */
  function Formula(d: real, n: nat, score: real, dangling: real): real
    requires n > 0
  {
    (1.0 - d) / n as real + d * score + (d / n as real) * dangling
  }

  /** The two ways of writing the new score. */
  lemma FormulaIsScore(d: real, n: nat, score: real, dangling: real)
    requires n > 0
    ensures Formula(d, n, score, dangling) == PageRank.ScoreFrom(n, d, score, dangling)
  {
    var x := n as real;
    assert (d / x) * dangling == d * (dangling / x);
  }

  method ScoreOf(nodes: LinkedNodes, directed: bool, d: real, danglingSum: real, rank: Ranking, v: nat) returns (score: real)
    requires rank.Keys == nodes.Keys && v in nodes && danglingSum == SumSet(Sinks(nodes), rank)
    ensures score == NewRank(nodes, directed, d, rank, v)
  {
    ListIsKnown(nodes, directed, v);
    assert ListLinked(nodes, nodes[v].out) && ListLinked(nodes, nodes[v].inc);
    score := IncomingScore(nodes, Incoming(directed, nodes[v]), rank);
    FormulaIsScore(d, |nodes|, score, danglingSum);
    score := Formula(d, |nodes|, score, danglingSum);
  }

  /** The scores written so far, into the map of the round before the last. */
  ghost predicate Written(nodes: LinkedNodes, directed: bool, d: real, rank: Ranking, next: Ranking, rest: set<nat>)
    requires rank.Keys == nodes.Keys
  {
    && rest <= nodes.Keys && nodes.Keys - rest <= next.Keys <= nodes.Keys
    && forall v | v in nodes && v !in rest :: next[v] == NewRank(nodes, directed, d, rank, v)
  }

  lemma WriteStep(nodes: LinkedNodes, directed: bool, d: real, rank: Ranking, next: Ranking, rest: set<nat>, v: nat, score: real)
    requires rank.Keys == nodes.Keys && Written(nodes, directed, d, rank, next, rest) && v in rest
    requires v in nodes && score == NewRank(nodes, directed, d, rank, v)
    ensures Written(nodes, directed, d, rank, next[v := score], rest - {v})
  {}

  lemma AllWritten(nodes: LinkedNodes, directed: bool, d: real, rank: Ranking, next: Ranking)
    requires rank.Keys == nodes.Keys && Written(nodes, directed, d, rank, next, {})
    ensures next == NextRanks(nodes, directed, d, rank)
  {}

  method Round(nodes: LinkedNodes, directed: bool, d: real, rank: Ranking, stale: Ranking) returns (next: Ranking)
    requires rank.Keys == nodes.Keys && stale.Keys <= nodes.Keys
    ensures next == NextRanks(nodes, directed, d, rank)
  {
    var danglingSum := Total(Sinks(nodes), rank);
    next := stale;
    var rest := nodes.Keys;
    while rest != {}
      invariant Written(nodes, directed, d, rank, next, rest)
      decreases rest
    {
      var v :| v in rest;
      var score := ScoreOf(nodes, directed, d, danglingSum, rank, v);
      WriteStep(nodes, directed, d, rank, next, rest, v, score);
      next := next[v := score];
      rest := rest - {v};
    }
    AllWritten(nodes, directed, d, rank, next);
  }

  /** AdjacencyList::pagerank. */
  method Pagerank(nodes: LinkedNodes, directed: bool, numIterations: nat, d: real) returns (rank: Ranking)
    ensures rank == RanksAfter(nodes, directed, d, numIterations)
  {
    rank := map v | v in nodes :: Uniform(nodes);
    var rankNext: Ranking := map[];
    for iter := 0 to numIterations
      invariant rank == RanksAfter(nodes, directed, d, iter) && rankNext.Keys <= nodes.Keys
    {
      rankNext := Round(nodes, directed, d, rank, rankNext);
      rank, rankNext := rankNext, rank;
    }
  }
}
