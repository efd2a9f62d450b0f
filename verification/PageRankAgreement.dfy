/** The scores of the two engines agree, vertex by vertex, after every number of rounds. */
module PageRankAgreement {
  import opened AdjacencyList
  import opened AdjacencyPageRank
  import opened CdlpAgreement
  import opened Counting
  import opened Csr
  import opened LccAgreement
  import opened Paths

  import AdjacencyLcc
  import Cdlp
  import PageRank

  ghost function Image(S: set<nat>, f: map<nat, nat>): set<nat>
    requires S <= f.Keys
  {
    set x | x in S :: f[x]
  }

  lemma ImagePick(S: set<nat>, f: map<nat, nat>, x: nat)
    requires S <= f.Keys && Injective(f) && x in S
    ensures Image(S, f) == Image(S - {x}, f) + {f[x]} && f[x] !in Image(S - {x}, f)
  {
    assert S == S - {x} + {x};
  }

  lemma {:induction false} ImageSize(S: set<nat>, f: map<nat, nat>)
    requires S <= f.Keys && Injective(f)
    ensures |Image(S, f)| == |S|
    decreases |S|
  {
    if S == {} {
      assert Image(S, f) == {};
    } else {
      var x :| x in S;
      ImagePick(S, f, x);
      ImageSize(S - {x}, f);
    }
  }

  /** c over external ids holds what the sequence holds at the logical ids. */
  ghost predicate SameValues(S: set<nat>, c: Ranking, f: map<nat, nat>, s: seq<real>) {
    forall x | x in S :: x in c && x in f && f[x] < |s| && c[x] == s[f[x]]
  }

  lemma {:induction false} SameSum(S: set<nat>, c: Ranking, f: map<nat, nat>, s: seq<real>)
    requires S <= f.Keys && S <= c.Keys && Injective(f) && SameValues(S, c, f, s)
    ensures SumSet(S, c) == PageRank.SumIn(|s|, Image(S, f), s)
    decreases |S|
  {
    if S == {} {
      assert Image(S, f) == {};
      PageRank.SumInNothing(|s|, s);
    } else {
      var x :| x in S;
      ImagePick(S, f, x);
      SumSetPick(S, c, x);
      SameSum(S - {x}, c, f, s);
      PageRank.SumInAdd(|s|, Image(S - {x}, f), f[x], s);
    }
  }

  /** The two graphs: lists and rows match, and the logical ids are 0, 1, ... */
  ghost predicate Matched(nodes: NodeList, directed: bool, g: Csr, index: map<nat, nat>) {
    && ListsMatch(nodes, directed, g, index) && index.Values == Below(g.n)
    && (!directed ==> g.inc == g.out)
  }

  lemma SameNumber(nodes: NodeList, directed: bool, g: Csr, index: map<nat, nat>)
    requires Matched(nodes, directed, g, index)
    ensures |nodes| == g.n
  {
    assert Image(index.Keys, index) == index.Values;
    ImageSize(index.Keys, index);
    assert |nodes| == |nodes.Keys|;
  }

  lemma ListIsImage(l: seq<Half>, f: map<nat, nat>, row: seq<nat>)
    requires SameList(Cdlp.Ends(l), f, row) && Injective(f)
    ensures AdjacencyLcc.Targets(l) <= f.Keys && Image(AdjacencyLcc.Targets(l), f) == Elements(row)
    ensures |l| == |row|
  {
    ListImage(l, f, row);
    TargetsAreEnds(l);
    assert AdjacencyLcc.Targets(l) == Elements(Cdlp.Ends(l));
    assert Image(AdjacencyLcc.Targets(l), f) == Elements(row);
    ImageSize(AdjacencyLcc.Targets(l), f);
    DistinctSize(Cdlp.Ends(l));
    DistinctSize(row);
  }

  lemma SameDegree(nodes: NodeList, directed: bool, g: Csr, index: map<nat, nat>, v: nat)
    requires Matched(nodes, directed, g, index) && v in nodes
    ensures v in index && index[v] < g.n && |nodes[v].out| == g.out.Degree(index[v])
    ensures var l := Incoming(directed, nodes[v]);
            AdjacencyLcc.Targets(l) <= nodes.Keys && Image(AdjacencyLcc.Targets(l), index) == Elements(g.inc.Row(index[v]))
  {
    assert VertexMatches(nodes, directed, g, index, v);
    ListIsImage(nodes[v].out, index, g.out.Row(index[v]));
    if directed {
      ListIsImage(nodes[v].inc, index, g.inc.Row(index[v]));
    }
  }

  lemma SameSinks(nodes: NodeList, directed: bool, g: PageRank.Graph, index: map<nat, nat>)
    requires Matched(nodes, directed, g, index)
    ensures Sinks(nodes) <= index.Keys && Image(Sinks(nodes), index) == PageRank.Sinks(g)
  {
    forall v | v in nodes
      ensures index[v] in PageRank.Sinks(g) <==> v in Sinks(nodes)
    {
      SameDegree(nodes, directed, g, index, v);
    }
    forall y | y in PageRank.Sinks(g)
      ensures y in Image(Sinks(nodes), index)
    {
      assert y in index.Values;
      var v :| v in index && index[v] == y;
    }
  }

  ghost predicate SameRanks(nodes: NodeList, index: map<nat, nat>, theirs: Ranking, ours: seq<real>) {
    theirs.Keys == nodes.Keys && SameValues(nodes.Keys, theirs, index, ours)
  }

  lemma SameContribution(nodes: NodeList, directed: bool, g: PageRank.Graph, index: map<nat, nat>, theirs: Ranking, ours: seq<real>)
    requires Matched(nodes, directed, g, index) && SameRanks(nodes, index, theirs, ours) && |ours| == g.n
    ensures SameValues(nodes.Keys, Contribution(nodes, theirs), index, PageRank.Contribution(g, ours))
  {
    forall x | x in nodes
      ensures Contribution(nodes, theirs)[x] == PageRank.Contribution(g, ours)[index[x]]
    {
      SameDegree(nodes, directed, g, index, x);
    }
  }

  lemma IncomingAgrees(nodes: LinkedNodes, directed: bool, g: PageRank.Graph, index: map<nat, nat>, theirs: Ranking, ours: seq<real>, v: nat)
    requires Matched(nodes, directed, g, index) && SameRanks(nodes, index, theirs, ours) && |ours| == g.n && v in nodes
    ensures v in index && index[v] < g.n && Known(nodes, Incoming(directed, nodes[v]))
    ensures SumSet(AdjacencyLcc.Targets(Incoming(directed, nodes[v])), Contribution(nodes, theirs)) == PageRank.Incoming(g, ours, index[v])
  {
    SameDegree(nodes, directed, g, index, v);
    SameContribution(nodes, directed, g, index, theirs, ours);
    SameSum(AdjacencyLcc.Targets(Incoming(directed, nodes[v])), Contribution(nodes, theirs), index, PageRank.Contribution(g, ours));
  }

  lemma DanglingAgrees(nodes: LinkedNodes, directed: bool, g: PageRank.Graph, index: map<nat, nat>, theirs: Ranking, ours: seq<real>)
    requires Matched(nodes, directed, g, index) && SameRanks(nodes, index, theirs, ours) && |ours| == g.n
    ensures SumSet(Sinks(nodes), theirs) == PageRank.Dangling(g, ours)
  {
    SameSinks(nodes, directed, g, index);
    SameSum(Sinks(nodes), theirs, index, ours);
  }

  lemma SameFormula(nodes: LinkedNodes, directed: bool, g: PageRank.Graph, d: real, theirs: Ranking, ours: seq<real>, v: nat, u: nat)
    requires theirs.Keys == nodes.Keys && v in nodes && u < g.n == |ours| == |nodes| && Known(nodes, Incoming(directed, nodes[v]))
    requires SumSet(AdjacencyLcc.Targets(Incoming(directed, nodes[v])), Contribution(nodes, theirs)) == PageRank.Incoming(g, ours, u)
    requires SumSet(Sinks(nodes), theirs) == PageRank.Dangling(g, ours)
    ensures NewRank(nodes, directed, d, theirs, v) == PageRank.NewScore(g, d, ours, u)
  {}

  /** One vertex, one round. */
  lemma RankAgrees(nodes: LinkedNodes, directed: bool, g: PageRank.Graph, index: map<nat, nat>, d: real, theirs: Ranking, ours: seq<real>, v: nat)
    requires Matched(nodes, directed, g, index) && SameRanks(nodes, index, theirs, ours) && |ours| == g.n && v in nodes
    ensures v in index && index[v] < g.n
    ensures NewRank(nodes, directed, d, theirs, v) == PageRank.NewScore(g, d, ours, index[v])
  {
    SameNumber(nodes, directed, g, index);
    IncomingAgrees(nodes, directed, g, index, theirs, ours, v);
    DanglingAgrees(nodes, directed, g, index, theirs, ours);
    SameFormula(nodes, directed, g, d, theirs, ours, v, index[v]);
  }

  lemma RoundAgrees(nodes: LinkedNodes, directed: bool, g: PageRank.Graph, index: map<nat, nat>, d: real, theirs: Ranking, ours: seq<real>)
    requires Matched(nodes, directed, g, index) && SameRanks(nodes, index, theirs, ours) && |ours| == g.n
    ensures SameRanks(nodes, index, NextRanks(nodes, directed, d, theirs), PageRank.Iterate(g, d, ours))
  {
    forall v | v in nodes
      ensures v in index && index[v] < g.n && NextRanks(nodes, directed, d, theirs)[v] == PageRank.Iterate(g, d, ours)[index[v]]
    {
      RankAgrees(nodes, directed, g, index, d, theirs, ours, v);
    }
  }

  lemma StartAgrees(nodes: LinkedNodes, directed: bool, g: PageRank.Graph, index: map<nat, nat>, d: real)
    requires Matched(nodes, directed, g, index)
    ensures SameRanks(nodes, index, RanksAfter(nodes, directed, d, 0), PageRank.Ranks(g, d, 0))
  {
    SameNumber(nodes, directed, g, index);
    forall v | v in nodes
      ensures v in index && index[v] < g.n && RanksAfter(nodes, directed, d, 0)[v] == PageRank.Ranks(g, d, 0)[index[v]]
    {
      SameDegree(nodes, directed, g, index, v);
    }
  }

  lemma OneMoreRound(nodes: LinkedNodes, directed: bool, g: PageRank.Graph, d: real, k: nat)
    ensures PageRank.Ranks(g, d, k + 1) == PageRank.Iterate(g, d, PageRank.Ranks(g, d, k))
    ensures RanksAfter(nodes, directed, d, k + 1) == NextRanks(nodes, directed, d, RanksAfter(nodes, directed, d, k))
  {}

  lemma NextRoundAgrees(nodes: LinkedNodes, directed: bool, g: PageRank.Graph, index: map<nat, nat>, d: real, k: nat)
    requires Matched(nodes, directed, g, index)
    requires SameRanks(nodes, index, RanksAfter(nodes, directed, d, k), PageRank.Ranks(g, d, k))
    ensures SameRanks(nodes, index, RanksAfter(nodes, directed, d, k + 1), PageRank.Ranks(g, d, k + 1))
  {
    RoundAgrees(nodes, directed, g, index, d, RanksAfter(nodes, directed, d, k), PageRank.Ranks(g, d, k));
    OneMoreRound(nodes, directed, g, d, k);
  }

  /** CSR::do_pagerank and AdjacencyList::pagerank give every vertex the same score. */
  lemma {:induction false} PagerankAgrees(nodes: LinkedNodes, directed: bool, g: PageRank.Graph, index: map<nat, nat>, d: real, k: nat)
    requires Matched(nodes, directed, g, index)
    ensures SameRanks(nodes, index, RanksAfter(nodes, directed, d, k), PageRank.Ranks(g, d, k))
  {
    StartAgrees(nodes, directed, g, index, d);
    for i := 0 to k
      invariant SameRanks(nodes, index, RanksAfter(nodes, directed, d, i), PageRank.Ranks(g, d, i))
    {
      NextRoundAgrees(nodes, directed, g, index, d, i);
    }
  }
}
