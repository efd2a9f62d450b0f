/** The directed clustering coefficients of the two engines agree on graphs loaded from the same edges. */
module LccAgreement {
  import opened AdjacencyList
  import opened CdlpAgreement
  import opened Counting
  import opened Csr
  import opened CsrLoad
  import opened DirectedLcc
  import opened Paths
  import opened Streams

  import AdjacencyLcc
  import AdjacencySearch
  import Cdlp
  import PageRank

  lemma TargetsAreEnds(l: seq<Half>)
    ensures forall x :: x in AdjacencyLcc.Targets(l) <==> x in Cdlp.Ends(l)
  {
    forall h | h in l
      ensures h.to in Cdlp.Ends(l)
    {
      var i :| 0 <= i < |l| && l[i] == h;
      assert Cdlp.Ends(l)[i] == h.to;
    }
  }

  /** The lists name what the rows name. */
  lemma ListImage(l: seq<Half>, f: map<nat, nat>, row: seq<nat>)
    requires SameList(Cdlp.Ends(l), f, row) && Injective(f)
    ensures forall x | x in AdjacencyLcc.Targets(l) :: x in f && f[x] in Elements(row)
    ensures forall y | y in Elements(row) :: exists x :: x in AdjacencyLcc.Targets(l) && x in f && f[x] == y
    ensures forall x | x in f :: x in AdjacencyLcc.Targets(l) <==> f[x] in Elements(row)
  {
    TargetsAreEnds(l);
    forall y | y in Elements(row)
      ensures exists x :: x in AdjacencyLcc.Targets(l) && x in f && f[x] == y
    {
      var x :| x in Cdlp.Ends(l) && f[x] == y;
    }
    forall x | x in f && f[x] in Elements(row)
      ensures x in AdjacencyLcc.Targets(l)
    {
      var z :| z in Cdlp.Ends(l) && f[z] == f[x];
    }
  }

  lemma NearImage(nodes: NodeList, g: PageRank.Graph, index: map<nat, nat>, v: nat)
    requires ListsMatch(nodes, true, g, index) && v in nodes
    ensures v in index && index[v] < g.n
    ensures forall u | u in NearLists(nodes, v) :: u in index && index[u] in Near(g, index[v])
    ensures forall y | y in Near(g, index[v]) :: exists u :: u in NearLists(nodes, v) && index[u] == y
  {
    assert VertexMatches(nodes, true, g, index, v);
    ListImage(nodes[v].out, index, g.out.Row(index[v]));
    ListImage(nodes[v].inc, index, g.inc.Row(index[v]));
  }

  lemma SuccessorImage(nodes: NodeList, g: PageRank.Graph, index: map<nat, nat>, u: nat, w: nat)
    requires ListsMatch(nodes, true, g, index) && u in index && w in index
    ensures index[u] < g.n
    ensures w in SuccessorLists(nodes)[u] <==> index[w] in Successors(g)[index[u]]
  {
    assert VertexMatches(nodes, true, g, index, u);
    ListImage(nodes[u].out, index, g.out.Row(index[u]));
  }

  /** CSR::do_lcc_directed and AdjacencyList::lcc_directed. */
  lemma DirectedLccAgrees(nodes: NodeList, g: PageRank.Graph, index: map<nat, nat>, v: nat)
    requires ListsMatch(nodes, true, g, index) && v in nodes
    ensures v in index && index[v] < g.n
    ensures Coefficient(Successors(g), Near(g, index[v])) == Coefficient(SuccessorLists(nodes), NearLists(nodes, v))
  {
    NearImage(nodes, g, index, v);
    forall u, w | u in NearLists(nodes, v) && w in NearLists(nodes, v)
      ensures u in SuccessorLists(nodes) && index[u] in Successors(g)
      ensures w in SuccessorLists(nodes)[u] <==> index[w] in Successors(g)[index[u]]
    {
      SuccessorImage(nodes, g, index, u, w);
    }
    CoefficientsAgree(SuccessorLists(nodes), NearLists(nodes, v), index, Successors(g), Near(g, index[v]));
  }
}
