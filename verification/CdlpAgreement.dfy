/** The two label propagations agree after every round, except on isolated vertices: the kernel of
    csr.cpp gives those INT64_MAX (line 998), the reference 0 (adjacency_list.cpp:570). */
module CdlpAgreement {
  import opened AdjacencyList
  import opened Agreement
  import opened Cdlp
  import opened Counting
  import opened Csr
  import opened CsrLoad
  import opened Numbers
  import opened Paths
  import opened Renaming
  import opened Streams

  import AdjacencySearch

  /** The list b holds the logical ids of a, in any order. */
  ghost predicate SameList(a: seq<nat>, f: map<nat, nat>, b: seq<nat>) {
    && Distinct(a) && Distinct(b)
    && (forall x | x in a :: x in f && f[x] in b)
    && (forall y | y in b :: exists x :: x in a && f[x] == y)
  }

  /** Labels over external ids and over logical ids. */
  ghost predicate SameLabels(theirs: seq<nat>, a: seq<nat>, f: map<nat, nat>, ours: seq<nat>)
    requires |theirs| == |a|
  {
    forall i | 0 <= i < |a| :: a[i] in f && f[a[i]] < |ours| && theirs[i] == ours[f[a[i]]]
  }

  lemma DropMatch(a: seq<nat>, f: map<nat, nat>, b: seq<nat>, k: nat)
    requires a != [] && SameList(a, f, b) && Injective(f) && k < |b| && b[k] == f[a[|a| - 1]]
    ensures SameList(a[..|a| - 1], f, b[..k] + b[k + 1..])
  {
    var front, rest := a[..|a| - 1], b[..k] + b[k + 1..];
    forall x | x in front
      ensures x in f && f[x] in rest
    {
      var j :| 0 <= j < |b| && b[j] == f[x];
      assert j != k;
      assert rest[if j < k then j else j - 1] == f[x];
    }
    forall y | y in rest
      ensures exists x :: x in front && f[x] == y
    {
      var j :| 0 <= j < |rest| && rest[j] == y;
      var i := if j < k then j else j + 1;
      assert b[i] == y && y in b;
      var x :| x in a && f[x] == y;
      assert i != k && x != a[|a| - 1];
      assert x in front;
    }
  }

  lemma NothingListed(f: map<nat, nat>, b: seq<nat>)
    requires SameList([], f, b)
    ensures b == []
  {
    assert Elements(b) == {};
    DistinctSize(b);
  }

  lemma MultisetSnoc(s: seq<nat>)
    requires s != []
    ensures multiset(s) == multiset(s[..|s| - 1]) + multiset{s[|s| - 1]}
  {
    assert s == s[..|s| - 1] + [s[|s| - 1]];
  }

  lemma {:induction false} SameMultiset(a: seq<nat>, theirs: seq<nat>, f: map<nat, nat>, b: seq<nat>, ours: seq<nat>)
    requires |theirs| == |a| && SameList(a, f, b) && Injective(f) && SameLabels(theirs, a, f, ours) && Bounded(b, |ours|)
    ensures multiset(theirs) == multiset(LabelsOf(b, ours))
    decreases |a|
  {
    if a == [] {
      NothingListed(f, b);
      assert theirs == [] && LabelsOf(b, ours) == [];
    } else {
      var last := |a| - 1;
      assert a[last] in a;
      var k: nat :| k < |b| && b[k] == f[a[last]];
      DropMatch(a, f, b, k);
      SameMultiset(a[..last], theirs[..last], f, b[..k] + b[k + 1..], ours);
      LabelsTakenOut(b, ours, k);
      MultisetSnoc(theirs);
    }
  }

  lemma LabelsTakenOut(b: seq<nat>, ours: seq<nat>, k: nat)
    requires Bounded(b, |ours|) && k < |b|
    ensures Bounded(b[..k] + b[k + 1..], |ours|)
    ensures multiset(LabelsOf(b, ours)) == multiset(LabelsOf(b[..k] + b[k + 1..], ours)) + multiset{ours[b[k]]}
  {
    var l := LabelsOf(b, ours);
    assert LabelsOf(b[..k] + b[k + 1..], ours) == l[..k] + l[k + 1..];
    assert l == l[..k] + [l[k]] + l[k + 1..];
  }

  // ---- One vertex, one round ----

  /** The reference lists of v name what the rows of its logical id name. */
  ghost predicate VertexMatches(nodes: NodeList, directed: bool, g: Csr, index: map<nat, nat>, v: nat)
    requires g.out.Valid(g.n) && g.inc.Valid(g.n)
  {
    && v in nodes && v in index && index[v] < g.n
    && SameList(Ends(nodes[v].out), index, g.out.Row(index[v]))
    && if directed then SameList(Ends(nodes[v].inc), index, g.inc.Row(index[v])) else nodes[v].inc == []
  }

  ghost predicate ListsMatch(nodes: NodeList, directed: bool, g: Csr, index: map<nat, nat>) {
    && g.out.Valid(g.n) && g.inc.Valid(g.n)
    && Injective(index) && nodes.Keys == index.Keys
    && forall v {:trigger VertexMatches(nodes, directed, g, index, v)} | v in nodes :: VertexMatches(nodes, directed, g, index, v)
  }

  ghost function OursAfter(g: Csr, directed: bool, ids: seq<nat>, k: nat): (r: seq<nat>)
    requires g.out.Valid(g.n) && g.inc.Valid(g.n) && |ids| == g.n
    ensures |r| == g.n
  {
    Rounds(NeighbourLists(g, directed), ids, INT64_MAX, k)
  }

  ghost predicate AgreeAfter(nodes: NodeList, directed: bool, g: Csr, ids: seq<nat>, index: map<nat, nat>, k: nat)
    requires ListsMatch(nodes, directed, g, index) && |ids| == g.n
  {
    forall v {:trigger AgreeAt(nodes, directed, g, ids, index, k, v)} | v in nodes :: AgreeAt(nodes, directed, g, ids, index, k, v)
  }

  ghost predicate AgreeAt(nodes: NodeList, directed: bool, g: Csr, ids: seq<nat>, index: map<nat, nat>, k: nat, v: nat)
    requires ListsMatch(nodes, directed, g, index) && |ids| == g.n && v in nodes
  {
    assert VertexMatches(nodes, directed, g, index, v);
    OursAfter(g, directed, ids, k)[index[v]] == LabelAfter(nodes, k, v)
  }

  ghost predicate Isolated(nodes: NodeList, v: nat)
    requires v in nodes
  {
    nodes[v].out == [] && nodes[v].inc == []
  }

  lemma RoundAt(g: Csr, directed: bool, ids: seq<nat>, k: nat, u: nat)
    requires g.out.Valid(g.n) && g.inc.Valid(g.n) && |ids| == g.n && u < g.n
    ensures Bounded(Neighbours(g, directed, u), g.n)
    ensures OursAfter(g, directed, ids, k + 1)[u] == Adopted(Neighbours(g, directed, u), OursAfter(g, directed, ids, k), INT64_MAX)
  {
    assert NeighbourLists(g, directed)[u] == Neighbours(g, directed, u);
  }

  lemma ListLabels(nodes: NodeList, directed: bool, g: Csr, ids: seq<nat>, index: map<nat, nat>, k: nat, list: seq<nat>)
    requires ListsMatch(nodes, directed, g, index) && |ids| == g.n && AgreeAfter(nodes, directed, g, ids, index, k)
    requires forall i | 0 <= i < |list| :: list[i] in nodes
    ensures |LabelsAfter(nodes, k, list)| == |list|
    ensures SameLabels(LabelsAfter(nodes, k, list), list, index, OursAfter(g, directed, ids, k))
  {
    forall i | 0 <= i < |list|
      ensures list[i] in index && index[list[i]] < g.n
      ensures LabelAfter(nodes, k, list[i]) == OursAfter(g, directed, ids, k)[index[list[i]]]
    {
      assert VertexMatches(nodes, directed, g, index, list[i]);
      assert AgreeAt(nodes, directed, g, ids, index, k, list[i]);
    }
  }

  lemma RowLabels(nodes: NodeList, directed: bool, g: Csr, ids: seq<nat>, index: map<nat, nat>, k: nat, list: seq<nat>, row: seq<nat>)
    requires ListsMatch(nodes, directed, g, index) && |ids| == g.n && AgreeAfter(nodes, directed, g, ids, index, k)
    requires SameList(list, index, row) && Bounded(row, g.n)
    ensures multiset(LabelsAfter(nodes, k, list)) == multiset(LabelsOf(row, OursAfter(g, directed, ids, k)))
  {
    forall i | 0 <= i < |list|
      ensures list[i] in nodes
    {
      assert list[i] in list;
    }
    ListLabels(nodes, directed, g, ids, index, k, list);
    SameMultiset(list, LabelsAfter(nodes, k, list), index, row, OursAfter(g, directed, ids, k));
  }

  /** What a vertex sees around it. */
  lemma SameSurroundings(nodes: NodeList, directed: bool, g: Csr, ids: seq<nat>, index: map<nat, nat>, k: nat, v: nat)
    requires ListsMatch(nodes, directed, g, index) && |ids| == g.n && AgreeAfter(nodes, directed, g, ids, index, k) && v in nodes
    ensures v in index && index[v] < g.n && Bounded(Neighbours(g, directed, index[v]), g.n)
    ensures AroundAfter(nodes, k, v) == multiset(LabelsOf(Neighbours(g, directed, index[v]), OursAfter(g, directed, ids, k)))
  {
    assert VertexMatches(nodes, directed, g, index, v);
    var u, ours := index[v], OursAfter(g, directed, ids, k);
    RowBounded(g.out, g.n, u);
    RowBounded(g.inc, g.n, u);
    RowLabels(nodes, directed, g, ids, index, k, Ends(nodes[v].out), g.out.Row(u));
    if directed {
      RowLabels(nodes, directed, g, ids, index, k, Ends(nodes[v].inc), g.inc.Row(u));
      LabelsConcat(g.out.Row(u), g.inc.Row(u), ours);
    } else {
      assert Neighbours(g, directed, u) == g.out.Row(u);
      assert LabelsAfter(nodes, k, Ends([])) == [];
    }
  }

  lemma StartAgrees(nodes: NodeList, directed: bool, g: Csr, ids: seq<nat>, index: map<nat, nat>)
    requires ListsMatch(nodes, directed, g, index) && |ids| == g.n && IsIndex(ids, index)
    ensures AgreeAfter(nodes, directed, g, ids, index, 0)
  {
    forall v | v in nodes
      ensures AgreeAt(nodes, directed, g, ids, index, 0, v)
    {
      assert VertexMatches(nodes, directed, g, index, v);
      IndexKeepsOrder(ids, index, v, v);
    }
  }

  lemma AroundIsEmpty(nodes: NodeList, k: nat, v: nat)
    requires v in nodes
    ensures AroundAfter(nodes, k, v) == multiset{} <==> Isolated(nodes, v)
  {
    assert |AroundAfter(nodes, k, v)| == |nodes[v].out| + |nodes[v].inc|;
  }

  /** After a round the two labels of a vertex are equal exactly when it has a neighbour. */
  lemma RoundAgrees(nodes: NodeList, directed: bool, g: Csr, ids: seq<nat>, index: map<nat, nat>, k: nat, v: nat)
    requires ListsMatch(nodes, directed, g, index) && |ids| == g.n && AgreeAfter(nodes, directed, g, ids, index, k) && v in nodes
    ensures AgreeAt(nodes, directed, g, ids, index, k + 1, v) <==> !Isolated(nodes, v)
  {
    SameSurroundings(nodes, directed, g, ids, index, k, v);
    RoundAt(g, directed, ids, k, index[v]);
    AroundIsEmpty(nodes, k, v);
    ChoiceDependsOnDefault(AroundAfter(nodes, k, v), INT64_MAX, 0);
  }

  lemma ChoiceDependsOnDefault(M: multiset<nat>, a: nat, b: nat)
    requires a != b
    ensures Choice(M, a) == Choice(M, b) <==> M != multiset{}
  {
    if M != multiset{} {
      BestUnique(M, Choice(M, a), Choice(M, b));
    }
  }

  lemma NextAgrees(nodes: NodeList, directed: bool, g: Csr, ids: seq<nat>, index: map<nat, nat>, k: nat)
    requires ListsMatch(nodes, directed, g, index) && |ids| == g.n && AgreeAfter(nodes, directed, g, ids, index, k)
    requires forall v | v in nodes :: !Isolated(nodes, v)
    ensures AgreeAfter(nodes, directed, g, ids, index, k + 1)
  {
    forall v | v in nodes
      ensures AgreeAt(nodes, directed, g, ids, index, k + 1, v)
    {
      RoundAgrees(nodes, directed, g, ids, index, k, v);
    }
  }

  lemma {:induction false} AllRoundsAgree(nodes: NodeList, directed: bool, g: Csr, ids: seq<nat>, index: map<nat, nat>, k: nat)
    requires ListsMatch(nodes, directed, g, index) && |ids| == g.n && IsIndex(ids, index)
    requires forall v | v in nodes :: !Isolated(nodes, v)
    ensures AgreeAfter(nodes, directed, g, ids, index, k)
  {
    if k == 0 {
      StartAgrees(nodes, directed, g, ids, index);
    } else {
      AllRoundsAgree(nodes, directed, g, ids, index, k - 1);
      NextAgrees(nodes, directed, g, ids, index, k - 1);
    }
  }

  lemma IsolatedDisagrees(nodes: NodeList, directed: bool, g: Csr, ids: seq<nat>, index: map<nat, nat>, k: nat, v: nat)
    requires ListsMatch(nodes, directed, g, index) && |ids| == g.n && v in nodes && Isolated(nodes, v)
    ensures !AgreeAt(nodes, directed, g, ids, index, k + 1, v)
  {
    assert VertexMatches(nodes, directed, g, index, v);
    EmptyRows(nodes, directed, g, index, v);
    RoundAt(g, directed, ids, k, index[v]);
    AroundIsEmpty(nodes, k, v);
  }

  lemma EmptyRows(nodes: NodeList, directed: bool, g: Csr, index: map<nat, nat>, v: nat)
    requires g.out.Valid(g.n) && g.inc.Valid(g.n) && VertexMatches(nodes, directed, g, index, v) && Isolated(nodes, v)
    ensures Neighbours(g, directed, index[v]) == []
  {
    assert Ends([]) == [];
    NothingListed(index, g.out.Row(index[v]));
    if directed {
      NothingListed(index, g.inc.Row(index[v]));
    }
  }

  /** From the first round on, the engines agree everywhere exactly when no vertex is isolated. */
  lemma AgreeIffNoneIsolated(nodes: NodeList, directed: bool, g: Csr, ids: seq<nat>, index: map<nat, nat>, k: nat)
    requires ListsMatch(nodes, directed, g, index) && |ids| == g.n && IsIndex(ids, index)
    ensures AgreeAfter(nodes, directed, g, ids, index, k + 1) <==> forall v | v in nodes :: !Isolated(nodes, v)
  {
    if v :| v in nodes && Isolated(nodes, v) {
      IsolatedDisagrees(nodes, directed, g, ids, index, k, v);
    } else {
      AllRoundsAgree(nodes, directed, g, ids, index, k + 1);
    }
  }

  // ---- Both engines loaded with the same graph ----

  /** The list holds the edges of G that leave v. */
  ghost predicate ListsEdges(l: seq<Half>, G: set<Edge>, v: nat) {
    NoDuplicates(l) && forall x, w :: Holds(l, x, w) <==> Edge(v, x, w) in G
  }

  lemma EndIsEdge(l: seq<Half>, G: set<Edge>, v: nat, x: nat)
    requires ListsEdges(l, G, v)
    ensures x in Ends(l) <==> exists w :: Edge(v, x, w) in G
  {
    if x in Ends(l) {
      var i :| 0 <= i < |l| && Ends(l)[i] == x;
      assert Holds(l, x, l[i].weight);
    }
    if w :| Edge(v, x, w) in G {
      assert Holds(l, x, w);
      var i :| 0 <= i < |l| && l[i] == Half(x, w);
      assert Ends(l)[i] == x;
    }
  }

  lemma RowMatches(l: seq<Half>, r: Rows, ids: seq<nat>, index: map<nat, nat>, G: set<Edge>, v: nat)
    requires ListsEdges(l, G, v) && IsIndex(ids, index) && Names(G, index) && v in index
    requires r.Valid(|ids|) && r.StrictlySorted() && r.Edges() == Rename(G, index)
    ensures index[v] < |r.v| && SameList(Ends(l), index, r.Row(index[v]))
  {
    IndexKeepsOrder(ids, index, v, v);
    RowIncreases(r, index[v]);
    forall x | x in Ends(l)
      ensures x in index && index[x] in r.Row(index[v])
    {
      EndIsEdge(l, G, v, x);
      var w :| Edge(v, x, w) in G;
      assert Edge(index[v], index[x], w) in Rename(G, index);
      RowMembers(r, index[v], index[x]);
    }
    forall y | y in r.Row(index[v])
      ensures exists x :: x in Ends(l) && index[x] == y
    {
      RowMembers(r, index[v], y);
      var w :| Edge(index[v], y, w) in r.Edges();
      var e :| e in G && Edge(index[v], y, w) == Edge(index[e.src], index[e.dst], e.weight);
      assert e.src == v && Edge(v, e.dst, w) in G;
      EndIsEdge(l, G, v, e.dst);
    }
  }

  lemma OutLists(directed: bool, nodes: NodeList, edges: EdgeMap, v: nat)
    requires Represents(directed, nodes, edges) && v in nodes
    ensures ListsEdges(nodes[v].out, AdjacencySearch.EdgeSet(edges), v)
    ensures directed ==> ListsEdges(nodes[v].inc, Flip(AdjacencySearch.EdgeSet(edges)), v)
    ensures !directed ==> nodes[v].inc == []
  {
    var E := AdjacencySearch.EdgeSet(edges);
    forall x, w
      ensures Edge(v, x, w) in E <==> Has(edges, v, x, w)
      ensures Edge(v, x, w) in Flip(E) <==> Has(edges, x, v, w)
    {
      if Has(edges, x, v, w) {
        assert Edge(x, v, w) in E;
      }
      if Edge(v, x, w) in Flip(E) {
        var e :| e in E && Edge(v, x, w) == Edge(e.dst, e.src, e.weight);
      }
    }
  }

  /** The graph under the mapping, with the transposed rows where the graph is directed. */
  ghost predicate MirrorsBoth(directed: bool, g: Csr, ids: seq<nat>, index: map<nat, nat>, G: set<Edge>) {
    && Mirrors(g, ids, index, G) && g.out.StrictlySorted()
    && g.inc.Valid(g.n)
    && (directed ==> Names(Flip(G), index) && g.inc.StrictlySorted() && g.inc.Edges() == Rename(Flip(G), index))
  }

  lemma LoadedListsMatch(directed: bool, nodes: NodeList, edges: EdgeMap, g: Csr, ids: seq<nat>, index: map<nat, nat>)
    requires Represents(directed, nodes, edges) && nodes.Keys == index.Keys
    requires MirrorsBoth(directed, g, ids, index, AdjacencySearch.EdgeSet(edges))
    ensures ListsMatch(nodes, directed, g, index)
  {
    forall v | v in nodes
      ensures VertexMatches(nodes, directed, g, index, v)
    {
      OutLists(directed, nodes, edges, v);
      RowMatches(nodes[v].out, g.out, ids, index, AdjacencySearch.EdgeSet(edges), v);
      if directed {
        RowMatches(nodes[v].inc, g.inc, ids, index, Flip(AdjacencySearch.EdgeSet(edges)), v);
      }
    }
  }

  /** A vertex named by an edge, as all vertices loaded from an edge stream are, is not isolated. */
  lemma NamedIsNotIsolated(directed: bool, nodes: NodeList, edges: EdgeMap, e: Edge, v: nat)
    requires Represents(directed, nodes, edges) && v in nodes
    requires e in AdjacencySearch.EdgeSet(edges) && (v == e.src || v == e.dst)
    ensures !Isolated(nodes, v)
  {
    assert Has(edges, e.src, e.dst, e.weight);
    if v == e.src {
      assert Holds(nodes[v].out, e.dst, e.weight);
    } else if directed {
      assert Holds(nodes[v].inc, e.src, e.weight);
    } else {
      assert Has(edges, e.dst, e.src, e.weight);
      assert Holds(nodes[v].out, e.src, e.weight);
    }
  }

  /** CSR::do_cdlp and AdjacencyList::cdlp give every vertex the same label, whatever max_iterations, on
      graphs without isolated vertices. */
  lemma CdlpAgrees(directed: bool, nodes: NodeList, edges: EdgeMap, g: Csr, ids: seq<nat>, index: map<nat, nat>, k: nat,
                   theirs: map<nat, nat>, ours: seq<nat>, v: nat)
    requires Represents(directed, nodes, edges) && nodes.Keys == index.Keys
    requires MirrorsBoth(directed, g, ids, index, AdjacencySearch.EdgeSet(edges))
    requires AtRound(nodes, k, theirs) && ours == Rounds(NeighbourLists(g, directed), ids, INT64_MAX, k)
    requires forall u | u in nodes :: !Isolated(nodes, u)
    requires v in nodes
    ensures index[v] < |ours| && ours[index[v]] == theirs[v]
  {
    LoadedListsMatch(directed, nodes, edges, g, ids, index);
    AllRoundsAgree(nodes, directed, g, ids, index, k);
    assert VertexMatches(nodes, directed, g, index, v);
    assert AgreeAt(nodes, directed, g, ids, index, k, v);
  }
}
