/** Community detection by label propagation: the double-buffered kernel of library/baseline/csr.cpp:955-1020
    and the reference of library/baseline/adjacency_list.cpp:534-589, against synchronous rounds. */
module Cdlp {
  import opened AdjacencyList
  import opened Counting
  import opened Csr
  import opened Numbers

  // ---- The label a vertex adopts ----

  /** x is more frequent than y, or as frequent and not larger. */
  predicate Beats(M: multiset<nat>, x: nat, y: nat) {
    M[y] < M[x] || (M[y] == M[x] && x <= y)
  }

  /** The smallest among the most frequent labels. */
  ghost predicate IsBest(M: multiset<nat>, x: nat) {
    x in M && forall y | y in M :: Beats(M, x, y)
  }

  lemma {:induction false} BestAmong(M: multiset<nat>, S: set<nat>) returns (x: nat)
    requires S != {}
    ensures x in S && forall y | y in S :: Beats(M, x, y)
    decreases |S|
  {
    x :| x in S;
    if S != {x} {
      var rest := S - {x};
      assert S == rest + {x};
      var y := BestAmong(M, rest);
      var best := if Beats(M, x, y) then x else y;
      forall z | z in S
        ensures Beats(M, best, z)
      {
        assert z == x || z in rest;
      }
      x := best;
    }
  }

  ghost function Choice(M: multiset<nat>, otherwise: nat): (x: nat)
    ensures if M == multiset{} then x == otherwise else IsBest(M, x)
  {
    if M == multiset{} then otherwise
    else
      var S := set y | y in M;
      assert (exists x :: IsBest(M, x)) by {
        var z :| z in M;
        assert z in S;
        var x := BestAmong(M, S);
        assert IsBest(M, x);
      }
      var x :| IsBest(M, x);
      x
  }

  lemma BestUnique(M: multiset<nat>, x: nat, y: nat)
    requires IsBest(M, x) && IsBest(M, y)
    ensures x == y
  {}

  ghost predicate Counts(hist: map<nat, nat>, M: multiset<nat>) {
    forall x :: (x in hist <==> x in M) && (x in hist ==> hist[x] == M[x])
  }

  /** The selection loop of both engines. The histogram is a hash map: it yields its entries in any order. */
  method SelectLabel(hist: map<nat, nat>, initial: nat, ghost M: multiset<nat>) returns (best: nat)
    requires Counts(hist, M)
    ensures best == Choice(M, initial)
    ensures M == multiset{} ==> best == initial
    ensures M != multiset{} ==> M[best] > 0 && (forall y :: M[y] <= M[best]) && forall y | M[y] == M[best] :: best <= y
  {
    best := initial;
    var count := 0;
    var rest := hist.Keys;
    while rest != {}
      invariant rest <= hist.Keys
      invariant rest == hist.Keys ==> count == 0 && best == initial
      invariant rest != hist.Keys ==> best in hist && best !in rest && count == hist[best]
      invariant forall y | y in hist && y !in rest :: Beats(M, best, y)
      decreases rest
    {
      var x :| x in rest;
      assert hist[x] == M[x] > 0;
      if hist[x] > count || (hist[x] == count && x < best) {
        best, count := x, hist[x];
      }
      rest := rest - {x};
    }
    if M != multiset{} {
      assert exists x :: x in M;
      assert IsBest(M, best);
      BestUnique(M, best, Choice(M, initial));
      BestIsLeastMode(M, best);
    }
  }

  /** It occurs, no label occurs more often, and of those that occur as often it is the smallest. */
  lemma BestIsLeastMode(M: multiset<nat>, x: nat)
    requires IsBest(M, x)
    ensures M[x] > 0
    ensures forall y :: M[y] <= M[x]
    ensures forall y | M[y] == M[x] :: x <= y
  {
    forall y
      ensures M[y] <= M[x] && (M[y] == M[x] ==> x <= y)
    {
      assert M[y] > 0 <==> y in M;
    }
  }

  // ---- Synchronous rounds ----

  ghost function LabelsOf(list: seq<nat>, labels: seq<nat>): (r: seq<nat>)
    requires Bounded(list, |labels|)
    ensures |r| == |list|
  {
    seq(|list|, i requires 0 <= i < |list| => labels[list[i]])
  }

  ghost predicate Lists(nb: seq<seq<nat>>, n: nat) {
    |nb| == n && forall v | 0 <= v < n :: Bounded(nb[v], n)
  }

  ghost function Adopted(list: seq<nat>, labels: seq<nat>, otherwise: nat): nat
    requires Bounded(list, |labels|)
  {
    Choice(multiset(LabelsOf(list, labels)), otherwise)
  }

  /** Every vertex adopts a label from the labels of the round before. */
  ghost function Round(nb: seq<seq<nat>>, labels: seq<nat>, otherwise: nat): (r: seq<nat>)
    requires Lists(nb, |labels|)
    ensures |r| == |labels|
  {
    seq(|labels|, v requires 0 <= v < |labels| => Adopted(nb[v], labels, otherwise))
  }

  ghost function Rounds(nb: seq<seq<nat>>, labels: seq<nat>, otherwise: nat, k: nat): (r: seq<nat>)
    requires Lists(nb, |labels|)
    ensures |r| == |labels|
  {
    if k == 0 then labels else Round(nb, Rounds(nb, labels, otherwise, k - 1), otherwise)
  }

  /** After a round every vertex with neighbours carries the smallest of the labels that are most frequent among
      them before the round. */
  lemma RoundAdoptsLeastMode(nb: seq<seq<nat>>, labels: seq<nat>, otherwise: nat, k: nat, v: nat)
    requires Lists(nb, |labels|) && v < |labels| && nb[v] != []
    ensures var M := multiset(LabelsOf(nb[v], Rounds(nb, labels, otherwise, k)));
            var x := Rounds(nb, labels, otherwise, k + 1)[v];
            M[x] > 0 && (forall y :: M[y] <= M[x]) && forall y | M[y] == M[x] :: x <= y
  {
    var l := LabelsOf(nb[v], Rounds(nb, labels, otherwise, k));
    assert l[0] in multiset(l);
    BestIsLeastMode(multiset(l), Rounds(nb, labels, otherwise, k + 1)[v]);
  }

  ghost predicate StableAt(nb: seq<seq<nat>>, labels: seq<nat>, otherwise: nat, k: nat)
    requires Lists(nb, |labels|)
  {
    Rounds(nb, labels, otherwise, k + 1) == Rounds(nb, labels, otherwise, k)
  }

  lemma StableStep(nb: seq<seq<nat>>, labels: seq<nat>, otherwise: nat, k: nat)
    requires Lists(nb, |labels|) && StableAt(nb, labels, otherwise, k)
    ensures StableAt(nb, labels, otherwise, k + 1)
  {}

  /** Once a round changes nothing, no later round does. */
  lemma {:induction false} StableForever(nb: seq<seq<nat>>, labels: seq<nat>, otherwise: nat, k: nat, j: nat)
    requires Lists(nb, |labels|) && k <= j && StableAt(nb, labels, otherwise, k)
    ensures Rounds(nb, labels, otherwise, j) == Rounds(nb, labels, otherwise, k)
    decreases j - k
  {
    if k < j {
      StableStep(nb, labels, otherwise, k);
      StableForever(nb, labels, otherwise, k + 1, j);
    }
  }

  // ---- The kernel ----

  ghost function Neighbours(g: Csr, directed: bool, v: nat): seq<nat>
    requires g.out.Valid(g.n) && g.inc.Valid(g.n) && v < g.n
  {
    g.out.Row(v) + if directed then g.inc.Row(v) else []
  }

  ghost function NeighbourLists(g: Csr, directed: bool): (nb: seq<seq<nat>>)
    requires g.out.Valid(g.n) && g.inc.Valid(g.n)
    ensures Lists(nb, g.n)
  {
    seq(g.n, v requires 0 <= v < g.n => Neighbours(g, directed, v))
  }

  lemma CountLabel(hist: map<nat, nat>, M: multiset<nat>, x: nat)
    requires Counts(hist, M)
    ensures Counts(hist[x := if x in hist then hist[x] + 1 else 1], M + multiset{x})
  {}

  lemma LabelsSnoc(list: seq<nat>, labels: seq<nat>, i: nat)
    requires Bounded(list, |labels|) && i < |list|
    ensures Bounded(list[..i], |labels|) && Bounded(list[..i + 1], |labels|)
    ensures multiset(LabelsOf(list[..i + 1], labels)) == multiset(LabelsOf(list[..i], labels)) + multiset{labels[list[i]]}
  {
    assert LabelsOf(list[..i + 1], labels) == LabelsOf(list[..i], labels) + [labels[list[i]]];
  }

  /** histogram[labels[u]]++ for the vertices of a row. */
  method CountRow(hist: map<nat, nat>, row: seq<nat>, labels: array<nat>, ghost M: multiset<nat>) returns (hist': map<nat, nat>)
    requires Counts(hist, M) && Bounded(row, labels.Length)
    ensures Counts(hist', M + multiset(LabelsOf(row, labels[..])))
  {
    hist' := hist;
    ghost var now := labels[..];
    assert row[..0] == [] && M + multiset(LabelsOf([], now)) == M;
    for i := 0 to |row|
      invariant Bounded(row[..i], |now|)
      invariant Counts(hist', M + multiset(LabelsOf(row[..i], now)))
    {
      var x := labels[row[i]];
      CountLabel(hist', M + multiset(LabelsOf(row[..i], now)), x);
      LabelsSnoc(row, now, i);
      hist' := hist'[x := if x in hist' then hist'[x] + 1 else 1];
    }
    assert row[..|row|] == row;
  }

  lemma LabelsConcat(a: seq<nat>, b: seq<nat>, labels: seq<nat>)
    requires Bounded(a, |labels|) && Bounded(b, |labels|)
    ensures multiset(LabelsOf(a + b, labels)) == multiset(LabelsOf(a, labels)) + multiset(LabelsOf(b, labels))
  {
    assert LabelsOf(a + b, labels) == LabelsOf(a, labels) + LabelsOf(b, labels);
  }

  lemma RowBounded(r: Rows, n: nat, v: nat)
    requires r.Valid(n) && v < n
    ensures Bounded(r.Row(v), n)
  {}

  method NextLabel(g: Csr, directed: bool, labels: array<nat>, v: nat) returns (best: nat)
    requires g.out.Valid(g.n) && g.inc.Valid(g.n) && v < g.n == labels.Length
    ensures Bounded(Neighbours(g, directed, v), g.n)
    ensures best == Adopted(Neighbours(g, directed, v), labels[..], INT64_MAX)
  {
    RowBounded(g.out, g.n, v);
    RowBounded(g.inc, g.n, v);
    var hist := CountRow(map[], g.out.Row(v), labels, multiset{});
    if directed {
      LabelsConcat(g.out.Row(v), g.inc.Row(v), labels[..]);
      hist := CountRow(hist, g.inc.Row(v), labels, multiset(LabelsOf(g.out.Row(v), labels[..])));
    } else {
      assert Neighbours(g, directed, v) == g.out.Row(v);
    }
    best := SelectLabel(hist, INT64_MAX, multiset(LabelsOf(Neighbours(g, directed, v), labels[..])));
  }

  /** One pass of the outer loop, from the current labels into the other buffer. */
  method Pass(g: Csr, directed: bool, labels0: array<nat>, labels1: array<nat>) returns (change: bool)
    requires g.out.Valid(g.n) && g.inc.Valid(g.n) && labels0.Length == labels1.Length == g.n && labels0 != labels1
    modifies labels1
    ensures labels1[..] == Round(NeighbourLists(g, directed), labels0[..], INT64_MAX)
    ensures change <==> labels1[..] != labels0[..]
  {
    change := false;
    ghost var next := Round(NeighbourLists(g, directed), labels0[..], INT64_MAX);
    for v := 0 to g.n
      invariant labels1[..v] == next[..v]
      invariant change <==> labels1[..v] != labels0[..v]
    {
      var best := NextLabel(g, directed, labels0, v);
      labels1[v] := best;
      assert labels1[..v + 1] == labels1[..v] + [best] && labels0[..v + 1] == labels0[..v] + [labels0[v]];
      if labels0[v] != labels1[v] {
        change := true;
      }
    }
    assert labels1[..g.n] == labels1[..] && labels0[..g.n] == labels0[..];
  }

  /** CSR::do_cdlp: stopping at the first round without a change leaves the labels that all
      max_iterations synchronous rounds give, and the returned buffer is the current one. */
  method DoCdlp(g: Csr, directed: bool, log2ext: seq<nat>, maxIterations: nat) returns (labels: array<nat>)
    requires g.out.Valid(g.n) && g.inc.Valid(g.n) && |log2ext| == g.n
    ensures labels[..] == Rounds(NeighbourLists(g, directed), log2ext, INT64_MAX, maxIterations)
  {
    ghost var nb := NeighbourLists(g, directed);
    var labels0, labels1 := new nat[g.n](i requires 0 <= i < g.n => log2ext[i]), new nat[g.n];
    assert labels0[..] == log2ext;
    var change, iteration := true, 0;
    while iteration < maxIterations && change
      invariant fresh(labels0) && fresh(labels1) && labels0 != labels1 && labels0.Length == labels1.Length == g.n
      invariant iteration <= maxIterations && labels0[..] == Rounds(nb, log2ext, INT64_MAX, iteration)
      invariant !change ==> Round(nb, labels0[..], INT64_MAX) == labels0[..]
      decreases maxIterations - iteration
    {
      change := Pass(g, directed, labels0, labels1);
      labels0, labels1 := labels1, labels0;
      iteration := iteration + 1;
    }
    if !change {
      StableForever(nb, log2ext, INT64_MAX, iteration, maxIterations);
    }
    labels := labels0;
  }

  // ---- The reference ----

  ghost function Ends(l: seq<Half>): (r: seq<nat>)
    ensures |r| == |l|
  {
    seq(|l|, i requires 0 <= i < |l| => l[i].to)
  }

  ghost predicate Labelled(list: seq<nat>, keys: set<nat>) {
    forall i | 0 <= i < |list| :: list[i] in keys
  }

  /** The node list is closed: neighbours are vertices. */
  ghost predicate Closed(nodes: NodeList) {
    forall v {:trigger NeighboursKnown(nodes, v)} | v in nodes :: NeighboursKnown(nodes, v)
  }

  ghost predicate NeighboursKnown(nodes: NodeList, v: nat)
    requires v in nodes
  {
    Labelled(Ends(nodes[v].out), nodes.Keys) && Labelled(Ends(nodes[v].inc), nodes.Keys)
  }

  type ClosedNodes = nodes: NodeList | Closed(nodes) witness map[]

  ghost function LabelsIn(list: seq<nat>, labels: map<nat, nat>): (r: seq<nat>)
    requires Labelled(list, labels.Keys)
    ensures |r| == |list|
  {
    seq(|list|, i requires 0 <= i < |list| => labels[list[i]])
  }

  /** The label of v after k synchronous rounds. */
  ghost function LabelAfter(nodes: NodeList, k: nat, v: nat): nat
    decreases k, 0
  {
    if k == 0 || v !in nodes then v else Choice(AroundAfter(nodes, k - 1, v), 0)
  }

  /** The labels around v after k rounds, outgoing and incoming. */
  ghost function AroundAfter(nodes: NodeList, k: nat, v: nat): multiset<nat>
    requires v in nodes
    decreases k, 2
  {
    multiset(LabelsAfter(nodes, k, Ends(nodes[v].out))) + multiset(LabelsAfter(nodes, k, Ends(nodes[v].inc)))
  }

  ghost function LabelsAfter(nodes: NodeList, k: nat, list: seq<nat>): seq<nat>
    decreases k, 1
  {
    seq(|list|, i requires 0 <= i < |list| => LabelAfter(nodes, k, list[i]))
  }

  /** The same for the reference. */
  lemma ReferenceAdoptsLeastMode(nodes: NodeList, k: nat, v: nat)
    requires v in nodes && AroundAfter(nodes, k, v) != multiset{}
    ensures var M, x := AroundAfter(nodes, k, v), LabelAfter(nodes, k + 1, v);
            M[x] > 0 && (forall y :: M[y] <= M[x]) && forall y | M[y] == M[x] :: x <= y
  {
    BestIsLeastMode(AroundAfter(nodes, k, v), LabelAfter(nodes, k + 1, v));
  }

  ghost predicate ReferenceStableAt(nodes: NodeList, k: nat) {
    forall v | v in nodes :: LabelAfter(nodes, k + 1, v) == LabelAfter(nodes, k, v)
  }

  lemma AroundStable(nodes: ClosedNodes, k: nat, v: nat)
    requires v in nodes && ReferenceStableAt(nodes, k)
    ensures AroundAfter(nodes, k + 1, v) == AroundAfter(nodes, k, v)
  {
    assert NeighboursKnown(nodes, v);
    assert LabelsAfter(nodes, k + 1, Ends(nodes[v].out)) == LabelsAfter(nodes, k, Ends(nodes[v].out));
    assert LabelsAfter(nodes, k + 1, Ends(nodes[v].inc)) == LabelsAfter(nodes, k, Ends(nodes[v].inc));
  }

  lemma ReferenceStableStep(nodes: ClosedNodes, k: nat)
    requires ReferenceStableAt(nodes, k)
    ensures ReferenceStableAt(nodes, k + 1)
  {
    forall v | v in nodes
      ensures LabelAfter(nodes, k + 2, v) == LabelAfter(nodes, k + 1, v)
    {
      AroundStable(nodes, k, v);
    }
  }

  lemma {:induction false} ReferenceStableForever(nodes: ClosedNodes, k: nat, j: nat, v: nat)
    requires k <= j && ReferenceStableAt(nodes, k) && v in nodes
    ensures LabelAfter(nodes, j, v) == LabelAfter(nodes, k, v)
    decreases j - k
  {
    if k < j {
      ReferenceStableStep(nodes, k);
      ReferenceStableForever(nodes, k + 1, j, v);
    }
  }

  ghost predicate AtRound(nodes: NodeList, k: nat, labels: map<nat, nat>) {
    labels.Keys == nodes.Keys && forall v | v in labels :: labels[v] == LabelAfter(nodes, k, v)
  }

  lemma LabelsAreCurrent(nodes: ClosedNodes, k: nat, labels: map<nat, nat>, list: seq<nat>)
    requires AtRound(nodes, k, labels) && Labelled(list, labels.Keys)
    ensures LabelsIn(list, labels) == LabelsAfter(nodes, k, list)
  {}

  lemma LabelsInSnoc(l: seq<Half>, labels: map<nat, nat>, i: nat)
    requires Labelled(Ends(l), labels.Keys) && i < |l|
    ensures Labelled(Ends(l[..i]), labels.Keys) && Labelled(Ends(l[..i + 1]), labels.Keys) && l[i].to in labels
    ensures multiset(LabelsIn(Ends(l[..i + 1]), labels)) == multiset(LabelsIn(Ends(l[..i]), labels)) + multiset{labels[l[i].to]}
  {
    forall j | 0 <= j <= i
      ensures Ends(l)[j] in labels.Keys && l[j] == l[..i + 1][j]
    {}
    assert LabelsIn(Ends(l[..i + 1]), labels) == LabelsIn(Ends(l[..i]), labels) + [labels[l[i].to]];
  }

  method CountHalves(hist: map<nat, nat>, l: seq<Half>, labels: map<nat, nat>, ghost M: multiset<nat>) returns (hist': map<nat, nat>)
    requires Counts(hist, M) && Labelled(Ends(l), labels.Keys)
    ensures Counts(hist', M + multiset(LabelsIn(Ends(l), labels)))
  {
    hist' := hist;
    assert l[..0] == [] && M + multiset(LabelsIn(Ends([]), labels)) == M;
    for i := 0 to |l|
      invariant Labelled(Ends(l[..i]), labels.Keys)
      invariant Counts(hist', M + multiset(LabelsIn(Ends(l[..i]), labels)))
    {
      LabelsInSnoc(l, labels, i);
      var x := labels[l[i].to];
      CountLabel(hist', M + multiset(LabelsIn(Ends(l[..i]), labels)), x);
      hist' := hist'[x := if x in hist' then hist'[x] + 1 else 1];
    }
    assert l[..|l|] == l;
  }

  method ReferenceLabel(nodes: ClosedNodes, labels: map<nat, nat>, v: nat, ghost k: nat) returns (best: nat)
    requires AtRound(nodes, k, labels) && v in nodes
    ensures best == LabelAfter(nodes, k + 1, v)
  {
    assert NeighboursKnown(nodes, v);
    var hist := CountHalves(map[], nodes[v].out, labels, multiset{});
    hist := CountHalves(hist, nodes[v].inc, labels, multiset{} + multiset(LabelsIn(Ends(nodes[v].out), labels)));
    LabelsAreCurrent(nodes, k, labels, Ends(nodes[v].out));
    LabelsAreCurrent(nodes, k, labels, Ends(nodes[v].inc));
    best := SelectLabel(hist, 0, AroundAfter(nodes, k, v));
  }

  ghost predicate Changed(labels: map<nat, nat>, next: map<nat, nat>)
    requires next.Keys <= labels.Keys
  {
    exists v :: v in next && next[v] != labels[v]
  }

  lemma ChangedStep(labels: map<nat, nat>, next: map<nat, nat>, v: nat, best: nat)
    requires next.Keys <= labels.Keys && v in labels && v !in next
    ensures Changed(labels, next[v := best]) <==> Changed(labels, next) || best != labels[v]
  {
    var next' := next[v := best];
    assert v in next' && next'[v] == best;
    if x :| x in next && next[x] != labels[x] {
      assert x in next' && next'[x] == next[x];
    }
  }

  lemma UnchangedIsStable(nodes: ClosedNodes, k: nat, labels: map<nat, nat>, next: map<nat, nat>)
    requires AtRound(nodes, k, labels) && AtRound(nodes, k + 1, next) && !Changed(labels, next)
    ensures ReferenceStableAt(nodes, k + 1)
  {
    forall v | v in nodes
      ensures LabelAfter(nodes, k + 1, v) == LabelAfter(nodes, k, v)
    {
      assert v in next && v in labels;
    }
    ReferenceStableStep(nodes, k);
  }

  /** One iteration, over the vertices in whatever order the hash map yields them. */
  method ReferencePass(nodes: ClosedNodes, labels: map<nat, nat>, ghost k: nat) returns (next: map<nat, nat>, change: bool)
    requires AtRound(nodes, k, labels)
    ensures AtRound(nodes, k + 1, next)
    ensures change <==> Changed(labels, next)
    ensures !change ==> ReferenceStableAt(nodes, k + 1)
  {
    next, change := map[], false;
    var rest := nodes.Keys;
    while rest != {}
      invariant rest <= nodes.Keys && next.Keys == nodes.Keys - rest
      invariant forall v | v in next :: next[v] == LabelAfter(nodes, k + 1, v)
      invariant change <==> Changed(labels, next)
      decreases rest
    {
      var v :| v in rest;
      var best := ReferenceLabel(nodes, labels, v, k);
      ChangedStep(labels, next, v, best);
      next := next[v := best];
      if labels[v] != next[v] {
        change := true;
      }
      rest := rest - {v};
    }
    if !change {
      UnchangedIsStable(nodes, k, labels, next);
    }
  }

  lemma EarlyExit(nodes: ClosedNodes, k: nat, j: nat, labels: map<nat, nat>)
    requires AtRound(nodes, k, labels) && k <= j && ReferenceStableAt(nodes, k)
    ensures AtRound(nodes, j, labels)
  {
    forall v | v in labels
      ensures labels[v] == LabelAfter(nodes, j, v)
    {
      ReferenceStableForever(nodes, k, j, v);
    }
  }

  lemma StartRound(nodes: NodeList, labels: map<nat, nat>)
    requires labels == map v | v in nodes :: v
    ensures AtRound(nodes, 0, labels)
  {}

  method ReferenceCdlp(nodes: ClosedNodes, maxIterations: nat) returns (labels: map<nat, nat>)
    ensures AtRound(nodes, maxIterations, labels)
  {
    labels := map v | v in nodes :: v;
    StartRound(nodes, labels);
    var iteration, change := 1, true;
    ghost var k: nat := 0;
    while iteration <= maxIterations && change
      invariant iteration == k + 1 && k <= maxIterations
      invariant AtRound(nodes, k, labels)
      invariant !change ==> ReferenceStableAt(nodes, k)
      decreases maxIterations - k
    {
      labels, change := ReferencePass(nodes, labels, k);
      iteration, k := iteration + 1, k + 1;
    }
    if !change {
      EarlyExit(nodes, k, maxIterations, labels);
    }
  }
}
