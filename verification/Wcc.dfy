/** Weakly connected components by hooking and pointer jumping, library/baseline/csr.cpp:887-930. */
module Wcc {
  import opened Components
  import opened Csr
  import opened Paths

  ghost function Table(comp: seq<nat>): map<nat, nat> {
    map v: nat | v < |comp| :: comp[v]
  }

  /** Labels only name smaller vertices of the same component. */
  ghost predicate LabelsOk(E: set<Edge>, comp: seq<nat>) {
    forall v: nat | v < |comp| :: comp[v] <= v && Connected(E, v, comp[v])
  }

  ghost predicate IsRoot(comp: seq<nat>, x: nat) {
    x < |comp| && comp[x] == x
  }

  ghost predicate AllRoots(comp: seq<nat>) {
    forall v: nat | v < |comp| :: IsRoot(comp, comp[v])
  }

  ghost function Sum(comp: seq<nat>): nat {
    if comp == [] then 0 else Sum(comp[..|comp| - 1]) + comp[|comp| - 1]
  }

  lemma {:induction false} SumUpdate(comp: seq<nat>, x: nat, y: nat)
    requires x < |comp|
    ensures Sum(comp[x := y]) == Sum(comp) - comp[x] + y
  {
    var k := |comp| - 1;
    if x < k {
      SumUpdate(comp[..k], x, y);
      assert comp[x := y][..k] == comp[..k][x := y];
    } else {
      assert comp[x := y][..k] == comp[..k];
    }
  }

  /** Hooking one root under a smaller label of its component. */
  lemma HookOk(E: set<Edge>, comp: seq<nat>, e: Edge, high: nat, low: nat)
    requires LabelsOk(E, comp) && e in E && e.src < |comp| && e.dst < |comp|
    requires {high, low} == {comp[e.src], comp[e.dst]} && low < high && IsRoot(comp, high)
    ensures LabelsOk(E, comp[high := low]) && Sum(comp[high := low]) < Sum(comp)
  {
    LabelsAcrossEdge(E, e, comp[e.src], comp[e.dst]);
    SumUpdate(comp, high, low);
  }

  /** The edges of u before position upto join equal labels. */
  ghost predicate RowAgrees(g: Csr, comp: seq<nat>, u: nat, upto: nat)
    requires g.out.Valid(g.n) && g.n == |comp|
  {
    u < g.n && upto <= |g.out.e| && forall i: nat | g.out.First(u) <= i < upto :: comp[u] == comp[g.out.e[i]]
  }

  ghost predicate RowsAgree(g: Csr, comp: seq<nat>, upto: nat)
    requires g.out.Valid(g.n) && g.n == |comp|
  {
    upto <= g.n && forall u: nat | u < upto :: RowAgrees(g, comp, u, g.out.Last(u))
  }

  lemma RowAgreesSnoc(g: Csr, comp: seq<nat>, u: nat, i: nat)
    requires g.out.Valid(g.n) && g.n == |comp| && RowAgrees(g, comp, u, i) && i < |g.out.e|
    requires comp[u] == comp[g.out.e[i]]
    ensures RowAgrees(g, comp, u, i + 1)
  {}

  method HookRow(g: Csr, comp: array<nat>, u: nat) returns (change: bool)
    requires g.out.Valid(g.n) && u < g.n == comp.Length && LabelsOk(g.out.Edges(), comp[..])
    modifies comp
    ensures LabelsOk(g.out.Edges(), comp[..])
    ensures change ==> Sum(comp[..]) < Sum(old(comp[..]))
    ensures !change ==> comp[..] == old(comp[..])
    ensures !change && AllRoots(comp[..]) ==> RowAgrees(g, comp[..], u, g.out.Last(u))
  {
    change := false;
    ghost var before := comp[..];
    RowInBounds(g.out, g.n, u);
    for i := g.out.First(u) to g.out.Last(u)
      invariant LabelsOk(g.out.Edges(), comp[..])
      invariant change ==> Sum(comp[..]) < Sum(before)
      invariant !change ==> comp[..] == before
      invariant !change && AllRoots(before) ==> RowAgrees(g, before, u, i)
    {
      var v := g.out.e[i];
      var compU, compV := comp[u], comp[v];
      if compU == compV {
        if !change && AllRoots(before) {
          RowAgreesSnoc(g, before, u, i);
        }
        continue;
      }
      var highComp := if compU > compV then compU else compV;
      var lowComp := if compU > compV then compV else compU;
      ghost var mid := comp[..];
      assert highComp < g.n && (AllRoots(mid) ==> IsRoot(mid, highComp));
      if highComp == comp[highComp] {
        EdgeAt(g.out, u, i);
        HookOk(g.out.Edges(), mid, Edge(u, v, g.out.w[i]), highComp, lowComp);
        change := true;
        comp[highComp] := lowComp;
        assert comp[..] == mid[highComp := lowComp];
      }
    }
  }

  ghost predicate EdgesAgree(g: Csr, comp: seq<nat>)
    requires g.out.Valid(g.n) && |comp| == g.n
  {
    forall e | e in g.out.Edges() :: e.src < g.n && e.dst < g.n && comp[e.src] == comp[e.dst]
  }

  lemma RowsAgreeSnoc(g: Csr, comp: seq<nat>, u: nat)
    requires g.out.Valid(g.n) && g.n == |comp| && u < g.n && RowsAgree(g, comp, u) && RowAgrees(g, comp, u, g.out.Last(u))
    ensures RowsAgree(g, comp, u + 1)
  {}

  lemma RowsAgreeEverywhere(g: Csr, comp: seq<nat>)
    requires g.out.Valid(g.n) && |comp| == g.n && RowsAgree(g, comp, g.n)
    ensures EdgesAgree(g, comp)
  {
    forall e | e in g.out.Edges()
      ensures e.src < g.n && e.dst < g.n && comp[e.src] == comp[e.dst]
    {
      assert RowAgrees(g, comp, e.src, g.out.Last(e.src));
    }
  }

  method HookAll(g: Csr, comp: array<nat>) returns (change: bool)
    requires g.out.Valid(g.n) && g.n == comp.Length && LabelsOk(g.out.Edges(), comp[..]) && AllRoots(comp[..])
    modifies comp
    ensures LabelsOk(g.out.Edges(), comp[..])
    ensures change ==> Sum(comp[..]) < Sum(old(comp[..]))
    ensures !change ==> comp[..] == old(comp[..]) && EdgesAgree(g, comp[..])
  {
    change := false;
    ghost var before := comp[..];
    for u := 0 to g.n
      invariant LabelsOk(g.out.Edges(), comp[..])
      invariant change ==> Sum(comp[..]) < Sum(before)
      invariant !change ==> comp[..] == before
      invariant !change ==> RowsAgree(g, before, u)
    {
      var c := HookRow(g, comp, u);
      if !change && !c {
        assert comp[..] == before;
        RowsAgreeSnoc(g, before, u);
      }
      change := change || c;
    }
    if !change {
      RowsAgreeEverywhere(g, before);
    }
  }

  lemma JumpOk(E: set<Edge>, comp: seq<nat>, n: nat)
    requires LabelsOk(E, comp) && n < |comp| && comp[n] < |comp|
    ensures LabelsOk(E, comp[n := comp[comp[n]]])
    ensures Sum(comp[n := comp[comp[n]]]) <= Sum(comp)
  {
    ConnectedTrans(E, n, comp[n], comp[comp[n]]);
    SumUpdate(comp, n, comp[comp[n]]);
  }

  ghost predicate RootsUpTo(comp: seq<nat>, n: nat) {
    forall m | 0 <= m < n && m < |comp| :: IsRoot(comp, comp[m])
  }

  lemma JumpKeepsRoots(E: set<Edge>, comp: seq<nat>, n: nat, k: nat)
    requires LabelsOk(E, comp) && n < |comp| && k <= n && RootsUpTo(comp, k)
    ensures comp[n] < |comp| && comp[comp[n]] <= comp[n]
    ensures RootsUpTo(comp[n := comp[comp[n]]], k)
  {}

  /** The while loop of line 923: jumps until the entry of n is a root. */
  method JumpToRoot(ghost E: set<Edge>, comp: array<nat>, n: nat)
    requires LabelsOk(E, comp[..]) && n < comp.Length && RootsUpTo(comp[..], n)
    modifies comp
    ensures LabelsOk(E, comp[..]) && RootsUpTo(comp[..], n + 1) && Sum(comp[..]) <= Sum(old(comp[..]))
    ensures AllRoots(old(comp[..])) ==> comp[..] == old(comp[..])
  {
    ghost var before := comp[..];
    while comp[n] != comp[comp[n]]
      invariant LabelsOk(E, comp[..]) && RootsUpTo(comp[..], n) && Sum(comp[..]) <= Sum(before)
      invariant AllRoots(before) ==> comp[..] == before
      decreases comp[n]
    {
      ghost var mid := comp[..];
      JumpOk(E, mid, n);
      JumpKeepsRoots(E, mid, n, n);
      assert AllRoots(mid) ==> IsRoot(mid, mid[n]);
      comp[n] := comp[comp[n]];
      assert comp[..] == mid[n := mid[mid[n]]];
    }
  }

  /** Pointer jumping until every entry is a root. */
  method Compress(ghost E: set<Edge>, comp: array<nat>)
    requires LabelsOk(E, comp[..])
    modifies comp
    ensures LabelsOk(E, comp[..]) && AllRoots(comp[..])
    ensures Sum(comp[..]) <= Sum(old(comp[..]))
    ensures AllRoots(old(comp[..])) ==> comp[..] == old(comp[..])
  {
    ghost var before := comp[..];
    for n := 0 to comp.Length
      invariant LabelsOk(E, comp[..]) && RootsUpTo(comp[..], n) && Sum(comp[..]) <= Sum(before)
      invariant AllRoots(before) ==> comp[..] == before
    {
      JumpToRoot(E, comp, n);
    }
  }

  lemma StartLabels(E: set<Edge>, comp: seq<nat>)
    requires forall v | 0 <= v < |comp| :: comp[v] == v
    ensures LabelsOk(E, comp) && AllRoots(comp)
  {
    forall v: nat
      ensures Connected(E, v, v)
    {
      ConnectedRefl(E, v);
    }
  }

  /** Labels that survived the jumping, and after a round without a change agree across all edges. */
  ghost predicate RoundInv(g: Csr, comp: seq<nat>, change: bool)
    requires g.out.Valid(g.n)
  {
    && |comp| == g.n && LabelsOk(g.out.Edges(), comp) && AllRoots(comp)
    && (!change ==> EdgesAgree(g, comp))
  }

  /** One turn of the outer loop, lines 900-928. */
  method HookAndCompress(g: Csr, comp: array<nat>) returns (change: bool)
    requires g.out.Valid(g.n) && comp.Length == g.n && RoundInv(g, comp[..], true)
    modifies comp
    ensures RoundInv(g, comp[..], change)
    ensures Sum(comp[..]) <= Sum(old(comp[..])) && (change ==> Sum(comp[..]) < Sum(old(comp[..])))
  {
    change := HookAll(g, comp);
    Compress(g.out.Edges(), comp);
  }

  lemma RoundsDone(g: Csr, comp: seq<nat>)
    requires g.out.Valid(g.n) && RoundInv(g, comp, false)
    ensures AreComponents(g.out.Edges(), Table(comp))
  {
    EqualAcrossEdges(g.out.Edges(), Table(comp));
  }

  /** CSR::do_wcc labels every vertex with the smallest logical id of its component. */
  method DoWcc(g: Csr) returns (comp: array<nat>)
    requires g.out.Valid(g.n)
    ensures comp.Length == g.n
    ensures AreComponents(g.out.Edges(), Table(comp[..]))
  {
    comp := new nat[g.n](i => i);
    StartLabels(g.out.Edges(), comp[..]);
    var change := true;
    while change
      invariant fresh(comp) && comp.Length == g.n && RoundInv(g, comp[..], change)
      decreases Sum(comp[..]), if change then 1 else 0
    {
      change := HookAndCompress(g, comp);
    }
    RoundsDone(g, comp[..]);
  }
}
