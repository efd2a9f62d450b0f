/** Delta-stepping single-source shortest paths, library/baseline/csr.cpp:1255-1341, on one thread.
    Weights, delta and distances are integers in a common unit: every finite double is a multiple
    of the smallest one. */
module Sssp {
  import opened Csr
  import opened Numbers
  import opened Paths

  ghost function Table(dist: seq<Distance>): map<nat, Distance> {
    map v: nat | v < |dist| :: dist[v]
  }

  /** All edges out of u are relaxed. */
  ghost predicate RowRelaxed(g: Csr, dist: seq<Distance>, u: nat, upto: nat)
    requires g.out.Valid(g.n) && u < g.n == |dist| && dist[u].Finite? && upto <= |g.out.e|
  {
    forall i: nat | g.out.First(u) <= i < upto ::
      dist[g.out.e[i]].Finite? && dist[g.out.e[i]].d <= dist[u].d + g.out.w[i]
  }

  ghost predicate Settled(g: Csr, dist: seq<Distance>, u: nat)
    requires g.out.Valid(g.n) && u < g.n == |dist|
  {
    dist[u].Finite? && g.out.Last(u) <= |g.out.e| && RowRelaxed(g, dist, u, g.out.Last(u))
  }

  ghost predicate Binned(bins: seq<seq<nat>>, v: nat, d: nat, delta: nat)
    requires delta > 0
  {
    d / delta < |bins| && v in bins[d / delta]
  }

  // ---- One improvement, and what any number of them does ----

  /** A label that stayed, or got smaller with its vertex waiting in the bin of the new label. */
  ghost predicate LabelStep(a: Distance, b: Distance, bins': seq<seq<nat>>, v: nat, delta: nat)
    requires delta > 0
  {
    b == a || (b.Finite? && Closer(b.d, a) && Binned(bins', v, b.d, delta))
  }

  ghost predicate Extends(bins: seq<seq<nat>>, bins': seq<seq<nat>>) {
    |bins| <= |bins'| && forall j, v | 0 <= j < |bins| && v in bins[j] :: v in bins'[j]
  }

  lemma LabelTrans(a: Distance, b: Distance, c: Distance, b1: seq<seq<nat>>, b2: seq<seq<nat>>, v: nat, delta: nat)
    requires delta > 0 && LabelStep(a, b, b1, v, delta) && LabelStep(b, c, b2, v, delta) && Extends(b1, b2)
    ensures LabelStep(a, c, b2, v, delta)
    ensures c == a ==> b == a
  {}

  lemma ExtendsTrans(b0: seq<seq<nat>>, b1: seq<seq<nat>>, b2: seq<seq<nat>>)
    requires Extends(b0, b1) && Extends(b1, b2)
    ensures Extends(b0, b2)
  {}

  /** Labels only got smaller, and every vertex whose label did waits in the bin of its new label. */
  ghost predicate Improved(dist: seq<Distance>, bins: seq<seq<nat>>, dist': seq<Distance>, bins': seq<seq<nat>>, delta: nat)
    requires delta > 0
  {
    && |dist'| == |dist|
    && (forall v: nat | v < |dist| :: LabelStep(dist[v], dist'[v], bins', v, delta))
    && Extends(bins, bins')
    && (dist' == dist ==> bins' == bins)
  }

  lemma ImprovedTrans(d0: seq<Distance>, b0: seq<seq<nat>>, d1: seq<Distance>, b1: seq<seq<nat>>,
                      d2: seq<Distance>, b2: seq<seq<nat>>, delta: nat)
    requires delta > 0 && Improved(d0, b0, d1, b1, delta) && Improved(d1, b1, d2, b2, delta)
    ensures Improved(d0, b0, d2, b2, delta)
  {
    ExtendsTrans(b0, b1, b2);
    forall v: nat | v < |d0|
      ensures LabelStep(d0[v], d2[v], b2, v, delta) && (d2[v] == d0[v] ==> d1[v] == d0[v])
    {
      LabelTrans(d0[v], d1[v], d2[v], b1, b2, v, delta);
    }
    if d2 == d0 {
      assert d1 == d0;
    }
  }

  lemma SettledStays(g: Csr, dist: seq<Distance>, bins: seq<seq<nat>>, dist': seq<Distance>, bins': seq<seq<nat>>, delta: nat, u: nat)
    requires g.out.Valid(g.n) && u < g.n == |dist| && delta > 0
    requires Improved(dist, bins, dist', bins', delta) && Settled(g, dist, u) && dist'[u] == dist[u]
    ensures Settled(g, dist', u)
  {}

  ghost predicate BinsOk(n: nat, bins: seq<seq<nat>>, c: nat) {
    && (forall j, v | 0 <= j < |bins| && v in bins[j] :: v < n)
    && (forall j | 0 <= j < |bins| && j < c :: bins[j] == [])
  }

  function Grow(bins: seq<seq<nat>>, k: nat): (r: seq<seq<nat>>)
    ensures |r| > k && |r| >= |bins|
    ensures forall j | 0 <= j < |r| :: r[j] == if j < |bins| then bins[j] else []
  {
    if k < |bins| then bins else bins + seq(k + 1 - |bins|, _ => [])
  }

  /** The new label of v is entered in its bin. */
  lemma PushImproves(n: nat, dist: seq<Distance>, bins: seq<seq<nat>>, v: nat, d: nat, delta: nat, c: nat)
    requires delta > 0 && v < n == |dist| && Closer(d, dist[v]) && BinsOk(n, bins, c) && d / delta >= c
    ensures var k := d / delta; var grown := Grow(bins, k);
            Improved(dist, bins, dist[v := Finite(d)], grown[k := grown[k] + [v]], delta)
            && BinsOk(n, grown[k := grown[k] + [v]], c)
  {
    var k := d / delta;
    var grown := Grow(bins, k);
    var bins' := grown[k := grown[k] + [v]];
    assert v in bins'[k];
    assert dist[v := Finite(d)][v] != dist[v];
  }

  lemma BinOfLarger(d: nat, d': nat, delta: nat, c: nat)
    requires delta > 0 && d >= delta * c && d' >= d
    ensures d' / delta >= c
  {
    var q := d' / delta;
    assert d' < delta * (q + 1);
    if q < c {
      MulMonotone(delta, q + 1, c);
      assert false;
    }
  }

  lemma SoundStep(g: Csr, source: nat, dist: seq<Distance>, u: nat, i: nat)
    requires g.out.Valid(g.n) && u < g.n == |dist| && g.out.InRow(u, i) && i < |g.out.e|
    requires dist[u].Finite? && dist[u].d + g.out.w[i] >= 0 && Sound(g.out.Edges(), source, Table(dist))
    ensures Sound(g.out.Edges(), source, Table(dist[g.out.e[i] := Finite(dist[u].d + g.out.w[i])]))
  {
    EdgeAt(g.out, u, i);
    assert Table(dist)[u] == dist[u];
    ExtendWalk(g.out.Edges(), source, Edge(u, g.out.e[i], g.out.w[i]), dist[u].d);
    var v, d := g.out.e[i], dist[u].d + g.out.w[i];
    assert Table(dist[v := Finite(d)]) == Table(dist)[v := Finite(d)];
  }

  /** The body of the loop over the row of u. */
  method RelaxEdge(g: Csr, ghost source: nat, dist: array<Distance>, bins: seq<seq<nat>>, u: nat, i: nat, delta: nat, ghost c: nat,
                   ghost before: seq<Distance>, ghost bins0: seq<seq<nat>>)
    returns (bins': seq<seq<nat>>)
    requires g.out.Valid(g.n) && NonNegative(g.out.Edges()) && u < g.n == dist.Length == |before| && delta > 0
    requires g.out.InRow(u, i) && i < |g.out.e|
    requires dist[u].Finite? && dist[u].d >= delta * c && dist[u] == before[u]
    requires Improved(before, bins0, dist[..], bins, delta) && RowRelaxed(g, dist[..], u, i)
    requires Sound(g.out.Edges(), source, Table(dist[..])) && BinsOk(g.n, bins, c)
    modifies dist
    ensures Improved(before, bins0, dist[..], bins', delta) && dist[u] == before[u]
    ensures RowRelaxed(g, dist[..], u, i + 1)
    ensures Sound(g.out.Edges(), source, Table(dist[..])) && BinsOk(g.n, bins', c)
  {
    bins' := bins;
    var v, w := g.out.e[i], g.out.w[i];
    EdgeAt(g.out, u, i);
    var newDist: nat := dist[u].d + w;
    if Closer(newDist, dist[v]) {
      ghost var mid := dist[..];
      var destBin := newDist / delta;
      BinOfLarger(dist[u].d, newDist, delta, c);
      PushImproves(g.n, mid, bins, v, newDist, delta, c);
      var grown := Grow(bins, destBin);
      ImprovedTrans(before, bins0, mid, bins, mid[v := Finite(newDist)], grown[destBin := grown[destBin] + [v]], delta);
      SoundStep(g, source, mid, u, i);
      dist[v] := Finite(newDist);
      assert dist[..] == mid[v := Finite(newDist)];
      bins' := grown[destBin := grown[destBin] + [v]];
    }
  }

  /** Relaxes the row of u, csr.cpp:1281-1305. */
  method RelaxRow(g: Csr, ghost source: nat, dist: array<Distance>, bins: seq<seq<nat>>, u: nat, delta: nat, ghost c: nat)
    returns (bins': seq<seq<nat>>)
    requires g.out.Valid(g.n) && NonNegative(g.out.Edges()) && u < g.n == dist.Length && delta > 0
    requires dist[u].Finite? && dist[u].d >= delta * c
    requires Sound(g.out.Edges(), source, Table(dist[..])) && BinsOk(g.n, bins, c)
    modifies dist
    ensures Improved(old(dist[..]), bins, dist[..], bins', delta) && dist[u] == old(dist[u])
    ensures Settled(g, dist[..], u)
    ensures Sound(g.out.Edges(), source, Table(dist[..])) && BinsOk(g.n, bins', c)
  {
    bins' := bins;
    ghost var before := dist[..];
    RowInBounds(g.out, g.n, u);
    for i := g.out.First(u) to g.out.Last(u)
      invariant Improved(before, bins, dist[..], bins', delta) && dist[u] == before[u]
      invariant RowRelaxed(g, dist[..], u, i)
      invariant Sound(g.out.Edges(), source, Table(dist[..])) && BinsOk(g.n, bins', c)
    {
      bins' := RelaxEdge(g, source, dist, bins', u, i, delta, c, before, bins);
    }
  }

  // ---- The whole search ----

  /** What is still to be done about v: nothing, or v waits in the bin of its label, or in the
      rest of the frontier taken from bin c. */
  ghost predicate Pending(g: Csr, dist: seq<Distance>, bins: seq<seq<nat>>, rest: seq<nat>, delta: nat, c: nat, v: nat)
    requires g.out.Valid(g.n) && v < g.n == |dist| && dist[v].Finite? && delta > 0
  {
    || Settled(g, dist, v)
    || Binned(bins, v, dist[v].d, delta)
    || (v in rest && dist[v].d / delta == c)
  }

  ghost predicate SearchInv(g: Csr, source: nat, dist: seq<Distance>, bins: seq<seq<nat>>, rest: seq<nat>, delta: nat, c: nat)
    requires g.out.Valid(g.n) && delta > 0
  {
    && |dist| == g.n && source < g.n && dist[source] == Finite(0)
    && Sound(g.out.Edges(), source, Table(dist))
    && BinsOk(g.n, bins, c)
    && (forall v | v in rest :: v < g.n)
    && (forall v: nat | v < g.n && dist[v].Finite? :: Pending(g, dist, bins, rest, delta, c, v))
  }

  lemma BinLowerBound(d: nat, delta: nat)
    requires delta > 0
    ensures d >= delta * (d / delta)
  {}

  /** A stale entry of the frontier can be dropped: its vertex moved to a lower label and was handled. */
  lemma DropStale(g: Csr, source: nat, dist: seq<Distance>, bins: seq<seq<nat>>, rest: seq<nat>, delta: nat, c: nat)
    requires g.out.Valid(g.n) && delta > 0 && rest != [] && SearchInv(g, source, dist, bins, rest, delta, c)
    requires rest[0] < g.n && !(dist[rest[0]].Finite? && dist[rest[0]].d >= delta * c)
    ensures SearchInv(g, source, dist, bins, rest[1..], delta, c)
  {
    assert forall v | v in rest[1..] :: v in rest;
    forall v: nat | v < g.n && dist[v].Finite?
      ensures Pending(g, dist, bins, rest[1..], delta, c, v)
    {
      assert Pending(g, dist, bins, rest, delta, c, v);
      assert rest == [rest[0]] + rest[1..];
      BinLowerBound(dist[v].d, delta);
    }
  }

  /** Vertices that were not improved wait where they waited, unless they are the first of the list. */
  lemma StillPending(g: Csr, source: nat, dist: seq<Distance>, bins: seq<seq<nat>>, rest: seq<nat>, delta: nat, c: nat,
                     dist': seq<Distance>, bins': seq<seq<nat>>, v: nat)
    requires g.out.Valid(g.n) && delta > 0 && rest != [] && SearchInv(g, source, dist, bins, rest, delta, c)
    requires Improved(dist, bins, dist', bins', delta) && rest[0] < g.n == |dist'| && Settled(g, dist', rest[0])
    requires v < g.n && dist'[v].Finite? && dist'[v] == dist[v]
    ensures Pending(g, dist', bins', rest[1..], delta, c, v)
  {
    assert rest == [rest[0]] + rest[1..];
    assert Pending(g, dist, bins, rest, delta, c, v);
    if Settled(g, dist, v) {
      SettledStays(g, dist, bins, dist', bins', delta, v);
    }
  }

  lemma DropRelaxed(g: Csr, source: nat, dist: seq<Distance>, bins: seq<seq<nat>>, rest: seq<nat>, delta: nat, c: nat,
                    dist': seq<Distance>, bins': seq<seq<nat>>)
    requires g.out.Valid(g.n) && delta > 0 && rest != [] && SearchInv(g, source, dist, bins, rest, delta, c)
    requires Improved(dist, bins, dist', bins', delta) && rest[0] < g.n && Settled(g, dist', rest[0])
    requires Sound(g.out.Edges(), source, Table(dist')) && BinsOk(g.n, bins', c)
    ensures SearchInv(g, source, dist', bins', rest[1..], delta, c)
  {
    assert forall v | v in rest[1..] :: v in rest;
    forall v: nat | v < g.n && dist'[v].Finite?
      ensures Pending(g, dist', bins', rest[1..], delta, c, v)
    {
      if dist'[v] == dist[v] {
        StillPending(g, source, dist, bins, rest, delta, c, dist', bins', v);
      }
    }
  }

  method ProcessFrontier(g: Csr, ghost source: nat, dist: array<Distance>, bins: seq<seq<nat>>, frontier: seq<nat>, delta: nat, c: nat)
    returns (bins': seq<seq<nat>>)
    requires g.out.Valid(g.n) && NonNegative(g.out.Edges()) && delta > 0
    requires SearchInv(g, source, dist[..], bins, frontier, delta, c)
    modifies dist
    ensures SearchInv(g, source, dist[..], bins', [], delta, c)
    ensures Improved(old(dist[..]), bins, dist[..], bins', delta)
  {
    bins' := bins;
    ghost var before := dist[..];
    for i := 0 to |frontier|
      invariant SearchInv(g, source, dist[..], bins', frontier[i..], delta, c)
      invariant Improved(before, bins, dist[..], bins', delta)
    {
      var u := frontier[i];
      ghost var mid, midBins := dist[..], bins';
      assert u in frontier[i..] && frontier[i..][1..] == frontier[i + 1..];
      if dist[u].Finite? && dist[u].d >= delta * c {
        bins' := RelaxRow(g, source, dist, bins', u, delta, c);
        DropRelaxed(g, source, mid, midBins, frontier[i..], delta, c, dist[..], bins');
        ImprovedTrans(before, bins, mid, midBins, dist[..], bins', delta);
      } else {
        DropStale(g, source, mid, midBins, frontier[i..], delta, c);
      }
    }
  }

  // ---- Termination ----

  ghost function InfiniteCount(dist: seq<Distance>): nat {
    if dist == [] then 0
    else InfiniteCount(dist[..|dist| - 1]) + if dist[|dist| - 1].Infinite? then 1 else 0
  }

  ghost function FiniteSum(dist: seq<Distance>): nat {
    if dist == [] then 0
    else FiniteSum(dist[..|dist| - 1]) + if dist[|dist| - 1].Finite? then dist[|dist| - 1].d else 0
  }

  ghost function Entries(bins: seq<seq<nat>>): nat {
    if bins == [] then 0 else Entries(bins[..|bins| - 1]) + |bins[|bins| - 1]|
  }

  lemma {:induction false} LabelsShrink(dist: seq<Distance>, dist': seq<Distance>)
    requires |dist| == |dist'|
    requires forall v | 0 <= v < |dist| :: dist'[v] == dist[v] || (dist'[v].Finite? && Closer(dist'[v].d, dist[v]))
    ensures InfiniteCount(dist') <= InfiniteCount(dist)
    ensures InfiniteCount(dist') == InfiniteCount(dist) ==> FiniteSum(dist') <= FiniteSum(dist)
    ensures InfiniteCount(dist') == InfiniteCount(dist) && FiniteSum(dist') == FiniteSum(dist) ==> dist' == dist
  {
    if dist != [] {
      var k := |dist| - 1;
      LabelsShrink(dist[..k], dist'[..k]);
      assert dist == dist[..k] + [dist[k]] && dist' == dist'[..k] + [dist'[k]];
    }
  }

  lemma {:induction false} EntriesAfterTaking(bins: seq<seq<nat>>, k: nat)
    requires k < |bins|
    ensures Entries(bins[k := []]) == Entries(bins) - |bins[k]|
  {
    var m := |bins| - 1;
    if k < m {
      EntriesAfterTaking(bins[..m], k);
      assert bins[k := []][..m] == bins[..m][k := []];
    } else {
      assert bins[k := []][..m] == bins[..m];
    }
  }

  /** kMaxBin, the value that says there is no bin left, is kept apart from the bin numbers. */
  datatype BinIndex = NoBin | Bin(i: nat)

  method FirstBin(bins: seq<seq<nat>>, c: nat) returns (next: BinIndex)
    ensures next.Bin? ==> c <= next.i < |bins| && bins[next.i] != [] && forall j | c <= j < next.i :: bins[j] == []
    ensures next.NoBin? ==> forall j | c <= j < |bins| :: bins[j] == []
  {
    for i := c to if c < |bins| then |bins| else c
      invariant forall j | c <= j < i && j < |bins| :: bins[j] == []
    {
      if bins[i] != [] {
        return Bin(i);
      }
    }
    return NoBin;
  }

  lemma TakeBin(g: Csr, source: nat, dist: seq<Distance>, bins: seq<seq<nat>>, delta: nat, c: nat, k: nat)
    requires g.out.Valid(g.n) && delta > 0 && SearchInv(g, source, dist, bins, [], delta, c)
    requires c <= k < |bins| && forall j | c <= j < k :: bins[j] == []
    ensures SearchInv(g, source, dist, bins[k := []], bins[k], delta, k)
  {
    forall v: nat | v < g.n && dist[v].Finite?
      ensures Pending(g, dist, bins[k := []], bins[k], delta, k, v)
    {
      assert Pending(g, dist, bins, [], delta, c, v);
    }
  }

  lemma NothingPending(g: Csr, source: nat, dist: seq<Distance>, bins: seq<seq<nat>>, delta: nat, c: nat)
    requires g.out.Valid(g.n) && delta > 0 && SearchInv(g, source, dist, bins, [], delta, c)
    requires forall j | c <= j < |bins| :: bins[j] == []
    ensures AreDistances(g.out.Edges(), source, Table(dist))
  {
    forall e | e in g.out.Edges()
      ensures Relaxed(Table(dist), e)
    {
      var u: nat, i: nat :| u < g.n && i < |g.out.e| && g.out.InRow(u, i) && e == Edge(u, g.out.e[i], g.out.w[i]);
      if dist[u].Finite? {
        assert Pending(g, dist, bins, [], delta, c, u);
        assert Settled(g, dist, u);
      }
    }
    SoundAndClosedAreDistances(g.out.Edges(), source, Table(dist));
  }

  /** CSR::do_sssp returns the length of the shortest path to every vertex, for every delta. */
  method DoSssp(g: Csr, source: nat, delta: nat) returns (dist: array<Distance>)
    requires g.out.Valid(g.n) && NonNegative(g.out.Edges()) && source < g.n && delta > 0
    ensures dist.Length == g.n
    ensures AreDistances(g.out.Edges(), source, Table(dist[..]))
  {
    dist := new Distance[g.n](_ => Infinite);
    dist[source] := Finite(0);
    EmptyWalk(g.out.Edges(), source);
    var frontier := [source];
    var bins: seq<seq<nat>> := [];
    var curr, c := Bin(0), 0;
    while curr != NoBin
      invariant fresh(dist) && dist.Length == g.n
      invariant curr.Bin? ==> curr.i == c && SearchInv(g, source, dist[..], bins, frontier, delta, c)
      invariant curr.NoBin? ==> AreDistances(g.out.Edges(), source, Table(dist[..]))
      decreases InfiniteCount(dist[..]), FiniteSum(dist[..]), Entries(bins), if curr.Bin? then 1 else 0
    {
      ghost var before := dist[..];
      bins := ProcessFrontier(g, source, dist, bins, frontier, delta, c);
      LabelsShrink(before, dist[..]);
      curr := FirstBin(bins, c);
      match curr
      case Bin(k) =>
        TakeBin(g, source, dist[..], bins, delta, c, k);
        EntriesAfterTaking(bins, k);
        frontier, bins, c := bins[k], bins[k := []], k;
      case NoBin =>
        NothingPending(g, source, dist[..], bins, delta, c);
    }
  }
}
