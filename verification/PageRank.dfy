/** PageRank over exact numbers: the kernel of library/baseline/csr.cpp:750-797, which updates the
    scores in place, against synchronous rounds, and the mass these conserve. */
module PageRank {
  import opened Counting
  import opened Csr

  /** A graph as the loader leaves it: rows without repetitions, incoming rows the transpose of the outgoing. */
  ghost predicate Loaded(g: Csr) {
    && g.out.Valid(g.n) && g.inc.Valid(g.n)
    && (forall u: nat | u < g.n :: Distinct(g.out.Row(u)) && Distinct(g.inc.Row(u)))
    && (forall u: nat, v: nat | u < g.n && v < g.n :: v in g.out.Row(u) <==> u in g.inc.Row(v))
  }

  type Graph = g: Csr | Loaded(g) witness EMPTY_CSR

  lemma RowBelow(r: Rows, n: nat, u: nat)
    requires r.Valid(n) && u < n
    ensures Bounded(r.Row(u), n)
  {}

  // ---- Sums ----

  ghost function Sum(s: seq<real>): real {
    if s == [] then 0.0 else Sum(s[..|s| - 1]) + s[|s| - 1]
  }

  /** k times x, as repeated addition. */
  ghost function Times(k: nat, x: real): real {
    if k == 0 then 0.0 else Times(k - 1, x) + x
  }

  lemma {:induction false} TimesIsProduct(k: nat, x: real)
    ensures Times(k, x) == k as real * x
  {
    if k > 0 {
      TimesIsProduct(k - 1, x);
    }
  }

  lemma TimesOfQuotient(n: nat, a: real)
    requires n > 0
    ensures Times(n, a / n as real) == a
  {
    TimesIsProduct(n, a / n as real);
  }

  /** Sum of the entries named by a list, in the order of the list. */
  ghost function SumOf(list: seq<nat>, c: seq<real>): real
    requires Bounded(list, |c|)
  {
    if list == [] then 0.0 else SumOf(list[..|list| - 1], c) + c[list[|list| - 1]]
  }

  /** The same sum taken in the order of the entries, over those below k. */
  ghost function SumIn(k: nat, members: set<nat>, c: seq<real>): real
    requires k <= |c|
  {
    if k == 0 then 0.0 else SumIn(k - 1, members, c) + if k - 1 in members then c[k - 1] else 0.0
  }

  lemma {:induction false} SumInAdd(k: nat, members: set<nat>, x: nat, c: seq<real>)
    requires k <= |c| && x < |c| && x !in members
    ensures SumIn(k, members + {x}, c) == SumIn(k, members, c) + if x < k then c[x] else 0.0
  {
    if k > 0 {
      SumInAdd(k - 1, members, x, c);
    }
  }

  lemma {:induction false} SumInNothing(k: nat, c: seq<real>)
    requires k <= |c|
    ensures SumIn(k, {}, c) == 0.0
  {
    if k > 0 {
      SumInNothing(k - 1, c);
    }
  }

  /** The order of a list without repetitions does not matter. */
  lemma {:induction false} SumOfIsSumIn(list: seq<nat>, c: seq<real>)
    requires Distinct(list) && Bounded(list, |c|)
    ensures SumOf(list, c) == SumIn(|c|, Elements(list), c)
  {
    if list == [] {
      SumInNothing(|c|, c);
      assert Elements(list) == {};
    } else {
      var front, x := list[..|list| - 1], list[|list| - 1];
      SumOfIsSumIn(front, c);
      SumInAdd(|c|, Elements(front), x, c);
      assert list == front + [x];
      assert Elements(list) == Elements(front) + {x};
    }
  }

  // ---- One iteration ----

  ghost function Sinks(g: Graph): set<nat> {
    set u | u in Below(g.n) && g.out.Degree(u) == 0
  }

  /** rank[u] / nout, for the vertices with outgoing edges. */
  ghost function Contribution(g: Graph, rank: seq<real>): seq<real>
    requires |rank| == g.n
  {
    seq(g.n, u requires 0 <= u < g.n => if g.out.Degree(u) == 0 then 0.0 else rank[u] / g.out.Degree(u) as real)
  }

  ghost function Incoming(g: Graph, rank: seq<real>, v: nat): real
    requires |rank| == g.n && v < g.n
  {
    SumIn(g.n, Elements(g.inc.Row(v)), Contribution(g, rank))
  }

  ghost function Dangling(g: Graph, rank: seq<real>): real
    requires |rank| == g.n
  {
    SumIn(g.n, Sinks(g), rank)
  }

  function Score(base: real, d: real, received: real): real {
    base + d * received
  }

  /** The score from what comes in and the dangling sum. */
  function ScoreFrom(n: nat, d: real, incoming: real, dangling: real): real
    requires n > 0
  {
    Score((1.0 - d) / n as real, d, incoming + dangling / n as real)
  }

  ghost function NewScore(g: Graph, d: real, rank: seq<real>, v: nat): real
    requires |rank| == g.n && v < g.n
  {
    ScoreFrom(g.n, d, Incoming(g, rank, v), Dangling(g, rank))
  }

  /** Lines 5 - 17 of the algorithm in the Graphalytics specification. */
  ghost function Iterate(g: Graph, d: real, rank: seq<real>): (r: seq<real>)
    requires |rank| == g.n
    ensures |r| == g.n
  {
    seq(g.n, v requires 0 <= v < g.n => NewScore(g, d, rank, v))
  }

  ghost function Ranks(g: Graph, d: real, iterations: nat): (r: seq<real>)
    ensures |r| == g.n
  {
    if iterations == 0 then seq(g.n, v requires 0 <= v < g.n => 1.0 / g.n as real)
    else Iterate(g, d, Ranks(g, d, iterations - 1))
  }

  // ---- Double counting: the same flow by target and by source ----

  /** How many of the first k vertices have u among their sources. */
  ghost function Fan(sources: seq<set<nat>>, u: nat, k: nat): nat
    requires k <= |sources|
  {
    if k == 0 then 0 else Fan(sources, u, k - 1) + if u in sources[k - 1] then 1 else 0
  }

  /** What the first j vertices contribute to the first k. */
  ghost function Flow(sources: seq<set<nat>>, c: seq<real>, j: nat, k: nat): real
    requires j <= |c| && k <= |sources|
  {
    if k == 0 then 0.0 else Flow(sources, c, j, k - 1) + SumIn(j, sources[k - 1], c)
  }

  lemma {:induction false} FlowBySource(sources: seq<set<nat>>, c: seq<real>, j: nat, k: nat)
    requires j < |c| && k <= |sources|
    ensures Flow(sources, c, j + 1, k) == Flow(sources, c, j, k) + Times(Fan(sources, j, k), c[j])
  {
    if k > 0 {
      FlowBySource(sources, c, j, k - 1);
    }
  }

  lemma {:induction false} NoFlow(sources: seq<set<nat>>, c: seq<real>, k: nat)
    requires k <= |sources|
    ensures Flow(sources, c, 0, k) == 0.0
  {
    if k > 0 {
      NoFlow(sources, c, k - 1);
    }
  }

  ghost function Targets(sources: seq<set<nat>>, u: nat, k: nat): set<nat>
    requires k <= |sources|
  {
    set v | v in Below(k) && u in sources[v]
  }

  lemma TargetsSnoc(sources: seq<set<nat>>, u: nat, k: nat)
    requires k < |sources|
    ensures |Targets(sources, u, k + 1)| == |Targets(sources, u, k)| + if u in sources[k] then 1 else 0
  {
    if u in sources[k] {
      assert Targets(sources, u, k + 1) == Targets(sources, u, k) + {k};
    } else {
      assert Targets(sources, u, k + 1) == Targets(sources, u, k);
    }
  }

  lemma {:induction false} FanIsSetSize(sources: seq<set<nat>>, u: nat, k: nat)
    requires k <= |sources|
    ensures Fan(sources, u, k) == |Targets(sources, u, k)|
  {
    if k == 0 {
      assert Targets(sources, u, 0) == {};
    } else {
      FanIsSetSize(sources, u, k - 1);
      TargetsSnoc(sources, u, k - 1);
    }
  }

  /** If every vertex either passes its score on in full or leaves it to the dangling sum, nothing is lost. */
  lemma {:induction false} FlowAndDangling(sources: seq<set<nat>>, c: seq<real>, sinks: set<nat>, rank: seq<real>, j: nat)
    requires |c| == |rank| == |sources| && j <= |c|
    requires forall u: nat | u < |c| :: Passes(sources, c, sinks, rank, u)
    ensures Flow(sources, c, j, |c|) + SumIn(j, sinks, rank) == Sum(rank[..j])
  {
    if j == 0 {
      NoFlow(sources, c, |c|);
    } else {
      FlowAndDangling(sources, c, sinks, rank, j - 1);
      FlowBySource(sources, c, j - 1, |c|);
      assert Passes(sources, c, sinks, rank, j - 1);
      assert rank[..j][..j - 1] == rank[..j - 1];
    }
  }

  ghost predicate Passes(sources: seq<set<nat>>, c: seq<real>, sinks: set<nat>, rank: seq<real>, u: nat)
    requires |c| == |rank| == |sources| && u < |c|
  {
    Times(Fan(sources, u, |c|), c[u]) + (if u in sinks then rank[u] else 0.0) == rank[u]
  }

  ghost predicate IsAffine(xs: seq<real>, a: real, d: real, ys: seq<real>) {
    |xs| == |ys| && forall i | 0 <= i < |xs| :: xs[i] == a + d * ys[i]
  }

  lemma {:induction false} SumAffine(xs: seq<real>, a: real, d: real, ys: seq<real>)
    requires IsAffine(xs, a, d, ys)
    ensures Sum(xs) == Times(|xs|, a) + d * Sum(ys)
  {
    if xs != [] {
      var k := |xs| - 1;
      SumAffine(xs[..k], a, d, ys[..k]);
      Distribute(d, Sum(ys[..k]), ys[k]);
    }
  }

  lemma Distribute(d: real, x: real, y: real)
    ensures d * (x + y) == d * x + d * y
  {}

  lemma {:induction false} FlowByTarget(sources: seq<set<nat>>, c: seq<real>, share: real, received: seq<real>, k: nat)
    requires |c| == |sources| == |received| && k <= |c|
    requires forall v | 0 <= v < |c| :: received[v] == SumIn(|c|, sources[v], c) + share
    ensures Sum(received[..k]) == Flow(sources, c, |c|, k) + Times(k, share)
  {
    if k > 0 {
      FlowByTarget(sources, c, share, received, k - 1);
      assert received[..k][..k - 1] == received[..k - 1];
    }
  }

  /** What the vertices receive, incoming and dangling, is what there was. */
  lemma ReceivedIsOldMass(sources: seq<set<nat>>, c: seq<real>, sinks: set<nat>, rank: seq<real>, share: real, received: seq<real>)
    requires |c| == |rank| == |sources| == |received|
    requires forall u: nat | u < |c| :: Passes(sources, c, sinks, rank, u)
    requires Times(|c|, share) == SumIn(|c|, sinks, rank)
    requires forall v | 0 <= v < |c| :: received[v] == SumIn(|c|, sources[v], c) + share
    ensures Sum(received) == Sum(rank)
  {
    FlowAndDangling(sources, c, sinks, rank, |c|);
    FlowByTarget(sources, c, share, received, |c|);
    assert received[..|c|] == received && rank[..|c|] == rank;
  }

  // ---- Mass conservation ----

  ghost function Sources(g: Graph): seq<set<nat>> {
    seq(g.n, v requires 0 <= v < g.n => Elements(g.inc.Row(v)))
  }

  lemma FanIsDegree(g: Graph, u: nat)
    requires u < g.n
    ensures Fan(Sources(g), u, g.n) == g.out.Degree(u)
  {
    FanIsSetSize(Sources(g), u, g.n);
    RowBelow(g.out, g.n, u);
    DistinctSize(g.out.Row(u));
    assert Targets(Sources(g), u, g.n) == Elements(g.out.Row(u));
  }

  lemma VertexPasses(g: Graph, rank: seq<real>, u: nat)
    requires |rank| == g.n && u < g.n
    ensures Passes(Sources(g), Contribution(g, rank), Sinks(g), rank, u)
  {
    FanIsDegree(g, u);
    if g.out.Degree(u) != 0 {
      TimesOfQuotient(g.out.Degree(u), rank[u]);
    }
  }

  ghost function Received(g: Graph, rank: seq<real>): seq<real>
    requires |rank| == g.n
  {
    seq(g.n, v requires 0 <= v < g.n => Incoming(g, rank, v) + Dangling(g, rank) / g.n as real)
  }

  lemma ReceivedMass(g: Graph, rank: seq<real>)
    requires |rank| == g.n && g.n > 0
    ensures Sum(Received(g, rank)) == Sum(rank)
  {
    forall u: nat | u < g.n
      ensures Passes(Sources(g), Contribution(g, rank), Sinks(g), rank, u)
    {
      VertexPasses(g, rank, u);
    }
    TimesOfQuotient(g.n, Dangling(g, rank));
    ReceivedIsOldMass(Sources(g), Contribution(g, rank), Sinks(g), rank, Dangling(g, rank) / g.n as real, Received(g, rank));
  }

  lemma IterateIsAffine(g: Graph, d: real, rank: seq<real>) returns (base: real)
    requires |rank| == g.n && g.n > 0
    ensures IsAffine(Iterate(g, d, rank), base, d, Received(g, rank)) && Times(g.n, base) == 1.0 - d
  {
    base := (1.0 - d) / g.n as real;
    TimesOfQuotient(g.n, 1.0 - d);
    forall v | 0 <= v < g.n
      ensures Iterate(g, d, rank)[v] == base + d * Received(g, rank)[v]
    {
      AffineScore(g.n, d, Incoming(g, rank, v), Dangling(g, rank), base);
    }
  }

  lemma AffineScore(n: nat, d: real, incoming: real, dangling: real, base: real)
    requires n > 0 && base == (1.0 - d) / n as real
    ensures ScoreFrom(n, d, incoming, dangling) == base + d * (incoming + dangling / n as real)
  {}

  lemma SumOfAffine(xs: seq<real>, a: real, d: real, ys: seq<real>, base: real, total: real)
    requires IsAffine(xs, a, d, ys) && Times(|xs|, a) == base && Sum(ys) == total
    ensures Sum(xs) == base + d * total
  {
    SumAffine(xs, a, d, ys);
  }

  /** One iteration leaves 1 - d from the base scores plus d times the old total. */
  lemma IterationConservesMass(g: Graph, d: real, rank: seq<real>, total: real)
    requires |rank| == g.n && g.n > 0 && Sum(rank) == total
    ensures Sum(Iterate(g, d, rank)) == (1.0 - d) + d * total
  {
    var base := IterateIsAffine(g, d, rank);
    ReceivedMass(g, rank);
    SumOfAffine(Iterate(g, d, rank), base, d, Received(g, rank), 1.0 - d, total);
  }

  lemma {:induction false} UniformSum(n: nat, x: real, s: seq<real>)
    requires forall i | 0 <= i < |s| :: s[i] == x
    ensures Sum(s) == Times(|s|, x)
  {
    if s != [] {
      UniformSum(n, x, s[..|s| - 1]);
    }
  }

  /** The scores sum to one after every iteration. */
  lemma {:induction false} MassIsOne(g: Graph, d: real, iterations: nat)
    requires g.n > 0
    ensures Sum(Ranks(g, d, iterations)) == 1.0
  {
    if iterations == 0 {
      UniformSum(g.n, 1.0 / g.n as real, Ranks(g, d, 0));
      TimesOfQuotient(g.n, 1.0);
    } else {
      MassIsOne(g, d, iterations - 1);
      IterationConservesMass(g, d, Ranks(g, d, iterations - 1), 1.0);
    }
  }

  // ---- Scores are never negative ----

  lemma {:induction false} SumInNonNegative(k: nat, members: set<nat>, c: seq<real>)
    requires k <= |c| && forall i | 0 <= i < |c| :: c[i] >= 0.0
    ensures SumIn(k, members, c) >= 0.0
  {
    if k > 0 {
      SumInNonNegative(k - 1, members, c);
    }
  }

  lemma QuotientNonNegative(a: real, b: real)
    requires a >= 0.0 && b > 0.0
    ensures a / b >= 0.0
  {}

  lemma ScoreNonNegative(g: Graph, d: real, rank: seq<real>, v: nat)
    requires |rank| == g.n && v < g.n && 0.0 <= d <= 1.0 && forall i | 0 <= i < g.n :: rank[i] >= 0.0
    ensures NewScore(g, d, rank, v) >= 0.0
  {
    var c := Contribution(g, rank);
    forall i | 0 <= i < g.n
      ensures c[i] >= 0.0
    {
      if g.out.Degree(i) != 0 {
        QuotientNonNegative(rank[i], g.out.Degree(i) as real);
      }
    }
    SumInNonNegative(g.n, Elements(g.inc.Row(v)), c);
    SumInNonNegative(g.n, Sinks(g), rank);
    QuotientNonNegative(Dangling(g, rank), g.n as real);
    QuotientNonNegative(1.0 - d, g.n as real);
    ProductNonNegative(d, Incoming(g, rank, v) + Dangling(g, rank) / g.n as real);
  }

  lemma ProductNonNegative(a: real, b: real)
    requires a >= 0.0 && b >= 0.0
    ensures a * b >= 0.0
  {}

  lemma {:induction false} RanksNonNegative(g: Graph, d: real, iterations: nat)
    requires 0.0 <= d <= 1.0
    ensures forall v | 0 <= v < g.n :: Ranks(g, d, iterations)[v] >= 0.0
  {
    forall v | 0 <= v < g.n
      ensures Ranks(g, d, iterations)[v] >= 0.0
    {
      if iterations == 0 {
        QuotientNonNegative(1.0, g.n as real);
      } else {
        RanksNonNegative(g, d, iterations - 1);
        ScoreNonNegative(g, d, Ranks(g, d, iterations - 1), v);
      }
    }
  }

  // ---- The kernel: scores updated in place ----

  /** First loop of an iteration, csr.cpp:770-777. The entries of sinks are never written: they stay 0. */
  method Prepare(g: Graph, scores: array<real>, contrib: array<real>) returns (danglingSum: real)
    requires scores.Length == contrib.Length == g.n && scores != contrib
    requires forall u: nat | u < g.n && g.out.Degree(u) == 0 :: contrib[u] == 0.0
    modifies contrib
    ensures contrib[..] == Contribution(g, scores[..]) && danglingSum == Dangling(g, scores[..])
  {
    danglingSum := 0.0;
    ghost var rank := scores[..];
    for v := 0 to g.n
      invariant danglingSum == SumIn(v, Sinks(g), rank)
      invariant forall u: nat | u < v :: contrib[u] == Contribution(g, rank)[u]
      invariant forall u: nat | u < g.n && g.out.Degree(u) == 0 :: contrib[u] == 0.0
    {
      var outDegree := g.out.Degree(v);
      if outDegree == 0 {
        danglingSum := danglingSum + scores[v];
      } else {
        contrib[v] := scores[v] / outDegree as real;
      }
    }
    assert contrib[..] == Contribution(g, rank);
  }

  method IncomingTotal(row: seq<nat>, contrib: array<real>) returns (total: real)
    requires Bounded(row, contrib.Length)
    ensures total == SumOf(row, contrib[..])
  {
    total := 0.0;
    for i := 0 to |row|
      invariant total == SumOf(row[..i], contrib[..])
    {
      assert row[..i + 1][..i] == row[..i];
      total := total + contrib[row[i]];
    }
    assert row[..|row|] == row;
  }

  method PullScore(g: Graph, d: real, contrib: array<real>, baseScore: real, dangling: real, ghost rank: seq<real>, v: nat)
    returns (score: real)
    requires |rank| == g.n && contrib[..] == Contribution(g, rank) && v < g.n
    requires baseScore == (1.0 - d) / g.n as real && dangling == Dangling(g, rank) / g.n as real
    ensures score == NewScore(g, d, rank, v)
  {
    RowBelow(g.inc, g.n, v);
    var incomingTotal := IncomingTotal(g.inc.Row(v), contrib);
    SumOfIsSumIn(g.inc.Row(v), Contribution(g, rank));
    score := Score(baseScore, d, incomingTotal + dangling);
  }

  /** Second loop of an iteration, csr.cpp:783-793: reads the contributions only, so it may overwrite. */
  method Update(g: Graph, d: real, scores: array<real>, contrib: array<real>, dangling: real, ghost rank: seq<real>)
    requires scores.Length == contrib.Length == g.n && scores != contrib && g.n > 0
    requires rank == scores[..] && contrib[..] == Contribution(g, rank) && dangling == Dangling(g, rank) / g.n as real
    modifies scores
    ensures scores[..] == Iterate(g, d, rank)
  {
    var baseScore := (1.0 - d) / g.n as real;
    for v := 0 to g.n
      invariant contrib[..] == old(contrib[..])
      invariant forall u: nat | u < v :: scores[u] == Iterate(g, d, rank)[u]
    {
      scores[v] := PullScore(g, d, contrib, baseScore, dangling, rank, v);
    }
    assert scores[..] == Iterate(g, d, rank);
  }

  /** CSR::do_pagerank. */
  method DoPagerank(g: Graph, numIterations: nat, d: real) returns (scores: array<real>)
    ensures scores[..] == Ranks(g, d, numIterations)
  {
    if g.n == 0 {
      scores := new real[0];
      assert scores[..] == Ranks(g, d, numIterations);
      return;
    }
    scores := new real[g.n](_ => 1.0 / g.n as real);
    var contrib := new real[g.n](_ => 0.0);
    assert scores[..] == Ranks(g, d, 0);
    for iteration := 0 to numIterations
      invariant scores.Length == contrib.Length == g.n && scores != contrib && fresh(scores) && fresh(contrib)
      invariant scores[..] == Ranks(g, d, iteration) && SinksGiveNothing(g, contrib[..])
    {
      Iteration(g, d, scores, contrib);
    }
  }

  ghost predicate SinksGiveNothing(g: Graph, contrib: seq<real>)
    requires |contrib| == g.n
  {
    forall u: nat | u < g.n && g.out.Degree(u) == 0 :: contrib[u] == 0.0
  }

  /** The body of the outer loop. */
  method Iteration(g: Graph, d: real, scores: array<real>, contrib: array<real>)
    requires g.n > 0 && scores.Length == contrib.Length == g.n && scores != contrib && SinksGiveNothing(g, contrib[..])
    modifies scores, contrib
    ensures scores[..] == Iterate(g, d, old(scores[..])) && SinksGiveNothing(g, contrib[..])
  {
    forall u: nat | u < g.n && g.out.Degree(u) == 0
      ensures contrib[u] == 0.0
    {
      assert contrib[u] == contrib[..][u];
    }
    var danglingSum := Prepare(g, scores, contrib);
    Update(g, d, scores, contrib, danglingSum / g.n as real, scores[..]);
  }
}
