/** Who gives what to whom in one PageRank iteration, library/baseline/csr.cpp:763-793. */
module PageRankShares {
  import opened Counting
  import opened Csr
  import opened PageRank

  lemma {:induction false} SumInRaised(k: nat, members: set<nat>, c: seq<real>, u: nat, x: real)
    requires k <= |c| && u < |c|
    ensures SumIn(k, members, c[u := c[u] + x]) == SumIn(k, members, c) + if u < k && u in members then x else 0.0
  {
    if k > 0 {
      SumInRaised(k - 1, members, c, u, x);
    }
  }

  ghost function Raised(rank: seq<real>, u: nat, x: real): seq<real>
    requires u < |rank|
  {
    rank[u := rank[u] + x]
  }

  lemma IncomingRaised(g: Graph, rank: seq<real>, u: nat, x: real, v: nat)
    requires |rank| == g.n && u < g.n && v < g.n
    ensures Incoming(g, Raised(rank, u, x), v)
      == Incoming(g, rank, v) + if v in g.out.Row(u) then x / |g.out.Row(u)| as real else 0.0
  {
    var k := g.out.Degree(u);
    var c, c' := Contribution(g, rank), Contribution(g, Raised(rank, u, x));
    if k == 0 {
      assert c' == c;
    } else {
      QuotientOfSum(rank[u], x, k as real);
      assert c' == c[u := c[u] + x / k as real];
      SumInRaised(g.n, Elements(g.inc.Row(v)), c, u, x / k as real);
      assert u in g.inc.Row(v) <==> v in g.out.Row(u);
    }
  }

  lemma QuotientOfSum(a: real, b: real, k: real)
    requires k > 0.0
    ensures (a + b) / k == a / k + b / k
  {}

  lemma DanglingRaised(g: Graph, rank: seq<real>, u: nat, x: real)
    requires |rank| == g.n && u < g.n
    ensures Dangling(g, Raised(rank, u, x)) == Dangling(g, rank) + if g.out.Row(u) == [] then x else 0.0
  {
    SumInRaised(g.n, Sinks(g), rank, u, x);
    assert u in Sinks(g) <==> g.out.Row(u) == [];
  }

  /** A gain of d * x divided among k targets, or among all n vertices if there is no target. */
  ghost predicate IsShareOf(gain: real, d: real, x: real, n: nat, k: nat, target: bool) {
    if k == 0 then gain * n as real == d * x
    else if target then gain * k as real == d * x
    else gain == 0.0
  }

  /** The iteration is fixed by what it makes of zero scores and by what raising the score of one vertex by x changes:
      each of its k targets gets d * x / k more and nobody else anything; without targets everyone gets d * x / n. */
  lemma OnlyTargetsGain(g: Graph, d: real, rank: seq<real>, u: nat, x: real, v: nat)
    requires |rank| == g.n && u < g.n && v < g.n
    ensures IsShareOf(Iterate(g, d, rank[u := rank[u] + x])[v] - Iterate(g, d, rank)[v],
                      d, x, g.n, |g.out.Row(u)|, v in g.out.Row(u))
  {
    IncomingRaised(g, rank, u, x, v);
    DanglingRaised(g, rank, u, x);
    IterateAt(g, d, rank, v);
    IterateAt(g, d, Raised(rank, u, x), v);
    Gain(g.n, d, Incoming(g, rank, v), Dangling(g, rank), x, |g.out.Row(u)|, v in g.out.Row(u));
  }

  lemma IterateAt(g: Graph, d: real, rank: seq<real>, v: nat)
    requires |rank| == g.n && v < g.n
    ensures Iterate(g, d, rank)[v] == ScoreFrom(g.n, d, Incoming(g, rank, v), Dangling(g, rank))
  {}

  lemma Gain(n: nat, d: real, incoming: real, dangling: real, x: real, k: nat, target: bool)
    requires n > 0 && (target ==> k > 0)
    ensures IsShareOf(ScoreFrom(n, d, incoming + if target then x / k as real else 0.0, dangling + if k == 0 then x else 0.0)
                      - ScoreFrom(n, d, incoming, dangling), d, x, n, k, target)
  {
    if k == 0 {
      SinkGain(n, d, incoming, dangling, x);
    } else if target {
      TargetGain(n, d, incoming, dangling, x, k);
    }
  }

  lemma SinkGain(n: nat, d: real, incoming: real, dangling: real, x: real)
    requires n > 0
    ensures (ScoreFrom(n, d, incoming, dangling + x) - ScoreFrom(n, d, incoming, dangling)) * n as real == d * x
  {
    QuotientOfSum(dangling, x, n as real);
    Distribute(d, incoming + dangling / n as real, x / n as real);
    QuotientTimes(d, x, n as real);
  }

  lemma TargetGain(n: nat, d: real, incoming: real, dangling: real, x: real, k: nat)
    requires n > 0 && k > 0
    ensures (ScoreFrom(n, d, incoming + x / k as real, dangling) - ScoreFrom(n, d, incoming, dangling)) * k as real == d * x
  {
    Distribute(d, incoming + dangling / n as real, x / k as real);
    QuotientTimes(d, x, k as real);
  }

  lemma QuotientTimes(d: real, x: real, k: real)
    requires k > 0.0
    ensures (d * (x / k)) * k == d * x
  {
    assert (x / k) * k == x;
  }

  lemma {:induction false} SumInZeros(k: nat, members: set<nat>, c: seq<real>)
    requires k <= |c| && forall i | 0 <= i < |c| :: c[i] == 0.0
    ensures SumIn(k, members, c) == 0.0
  {
    if k > 0 {
      SumInZeros(k - 1, members, c);
    }
  }

  /** From zero scores every vertex gets its share of 1 - d. */
  lemma ZeroScoresShareTheBase(g: Graph, d: real, v: nat)
    requires v < g.n
    ensures Iterate(g, d, seq(g.n, _ => 0.0))[v] * g.n as real == 1.0 - d
  {
    var zeros := seq(g.n, _ => 0.0);
    SumInZeros(g.n, Elements(g.inc.Row(v)), Contribution(g, zeros));
    SumInZeros(g.n, Sinks(g), zeros);
    assert 0.0 / g.n as real == 0.0;
    assert d * 0.0 == 0.0;
    QuotientTimes(1.0, 1.0 - d, g.n as real);
  }
}
