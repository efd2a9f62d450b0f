/** Local clustering: the neighbour pairs a coefficient counts, the triangles a sort-merge kernel
    finds once each, and why the two counts agree. */
module Triangles {
  import opened Counting

  type Neighbours = map<nat, set<nat>>

  /** An undirected graph without self loops. */
  ghost predicate Undirected(N: Neighbours) {
    forall u, w | u in N && w in N[u] :: w in N && u in N[w] && u != w
  }

  type SimpleGraph = N: Neighbours | Undirected(N) witness map[]

  /** The ordered pairs of neighbours of x that are adjacent: what section 2.3 of the Graphalytics
      specification counts for x. */
  ghost function Wedges(N: SimpleGraph, x: nat): set<(nat, nat)>
    requires x in N
  {
    set u, w | u in N[x] && w in N[u] && w in N[x] :: (u, w)
  }

  /** Triangles a > b > c, filed under their largest vertex. */
  ghost function Below3(N: SimpleGraph, a: nat): set<(nat, nat)>
  {
    if a !in N then {} else set b, c | b in N[a] && c in N[b] && c in N[a] && c < b < a :: (b, c)
  }

  ghost predicate Touches(a: nat, p: (nat, nat), x: nat) {
    a == x || p.0 == x || p.1 == x
  }

  /** The triangles filed under a that have x as a corner. */
  ghost function Corner(N: SimpleGraph, a: nat, x: nat): set<(nat, nat)>
  {
    set p | p in Below3(N, a) && Touches(a, p, x)
  }

  /** What processing a adds to the counter of x. */
  ghost function Share(N: SimpleGraph, a: nat, x: nat): nat
  {
    2 * |Corner(N, a, x)|
  }

  ghost function ShareSum(N: SimpleGraph, lo: nat, hi: nat, x: nat): nat
    decreases hi - lo
  {
    if lo >= hi then 0 else Share(N, lo, x) + ShareSum(N, lo + 1, hi, x)
  }

  lemma {:induction false} ShareSumSplit(N: SimpleGraph, lo: nat, mid: nat, hi: nat, x: nat)
    requires lo <= mid <= hi
    ensures ShareSum(N, lo, hi, x) == ShareSum(N, lo, mid, x) + ShareSum(N, mid, hi, x)
    decreases mid - lo
  {
    if lo < mid {
      ShareSumSplit(N, lo + 1, mid, hi, x);
    }
  }

  // ---- Counting by injections ----

  lemma {:induction false} InjectionSize<S, T>(A: set<S>, B: set<T>, f: S -> T)
    requires forall a | a in A :: f(a) in B
    requires forall a, b | a in A && b in A && f(a) == f(b) :: a == b
    ensures |A| <= |B|
    decreases |A|
  {
    if A != {} {
      var a :| a in A;
      InjectionSize(A - {a}, B - {f(a)}, f);
    }
  }

  /** The triangles with all corners below hi and one of them x, as triples. */
  ghost function Triples(N: SimpleGraph, hi: nat, x: nat): set<(nat, nat, nat)>
  {
    set a, p | a in Below(hi) && p in Corner(N, a, x) :: (a, p.0, p.1)
  }

  ghost function TopTriples(N: SimpleGraph, k: nat, x: nat): set<(nat, nat, nat)>
  {
    set p | p in Corner(N, k, x) :: (k, p.0, p.1)
  }

  lemma TopTriplesSize(N: SimpleGraph, k: nat, x: nat)
    ensures |TopTriples(N, k, x)| == |Corner(N, k, x)|
  {
    InjectionSize(Corner(N, k, x), TopTriples(N, k, x), (p: (nat, nat)) => (k, p.0, p.1));
    InjectionSize(TopTriples(N, k, x), Corner(N, k, x), (t: (nat, nat, nat)) => (t.1, t.2));
  }

  lemma TriplesGrow(N: SimpleGraph, k: nat, x: nat)
    ensures |Triples(N, k + 1, x)| == |Triples(N, k, x)| + |Corner(N, k, x)|
  {
    TopTriplesSize(N, k, x);
    assert Triples(N, k + 1, x) == Triples(N, k, x) + TopTriples(N, k, x);
    assert Triples(N, k, x) !! TopTriples(N, k, x);
  }

  lemma {:induction false} TriplesCount(N: SimpleGraph, hi: nat, x: nat)
    ensures ShareSum(N, 0, hi, x) == 2 * |Triples(N, hi, x)|
  {
    if hi > 0 {
      TriplesCount(N, hi - 1, x);
      ShareSumSplit(N, 0, hi - 1, hi, x);
      TriplesGrow(N, hi - 1, x);
    }
  }

  ghost function Rising(N: SimpleGraph, x: nat): set<(nat, nat)>
    requires x in N
  {
    set p | p in Wedges(N, x) && p.0 < p.1
  }

  ghost function Falling(N: SimpleGraph, x: nat): set<(nat, nat)>
    requires x in N
  {
    set p | p in Wedges(N, x) && p.1 < p.0
  }

  lemma FallingMirrorsRising(N: SimpleGraph, x: nat)
    requires x in N
    ensures |Falling(N, x)| == |Rising(N, x)|
  {
    var up, down := Rising(N, x), Falling(N, x);
    forall p | p in Wedges(N, x)
      ensures (p.1, p.0) in Wedges(N, x)
    {}
    InjectionSize(up, down, (p: (nat, nat)) => (p.1, p.0));
    InjectionSize(down, up, (p: (nat, nat)) => (p.1, p.0));
  }

  lemma WedgesAreTwiceRising(N: SimpleGraph, x: nat)
    requires x in N
    ensures |Wedges(N, x)| == 2 * |Rising(N, x)|
  {
    var up, down := Rising(N, x), Falling(N, x);
    assert Wedges(N, x) == up + down && up !! down;
    FallingMirrorsRising(N, x);
  }

  /** x and the rising pair u < w, sorted downwards. */
  function SortCorners(x: nat, p: (nat, nat)): (nat, nat, nat) {
    if x > p.1 then (x, p.1, p.0) else if x > p.0 then (p.1, x, p.0) else (p.1, p.0, x)
  }

  function OtherCorners(x: nat, t: (nat, nat, nat)): (nat, nat) {
    if t.0 == x then (t.2, t.1) else if t.1 == x then (t.2, t.0) else (t.1, t.0)
  }

  lemma RisingIntoTriples(N: SimpleGraph, n: nat, x: nat)
    requires x in N && forall v | v in N :: v < n
    ensures |Rising(N, x)| <= |Triples(N, n, x)|
  {
    forall p | p in Rising(N, x)
      ensures SortCorners(x, p) in Triples(N, n, x)
    {
      var t := SortCorners(x, p);
      assert (t.1, t.2) in Below3(N, t.0);
      assert (t.1, t.2) in Corner(N, t.0, x);
    }
    InjectionSize(Rising(N, x), Triples(N, n, x), (p: (nat, nat)) => SortCorners(x, p));
  }

  lemma TriplesIntoRising(N: SimpleGraph, n: nat, x: nat)
    requires x in N && forall v | v in N :: v < n
    ensures |Triples(N, n, x)| <= |Rising(N, x)|
  {
    forall t | t in Triples(N, n, x)
      ensures OtherCorners(x, t) in Rising(N, x) && SortCorners(x, OtherCorners(x, t)) == t
    {
      assert (t.1, t.2) in Corner(N, t.0, x);
    }
    InjectionSize(Triples(N, n, x), Rising(N, x), (t: (nat, nat, nat)) => OtherCorners(x, t));
  }

  /** Crediting each triangle twice to each of its corners counts the adjacent pairs of neighbours. */
  lemma SharesCountWedges(N: SimpleGraph, n: nat, x: nat)
    requires x in N && forall v | v in N :: v < n
    ensures ShareSum(N, 0, n, x) == |Wedges(N, x)|
  {
    TriplesCount(N, n, x);
    WedgesAreTwiceRising(N, x);
    RisingIntoTriples(N, n, x);
    TriplesIntoRising(N, n, x);
  }

  // ---- The coefficient ----

  ghost function Pairs(s: set<nat>): set<(nat, nat)> {
    set u, w | u in s && w in s && u != w :: (u, w)
  }

  lemma PairsGrow(rest: set<nat>, x: nat)
    requires x !in rest
    ensures |Pairs(rest + {x})| == |Pairs(rest)| + 2 * |rest|
  {
    var left, right := set w | w in rest :: (x, w), set u | u in rest :: (u, x);
    assert Pairs(rest + {x}) == Pairs(rest) + left + right;
    assert Pairs(rest) !! left && Pairs(rest) + left !! right;
    assert |left| == |rest| by {
      InjectionSize(rest, left, w => (x, w));
      InjectionSize(left, rest, (p: (nat, nat)) => p.1);
    }
    assert |right| == |rest| by {
      InjectionSize(rest, right, u => (u, x));
      InjectionSize(right, rest, (p: (nat, nat)) => p.0);
    }
  }

  lemma {:induction false} PairsSize(s: set<nat>)
    ensures |Pairs(s)| == |s| * (|s| - 1)
    decreases |s|
  {
    if s != {} {
      var x :| x in s;
      var rest := s - {x};
      PairsSize(rest);
      PairsGrow(rest, x);
      assert s == rest + {x};
    }
  }

  lemma WedgesBound(N: SimpleGraph, x: nat)
    requires x in N
    ensures |Wedges(N, x)| <= |N[x]| * (|N[x]| - 1)
    ensures |Wedges(N, x)| > 0 ==> |N[x]| >= 2
  {
    assert Wedges(N, x) <= Pairs(N[x]);
    SubsetSize(Wedges(N, x), Pairs(N[x]));
    PairsSize(N[x]);
    if p :| p in Wedges(N, x) {
      SubsetSize({p.0, p.1}, N[x]);
    }
  }

  /** Found pairs of neighbours over possible ones; the division needs two neighbours. */
  function Ratio(found: nat, degree: nat): real
    requires degree >= 2
  {
    found as real / (degree * (degree - 1)) as real
  }

  /** Local clustering coefficient over exact numbers. */
  ghost function Coefficient(N: SimpleGraph, x: nat): (c: real)
    requires x in N
  {
    if |N[x]| < 2 then 0.0 else Ratio(|Wedges(N, x)|, |N[x]|)
  }

  lemma CoefficientIsAFraction(N: SimpleGraph, x: nat)
    requires x in N
    ensures 0.0 <= Coefficient(N, x) <= 1.0
  {
    WedgesBound(N, x);
    if |N[x]| >= 2 {
      RatioBound(|Wedges(N, x)|, |N[x]|);
    }
  }

  lemma RatioBound(found: nat, degree: nat)
    requires degree >= 2 && found <= degree * (degree - 1)
    ensures 0.0 <= Ratio(found, degree) <= 1.0
    ensures found == 0 ==> Ratio(found, degree) == 0.0
  {
    var b := degree * (degree - 1);
    assert b >= degree;
    FractionBound(found as real, b as real);
  }

  lemma FractionBound(a: real, b: real)
    requires 0.0 <= a <= b && 0.0 < b
    ensures 0.0 <= a / b <= 1.0 && (a == 0.0 ==> a / b == 0.0)
  {}

  // ---- What the coefficient is, without the formula ----

  lemma FewPairs(s: set<nat>)
    requires |s| < 2
    ensures Pairs(s) == {}
  {
    if p :| p in Pairs(s) {
      SubsetSize({p.0, p.1}, s);
    }
  }

  lemma RatioTimesPairs(found: nat, near: set<nat>)
    requires |near| >= 2
    ensures |Pairs(near)| > 0 && Ratio(found, |near|) * |Pairs(near)| as real == found as real
  {
    PairsSize(near);
    var b := |near| * (|near| - 1);
    assert b >= |near|;
    QuotientTimes(found as real, b as real);
  }

  lemma QuotientTimes(a: real, b: real)
    requires b != 0.0
    ensures (a / b) * b == a
  {}

  lemma OneIfEqual(c: real, pairs: nat, found: nat)
    requires pairs > 0 && c * pairs as real == found as real
    ensures c == 1.0 <==> found == pairs
  {
    var p := pairs as real;
    if found == pairs {
      assert (c - 1.0) * p == 0.0;
    }
  }

  /** The coefficient is the share of the ordered pairs of neighbours that are adjacent; 0 without such pairs. */
  lemma CoefficientIsShareOfPairs(N: SimpleGraph, x: nat)
    requires x in N
    ensures Coefficient(N, x) * |Pairs(N[x])| as real == |Wedges(N, x)| as real
    ensures |N[x]| < 2 ==> Coefficient(N, x) == 0.0
  {
    if |N[x]| < 2 {
      FewPairs(N[x]);
      WedgesBound(N, x);
    } else {
      RatioTimesPairs(|Wedges(N, x)|, N[x]);
    }
  }

  /** It is 1 exactly for a vertex whose neighbours are all adjacent to each other. */
  lemma OneIffClique(N: SimpleGraph, x: nat)
    requires x in N && |N[x]| >= 2
    ensures Coefficient(N, x) == 1.0 <==> forall u, w | u in N[x] && w in N[x] && u != w :: u in N && w in N[u]
  {
    CoefficientIsShareOfPairs(N, x);
    RatioTimesPairs(|Wedges(N, x)|, N[x]);
    OneIfEqual(Coefficient(N, x), |Pairs(N[x])|, |Wedges(N, x)|);
    assert Wedges(N, x) <= Pairs(N[x]);
    if |Wedges(N, x)| == |Pairs(N[x])| {
      SameSizeSameSet(Wedges(N, x), Pairs(N[x]));
      forall u, w | u in N[x] && w in N[x] && u != w
        ensures u in N && w in N[u]
      {
        assert (u, w) in Pairs(N[x]);
      }
    }
    if forall u, w | u in N[x] && w in N[x] && u != w :: u in N && w in N[u] {
      assert Pairs(N[x]) == Wedges(N, x);
    }
  }

  lemma SameSizeSameSet<T>(a: set<T>, b: set<T>)
    requires a <= b && |a| == |b|
    ensures a == b
  {
    assert b == a + (b - a);
  }
}
