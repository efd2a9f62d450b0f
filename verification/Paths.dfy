/** Weighted directed graphs as sets of edges, walks through them, and the distances
    a search from one source has to report. */
module Paths {
  datatype Edge = Edge(src: nat, dst: nat, weight: int)

  datatype Distance = Infinite | Finite(d: nat)

  predicate Closer(x: nat, d: Distance) {
    d.Infinite? || x < d.d
  }

  /** p leads from s to t; the walk is read from its last edge backwards. */
  ghost predicate IsWalk(E: set<Edge>, s: nat, p: seq<Edge>, t: nat) {
    if p == [] then s == t
    else
      var last := p[|p| - 1];
      last in E && last.dst == t && IsWalk(E, s, p[..|p| - 1], last.src)
  }

  ghost function Length(p: seq<Edge>): int {
    if p == [] then 0 else Length(p[..|p| - 1]) + p[|p| - 1].weight
  }

  ghost predicate NonNegative(E: set<Edge>) {
    forall e | e in E :: e.weight >= 0
  }

  ghost predicate Achieved(E: set<Edge>, s: nat, t: nat, d: int) {
    exists p :: IsWalk(E, s, p, t) && Length(p) == d
  }

  /** d is the length of a shortest walk from s to t, or Infinite when there is none. */
  ghost predicate IsDistance(E: set<Edge>, s: nat, t: nat, d: Distance) {
    match d
    case Infinite => forall p :: !IsWalk(E, s, p, t)
    case Finite(x) => Achieved(E, s, t, x) && forall p :: IsWalk(E, s, p, t) ==> x <= Length(p)
  }

  /** Every entry of the table is the distance from s. */
  ghost predicate AreDistances(E: set<Edge>, s: nat, labels: map<nat, Distance>) {
    forall v | v in labels :: IsDistance(E, s, v, labels[v])
  }

  lemma DistanceUnique(E: set<Edge>, s: nat, t: nat, d1: Distance, d2: Distance)
    requires IsDistance(E, s, t, d1) && IsDistance(E, s, t, d2)
    ensures d1 == d2
  {
    match (d1, d2)
    case (Finite(x), Finite(y)) =>
      var p :| IsWalk(E, s, p, t) && Length(p) == x;
      var q :| IsWalk(E, s, q, t) && Length(q) == y;
    case (Finite(x), Infinite) =>
    case (Infinite, Finite(y)) =>
    case (Infinite, Infinite) =>
  }

  // ---- The argument shared by all searches: labels that are sound and closed are distances ----

  /** Every finite label is the length of some walk. */
  ghost predicate Sound(E: set<Edge>, s: nat, labels: map<nat, Distance>) {
    forall v | v in labels && labels[v].Finite? :: Achieved(E, s, v, labels[v].d)
  }

  /** The edge e cannot improve the label of its target. */
  ghost predicate Relaxed(labels: map<nat, Distance>, e: Edge) {
    e.src in labels && labels[e.src].Finite? ==>
      e.dst in labels && labels[e.dst].Finite? && labels[e.dst].d <= labels[e.src].d + e.weight
  }

  ghost predicate Closed(E: set<Edge>, labels: map<nat, Distance>) {
    forall e | e in E :: Relaxed(labels, e)
  }

  lemma EmptyWalk(E: set<Edge>, s: nat)
    ensures Achieved(E, s, s, 0)
  {
    assert IsWalk(E, s, [], s) && Length([]) == 0;
  }

  lemma ExtendWalk(E: set<Edge>, s: nat, e: Edge, d: int)
    requires e in E && Achieved(E, s, e.src, d)
    ensures Achieved(E, s, e.dst, d + e.weight)
  {
    var p :| IsWalk(E, s, p, e.src) && Length(p) == d;
    assert (p + [e])[..|p|] == p;
    assert IsWalk(E, s, p + [e], e.dst) && Length(p + [e]) == d + e.weight;
  }

  /** Relaxing an edge keeps the labels sound. */
  lemma RelaxKeepsSound(E: set<Edge>, s: nat, labels: map<nat, Distance>, e: Edge)
    requires Sound(E, s, labels) && e in E && e.src in labels && labels[e.src].Finite?
    requires labels[e.src].d + e.weight >= 0
    ensures Sound(E, s, labels[e.dst := Finite(labels[e.src].d + e.weight)])
  {
    ExtendWalk(E, s, e, labels[e.src].d);
  }

  lemma {:induction false} ClosedIsLowerBound(E: set<Edge>, s: nat, labels: map<nat, Distance>, p: seq<Edge>, t: nat)
    requires Closed(E, labels) && IsWalk(E, s, p, t)
    requires s in labels && labels[s] == Finite(0)
    ensures t in labels && labels[t].Finite? && labels[t].d <= Length(p)
  {
    if p != [] {
      var last := p[|p| - 1];
      ClosedIsLowerBound(E, s, labels, p[..|p| - 1], last.src);
      assert Relaxed(labels, last);
    }
  }

  lemma SoundAndClosedAreDistances(E: set<Edge>, s: nat, labels: map<nat, Distance>)
    requires Sound(E, s, labels) && Closed(E, labels)
    requires s in labels && labels[s] == Finite(0)
    ensures AreDistances(E, s, labels)
  {
    forall v | v in labels
      ensures IsDistance(E, s, v, labels[v])
    {
      forall p | IsWalk(E, s, p, v)
        ensures labels[v].Finite? && labels[v].d <= Length(p)
      {
        ClosedIsLowerBound(E, s, labels, p, v);
      }
    }
  }

  // ---- Hop counts: distances when every edge has weight one ----

  ghost function Hops(E: set<Edge>): set<Edge> {
    set e | e in E :: Edge(e.src, e.dst, 1)
  }

  lemma {:induction false} HopLengthIsCount(E: set<Edge>, s: nat, p: seq<Edge>, t: nat)
    requires IsWalk(Hops(E), s, p, t)
    ensures Length(p) == |p|
  {
    if p != [] {
      HopLengthIsCount(E, s, p[..|p| - 1], p[|p| - 1].src);
    }
  }

  // ---- Renaming vertices ----

  ghost function Rename(E: set<Edge>, f: map<nat, nat>): set<Edge>
    requires forall e | e in E :: e.src in f && e.dst in f
  {
    set e | e in E :: Edge(f[e.src], f[e.dst], e.weight)
  }

  ghost predicate Injective(f: map<nat, nat>) {
    forall x, y | x in f && y in f && f[x] == f[y] :: x == y
  }
}
