/** Renaming the vertices of a graph, as the vertex mapping of the CSR does, changes no distance, no
    component and no clustering coefficient. */
module Renaming {
  import opened Components
  import opened Paths
  import opened Triangles

  ghost predicate Names(E: set<Edge>, f: map<nat, nat>) {
    Injective(f) && forall e | e in E :: e.src in f && e.dst in f
  }

  lemma RenameUnion(A: set<Edge>, B: set<Edge>, f: map<nat, nat>)
    requires Names(A, f) && Names(B, f)
    ensures Rename(A + B, f) == Rename(A, f) + Rename(B, f)
  {
    forall e | e in A + B
      ensures Edge(f[e.src], f[e.dst], e.weight) in Rename(A, f) + Rename(B, f)
    {
      if e in A {
        assert Edge(f[e.src], f[e.dst], e.weight) in Rename(A, f);
      } else {
        assert Edge(f[e.src], f[e.dst], e.weight) in Rename(B, f);
      }
    }
    forall e | e in A || e in B
      ensures Edge(f[e.src], f[e.dst], e.weight) in Rename(A + B, f)
    {
      assert e in A + B;
    }
  }

  // ---- Distances ----

  lemma {:induction false} WalkForth(E: set<Edge>, f: map<nat, nat>, s: nat, p: seq<Edge>, t: nat) returns (q: seq<Edge>)
    requires Names(E, f) && s in f && IsWalk(E, s, p, t)
    ensures t in f && IsWalk(Rename(E, f), f[s], q, f[t]) && Length(q) == Length(p)
  {
    if p == [] {
      q := [];
    } else {
      var last := p[|p| - 1];
      var r := WalkForth(E, f, s, p[..|p| - 1], last.src);
      var x := Edge(f[last.src], f[last.dst], last.weight);
      q := r + [x];
      assert q[..|r|] == r && x in Rename(E, f);
    }
  }

  lemma {:induction false} WalkBack(E: set<Edge>, f: map<nat, nat>, s: nat, q: seq<Edge>, t: nat) returns (p: seq<Edge>)
    requires Names(E, f) && s in f && t in f && IsWalk(Rename(E, f), f[s], q, f[t])
    ensures IsWalk(E, s, p, t) && Length(p) == Length(q)
  {
    if q == [] {
      p := [];
    } else {
      var last := q[|q| - 1];
      var e :| e in E && last == Edge(f[e.src], f[e.dst], e.weight);
      var r := WalkBack(E, f, s, q[..|q| - 1], e.src);
      p := r + [e];
      assert p[..|r|] == r;
    }
  }

  lemma AchievedRenamed(E: set<Edge>, f: map<nat, nat>, s: nat, t: nat, d: int)
    requires Names(E, f) && s in f && t in f
    ensures Achieved(Rename(E, f), f[s], f[t], d) <==> Achieved(E, s, t, d)
  {
    if p :| IsWalk(E, s, p, t) && Length(p) == d {
      var q := WalkForth(E, f, s, p, t);
    }
    if q :| IsWalk(Rename(E, f), f[s], q, f[t]) && Length(q) == d {
      var p := WalkBack(E, f, s, q, t);
    }
  }

  lemma DistanceRenamed(E: set<Edge>, f: map<nat, nat>, s: nat, t: nat, d: Distance)
    requires Names(E, f) && s in f && t in f && IsDistance(Rename(E, f), f[s], f[t], d)
    ensures IsDistance(E, s, t, d)
  {
    if d.Finite? {
      AchievedRenamed(E, f, s, t, d.d);
    }
    forall p | IsWalk(E, s, p, t)
      ensures d.Finite? && d.d <= Length(p)
    {
      var q := WalkForth(E, f, s, p, t);
    }
  }

  lemma HopsRenamed(E: set<Edge>, f: map<nat, nat>)
    requires Names(E, f)
    ensures Names(Hops(E), f) && Hops(Rename(E, f)) == Rename(Hops(E), f)
  {
    forall x | x in Hops(Rename(E, f))
      ensures x in Rename(Hops(E), f)
    {
      var y :| y in Rename(E, f) && x == Edge(y.src, y.dst, 1);
      var e :| e in E && y == Edge(f[e.src], f[e.dst], e.weight);
      assert Edge(e.src, e.dst, 1) in Hops(E);
    }
    forall x | x in Rename(Hops(E), f)
      ensures x in Hops(Rename(E, f))
    {
      var h :| h in Hops(E) && x == Edge(f[h.src], f[h.dst], h.weight);
      var e :| e in E && h == Edge(e.src, e.dst, 1);
      assert Edge(f[e.src], f[e.dst], e.weight) in Rename(E, f);
    }
  }

  // ---- Components ----

  lemma BothRenamed(E: set<Edge>, f: map<nat, nat>)
    requires Names(E, f)
    ensures Names(Both(E), f) && Both(Rename(E, f)) == Rename(Both(E), f)
  {
    forall x | x in Both(Rename(E, f))
      ensures x in Rename(Both(E), f)
    {
      if x in Rename(E, f) {
        var e :| e in E && x == Edge(f[e.src], f[e.dst], e.weight);
      } else {
        var y :| y in Rename(E, f) && x == Edge(y.dst, y.src, y.weight);
        var e :| e in E && y == Edge(f[e.src], f[e.dst], e.weight);
        assert Edge(e.dst, e.src, e.weight) in Both(E);
      }
    }
    forall x | x in Rename(Both(E), f)
      ensures x in Both(Rename(E, f))
    {
      var b :| b in Both(E) && x == Edge(f[b.src], f[b.dst], b.weight);
      if b !in E {
        assert Edge(b.dst, b.src, b.weight) in E;
        assert Edge(f[b.dst], f[b.src], b.weight) in Rename(E, f);
      }
    }
  }

  lemma ConnectedRenamed(E: set<Edge>, f: map<nat, nat>, u: nat, v: nat)
    requires Names(E, f) && u in f && v in f
    ensures Connected(Rename(E, f), f[u], f[v]) <==> Connected(E, u, v)
  {
    BothRenamed(E, f);
    if p :| IsWalk(Both(E), u, p, v) {
      var q := WalkForth(Both(E), f, u, p, v);
    }
    if q :| IsWalk(Both(Rename(E, f)), f[u], q, f[v]) {
      var p := WalkBack(Both(E), f, u, q, v);
    }
  }

  ghost predicate KeepsOrder(f: map<nat, nat>) {
    forall x, y | x in f && y in f :: f[x] < f[y] <==> x < y
  }

  /** The smallest logical id of a component is the logical id of its smallest vertex. */
  lemma LeastRenamed(E: set<Edge>, f: map<nat, nat>, v: nat, x: nat)
    requires Names(E, f) && KeepsOrder(f) && v in f && x in f
    ensures IsLeast(Rename(E, f), f.Values, f[v], f[x]) <==> IsLeast(E, f.Keys, v, x)
  {
    forall u | u in f
      ensures Connected(Rename(E, f), f[v], f[u]) <==> Connected(E, v, u)
      ensures f[u] in f.Values && (f[x] <= f[u] <==> x <= u)
    {
      ConnectedRenamed(E, f, v, u);
    }
    forall y | y in f.Values
      ensures exists u :: u in f && f[u] == y
    {}
  }

  // ---- Clustering ----

  /** N over external ids, M over logical ids. */
  ghost predicate SameNeighbours(N: SimpleGraph, f: map<nat, nat>, M: SimpleGraph) {
    && Injective(f) && N.Keys == f.Keys && M.Keys == f.Values
    && forall u, w | u in f && w in f :: SameEdge(N, f, M, u, w)
  }

  ghost predicate SameEdge(N: SimpleGraph, f: map<nat, nat>, M: SimpleGraph, u: nat, w: nat)
    requires u in f && w in f && u in N && f[u] in M
  {
    w in N[u] <==> f[w] in M[f[u]]
  }

  ghost function Inverse(f: map<nat, nat>): (r: map<nat, nat>)
    requires Injective(f)
    ensures r.Keys == f.Values
    ensures forall y | y in r :: r[y] in f && f[r[y]] == y
  {
    map y | y in f.Values :: var x :| x in f && f[x] == y; x
  }

  lemma WedgesForth(N: SimpleGraph, f: map<nat, nat>, M: SimpleGraph, x: nat)
    requires SameNeighbours(N, f, M) && x in f
    ensures f[x] in M && |Wedges(N, x)| <= |Wedges(M, f[x])|
  {
    assert f[x] in f.Values;
    forall p | p in Wedges(N, x)
      ensures p.0 in f && p.1 in f && (f[p.0], f[p.1]) in Wedges(M, f[x])
    {
      assert p.0 in N && p.1 in N;
    }
    InjectionSize(Wedges(N, x), Wedges(M, f[x]), (p: (nat, nat)) => if p.0 in f && p.1 in f then (f[p.0], f[p.1]) else p);
  }

  lemma WedgeBack(N: SimpleGraph, f: map<nat, nat>, M: SimpleGraph, x: nat, p: (nat, nat))
    requires SameNeighbours(N, f, M) && x in f && f[x] in M && p in Wedges(M, f[x])
    ensures p.0 in f.Values && p.1 in f.Values && (Inverse(f)[p.0], Inverse(f)[p.1]) in Wedges(N, x)
  {
    assert p.0 in M && p.1 in M;
    var u, w := Inverse(f)[p.0], Inverse(f)[p.1];
    assert SameEdge(N, f, M, x, u) && SameEdge(N, f, M, u, w) && SameEdge(N, f, M, x, w);
  }

  lemma WedgesBack(N: SimpleGraph, f: map<nat, nat>, M: SimpleGraph, x: nat)
    requires SameNeighbours(N, f, M) && x in f
    ensures f[x] in M && |Wedges(M, f[x])| <= |Wedges(N, x)|
  {
    assert f[x] in f.Values;
    var back := Inverse(f);
    forall p | p in Wedges(M, f[x])
      ensures p.0 in back && p.1 in back && (back[p.0], back[p.1]) in Wedges(N, x)
    {
      WedgeBack(N, f, M, x, p);
    }
    InjectionSize(Wedges(M, f[x]), Wedges(N, x), (p: (nat, nat)) => if p.0 in back && p.1 in back then (back[p.0], back[p.1]) else p);
  }

  lemma DegreeForth(N: SimpleGraph, f: map<nat, nat>, M: SimpleGraph, x: nat)
    requires SameNeighbours(N, f, M) && x in f
    ensures f[x] in M && |N[x]| <= |M[f[x]]|
  {
    assert f[x] in f.Values;
    forall u | u in N[x]
      ensures u in f && f[u] in M[f[x]]
    {
      assert u in N;
      assert SameEdge(N, f, M, x, u);
    }
    InjectionSize(N[x], M[f[x]], (u: nat) => if u in f then f[u] else u);
  }

  lemma DegreeBack(N: SimpleGraph, f: map<nat, nat>, M: SimpleGraph, x: nat)
    requires SameNeighbours(N, f, M) && x in f
    ensures f[x] in M && |M[f[x]]| <= |N[x]|
  {
    assert f[x] in f.Values;
    var back := Inverse(f);
    forall y | y in M[f[x]]
      ensures y in back && back[y] in N[x]
    {
      assert y in M;
      assert SameEdge(N, f, M, x, back[y]);
    }
    InjectionSize(M[f[x]], N[x], (y: nat) => if y in back then back[y] else y);
  }

  lemma CoefficientsAgree(N: SimpleGraph, f: map<nat, nat>, M: SimpleGraph, x: nat)
    requires SameNeighbours(N, f, M) && x in f
    ensures f[x] in M && Coefficient(M, f[x]) == Coefficient(N, x)
  {
    WedgesForth(N, f, M, x);
    WedgesBack(N, f, M, x);
    DegreeForth(N, f, M, x);
    DegreeBack(N, f, M, x);
  }
}
