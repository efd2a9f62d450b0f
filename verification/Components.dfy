/** Weak connectivity, and when a labelling names every vertex after the smallest one it is
    connected to. */
module Components {
  import opened Paths

  /** E with every edge also taken backwards. */
  ghost function Both(E: set<Edge>): set<Edge> {
    E + set e | e in E :: Edge(e.dst, e.src, e.weight)
  }

  ghost predicate Connected(E: set<Edge>, u: nat, v: nat) {
    exists p :: IsWalk(Both(E), u, p, v)
  }

  lemma {:induction false} WalkConcat(E: set<Edge>, s: nat, p: seq<Edge>, t: nat, q: seq<Edge>, r: nat)
    requires IsWalk(E, s, p, t) && IsWalk(E, t, q, r)
    ensures IsWalk(E, s, p + q, r)
  {
    if q == [] {
      assert p + q == p;
    } else {
      var k := |q| - 1;
      WalkConcat(E, s, p, t, q[..k], q[k].src);
      assert (p + q)[..|p + q| - 1] == p + q[..k];
    }
  }

  lemma {:induction false} WalkReverse(E: set<Edge>, s: nat, p: seq<Edge>, t: nat) returns (q: seq<Edge>)
    requires IsWalk(Both(E), s, p, t)
    ensures IsWalk(Both(E), t, q, s)
  {
    if p == [] {
      q := [];
    } else {
      var e := p[|p| - 1];
      var rest := WalkReverse(E, s, p[..|p| - 1], e.src);
      var back := Edge(e.dst, e.src, e.weight);
      assert back in Both(E);
      assert IsWalk(Both(E), t, [back], e.src) by {
        assert [back][..0] == [];
      }
      WalkConcat(Both(E), t, [back], e.src, rest, s);
      q := [back] + rest;
    }
  }

  lemma ConnectedRefl(E: set<Edge>, u: nat)
    ensures Connected(E, u, u)
  {
    assert IsWalk(Both(E), u, [], u);
  }

  lemma ConnectedSym(E: set<Edge>, u: nat, v: nat)
    requires Connected(E, u, v)
    ensures Connected(E, v, u)
  {
    var p :| IsWalk(Both(E), u, p, v);
    var q := WalkReverse(E, u, p, v);
  }

  lemma ConnectedTrans(E: set<Edge>, u: nat, v: nat, w: nat)
    requires Connected(E, u, v) && Connected(E, v, w)
    ensures Connected(E, u, w)
  {
    var p :| IsWalk(Both(E), u, p, v);
    var q :| IsWalk(Both(E), v, q, w);
    WalkConcat(Both(E), u, p, v, q, w);
  }

  lemma ConnectedEdge(E: set<Edge>, e: Edge)
    requires e in E
    ensures Connected(E, e.src, e.dst)
  {
    assert [e][..0] == [];
    assert IsWalk(Both(E), e.src, [e], e.dst);
  }

  /** Two labels found at the two ends of an edge are connected to each other. */
  lemma LabelsAcrossEdge(E: set<Edge>, e: Edge, a: nat, b: nat)
    requires e in E && Connected(E, e.src, a) && Connected(E, e.dst, b)
    ensures Connected(E, a, b) && Connected(E, b, a)
  {
    ConnectedEdge(E, e);
    ConnectedSym(E, e.src, a);
    ConnectedTrans(E, a, e.src, e.dst);
    ConnectedTrans(E, a, e.dst, b);
    ConnectedSym(E, a, b);
  }

  /** comp names every vertex after the smallest vertex of its weakly connected component. */
  ghost predicate AreComponents(E: set<Edge>, comp: map<nat, nat>) {
    forall v {:trigger comp[v]} | v in comp :: IsLeast(E, comp.Keys, v, comp[v])
  }

  /** x is the smallest of the vertices connected to v. */
  ghost predicate IsLeast(E: set<Edge>, keys: set<nat>, v: nat, x: nat) {
    x in keys && Connected(E, v, x) && forall u | u in keys && Connected(E, v, u) :: x <= u
  }

  lemma {:induction false} LabelConstant(E: set<Edge>, comp: map<nat, nat>, s: nat, p: seq<Edge>, t: nat)
    requires forall e | e in E :: e.src in comp && e.dst in comp && comp[e.src] == comp[e.dst]
    requires s in comp && IsWalk(Both(E), s, p, t)
    ensures t in comp && comp[t] == comp[s]
  {
    if p != [] {
      LabelConstant(E, comp, s, p[..|p| - 1], p[|p| - 1].src);
    }
  }

  /** Labels inside the component, no larger than the vertex, equal across edges: the components. */
  lemma EqualAcrossEdges(E: set<Edge>, comp: map<nat, nat>)
    requires forall v | v in comp :: comp[v] in comp && comp[v] <= v && Connected(E, v, comp[v])
    requires forall e | e in E :: e.src in comp && e.dst in comp && comp[e.src] == comp[e.dst]
    ensures AreComponents(E, comp)
  {
    forall v, u | v in comp && u in comp && Connected(E, v, u)
      ensures comp[v] <= u
    {
      var p :| IsWalk(Both(E), v, p, u);
      LabelConstant(E, comp, v, p, u);
    }
  }

  /** Two vertices carry the same label exactly when they are connected. */
  lemma SameLabelIffConnected(E: set<Edge>, comp: map<nat, nat>, u: nat, v: nat)
    requires AreComponents(E, comp) && u in comp && v in comp
    ensures comp[u] == comp[v] <==> Connected(E, u, v)
  {
    if comp[u] == comp[v] {
      ConnectedSym(E, v, comp[v]);
      ConnectedTrans(E, u, comp[u], v);
    }
    if Connected(E, u, v) {
      ConnectedSym(E, u, v);
      ConnectedTrans(E, v, u, comp[u]);
      ConnectedTrans(E, u, v, comp[v]);
    }
  }
}
