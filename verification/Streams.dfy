/** Edge streams as sequences: sorting them through a permutation of the positions, their end points
    and their edges taken backwards. */
module Streams {
  import opened Counting
  import opened Numbers
  import opened Paths

  // ---- Sorting the stream ----

  predicate LexLess(a: Edge, b: Edge) {
    a.src < b.src || (a.src == b.src && a.dst < b.dst)
  }

  predicate IsPermutation(p: seq<nat>, m: nat) {
    |p| == m && (forall i | 0 <= i < m :: p[i] < m) && forall i, j | 0 <= i < j < m :: p[i] != p[j]
  }

  /** do_permute_edges. */
  function Permuted(edges: seq<Edge>, p: seq<nat>): (r: seq<Edge>)
    requires forall i | 0 <= i < |p| :: p[i] < |edges|
    ensures |r| == |p|
  {
    seq(|p|, i requires 0 <= i < |p| => edges[p[i]])
  }

  ghost predicate SortedBy(edges: seq<Edge>, p: seq<nat>) {
    && (forall i | 0 <= i < |p| :: p[i] < |edges|)
    && forall i, j | 0 <= i < j < |p| :: !LexLess(edges[p[j]], edges[p[i]])
  }

  /** Position i goes before the first entry that is larger. */
  ghost predicate InsertionPoint(edges: seq<Edge>, p: seq<nat>, i: nat, k: nat)
    requires i < |edges| && forall j | 0 <= j < |p| :: p[j] < |edges|
  {
    && k <= |p|
    && (forall j | 0 <= j < k :: !LexLess(edges[i], edges[p[j]]))
    && (k < |p| ==> LexLess(edges[i], edges[p[k]]))
  }

  lemma InsertPosition(edges: seq<Edge>, p: seq<nat>, i: nat, k: nat)
    requires i < |edges| && IsPermutation(p, i) && SortedBy(edges, p) && InsertionPoint(edges, p, i, k)
    ensures IsPermutation(p[..k] + [i] + p[k..], i + 1)
  {}

  lemma InsertSorted(edges: seq<Edge>, p: seq<nat>, i: nat, k: nat)
    requires i < |edges| && SortedBy(edges, p) && InsertionPoint(edges, p, i, k)
    ensures SortedBy(edges, p[..k] + [i] + p[k..])
  {
    var q := p[..k] + [i] + p[k..];
    forall a, b | 0 <= a < b < |q|
      ensures !LexLess(edges[q[b]], edges[q[a]])
    {
      if a == k {
        assert b - 1 > k ==> !LexLess(edges[p[b - 1]], edges[p[k]]);
      }
    }
  }

  /** The order between any two positions. */
  ghost predicate Ordered(s: seq<Edge>) {
    forall i, j | 0 <= i < j < |s| :: !LexLess(s[j], s[i])
  }

  lemma {:induction false} PermutationIsOnto(p: seq<nat>, m: nat, x: nat)
    requires IsPermutation(p, m) && x < m
    ensures x in p
  {
    if x !in p {
      DistinctSize(p);
      SubsetSize(Elements(p), Below(m) - {x});
    }
  }

  ghost function EdgeSet(edges: seq<Edge>): set<Edge> {
    set e | e in edges
  }

  lemma PermutedSameEdges(edges: seq<Edge>, p: seq<nat>)
    requires IsPermutation(p, |edges|)
    ensures EdgeSet(Permuted(edges, p)) == EdgeSet(edges)
  {
    forall e | e in edges
      ensures e in Permuted(edges, p)
    {
      var k :| 0 <= k < |edges| && edges[k] == e;
      PermutationIsOnto(p, |edges|, k);
      var i :| 0 <= i < |p| && p[i] == k;
      assert Permuted(edges, p)[i] == e;
    }
    forall e | e in Permuted(edges, p)
      ensures e in edges
    {
      var i :| 0 <= i < |p| && Permuted(edges, p)[i] == e;
      assert edges[p[i]] == e;
    }
  }

  /** No edge twice and no self loop. */
  ghost predicate SimpleStream(edges: seq<Edge>) {
    && (forall i, j | 0 <= i < j < |edges| :: edges[i].src != edges[j].src || edges[i].dst != edges[j].dst)
    && (forall e | e in edges :: e.src != e.dst && e.src <= U64_MAX && e.dst <= U64_MAX)
  }

  ghost predicate StrictlyAscending(edges: seq<Edge>) {
    forall i, j | 0 <= i < j < |edges| :: LexLess(edges[i], edges[j])
  }

  lemma SortedIsStrict(edges: seq<Edge>, p: seq<nat>)
    requires SimpleStream(edges) && IsPermutation(p, |edges|) && SortedBy(edges, p)
    ensures StrictlyAscending(Permuted(edges, p)) && SimpleStream(Permuted(edges, p))
  {
    var s := Permuted(edges, p);
    forall i, j | 0 <= i < j < |s|
      ensures LexLess(s[i], s[j])
    {
      assert !LexLess(edges[p[j]], edges[p[i]]);
      assert p[i] < p[j] || p[j] < p[i];
    }
    forall e | e in s
      ensures e in edges
    {
      PermutedSameEdges(edges, p);
      assert e in EdgeSet(s);
    }
  }

  // ---- End points ----

  /** The vertices named by the stream. */
  ghost function Endpoints(edges: seq<Edge>): set<nat> {
    if edges == [] then {}
    else Endpoints(edges[..|edges| - 1]) + {edges[|edges| - 1].src, edges[|edges| - 1].dst}
  }

  lemma {:induction false} EndpointsCover(edges: seq<Edge>, e: Edge)
    requires e in edges
    ensures e.src in Endpoints(edges) && e.dst in Endpoints(edges)
  {
    if e != edges[|edges| - 1] {
      EndpointsCover(edges[..|edges| - 1], e);
    }
  }

  lemma {:induction false} EndpointOf(edges: seq<Edge>, x: nat) returns (e: Edge)
    requires x in Endpoints(edges)
    ensures e in edges && (x == e.src || x == e.dst)
  {
    e := edges[|edges| - 1];
    if x != e.src && x != e.dst {
      e := EndpointOf(edges[..|edges| - 1], x);
    }
  }

  ghost function MaxId(edges: seq<Edge>): nat {
    if edges == [] then 0
    else
      var last := edges[|edges| - 1];
      Max(MaxId(edges[..|edges| - 1]), Max(last.src, last.dst))
  }

  lemma {:induction false} MaxIdBounds(edges: seq<Edge>, i: nat)
    requires i < |edges|
    ensures edges[i].src <= MaxId(edges) && edges[i].dst <= MaxId(edges)
  {
    if i < |edges| - 1 {
      MaxIdBounds(edges[..|edges| - 1], i);
    }
  }

  lemma {:induction false} MaxIdOccurs(edges: seq<Edge>) returns (i: nat)
    requires edges != []
    ensures i < |edges| && (edges[i].src == MaxId(edges) || edges[i].dst == MaxId(edges))
  {
    i := |edges| - 1;
    assert edges[..0] == [];
    if i > 0 && edges[i].src != MaxId(edges) && edges[i].dst != MaxId(edges) {
      i := MaxIdOccurs(edges[..i]);
    }
  }

  // ---- Edges taken backwards ----

  ghost function Flip(E: set<Edge>): set<Edge> {
    set e | e in E :: Edge(e.dst, e.src, e.weight)
  }

  function Flipped(edges: seq<Edge>): (r: seq<Edge>)
    ensures |r| == |edges|
  {
    seq(|edges|, i requires 0 <= i < |edges| => Edge(edges[i].dst, edges[i].src, edges[i].weight))
  }

  lemma FlippedEdgeSet(edges: seq<Edge>)
    ensures EdgeSet(Flipped(edges)) == Flip(EdgeSet(edges))
  {
    forall e | e in edges
      ensures Edge(e.dst, e.src, e.weight) in Flipped(edges)
    {
      var i :| 0 <= i < |edges| && edges[i] == e;
      assert Flipped(edges)[i] == Edge(e.dst, e.src, e.weight);
    }
    forall x | x in Flipped(edges)
      ensures x in Flip(EdgeSet(edges))
    {
      var i :| 0 <= i < |edges| && Flipped(edges)[i] == x;
      assert edges[i] in EdgeSet(edges);
    }
  }

  ghost predicate U64Ids(E: set<Edge>) {
    forall e | e in E :: e.src <= U64_MAX && e.dst <= U64_MAX
  }

  ghost predicate Loopless(E: set<Edge>) {
    forall e | e in E :: e.src != e.dst
  }

  lemma FlippedIsSimple(edges: seq<Edge>)
    requires SimpleStream(edges)
    ensures SimpleStream(Flipped(edges))
  {
    forall e | e in Flipped(edges)
      ensures e.src != e.dst && e.src <= U64_MAX && e.dst <= U64_MAX
    {
      var i :| 0 <= i < |edges| && Flipped(edges)[i] == e;
      assert edges[i] in edges;
    }
  }

  lemma FlippedPermuted(edges: seq<Edge>, p: seq<nat>)
    requires forall i | 0 <= i < |p| :: p[i] < |edges|
    ensures Flipped(Permuted(edges, p)) == Permuted(Flipped(edges), p)
  {}
}
