/** Loading an undirected graph: the outgoing and incoming rows of the directed load are merged
    vertex by vertex, library/baseline/csr.cpp:323-397. */
module UndirectedLoad {
  import opened ByteArray
  import opened Counting
  import opened Csr
  import opened CsrLoad
  import opened EdgeStream
  import opened Numbers
  import opened Paths
  import opened Streams

  // ---- Merging two rows ----

  ghost function RowEdges(r: Rows, v: nat): (s: seq<Edge>)
    requires r.Valid(|r.v|) && v < |r.v|
    ensures |s| == r.Degree(v)
  {
    RowInBounds(r, |r.v|, v);
    seq(r.Degree(v), j requires 0 <= j < r.Degree(v) => Edge(v, r.e[r.First(v) + j], r.w[r.First(v) + j]))
  }

  ghost function Merge(a: seq<Edge>, b: seq<Edge>): seq<Edge> {
    if a == [] then b
    else if b == [] then a
    else if a[0].dst < b[0].dst then [a[0]] + Merge(a[1..], b)
    else [b[0]] + Merge(a, b[1..])
  }

  lemma {:induction false} MergeElements(a: seq<Edge>, b: seq<Edge>)
    ensures |Merge(a, b)| == |a| + |b|
    ensures EdgeSet(Merge(a, b)) == EdgeSet(a) + EdgeSet(b)
  {
    if a != [] && b != [] {
      if a[0].dst < b[0].dst {
        MergeElements(a[1..], b);
        assert a == [a[0]] + a[1..];
        assert EdgeSet(a) == {a[0]} + EdgeSet(a[1..]);
        assert EdgeSet(Merge(a, b)) == {a[0]} + EdgeSet(Merge(a[1..], b));
      } else {
        MergeElements(a, b[1..]);
        assert b == [b[0]] + b[1..];
        assert EdgeSet(b) == {b[0]} + EdgeSet(b[1..]);
        assert EdgeSet(Merge(a, b)) == {b[0]} + EdgeSet(Merge(a, b[1..]));
      }
    }
  }

  /** What the assertion at line 350 demands of the two rows of a vertex. */
  ghost predicate NoCommonTarget(a: seq<Edge>, b: seq<Edge>) {
    forall i, j | 0 <= i < |a| && 0 <= j < |b| :: a[i].dst != b[j].dst
  }

  ghost predicate AllFrom(s: seq<Edge>, v: nat) {
    forall i | 0 <= i < |s| :: s[i].src == v
  }

  lemma {:induction false} MergeAscends(a: seq<Edge>, b: seq<Edge>, v: nat)
    requires StrictlyAscending(a) && StrictlyAscending(b) && AllFrom(a, v) && AllFrom(b, v) && NoCommonTarget(a, b)
    ensures StrictlyAscending(Merge(a, b)) && AllFrom(Merge(a, b), v)
  {
    if a != [] && b != [] {
      if a[0].dst < b[0].dst {
        MergeAscends(a[1..], b, v);
        MergeElements(a[1..], b);
        ConsAscends(a[0], Merge(a[1..], b), a[1..], b, v);
      } else {
        MergeAscends(a, b[1..], v);
        MergeElements(a, b[1..]);
        assert b[0].dst < a[0].dst;
        ConsAscends(b[0], Merge(a, b[1..]), a, b[1..], v);
      }
    }
  }

  lemma ConsAscends(x: Edge, rest: seq<Edge>, a: seq<Edge>, b: seq<Edge>, v: nat)
    requires EdgeSet(rest) == EdgeSet(a) + EdgeSet(b) && StrictlyAscending(rest) && AllFrom(rest, v) && x.src == v
    requires forall i | 0 <= i < |a| :: x.dst < a[i].dst
    requires forall i | 0 <= i < |b| :: x.dst < b[i].dst
    ensures StrictlyAscending([x] + rest) && AllFrom([x] + rest, v)
  {
    forall i | 0 <= i < |rest|
      ensures LexLess(x, rest[i])
    {
      assert rest[i] in EdgeSet(rest);
    }
  }

  /** The two rows up to a and b have been merged into done. */
  ghost predicate Merging(outs: seq<Edge>, ins: seq<Edge>, a: nat, b: nat, done: seq<Edge>) {
    && a <= |outs| && b <= |ins| && |done| == a + b
    && done + Merge(outs[a..], ins[b..]) == Merge(outs, ins)
  }

  lemma MergingTakesOut(outs: seq<Edge>, ins: seq<Edge>, a: nat, b: nat, done: seq<Edge>)
    requires Merging(outs, ins, a, b, done) && a < |outs| && (b < |ins| ==> outs[a].dst < ins[b].dst)
    ensures Merging(outs, ins, a + 1, b, done + [outs[a]])
  {
    assert outs[a..][1..] == outs[a + 1..];
    assert Merge(outs[a..], ins[b..]) == [outs[a]] + Merge(outs[a + 1..], ins[b..]);
    assert done + ([outs[a]] + Merge(outs[a + 1..], ins[b..])) == (done + [outs[a]]) + Merge(outs[a + 1..], ins[b..]);
  }

  lemma MergingTakesIn(outs: seq<Edge>, ins: seq<Edge>, a: nat, b: nat, done: seq<Edge>)
    requires Merging(outs, ins, a, b, done) && b < |ins| && (a < |outs| ==> ins[b].dst <= outs[a].dst)
    ensures Merging(outs, ins, a, b + 1, done + [ins[b]])
  {
    assert ins[b..][1..] == ins[b + 1..];
    assert Merge(outs[a..], ins[b..]) == [ins[b]] + Merge(outs[a..], ins[b + 1..]);
    assert done + ([ins[b]] + Merge(outs[a..], ins[b + 1..])) == (done + [ins[b]]) + Merge(outs[a..], ins[b + 1..]);
  }

  /** The arrays hold the edges of flat, in order, from their first slot on. */
  ghost predicate Written(e: seq<nat>, w: seq<int>, flat: seq<Edge>) {
    && |flat| <= |e| == |w|
    && forall i | 0 <= i < |flat| :: e[i] == flat[i].dst && w[i] == flat[i].weight
  }

  lemma WrittenSnoc(e: seq<nat>, w: seq<int>, flat: seq<Edge>, x: Edge)
    requires Written(e, w, flat) && |flat| < |e|
    ensures Written(e[|flat| := x.dst], w[|flat| := x.weight], flat + [x])
  {}

  /** Two rows merged up to a and b, the result written behind flat. */
  ghost predicate Emitting(outs: seq<Edge>, ins: seq<Edge>, a: nat, b: nat, e: seq<nat>, w: seq<int>, flat: seq<Edge>, done: seq<Edge>) {
    Merging(outs, ins, a, b, done) && Written(e, w, flat + done) && |flat| + |outs| + |ins| <= |e|
  }

  lemma EmitOut(outs: seq<Edge>, ins: seq<Edge>, a: nat, b: nat, e: seq<nat>, w: seq<int>, flat: seq<Edge>, done: seq<Edge>)
    requires Emitting(outs, ins, a, b, e, w, flat, done) && a < |outs| && (b < |ins| ==> outs[a].dst < ins[b].dst)
    ensures var k, x := |flat| + |done|, outs[a];
            k < |e| && Emitting(outs, ins, a + 1, b, e[k := x.dst], w[k := x.weight], flat, done + [x])
  {
    MergingTakesOut(outs, ins, a, b, done);
    WrittenSnoc(e, w, flat + done, outs[a]);
    assert flat + (done + [outs[a]]) == flat + done + [outs[a]];
  }

  lemma EmitIn(outs: seq<Edge>, ins: seq<Edge>, a: nat, b: nat, e: seq<nat>, w: seq<int>, flat: seq<Edge>, done: seq<Edge>)
    requires Emitting(outs, ins, a, b, e, w, flat, done) && b < |ins| && (a < |outs| ==> ins[b].dst <= outs[a].dst)
    ensures var k, x := |flat| + |done|, ins[b];
            k < |e| && Emitting(outs, ins, a, b + 1, e[k := x.dst], w[k := x.weight], flat, done + [x])
  {
    MergingTakesIn(outs, ins, a, b, done);
    WrittenSnoc(e, w, flat + done, ins[b]);
    assert flat + (done + [ins[b]]) == flat + done + [ins[b]];
  }

  lemma RowEdgeAt(r: Rows, v: nat, i: nat)
    requires r.Valid(|r.v|) && r.InRow(v, i)
    ensures i < |r.e| && RowEdges(r, v)[i - r.First(v)] == Edge(v, r.e[i], r.w[i])
  {
    RowInBounds(r, |r.v|, v);
  }

  /** The loops of lines 349-379 while they work on v: the rows are merged up to positions out and inc. */
  ghost predicate AtVertex(g: Csr, v: nat, e: seq<nat>, w: seq<int>, flat: seq<Edge>, out: nat, inc: nat, done: seq<Edge>) {
    && g.out.Valid(g.n) && g.inc.Valid(g.n) && v < g.n
    && g.out.First(v) <= out && g.inc.First(v) <= inc
    && Emitting(RowEdges(g.out, v), RowEdges(g.inc, v), out - g.out.First(v), inc - g.inc.First(v), e, w, flat, done)
  }

  lemma AfterTakeOut(g: Csr, v: nat, e: seq<nat>, w: seq<int>, flat: seq<Edge>, out: nat, inc: nat, done: seq<Edge>)
    requires AtVertex(g, v, e, w, flat, out, inc, done)
    requires g.out.InRow(v, out) && (g.inc.InRow(v, inc) ==> g.out.e[out] < g.inc.e[inc])
    ensures out < |g.out.e| && |flat| + |done| < |e|
    ensures var k, x := |flat| + |done|, Edge(v, g.out.e[out], g.out.w[out]);
            AtVertex(g, v, e[k := x.dst], w[k := x.weight], flat, out + 1, inc, done + [x])
  {
    RowEdgeAt(g.out, v, out);
    if g.inc.InRow(v, inc) {
      RowEdgeAt(g.inc, v, inc);
    }
    EmitOut(RowEdges(g.out, v), RowEdges(g.inc, v), out - g.out.First(v), inc - g.inc.First(v), e, w, flat, done);
  }

  method TakeOut(g: Csr, v: nat, e: array<nat>, w: array<int>, k: nat, ghost flat: seq<Edge>, out: nat, ghost inc: nat, ghost done: seq<Edge>)
    returns (ghost done': seq<Edge>)
    requires AtVertex(g, v, e[..], w[..], flat, out, inc, done) && k == |flat| + |done|
    requires g.out.InRow(v, out) && (g.inc.InRow(v, inc) ==> g.out.e[out] < g.inc.e[inc])
    modifies e, w
    ensures AtVertex(g, v, e[..], w[..], flat, out + 1, inc, done') && |done'| == |done| + 1
  {
    AfterTakeOut(g, v, e[..], w[..], flat, out, inc, done);
    ghost var e0, w0 := e[..], w[..];
    e[k] := g.out.e[out];
    w[k] := g.out.w[out];
    done' := done + [Edge(v, g.out.e[out], g.out.w[out])];
    assert e[..] == e0[k := g.out.e[out]] && w[..] == w0[k := g.out.w[out]];
  }

  lemma AfterTakeIn(g: Csr, v: nat, e: seq<nat>, w: seq<int>, flat: seq<Edge>, out: nat, inc: nat, done: seq<Edge>)
    requires AtVertex(g, v, e, w, flat, out, inc, done)
    requires g.inc.InRow(v, inc) && (g.out.InRow(v, out) ==> g.inc.e[inc] <= g.out.e[out])
    ensures inc < |g.inc.e| && |flat| + |done| < |e|
    ensures var k, x := |flat| + |done|, Edge(v, g.inc.e[inc], g.inc.w[inc]);
            AtVertex(g, v, e[k := x.dst], w[k := x.weight], flat, out, inc + 1, done + [x])
  {
    RowEdgeAt(g.inc, v, inc);
    if g.out.InRow(v, out) {
      RowEdgeAt(g.out, v, out);
    }
    EmitIn(RowEdges(g.out, v), RowEdges(g.inc, v), out - g.out.First(v), inc - g.inc.First(v), e, w, flat, done);
  }

  method TakeIn(g: Csr, v: nat, e: array<nat>, w: array<int>, k: nat, ghost flat: seq<Edge>, ghost out: nat, inc: nat, ghost done: seq<Edge>)
    returns (ghost done': seq<Edge>)
    requires AtVertex(g, v, e[..], w[..], flat, out, inc, done) && k == |flat| + |done|
    requires g.inc.InRow(v, inc) && (g.out.InRow(v, out) ==> g.inc.e[inc] <= g.out.e[out])
    modifies e, w
    ensures AtVertex(g, v, e[..], w[..], flat, out, inc + 1, done') && |done'| == |done| + 1
  {
    AfterTakeIn(g, v, e[..], w[..], flat, out, inc, done);
    ghost var e0, w0 := e[..], w[..];
    e[k] := g.inc.e[inc];
    w[k] := g.inc.w[inc];
    done' := done + [Edge(v, g.inc.e[inc], g.inc.w[inc])];
    assert e[..] == e0[k := g.inc.e[inc]] && w[..] == w0[k := g.inc.w[inc]];
  }

  lemma StartVertex(g: Csr, v: nat, e: seq<nat>, w: seq<int>, flat: seq<Edge>)
    requires g.out.Valid(g.n) && g.inc.Valid(g.n) && v < g.n && Written(e, w, flat)
    requires |flat| + g.out.Degree(v) + g.inc.Degree(v) <= |e|
    ensures AtVertex(g, v, e, w, flat, g.out.First(v), g.inc.First(v), [])
  {
    assert flat + [] == flat;
    assert RowEdges(g.out, v)[0..] == RowEdges(g.out, v) && RowEdges(g.inc, v)[0..] == RowEdges(g.inc, v);
  }

  lemma FinishVertex(g: Csr, v: nat, e: seq<nat>, w: seq<int>, flat: seq<Edge>, out: nat, inc: nat, done: seq<Edge>)
    requires AtVertex(g, v, e, w, flat, out, inc, done) && out >= g.out.Last(v) && inc >= g.inc.Last(v)
    ensures Written(e, w, flat + Merge(RowEdges(g.out, v), RowEdges(g.inc, v)))
    ensures |done| == g.out.Degree(v) + g.inc.Degree(v)
  {
    var outs, ins := RowEdges(g.out, v), RowEdges(g.inc, v);
    assert outs[|outs|..] == [] && ins[|ins|..] == [];
    assert done + [] == done;
  }

  /** The body of the loop over both rows: the smaller target goes first. */
  method TakeSmaller(g: Csr, v: nat, e: array<nat>, w: array<int>, k: nat, ghost flat: seq<Edge>, out: nat, inc: nat, ghost done: seq<Edge>)
    returns (out': nat, inc': nat, ghost done': seq<Edge>)
    requires AtVertex(g, v, e[..], w[..], flat, out, inc, done) && k == |flat| + |done|
    requires out < g.out.Last(v) && inc < g.inc.Last(v)
    modifies e, w
    ensures AtVertex(g, v, e[..], w[..], flat, out', inc', done') && |done'| == |done| + 1
    ensures out' + inc' == out + inc + 1 && out <= out' && inc <= inc'
  {
    RowInBounds(g.out, g.n, v);
    RowInBounds(g.inc, g.n, v);
    if g.out.e[out] < g.inc.e[inc] {
      done' := TakeOut(g, v, e, w, k, flat, out, inc, done);
      out', inc' := out + 1, inc;
    } else {
      done' := TakeIn(g, v, e, w, k, flat, out, inc, done);
      out', inc' := out, inc + 1;
    }
  }

  /** The loop over both rows, lines 349-365. */
  method MergeBoth(g: Csr, v: nat, e: array<nat>, w: array<int>, k0: nat, ghost flat: seq<Edge>)
    returns (out: nat, inc: nat, k: nat, ghost done: seq<Edge>)
    requires g.out.Valid(g.n) && g.inc.Valid(g.n) && v < g.n && k0 == |flat|
    requires AtVertex(g, v, e[..], w[..], flat, g.out.First(v), g.inc.First(v), [])
    modifies e, w
    ensures AtVertex(g, v, e[..], w[..], flat, out, inc, done) && k == |flat| + |done|
    ensures out >= g.out.Last(v) || inc >= g.inc.Last(v)
  {
    done := [];
    out, inc := g.out.First(v), g.inc.First(v);
    k := k0;
    while out < g.out.Last(v) && inc < g.inc.Last(v)
      invariant AtVertex(g, v, e[..], w[..], flat, out, inc, done) && k == |flat| + |done|
      decreases g.out.Last(v) + g.inc.Last(v) - out - inc
    {
      out, inc, done := TakeSmaller(g, v, e, w, k, flat, out, inc, done);
      k := k + 1;
    }
  }

  /** The loop over what is left of the outgoing row, lines 366-372. */
  method DrainOut(g: Csr, v: nat, e: array<nat>, w: array<int>, k0: nat, ghost flat: seq<Edge>, out0: nat, ghost inc: nat, ghost done0: seq<Edge>)
    returns (k: nat, ghost out: nat, ghost done: seq<Edge>)
    requires AtVertex(g, v, e[..], w[..], flat, out0, inc, done0) && k0 == |flat| + |done0|
    requires out0 >= g.out.Last(v) || inc >= g.inc.Last(v)
    modifies e, w
    ensures AtVertex(g, v, e[..], w[..], flat, out, inc, done) && k == |flat| + |done|
    ensures out >= g.out.Last(v)
  {
    var i: nat := out0;
    k, done := k0, done0;
    while i < g.out.Last(v)
      invariant AtVertex(g, v, e[..], w[..], flat, i, inc, done) && k == |flat| + |done|
    {
      done := TakeOut(g, v, e, w, k, flat, i, inc, done);
      i, k := i + 1, k + 1;
    }
    out := i;
  }

  /** The loop over what is left of the incoming row, lines 373-379. */
  method DrainIn(g: Csr, v: nat, e: array<nat>, w: array<int>, k0: nat, ghost flat: seq<Edge>, ghost out: nat, inc0: nat, ghost done0: seq<Edge>)
    returns (k: nat, ghost inc: nat, ghost done: seq<Edge>)
    requires AtVertex(g, v, e[..], w[..], flat, out, inc0, done0) && k0 == |flat| + |done0|
    requires out >= g.out.Last(v)
    modifies e, w
    ensures AtVertex(g, v, e[..], w[..], flat, out, inc, done) && k == |flat| + |done|
    ensures inc >= g.inc.Last(v)
  {
    var i: nat := inc0;
    k, done := k0, done0;
    while i < g.inc.Last(v)
      invariant AtVertex(g, v, e[..], w[..], flat, out, i, done) && k == |flat| + |done|
    {
      done := TakeIn(g, v, e, w, k, flat, out, i, done);
      i, k := i + 1, k + 1;
    }
    inc := i;
  }

  method MergeVertex(g: Csr, v: nat, e: array<nat>, w: array<int>, k0: nat, ghost flat: seq<Edge>) returns (k: nat)
    requires g.out.Valid(g.n) && g.inc.Valid(g.n) && v < g.n
    requires Written(e[..], w[..], flat) && k0 == |flat| && k0 + g.out.Degree(v) + g.inc.Degree(v) <= e.Length
    modifies e, w
    ensures k == k0 + g.out.Degree(v) + g.inc.Degree(v)
    ensures Written(e[..], w[..], flat + Merge(RowEdges(g.out, v), RowEdges(g.inc, v)))
  {
    StartVertex(g, v, e[..], w[..], flat);
    ghost var done: seq<Edge>, out1: nat, inc1: nat;
    var out, inc;
    out, inc, k, done := MergeBoth(g, v, e, w, k0, flat);
    k, out1, done := DrainOut(g, v, e, w, k, flat, out, inc, done);
    k, inc1, done := DrainIn(g, v, e, w, k, flat, out1, inc, done);
    FinishVertex(g, v, e[..], w[..], flat, out1, inc1, done);
  }

  // ---- All vertices ----

  /** What the merge emits for v. */
  ghost function MergedRow(g: Csr, v: nat): (s: seq<Edge>)
    requires g.out.Valid(g.n) && g.inc.Valid(g.n) && v < g.n
    ensures |s| == g.out.Degree(v) + g.inc.Degree(v)
  {
    MergeElements(RowEdges(g.out, v), RowEdges(g.inc, v));
    Merge(RowEdges(g.out, v), RowEdges(g.inc, v))
  }

  /** The edges in the order in which the merge emits them, for the vertices below v. */
  ghost function Flat(g: Csr, v: nat): seq<Edge>
    requires g.out.Valid(g.n) && g.inc.Valid(g.n) && v <= g.n
  {
    if v == 0 then [] else Flat(g, v - 1) + MergedRow(g, v - 1)
  }

  lemma FlatSnoc(g: Csr, v: nat)
    requires g.out.Valid(g.n) && g.inc.Valid(g.n) && v < g.n
    ensures Flat(g, v + 1) == Flat(g, v) + MergedRow(g, v)
    ensures forall x :: x in Flat(g, v + 1) <==> x in Flat(g, v) || x in MergedRow(g, v)
  {}

  ghost function Offset(r: Rows, v: nat): nat
    requires r.Valid(|r.v|) && v <= |r.v|
  {
    if v == 0 then 0 else r.Last(v - 1)
  }

  lemma OffsetBound(r: Rows, v: nat)
    requires r.Valid(|r.v|) && v <= |r.v|
    ensures Offset(r, v) <= |r.e| && Offset(r, |r.v|) == |r.e|
    ensures v < |r.v| ==> Offset(r, v) + r.Degree(v) == Offset(r, v + 1) <= |r.e|
  {
    if v < |r.v| {
      RowInBounds(r, |r.v|, v);
    }
  }

  ghost predicate FlatFits(g: Csr, v: nat)
    requires g.out.Valid(g.n) && g.inc.Valid(g.n) && v <= g.n
  {
    |Flat(g, v)| == Offset(g.out, v) + Offset(g.inc, v)
  }

  lemma FlatLengthStep(g: Csr, v: nat)
    requires g.out.Valid(g.n) && g.inc.Valid(g.n) && v < g.n && FlatFits(g, v)
    ensures FlatFits(g, v + 1)
  {
    FlatSnoc(g, v);
    OffsetBound(g.out, v);
    OffsetBound(g.inc, v);
  }

  lemma {:induction false} FlatLength(g: Csr, v: nat)
    requires g.out.Valid(g.n) && g.inc.Valid(g.n) && v <= g.n
    ensures FlatFits(g, v)
  {
    if v > 0 {
      FlatLength(g, v - 1);
      FlatLengthStep(g, v - 1);
    }
  }

  ghost function EdgesOf(r: Rows, v: nat): set<Edge>
    requires r.Valid(|r.v|)
  {
    set x | x in r.Edges() && x.src == v
  }

  lemma RowEdgesAre(r: Rows, v: nat)
    requires r.Valid(|r.v|) && v < |r.v|
    ensures EdgeSet(RowEdges(r, v)) == EdgesOf(r, v)
  {
    var s := RowEdges(r, v);
    RowInBounds(r, |r.v|, v);
    forall x | x in s
      ensures x in EdgesOf(r, v)
    {
      var j: nat :| j < |s| && s[j] == x;
      EdgeAt(r, v, r.First(v) + j);
    }
    forall x | x in EdgesOf(r, v)
      ensures x in s
    {
      var i: nat :| i < |r.e| && r.InRow(v, i) && x == Edge(v, r.e[i], r.w[i]);
      assert s[i - r.First(v)] == x;
    }
  }

  /** x is an edge of the merged graph. */
  ghost predicate IsEdge(g: Csr, x: Edge)
    requires g.out.Valid(g.n) && g.inc.Valid(g.n)
  {
    x in g.out.Edges() || x in g.inc.Edges()
  }

  lemma MergedRowEdges(g: Csr, v: nat, x: Edge)
    requires g.out.Valid(g.n) && g.inc.Valid(g.n) && v < g.n
    ensures x in MergedRow(g, v) <==> x.src == v && IsEdge(g, x)
  {
    MergeElements(RowEdges(g.out, v), RowEdges(g.inc, v));
    RowEdgesAre(g.out, v);
    RowEdgesAre(g.inc, v);
    assert x in MergedRow(g, v) <==> x in EdgeSet(MergedRow(g, v));
    assert x in EdgesOf(g.out, v) <==> x.src == v && x in g.out.Edges();
    assert x in EdgesOf(g.inc, v) <==> x.src == v && x in g.inc.Edges();
  }

  /** The edges emitted for the vertices below v are the edges that leave them. */
  lemma {:induction false} FlatEdges(g: Csr, v: nat, x: Edge)
    requires g.out.Valid(g.n) && g.inc.Valid(g.n) && v <= g.n
    ensures x in Flat(g, v) <==> x.src < v && IsEdge(g, x)
  {
    if v > 0 {
      FlatEdges(g, v - 1, x);
      FlatSnoc(g, v - 1);
      MergedRowEdges(g, v - 1, x);
    }
  }

  ghost predicate OneDirectionPerPair(g: Csr)
    requires g.out.Valid(g.n) && g.inc.Valid(g.n)
  {
    forall v: nat | v < g.n :: OneDirectionAt(g, v)
  }

  ghost predicate OneDirectionAt(g: Csr, v: nat)
    requires g.out.Valid(g.n) && g.inc.Valid(g.n) && v < g.n
  {
    NoCommonTarget(RowEdges(g.out, v), RowEdges(g.inc, v))
  }

  lemma RowEdgesAscend(r: Rows, v: nat)
    requires r.Valid(|r.v|) && v < |r.v| && r.StrictlySorted()
    ensures StrictlyAscending(RowEdges(r, v)) && AllFrom(RowEdges(r, v), v)
  {
    var s := RowEdges(r, v);
    RowInBounds(r, |r.v|, v);
    forall i, j | 0 <= i < j < |s|
      ensures LexLess(s[i], s[j])
    {
      assert r.InRow(v, r.First(v) + i) && r.InRow(v, r.First(v) + j);
    }
  }

  /** Strictly ascending, by edges of vertices below v. */
  ghost predicate AscendsBelow(flat: seq<Edge>, v: nat) {
    StrictlyAscending(flat) && forall i | 0 <= i < |flat| :: flat[i].src < v
  }

  lemma AppendAscends(flat: seq<Edge>, run: seq<Edge>, v: nat)
    requires AscendsBelow(flat, v) && StrictlyAscending(run) && AllFrom(run, v)
    ensures AscendsBelow(flat + run, v + 1)
  {}

  lemma FlatAscendsStep(g: Csr, v: nat)
    requires g.out.Valid(g.n) && g.inc.Valid(g.n) && v < g.n
    requires g.out.StrictlySorted() && g.inc.StrictlySorted() && OneDirectionPerPair(g)
    requires AscendsBelow(Flat(g, v), v)
    ensures AscendsBelow(Flat(g, v + 1), v + 1)
  {
    RowEdgesAscend(g.out, v);
    RowEdgesAscend(g.inc, v);
    assert OneDirectionAt(g, v);
    MergeAscends(RowEdges(g.out, v), RowEdges(g.inc, v), v);
    AppendAscends(Flat(g, v), MergedRow(g, v), v);
    FlatSnoc(g, v);
  }

  lemma {:induction false} FlatAscends(g: Csr, v: nat)
    requires g.out.Valid(g.n) && g.inc.Valid(g.n) && v <= g.n
    requires g.out.StrictlySorted() && g.inc.StrictlySorted() && OneDirectionPerPair(g)
    ensures AscendsBelow(Flat(g, v), v)
  {
    if v > 0 {
      FlatAscends(g, v - 1);
      FlatAscendsStep(g, v - 1);
    }
  }

  ghost function SourcesOf(flat: seq<Edge>): seq<nat> {
    seq(|flat|, i requires 0 <= i < |flat| => flat[i].src)
  }

  lemma {:induction false} CountRun(flat: seq<Edge>, run: seq<Edge>, v: nat, x: nat)
    requires AllFrom(run, v)
    ensures CountEq(SourcesOf(flat + run), x) == CountEq(SourcesOf(flat), x) + if x == v then |run| else 0
  {
    if run == [] {
      assert flat + run == flat;
    } else {
      var last := |run| - 1;
      CountRun(flat, run[..last], v, x);
      assert SourcesOf(flat + run) == SourcesOf(flat + run[..last]) + [run[last].src];
      CountEqSnoc(SourcesOf(flat + run[..last]), run[last].src, x);
    }
  }

  lemma {:induction false} MergeFrom(a: seq<Edge>, b: seq<Edge>, v: nat)
    requires AllFrom(a, v) && AllFrom(b, v)
    ensures AllFrom(Merge(a, b), v)
  {
    if a != [] && b != [] {
      if a[0].dst < b[0].dst {
        MergeFrom(a[1..], b, v);
      } else {
        MergeFrom(a, b[1..], v);
      }
    }
  }

  lemma CountVertex(g: Csr, v: nat, before: seq<nat>)
    requires g.out.Valid(g.n) && g.inc.Valid(g.n) && v < g.n
    requires Counted(before, SourcesOf(Flat(g, v))) && v < |before| && before[v] == 0
    ensures Counted(before[v := g.out.Degree(v) + g.inc.Degree(v)], SourcesOf(Flat(g, v + 1)))
  {
    var a, b := RowEdges(g.out, v), RowEdges(g.inc, v);
    MergeFrom(a, b, v);
    FlatSnoc(g, v);
    forall x: nat | x < |before|
      ensures CountEq(SourcesOf(Flat(g, v + 1)), x) == before[x] + if x == v then |a| + |b| else 0
    {
      CountRun(Flat(g, v), MergedRow(g, v), v, x);
    }
  }

  lemma RoomForVertex(g: Csr, v: nat)
    requires g.out.Valid(g.n) && g.inc.Valid(g.n) && v < g.n
    ensures |Flat(g, v)| + g.out.Degree(v) + g.inc.Degree(v) <= |g.out.e| + |g.inc.e|
  {
    FlatLength(g, v);
    OffsetBound(g.out, v);
    OffsetBound(g.inc, v);
  }

  /** The three arrays when the vertices below u have been merged. */
  ghost predicate MergedBelow(g: Csr, u: nat, v: seq<nat>, e: seq<nat>, w: seq<int>, k: nat)
    requires g.out.Valid(g.n) && g.inc.Valid(g.n)
  {
    && u <= g.n == |v| && |e| == |w| == |g.out.e| + |g.inc.e|
    && k == |Flat(g, u)| && Written(e, w, Flat(g, u))
    && Counted(v, SourcesOf(Flat(g, u)))
    && forall x | u <= x < g.n :: v[x] == 0
  }

  lemma NothingMerged(g: Csr, v: seq<nat>, e: seq<nat>, w: seq<int>)
    requires g.out.Valid(g.n) && g.inc.Valid(g.n)
    requires |v| == g.n && (forall x | 0 <= x < g.n :: v[x] == 0) && |e| == |w| == |g.out.e| + |g.inc.e|
    ensures MergedBelow(g, 0, v, e, w, 0)
  {
    NothingCounted(v);
  }

  method MergeOne(g: Csr, u: nat, v: array<nat>, e: array<nat>, w: array<int>, k0: nat) returns (k: nat)
    requires g.out.Valid(g.n) && g.inc.Valid(g.n) && u < g.n && v != e
    requires MergedBelow(g, u, v[..], e[..], w[..], k0)
    modifies v, e, w
    ensures MergedBelow(g, u + 1, v[..], e[..], w[..], k)
  {
    RoomForVertex(g, u);
    CountVertex(g, u, v[..]);
    FlatSnoc(g, u);
    ghost var before := v[..];
    var degree: nat := g.out.Degree(u) + g.inc.Degree(u);
    v[u] := degree;
    assert v[..] == before[u := degree];
    ghost var counts := v[..];
    k := MergeVertex(g, u, e, w, k0, Flat(g, u));
    assert v[..] == counts;
  }

  lemma AllRowsMerged(g: Csr)
    requires g.out.Valid(g.n) && g.inc.Valid(g.n)
    ensures |Flat(g, g.n)| == |g.out.e| + |g.inc.e|
  {
    FlatLength(g, g.n);
    OffsetBound(g.out, g.n);
    OffsetBound(g.inc, g.n);
  }

  /** The loop over the vertices, lines 337-380. */
  method MergeInto(g: Csr, v: array<nat>, e: array<nat>, w: array<int>) returns (k: nat)
    requires g.out.Valid(g.n) && g.inc.Valid(g.n) && v != e && MergedBelow(g, 0, v[..], e[..], w[..], 0)
    modifies v, e, w
    ensures MergedBelow(g, g.n, v[..], e[..], w[..], k)
  {
    var u := 0;
    k := 0;
    while u < g.n
      invariant MergedBelow(g, u, v[..], e[..], w[..], k)
    {
      k := MergeOne(g, u, v, e, w, k);
      u := u + 1;
    }
  }

  method MergeRows(g: Csr) returns (v: array<nat>, e: array<nat>, w: array<int>)
    requires g.out.Valid(g.n) && g.inc.Valid(g.n)
    requires |g.out.e| == |g.inc.e| == g.numEdges
    ensures fresh(v) && v != e && MergedBelow(g, g.n, v[..], e[..], w[..], 2 * g.numEdges)
  {
    AllRowsMerged(g);
    v, e, w := new nat[g.n](_ => 0), new nat[2 * g.numEdges], new int[2 * g.numEdges];
    NothingMerged(g, v[..], e[..], w[..]);
    var _ := MergeInto(g, v, e, w);
  }

  ghost predicate InRowsOf(r: Rows, flat: seq<Edge>) {
    forall u: nat, i: nat | i < |flat| :: r.InRow(u, i) <==> flat[i].src == u
  }

  /** Position i holds edge i of flat, in the row of its source. */
  ghost predicate Laid(r: Rows, n: nat, flat: seq<Edge>) {
    && r.Valid(n)
    && |flat| == |r.e| && Written(r.e, r.w, flat)
    && InRowsOf(r, flat)
  }

  lemma LaidEdges(r: Rows, n: nat, flat: seq<Edge>)
    requires Laid(r, n, flat)
    ensures r.Edges() == EdgeSet(flat)
  {
    forall x | x in r.Edges()
      ensures x in flat
    {
      var i: nat :| i < |r.e| && r.InRow(x.src, i) && x == Edge(x.src, r.e[i], r.w[i]);
      assert flat[i] == x;
    }
    forall x | x in flat
      ensures x in r.Edges()
    {
      var i: nat :| i < |flat| && flat[i] == x;
      assert r.InRow(x.src, i);
    }
  }

  lemma LaidRowsAscend(r: Rows, n: nat, flat: seq<Edge>)
    requires Laid(r, n, flat) && StrictlyAscending(flat)
    ensures r.StrictlySorted()
  {
    forall u: nat, i: nat, j: nat | r.InRow(u, i) && r.InRow(u, j) && i < j < |r.e|
      ensures r.e[i] < r.e[j]
    {
      assert LexLess(flat[i], flat[j]);
    }
  }

  /** The vertices are merged one after the other, so their edges follow each other. */
  lemma {:induction false} SourcesAscend(g: Csr, v: nat)
    requires g.out.Valid(g.n) && g.inc.Valid(g.n) && v <= g.n
    ensures NonDecreasing(SourcesOf(Flat(g, v))) && forall i | 0 <= i < |Flat(g, v)| :: Flat(g, v)[i].src < v
  {
    if v > 0 {
      SourcesAscend(g, v - 1);
      MergeFrom(RowEdges(g.out, v - 1), RowEdges(g.inc, v - 1), v - 1);
      SourcesJoin(Flat(g, v - 1), MergedRow(g, v - 1), v - 1);
    }
  }

  lemma SourcesJoin(flat: seq<Edge>, run: seq<Edge>, v: nat)
    requires NonDecreasing(SourcesOf(flat)) && (forall i | 0 <= i < |flat| :: flat[i].src < v) && AllFrom(run, v)
    ensures NonDecreasing(SourcesOf(flat + run)) && forall i | 0 <= i < |flat + run| :: (flat + run)[i].src <= v
  {
    var rows := SourcesOf(flat + run);
    forall i, j | 0 <= i <= j < |rows|
      ensures rows[i] <= rows[j]
    {
      assert j < |flat| ==> SourcesOf(flat)[i] <= SourcesOf(flat)[j];
    }
  }

  lemma FlatInRows(r: Rows, n: nat, flat: seq<Edge>)
    requires |r.v| == n && RowEnds(r.v, SourcesOf(flat)) && |r.w| == |r.e| == |flat|
    requires NonDecreasing(SourcesOf(flat)) && forall i | 0 <= i < |flat| :: flat[i].src < n && r.e[i] < n
    ensures r.Valid(n) && InRowsOf(r, flat)
  {
    RowsByNumber(r, SourcesOf(flat), n);
  }

  lemma FlatIsLaid(r: Rows, n: nat, flat: seq<Edge>)
    requires |r.v| == n && RowEnds(r.v, SourcesOf(flat)) && |flat| == |r.e| && Written(r.e, r.w, flat)
    requires NonDecreasing(SourcesOf(flat)) && forall i | 0 <= i < |flat| :: flat[i].src < n && flat[i].dst < n
    ensures Laid(r, n, flat)
  {
    FlatInRows(r, n, flat);
  }

  lemma FlatTargets(g: Csr, i: nat)
    requires g.out.Valid(g.n) && g.inc.Valid(g.n) && i < |Flat(g, g.n)|
    ensures Flat(g, g.n)[i].dst < g.n
  {
    FlatEdges(g, g.n, Flat(g, g.n)[i]);
  }

  lemma AllEdgesFlat(g: Csr)
    requires g.out.Valid(g.n) && g.inc.Valid(g.n)
    ensures EdgeSet(Flat(g, g.n)) == g.out.Edges() + g.inc.Edges()
  {
    forall x
      ensures x in EdgeSet(Flat(g, g.n)) <==> x in g.out.Edges() + g.inc.Edges()
    {
      FlatEdges(g, g.n, x);
    }
  }

  lemma FlatIsStrict(g: Csr)
    requires g.out.Valid(g.n) && g.inc.Valid(g.n)
    requires g.out.StrictlySorted() && g.inc.StrictlySorted() && OneDirectionPerPair(g)
    ensures StrictlyAscending(Flat(g, g.n))
  {
    FlatAscends(g, g.n);
  }

  /** Every vertex gets the union of its outgoing and incoming edges; strictly sorted if these are, and if the
      assertion at line 350 holds, without which both copies of an edge are kept. */
  method MergeDirections(g: Csr) returns (r: Rows)
    requires g.out.Valid(g.n) && g.inc.Valid(g.n)
    requires |g.out.e| == |g.inc.e| == g.numEdges
    ensures r.Valid(g.n) && |r.e| == 2 * g.numEdges && r.Edges() == g.out.Edges() + g.inc.Edges()
    ensures OneDirectionPerPair(g) && g.out.StrictlySorted() && g.inc.StrictlySorted() ==> r.StrictlySorted()
  {
    ghost var flat := Flat(g, g.n);
    var v, e, w := MergeRows(g);
    PrefixSum(v, SourcesOf(flat));
    r := Rows(v[..], e[..], w[..]);
    forall i | 0 <= i < |flat|
      ensures flat[i].dst < g.n
    {
      FlatTargets(g, i);
    }
    SourcesAscend(g, g.n);
    FlatIsLaid(r, g.n, flat);
    LaidEdges(r, g.n, flat);
    if OneDirectionPerPair(g) && g.out.StrictlySorted() && g.inc.StrictlySorted() {
      FlatIsStrict(g);
      LaidRowsAscend(r, g.n, flat);
    }
    AllEdgesFlat(g);
  }

  // ---- CSR::load_undirected ----

  /** Never both directions of an edge. */
  ghost predicate OneWay(E: set<Edge>) {
    forall e, f | e in E && f in E :: !(f.src == e.dst && f.dst == e.src)
  }

  ghost predicate Renames(index: map<nat, nat>, E: set<Edge>, x: Edge, e: Edge)
    requires Maps(index, E)
  {
    e in E && x == Edge(index[e.src], index[e.dst], e.weight)
  }

  lemma LogicalEdge(r: Rows, ids: seq<nat>, index: map<nat, nat>, E: set<Edge>, m: nat, x: Edge) returns (e: Edge)
    requires Maps(index, E) && Direction(r, ids, index, E, m) && !Misplaced(E) && x in r.Edges()
    ensures Renames(index, E, x, e)
  {
    assert x in Rename(E, index);
    e :| e in E && x == Edge(index[e.src], index[e.dst], e.weight);
  }

  lemma FlipTwice(E: set<Edge>)
    ensures Flip(Flip(E)) == E
  {
    forall e | e in E
      ensures e in Flip(Flip(E))
    {
      assert Edge(e.dst, e.src, e.weight) in Flip(E);
    }
    forall e | e in Flip(Flip(E))
      ensures e in E
    {
      var f :| f in Flip(E) && e == Edge(f.dst, f.src, f.weight);
    }
  }

  lemma MisplacedOnce(E: set<Edge>)
    requires Misplaced(E) && Loopless(E) && U64Ids(E)
    ensures !Misplaced(Flip(E))
    ensures forall e | e in E :: e.src == U64_MAX && e.dst < U64_MAX
    ensures forall f | f in Flip(E) :: f.src < U64_MAX && f.dst == U64_MAX
  {
    var e :| e in E && e.dst != U64_MAX;
    assert Edge(e.dst, e.src, e.weight) in Flip(E);
  }

  /** Rows of a star whose centre has the largest id: the targets of row 0 are the leaves. */
  lemma MisplacedDisjoint(a: Rows, b: Rows, ids: seq<nat>, index: map<nat, nat>, E: set<Edge>, m: nat, x: Edge, y: Edge)
    requires MapsExactly(ids, index, E) && Maps(index, Flip(E)) && Loopless(E) && U64Ids(E) && Misplaced(E)
    requires Direction(a, ids, index, E, m) && Direction(b, ids, index, Flip(E), m)
    requires x in a.Edges() && y in b.Edges()
    ensures x.dst != y.dst
  {
    MisplacedOnce(E);
    var e :| e in E && x.dst == index[e.dst];
    var f := LogicalEdge(b, ids, index, Flip(E), m, y);
    IndexKeepsOrder(ids, index, e.dst, f.dst);
  }

  lemma RowsDisjoint(g: Csr, ids: seq<nat>, index: map<nat, nat>, E: set<Edge>, x: Edge, y: Edge)
    requires DirectedLoad(g, ids, index, E) && Loopless(E) && OneWay(E)
    requires x in g.out.Edges() && y in g.inc.Edges() && x.src == y.src
    ensures x.dst != y.dst
  {
    if Misplaced(E) {
      MisplacedDisjoint(g.out, g.inc, ids, index, E, g.numEdges, x, y);
    } else if Misplaced(Flip(E)) {
      FlipTwice(E);
      FlippedMapsExactly(ids, index, E);
      MisplacedDisjoint(g.inc, g.out, ids, index, Flip(E), g.numEdges, y, x);
    } else {
      var e := LogicalEdge(g.out, ids, index, E, g.numEdges, x);
      var f := LogicalEdge(g.inc, ids, index, Flip(E), g.numEdges, y);
      var h :| h in E && f == Edge(h.dst, h.src, h.weight);
      IndexKeepsOrder(ids, index, e.src, h.dst);
      IndexKeepsOrder(ids, index, e.dst, h.src);
    }
  }

  lemma LoadedOneDirection(g: Csr, ids: seq<nat>, index: map<nat, nat>, E: set<Edge>)
    requires DirectedLoad(g, ids, index, E) && Loopless(E) && OneWay(E)
    ensures OneDirectionPerPair(g)
  {
    forall v: nat, i, j | v < g.n && 0 <= i < |RowEdges(g.out, v)| && 0 <= j < |RowEdges(g.inc, v)|
      ensures RowEdges(g.out, v)[i].dst != RowEdges(g.inc, v)[j].dst
    {
      RowEdgesAre(g.out, v);
      RowEdgesAre(g.inc, v);
      var x, y := RowEdges(g.out, v)[i], RowEdges(g.inc, v)[j];
      assert x in EdgeSet(RowEdges(g.out, v)) && y in EdgeSet(RowEdges(g.inc, v));
      RowsDisjoint(g, ids, index, E, x, y);
    }
  }

  /** The edges of the undirected graph in both directions, with logical ids. */
  ghost function BothWays(index: map<nat, nat>, E: set<Edge>): set<Edge>
    requires Maps(index, E) && Maps(index, Flip(E))
  {
    Rename(E, index) + Rename(Flip(E), index)
  }

  lemma MisplacedIsLost(a: Rows, b: Rows, ids: seq<nat>, index: map<nat, nat>, E: set<Edge>, m: nat)
    requires MapsExactly(ids, index, E) && Maps(index, Flip(E)) && Loopless(E) && U64Ids(E) && Misplaced(E)
    requires Direction(a, ids, index, E, m) && Direction(b, ids, index, Flip(E), m)
    ensures a.Edges() + b.Edges() != BothWays(index, E)
  {
    MisplacedOnce(E);
    var e :| e in E && e.dst != U64_MAX;
    var x := Edge(index[e.src], index[e.dst], e.weight);
    assert x in Rename(E, index);
    IndexKeepsOrder(ids, index, e.dst, e.src);
    if x in b.Edges() {
      var f := LogicalEdge(b, ids, index, Flip(E), m, x);
      IndexKeepsOrder(ids, index, f.src, e.src);
    }
  }

  lemma BothWaysFlipped(index: map<nat, nat>, E: set<Edge>)
    requires Maps(index, E) && Maps(index, Flip(E))
    ensures Maps(index, Flip(Flip(E))) && BothWays(index, Flip(E)) == BothWays(index, E)
  {
    FlipTwice(E);
  }

  lemma MisplacedBackwards(g: Csr, ids: seq<nat>, index: map<nat, nat>, E: set<Edge>)
    requires DirectedLoad(g, ids, index, E) && Loopless(E) && Misplaced(Flip(E))
    ensures g.out.Edges() + g.inc.Edges() != BothWays(index, E)
  {
    FlippedMapsExactly(ids, index, E);
    BothWaysFlipped(index, E);
    OutIsFlippedTwice(g, ids, index, E);
    MisplacedIsLost(g.inc, g.out, ids, index, Flip(E), g.numEdges);
    SameUnion(g.inc.Edges(), g.out.Edges());
  }

  lemma OutIsFlippedTwice(g: Csr, ids: seq<nat>, index: map<nat, nat>, E: set<Edge>)
    requires DirectedLoad(g, ids, index, E) && Maps(index, Flip(Flip(E)))
    ensures Direction(g.out, ids, index, Flip(Flip(E)), g.numEdges)
  {
    FlipTwice(E);
  }

  lemma SameUnion(a: set<Edge>, b: set<Edge>)
    ensures a + b == b + a
  {}

  lemma MisplacedEitherWay(g: Csr, ids: seq<nat>, index: map<nat, nat>, E: set<Edge>)
    requires DirectedLoad(g, ids, index, E) && Loopless(E) && (Misplaced(E) || Misplaced(Flip(E)))
    ensures g.out.Edges() + g.inc.Edges() != BothWays(index, E)
  {
    if Misplaced(E) {
      MisplacedIsLost(g.out, g.inc, ids, index, E, g.numEdges);
    } else {
      MisplacedBackwards(g, ids, index, E);
    }
  }

  lemma RightIffPlaced(g: Csr, ids: seq<nat>, index: map<nat, nat>, E: set<Edge>)
    requires DirectedLoad(g, ids, index, E) && Loopless(E)
    ensures g.out.Edges() + g.inc.Edges() == BothWays(index, E) <==> !Misplaced(E) && !Misplaced(Flip(E))
  {
    if Misplaced(E) || Misplaced(Flip(E)) {
      MisplacedEitherWay(g, ids, index, E);
    }
  }

  /** What load_undirected leaves for a simple stream with the largest id m. */
  ghost predicate UndirectedOutcome(g: Csr, ids: seq<nat>, index: map<nat, nat>, E: set<Edge>, m: nat) {
    && NamesRows(ids, index) && g.n == |ids| && g.inc == g.out && g.out.Valid(g.n) && |g.out.e| == 2 * g.numEdges
    && (Packs(m) ==> MergedLoad(g, ids, index, E))
    && (!Packs(m) ==> m !in index)
  }

  /** When the ids survive: strictly sorted rows, and every edge in both directions unless the stream is a star
      around the largest 64 bit id. */
  ghost predicate MergedLoad(g: Csr, ids: seq<nat>, index: map<nat, nat>, E: set<Edge>)
    requires g.out.Valid(g.n)
  {
    && g.out.StrictlySorted()
    && MapsExactly(ids, index, E) && Maps(index, Flip(E))
    && (g.out.Edges() == BothWays(index, E) <==> !Misplaced(E) && !Misplaced(Flip(E)))
  }

  lemma MergedOutcome(d: Csr, rows: Rows, ids: seq<nat>, index: map<nat, nat>, E: set<Edge>, m: nat)
    requires DirectedOutcome(d, ids, index, E, m) && Loopless(E) && OneWay(E)
    requires rows.Valid(d.n) && |rows.e| == 2 * d.numEdges && rows.Edges() == d.out.Edges() + d.inc.Edges()
    requires OneDirectionPerPair(d) && Packs(m) ==> rows.StrictlySorted()
    ensures UndirectedOutcome(Csr(d.n, d.numEdges, rows, rows), ids, index, E, m)
  {
    if Packs(m) {
      LoadedOneDirection(d, ids, index, E);
      RightIffPlaced(d, ids, index, E);
    }
  }

  /** CSR::load_undirected; false where the list of vertices throws. */
  method LoadUndirected(stream: WeightedEdgeStream, hardwareConcurrency: nat)
    returns (done: bool, g: Csr, ids: seq<nat>, index: map<nat, nat>)
    requires stream.Valid() && stream.maxVertexId == MaxId(stream.Edges())
    requires SimpleStream(stream.Edges()) && OneWay(EdgeSet(stream.Edges()))
    modifies stream
    ensures done <==> MaxId(old(stream.Edges())) > 1
    ensures done ==> g.numEdges == |old(stream.Edges())|
    ensures done ==> UndirectedOutcome(g, ids, index, EdgeSet(old(stream.Edges())), MaxId(old(stream.Edges())))
    ensures done && LoadedUndirected(g, ids, index, EdgeSet(old(stream.Edges()))) <==> RightlyLoaded(old(stream.Edges()))
  {
    ghost var edges := stream.Edges();
    var directed;
    done, directed, ids, index := LoadDirected(stream, hardwareConcurrency);
    if !done {
      return false, EMPTY_CSR, [], map[];
    }
    var rows := MergeDirections(directed);
    MergedOutcome(directed, rows, ids, index, EdgeSet(edges), MaxId(edges));
    g := Csr(directed.n, directed.numEdges, rows, rows);
    MaxOccurs(edges);
    LoadIsRightIff(g, ids, index, EdgeSet(edges), MaxId(edges));
  }

  // ---- What the kernels rely on ----

  /** A graph as LoadUndirected leaves it, for a stream that is not a star around the largest id. */
  ghost predicate LoadedUndirected(g: Csr, ids: seq<nat>, index: map<nat, nat>, E: set<Edge>) {
    && Loopless(E) && OneWay(E) && MapsExactly(ids, index, E) && Maps(index, Flip(E))
    && g.n == |ids| && g.out.Valid(g.n) && g.inc == g.out && g.out.StrictlySorted()
    && g.out.Edges() == BothWays(index, E)
  }

  lemma BothWaysIsSymmetric(ids: seq<nat>, index: map<nat, nat>, E: set<Edge>)
    requires MapsExactly(ids, index, E) && Maps(index, Flip(E))
    ensures Flip(BothWays(index, E)) == BothWays(index, E)
    ensures Loopless(E) ==> Loopless(BothWays(index, E))
  {
    var B := BothWays(index, E);
    forall x | x in B
      ensures Edge(x.dst, x.src, x.weight) in B && (Loopless(E) ==> x.src != x.dst)
    {
      if x in Rename(E, index) {
        var e :| e in E && x == Edge(index[e.src], index[e.dst], e.weight);
        assert Edge(e.dst, e.src, e.weight) in Flip(E);
        IndexKeepsOrder(ids, index, e.src, e.dst);
      } else {
        var f :| f in Flip(E) && x == Edge(index[f.src], index[f.dst], f.weight);
        assert Edge(f.dst, f.src, f.weight) in E;
        IndexKeepsOrder(ids, index, f.src, f.dst);
      }
    }
    forall x | x in B
      ensures x in Flip(B)
    {
      var y := Edge(x.dst, x.src, x.weight);
      assert y in B && x == Edge(y.dst, y.src, y.weight);
    }
  }

  /** Symmetric, without loops, rows strictly sorted: what the directed and undirected kernels ask of their graph. */
  lemma UndirectedIsValid(g: Csr, ids: seq<nat>, index: map<nat, nat>, E: set<Edge>)
    requires LoadedUndirected(g, ids, index, E)
    ensures g.Valid() && g.Simple()
    ensures Flip(g.out.Edges()) == g.out.Edges()
  {
    BothWaysIsSymmetric(ids, index, E);
    FlippedRowsAreTranspose(g);
    forall u: nat
      ensures !g.out.HasEdge(u, u)
    {
      HasEdgeIff(g.out, u, u);
    }
  }

  /** get_weight(s, d) == get_weight(d, s), and both are the weight given in either direction. */
  lemma StoredBothWays(g: Csr, ids: seq<nat>, index: map<nat, nat>, E: set<Edge>, s: nat, d: nat, w: int)
    requires LoadedUndirected(g, ids, index, E)
    ensures Stored(g, index, s, d, w) <==> Edge(s, d, w) in E || Edge(d, s, w) in E
    ensures Stored(g, index, s, d, w) <==> Stored(g, index, d, s, w)
  {
    StoredInStream(g, ids, index, E, s, d, w);
    StoredInStream(g, ids, index, E, d, s, w);
  }

  lemma StoredInStream(g: Csr, ids: seq<nat>, index: map<nat, nat>, E: set<Edge>, s: nat, d: nat, w: int)
    requires LoadedUndirected(g, ids, index, E)
    ensures Stored(g, index, s, d, w) <==> Edge(s, d, w) in E || Edge(d, s, w) in E
  {
    if Edge(d, s, w) in E {
      assert Edge(s, d, w) in Flip(E);
      assert Edge(index[s], index[d], w) in Rename(Flip(E), index);
    }
    if Stored(g, index, s, d, w) {
      var x := Edge(index[s], index[d], w);
      if x in Rename(E, index) {
        var e :| e in E && x == Edge(index[e.src], index[e.dst], e.weight);
        IndexKeepsOrder(ids, index, s, e.src);
        IndexKeepsOrder(ids, index, d, e.dst);
      } else {
        var f :| f in Flip(E) && x == Edge(index[f.src], index[f.dst], f.weight);
        IndexKeepsOrder(ids, index, s, f.src);
        IndexKeepsOrder(ids, index, d, f.dst);
      }
    }
  }

  // ---- When the load is right ----

  lemma BothWaysIsHeld(g: Csr, ids: seq<nat>, index: map<nat, nat>, E: set<Edge>)
    requires Loopless(E) && OneWay(E) && g.n == |ids| && g.out.Valid(g.n) && g.inc == g.out && MergedLoad(g, ids, index, E)
    requires !Misplaced(E) && !Misplaced(Flip(E))
    ensures LoadedUndirected(g, ids, index, E)
  {}

  /** The graph loaded holds the stream in both directions if and only if the largest id is no power of 256 and
      the stream is not a star around the largest 64 bit id. */
  lemma LoadIsRightIff(g: Csr, ids: seq<nat>, index: map<nat, nat>, E: set<Edge>, m: nat)
    requires UndirectedOutcome(g, ids, index, E, m) && Occurs(E, m) && m > 1 && Loopless(E) && OneWay(E)
    ensures LoadedUndirected(g, ids, index, E) <==> !IsPowerOf256(m) && !Misplaced(E) && !Misplaced(Flip(E))
  {
    if Packs(m) && !Misplaced(E) && !Misplaced(Flip(E)) {
      BothWaysIsHeld(g, ids, index, E);
    }
  }

  /** The weights read are those of the stream, in both directions. */
  ghost predicate WeightsAreRight(g: Csr, index: map<nat, nat>, E: set<Edge>)
    requires g.out.Valid(g.n)
  {
    forall s, d, w :: Stored(g, index, s, d, w) <==> Edge(s, d, w) in E || Edge(d, s, w) in E
  }

  lemma FlipMember(E: set<Edge>, s: nat, d: nat, w: int)
    ensures Edge(s, d, w) in Flip(E) <==> Edge(d, s, w) in E
  {
    if Edge(d, s, w) in E {
      assert Edge(s, d, w) in Flip(E);
    }
  }

  /** Reading the right weights everywhere takes the right edges. */
  lemma RightWeightsRightEdges(g: Csr, ids: seq<nat>, index: map<nat, nat>, E: set<Edge>)
    requires MapsExactly(ids, index, E) && Maps(index, Flip(E)) && g.n == |ids| && g.out.Valid(g.n)
    requires WeightsAreRight(g, index, E)
    ensures g.out.Edges() == BothWays(index, E)
  {
    forall x | x in g.out.Edges()
      ensures x in BothWays(index, E)
    {
      var s, d := ids[x.src], ids[x.dst];
      assert Stored(g, index, s, d, x.weight);
      FlipMember(E, s, d, x.weight);
    }
    forall e | e in E
      ensures Edge(index[e.src], index[e.dst], e.weight) in g.out.Edges()
      ensures Edge(index[e.dst], index[e.src], e.weight) in g.out.Edges()
    {
      assert Edge(e.src, e.dst, e.weight) in E;
      assert Stored(g, index, e.src, e.dst, e.weight) && Stored(g, index, e.dst, e.src, e.weight);
    }
    forall x | x in Rename(Flip(E), index)
      ensures x in g.out.Edges()
    {
      var f :| f in Flip(E) && x == Edge(index[f.src], index[f.dst], f.weight);
      FlipMember(E, f.src, f.dst, f.weight);
    }
  }

  /** get_weight gives the weight of the stream, in both directions, for all pairs of vertices, if and only if the
      largest id is no power of 256 and the stream is not a star around the largest 64 bit id. */
  lemma WeightsAreRightIff(g: Csr, ids: seq<nat>, index: map<nat, nat>, E: set<Edge>, m: nat)
    requires UndirectedOutcome(g, ids, index, E, m) && Occurs(E, m) && m > 1 && Loopless(E) && OneWay(E)
    ensures WeightsAreRight(g, index, E) <==> !IsPowerOf256(m) && !Misplaced(E) && !Misplaced(Flip(E))
  {
    LoadIsRightIff(g, ids, index, E, m);
    if LoadedUndirected(g, ids, index, E) {
      forall s, d, w
        ensures Stored(g, index, s, d, w) <==> Edge(s, d, w) in E || Edge(d, s, w) in E
      {
        StoredBothWays(g, ids, index, E, s, d, w);
      }
    } else if !Packs(m) {
      LostWeight(g, index, E, m);
    } else if WeightsAreRight(g, index, E) {
      RightWeightsRightEdges(g, ids, index, E);
    }
  }

  lemma LostWeight(g: Csr, index: map<nat, nat>, E: set<Edge>, m: nat)
    requires g.out.Valid(g.n) && Occurs(E, m) && m !in index
    ensures !WeightsAreRight(g, index, E)
  {
    var e :| e in E && (e.src == m || e.dst == m);
    assert Edge(e.src, e.dst, e.weight) in E && !Stored(g, index, e.src, e.dst, e.weight);
  }
}
