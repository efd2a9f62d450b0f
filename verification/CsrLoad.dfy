/** Loading a compressed sparse row graph from an edge stream, library/baseline/csr.cpp:242-321, and
    reading a weight back, lines 156-173. */
module CsrLoad {
  import opened ByteArray
  import opened Counting
  import opened Csr
  import opened EdgeStream
  import opened Numbers
  import opened Options
  import opened Paths
  import opened Streams

  // ---- Counting and prefix sums ----

  /** The vertex array of a list of row numbers. */
  ghost predicate RowEnds(v: seq<nat>, rows: seq<nat>) {
    forall x | 0 <= x < |v| :: v[x] == CountLe(rows, x)
  }


  lemma RowsAreValid(r: Rows, rows: seq<nat>, n: nat)
    requires |r.v| == n && |r.e| == |r.w| == |rows| && RowEnds(r.v, rows)
    requires forall i | 0 <= i < |rows| :: rows[i] < n && r.e[i] < n
    ensures r.Valid(n)
  {
    CountLeBounds(rows, n);
    if n == 0 {
      assert |rows| == 0;
    }
    forall i, j | 0 <= i <= j < n
      ensures r.v[i] <= r.v[j]
    {
      CountLeMonotone(rows, i, j);
    }
  }

  /** Position i belongs to the row number written at i. */
  lemma RowsByNumber(r: Rows, rows: seq<nat>, n: nat)
    requires |r.v| == n && |r.e| == |r.w| == |rows| && RowEnds(r.v, rows) && NonDecreasing(rows)
    requires forall i | 0 <= i < |rows| :: rows[i] < n && r.e[i] < n
    ensures r.Valid(n)
    ensures forall u: nat, i: nat | i < |rows| :: r.InRow(u, i) <==> rows[i] == u
  {
    RowsAreValid(r, rows, n);
    CountLeBounds(rows, n);
    forall u: nat, i: nat | i < |rows|
      ensures r.InRow(u, i) <==> rows[i] == u
    {
      SortedPrefix(rows, u, i);
      SortedPrefix(rows, u - 1, i);
    }
  }

  method PrefixSum(v: array<nat>, ghost rows: seq<nat>)
    requires forall x | 0 <= x < v.Length :: v[x] == CountEq(rows, x)
    modifies v
    ensures RowEnds(v[..], rows)
  {
    CountLeBounds(rows, 0);
    if v.Length > 0 {
      CountLeStep(rows, 0);
    }
    for i := 1 to if v.Length > 1 then v.Length else 1
      invariant forall x | 0 <= x < v.Length :: v[x] == if x < i then CountLe(rows, x) else CountEq(rows, x)
    {
      CountLeStep(rows, i);
      v[i] := v[i] + v[i - 1];
    }
  }

  // ---- The vertex mapping ----

  /** m_ext2log against m_log2ext, whatever the list: the row of an id has that id. */
  ghost predicate NamesRows(ids: seq<nat>, index: map<nat, nat>) {
    && index.Keys == Elements(ids)
    && forall x | x in index :: index[x] < |ids| && ids[index[x]] == x
  }

  /** m_ext2log against m_log2ext on a list without repetitions. */
  ghost predicate IsIndex(ids: seq<nat>, index: map<nat, nat>) {
    && Increasing(ids)
    && index.Keys == Elements(ids)
    && forall i | 0 <= i < |ids| :: ids[i] in index && index[ids[i]] == i
  }

  lemma IncreasingIsIndexed(ids: seq<nat>, index: map<nat, nat>)
    requires NamesRows(ids, index) && Increasing(ids)
    ensures IsIndex(ids, index)
  {
    forall i | 0 <= i < |ids|
      ensures ids[i] in index && index[ids[i]] == i
    {
      assert ids[i] in Elements(ids);
      assert ids[index[ids[i]]] == ids[i];
    }
  }

  /** The loop over the sorted vertices, lines 253-257: of two equal ids the later row wins. */
  method MapVertices(vertices: CByteArray) returns (ids: seq<nat>, index: map<nat, nat>)
    requires vertices.Valid()
    ensures ids == vertices.Values() && NamesRows(ids, index)
  {
    ids, index := [], map[];
    for i := 0 to vertices.capacity
      invariant ids == vertices.Values()[..i] && NamesRows(ids, index)
    {
      var vertexId := vertices.GetValueAt(i);
      assert Elements(ids + [vertexId]) == Elements(ids) + {vertexId};
      index := index[vertexId := i];
      ids := ids + [vertexId];
    }
    assert vertices.Values()[..vertices.capacity] == vertices.Values();
  }

  /** The two mappings are inverses and keep the order of the ids. */
  lemma IndexKeepsOrder(ids: seq<nat>, index: map<nat, nat>, x: nat, y: nat)
    requires IsIndex(ids, index) && x in index && y in index
    ensures index[x] < |ids| && ids[index[x]] == x
    ensures index[x] < index[y] <==> x < y
    ensures index[x] == index[y] <==> x == y
  {
    assert x in Elements(ids) && y in Elements(ids);
    var i :| 0 <= i < |ids| && ids[i] == x;
    var j :| 0 <= j < |ids| && ids[j] == y;
  }

  // ---- One direction of the graph ----

  /** All ends of the edges have a row. */
  ghost predicate Known(s: seq<Edge>, ids: seq<nat>, index: map<nat, nat>) {
    forall i | 0 <= i < |s| :: s[i].src in index && s[i].dst in index && index[s[i].src] < |ids| && index[s[i].dst] < |ids|
  }

  /** The first edges, up to i, all leave the largest id. */
  ghost predicate AtMax(s: seq<Edge>, i: nat)
    requires i < |s|
  {
    s[i].src == U64_MAX && (i == 0 || AtMax(s, i - 1))
  }

  lemma {:induction false} AtMaxBefore(s: seq<Edge>, i: nat, j: nat)
    requires i <= j < |s| && AtMax(s, j)
    ensures AtMax(s, i)
    decreases j
  {
    if i < j {
      AtMaxBefore(s, i, j - 1);
    }
  }

  lemma {:induction false} AllAtMax(s: seq<Edge>, i: nat)
    requires i < |s| && forall j | 0 <= j <= i :: s[j].src == U64_MAX
    ensures AtMax(s, i)
  {
    if i > 0 {
      AllAtMax(s, i - 1);
    }
  }

  /** The vertex whose counter edge i increments. As long as the stream has only edges that leave U64_MAX, they
      do not differ from the initial value of external_source_id, so they count for vertex 0. */
  ghost function RowNumber(s: seq<Edge>, index: map<nat, nat>, i: nat): nat
    requires i < |s| && s[i].src in index
  {
    if AtMax(s, i) then 0 else index[s[i].src]
  }

  ghost function RowNumbers(s: seq<Edge>, ids: seq<nat>, index: map<nat, nat>, k: nat): (r: seq<nat>)
    requires k <= |s| && Known(s, ids, index)
    ensures |r| == k && forall i | 0 <= i < k :: r[i] == RowNumber(s, index, i)
  {
    if k == 0 then [] else RowNumbers(s, ids, index, k - 1) + [RowNumber(s, index, k - 1)]
  }

  /** external_source_id and logical_source_id before edge i. */
  ghost predicate Cursor(s: seq<Edge>, index: map<nat, nat>, i: nat, external: nat, logical: nat)
    requires i <= |s|
  {
    if i == 0 then external == U64_MAX && logical == 0
    else external == s[i - 1].src && external in index && logical == RowNumber(s, index, i - 1)
  }

  lemma CursorStep(s: seq<Edge>, ids: seq<nat>, index: map<nat, nat>, i: nat, external: nat, logical: nat)
    requires i < |s| && Known(s, ids, index) && Cursor(s, index, i, external, logical)
    ensures s[i].src != external ==> RowNumber(s, index, i) == index[s[i].src]
    ensures s[i].src == external ==> RowNumber(s, index, i) == logical
    ensures Cursor(s, index, i + 1, s[i].src, RowNumber(s, index, i))
    ensures RowNumber(s, index, i) < |ids|
  {
    assert index[s[i].src] < |ids|;
  }

  /** The arrays after k edges. */
  ghost predicate Filled(s: seq<Edge>, ids: seq<nat>, index: map<nat, nat>, k: nat, e: seq<nat>, w: seq<int>)
    requires k <= |s| && Known(s, ids, index)
  {
    && |e| == |w| == |s|
    && forall i | 0 <= i < k :: e[i] == index[s[i].dst] && w[i] == s[i].weight
  }

  ghost predicate Counted(v: seq<nat>, rows: seq<nat>) {
    forall x | 0 <= x < |v| :: v[x] == CountEq(rows, x)
  }

  lemma CountedStep(v: seq<nat>, rows: seq<nat>, u: nat)
    requires Counted(v, rows) && u < |v|
    ensures Counted(v[u := v[u] + 1], rows + [u])
  {
    forall x: nat | x < |v|
      ensures CountEq(rows + [u], x) == CountEq(rows, x) + if u == x then 1 else 0
    {
      CountEqSnoc(rows, u, x);
    }
  }

  lemma NothingCounted(v: seq<nat>)
    requires forall x | 0 <= x < |v| :: v[x] == 0
    ensures Counted(v, [])
  {}

  lemma FilledStep(s: seq<Edge>, ids: seq<nat>, index: map<nat, nat>, k: nat, e: seq<nat>, w: seq<int>)
    requires k < |s| && Known(s, ids, index) && Filled(s, ids, index, k, e, w)
    ensures s[k].dst in index && Filled(s, ids, index, k + 1, e[k := index[s[k].dst]], w[k := s[k].weight])
  {}

  method Increment(v: array<nat>, u: nat, ghost rows: seq<nat>)
    requires u < v.Length && Counted(v[..], rows)
    modifies v
    ensures Counted(v[..], rows + [u])
  {
    CountedStep(v[..], rows, u);
    ghost var before := v[..];
    v[u] := v[u] + 1;
    assert v[..] == before[u := before[u] + 1];
  }

  /** The local variables and the arrays after i edges. */
  ghost predicate CountedUpTo(s: seq<Edge>, ids: seq<nat>, index: map<nat, nat>, i: nat, external: nat, logical: nat,
                              v: seq<nat>, e: seq<nat>, w: seq<int>)
    requires i <= |s| && Known(s, ids, index)
  {
    && |v| == |ids| && Counted(v, RowNumbers(s, ids, index, i))
    && Filled(s, ids, index, i, e, w) && Cursor(s, index, i, external, logical)
  }

  /** The body of the loop over the edges. */
  method CountEdge(s: seq<Edge>, ids: seq<nat>, index: map<nat, nat>, i: nat, external: nat, logical: nat,
                   v: array<nat>, e: array<nat>, w: array<int>)
    returns (external': nat, logical': nat)
    requires i < |s| && Known(s, ids, index) && CountedUpTo(s, ids, index, i, external, logical, v[..], e[..], w[..]) && v != e
    modifies v, e, w
    ensures CountedUpTo(s, ids, index, i + 1, external', logical', v[..], e[..], w[..])
  {
    CursorStep(s, ids, index, i, external, logical);
    FilledStep(s, ids, index, i, e[..], w[..]);
    ghost var e0, w0 := e[..], w[..];
    external', logical' := external, logical;
    if s[i].src != external {
      external' := s[i].src;
      logical' := index[external'];
    }
    Increment(v, logical', RowNumbers(s, ids, index, i));
    e[i] := index[s[i].dst];
    w[i] := s[i].weight;
    assert e[..] == e0[i := index[s[i].dst]] && w[..] == w0[i := s[i].weight];
  }

  lemma CountingStarts(s: seq<Edge>, ids: seq<nat>, index: map<nat, nat>, v: seq<nat>, e: seq<nat>, w: seq<int>)
    requires Known(s, ids, index) && |v| == |ids| && |e| == |w| == |s| && forall x | 0 <= x < |v| :: v[x] == 0
    ensures CountedUpTo(s, ids, index, 0, U64_MAX, 0, v, e, w)
  {
    NothingCounted(v);
  }

  /** The loop over the sorted edges, csr.cpp:267-284. */
  method CountInto(s: seq<Edge>, ids: seq<nat>, index: map<nat, nat>, v: array<nat>, e: array<nat>, w: array<int>)
    returns (external: nat, logical: nat)
    requires Known(s, ids, index) && CountedUpTo(s, ids, index, 0, U64_MAX, 0, v[..], e[..], w[..]) && v != e
    modifies v, e, w
    ensures CountedUpTo(s, ids, index, |s|, external, logical, v[..], e[..], w[..])
  {
    external, logical := U64_MAX, 0;
    var i := 0;
    while i < |s|
      invariant i <= |s| && CountedUpTo(s, ids, index, i, external, logical, v[..], e[..], w[..])
    {
      external, logical := CountEdge(s, ids, index, i, external, logical, v, e, w);
      i := i + 1;
    }
  }

  /** The new arrays and the loop that fills them, csr.cpp:261-284. */
  method CountRows(s: seq<Edge>, ids: seq<nat>, index: map<nat, nat>) returns (v: array<nat>, e: array<nat>, w: array<int>)
    requires Known(s, ids, index)
    ensures v.Length == |ids| && fresh(v) && v != e && Counted(v[..], RowNumbers(s, ids, index, |s|))
    ensures Filled(s, ids, index, |s|, e[..], w[..])
  {
    v, e, w := new nat[|ids|](_ => 0), new nat[|s|], new int[|s|];
    CountingStarts(s, ids, index, v[..], e[..], w[..]);
    var _, _ := CountInto(s, ids, index, v, e, w);
  }

  /** What the loop and the prefix sum leave for the edges s. */
  ghost predicate Built(r: Rows, s: seq<Edge>, ids: seq<nat>, index: map<nat, nat>) {
    && Known(s, ids, index)
    && |r.v| == |ids| && RowEnds(r.v, RowNumbers(s, ids, index, |s|))
    && Filled(s, ids, index, |s|, r.e, r.w)
  }

  lemma RowNumbersBelow(s: seq<Edge>, ids: seq<nat>, index: map<nat, nat>)
    requires Known(s, ids, index)
    ensures Bounded(RowNumbers(s, ids, index, |s|), |ids|)
  {
    var rows := RowNumbers(s, ids, index, |s|);
    forall i | 0 <= i < |rows|
      ensures rows[i] < |ids|
    {
      assert index[s[i].src] < |ids|;
    }
  }

  lemma BuiltIsValid(r: Rows, s: seq<Edge>, ids: seq<nat>, index: map<nat, nat>)
    requires Built(r, s, ids, index)
    ensures r.Valid(|ids|) && |r.e| == |s|
  {
    RowNumbersBelow(s, ids, index);
    forall i | 0 <= i < |s|
      ensures r.e[i] < |ids|
    {
      assert index[s[i].dst] < |ids|;
    }
    RowsAreValid(r, RowNumbers(s, ids, index, |s|), |ids|);
  }

  method BuildRows(s: seq<Edge>, ids: seq<nat>, index: map<nat, nat>) returns (r: Rows)
    requires Known(s, ids, index)
    ensures Built(r, s, ids, index) && r.Valid(|ids|) && |r.e| == |s|
  {
    var v, e, w := CountRows(s, ids, index);
    PrefixSum(v, RowNumbers(s, ids, index, |s|));
    r := Rows(v[..], e[..], w[..]);
    BuiltIsValid(r, s, ids, index);
  }

  // ---- Rows of a sorted stream ----

  /** The stream holds 64 bit ids, all of them in the mapping. */
  ghost predicate Covered(s: seq<Edge>, ids: seq<nat>, index: map<nat, nat>) {
    && IsIndex(ids, index)
    && forall i | 0 <= i < |s| :: s[i].src in index && s[i].dst in index && s[i].src <= U64_MAX && s[i].dst <= U64_MAX
  }

  lemma CoveredIsKnown(s: seq<Edge>, ids: seq<nat>, index: map<nat, nat>)
    requires Covered(s, ids, index)
    ensures Known(s, ids, index)
  {
    forall x | x in index
      ensures index[x] < |ids| && ids[index[x]] == x
    {
      IndexKeepsOrder(ids, index, x, x);
    }
  }

  lemma RowNumbersOrdered(s: seq<Edge>, ids: seq<nat>, index: map<nat, nat>, i: nat, j: nat)
    requires Ordered(s) && Covered(s, ids, index) && i < j < |s|
    ensures RowNumber(s, index, i) <= RowNumber(s, index, j)
  {
    assert !LexLess(s[j], s[i]);
    IndexKeepsOrder(ids, index, s[j].src, s[i].src);
    if AtMax(s, j) {
      AtMaxBefore(s, i, j);
    }
  }

  lemma RowNumbersAscend(s: seq<Edge>, ids: seq<nat>, index: map<nat, nat>)
    requires Ordered(s) && Covered(s, ids, index)
    ensures Known(s, ids, index) && NonDecreasing(RowNumbers(s, ids, index, |s|))
  {
    CoveredIsKnown(s, ids, index);
    var rows := RowNumbers(s, ids, index, |s|);
    forall i, j | 0 <= i <= j < |rows|
      ensures rows[i] <= rows[j]
    {
      assert rows[i] == RowNumber(s, index, i) && rows[j] == RowNumber(s, index, j);
      if i < j {
        RowNumbersOrdered(s, ids, index, i, j);
      }
    }
  }

  /** Position i holds edge i of the sorted stream, in the row it was counted for. */
  ghost predicate Grouped(r: Rows, s: seq<Edge>, ids: seq<nat>, index: map<nat, nat>) {
    && Covered(s, ids, index)
    && r.Valid(|ids|)
    && |r.e| == |r.w| == |s|
    && (forall i | 0 <= i < |s| :: r.e[i] == index[s[i].dst] && r.w[i] == s[i].weight)
    && forall u: nat, i: nat | i < |s| :: r.InRow(u, i) <==> RowNumber(s, index, i) == u
  }

  lemma RowsAreGrouped(r: Rows, s: seq<Edge>, ids: seq<nat>, index: map<nat, nat>)
    requires Ordered(s) && Covered(s, ids, index) && Built(r, s, ids, index)
    ensures Grouped(r, s, ids, index)
  {
    RowNumbersAscend(s, ids, index);
    RowNumbersBelow(s, ids, index);
    BuiltIsValid(r, s, ids, index);
    RowsByNumber(r, RowNumbers(s, ids, index, |s|), |ids|);
  }

  /** Two edges of one row leave the same vertex. */
  lemma SameRowSameSource(s: seq<Edge>, ids: seq<nat>, index: map<nat, nat>, i: nat, j: nat)
    requires Ordered(s) && Covered(s, ids, index) && i < j < |s| && RowNumber(s, index, i) == RowNumber(s, index, j)
    ensures s[i].src == s[j].src
  {
    assert !LexLess(s[j], s[i]);
    IndexKeepsOrder(ids, index, s[i].src, s[j].src);
    if AtMax(s, j) {
      AtMaxBefore(s, i, j);
    }
  }

  lemma GroupedIsSorted(r: Rows, s: seq<Edge>, ids: seq<nat>, index: map<nat, nat>)
    requires Grouped(r, s, ids, index) && StrictlyAscending(s)
    ensures r.StrictlySorted()
  {
    forall i, j | 0 <= i < j < |s|
      ensures !LexLess(s[j], s[i])
    {
      assert LexLess(s[i], s[j]);
    }
    forall u: nat, i: nat, j: nat | r.InRow(u, i) && r.InRow(u, j) && i < j < |r.e|
      ensures r.e[i] < r.e[j]
    {
      assert LexLess(s[i], s[j]);
      SameRowSameSource(s, ids, index, i, j);
      IndexKeepsOrder(ids, index, s[i].dst, s[j].dst);
    }
  }

  ghost predicate Maps(index: map<nat, nat>, E: set<Edge>) {
    forall e | e in E :: e.src in index && e.dst in index
  }

  /** All edges leave the largest id, and not all of them are loops there. */
  ghost predicate Misplaced(E: set<Edge>) {
    (exists e :: e in E && e.dst != U64_MAX) && forall e | e in E :: e.src == U64_MAX
  }

  /** All rows but the first are empty, and that one has the targets of E. */
  ghost predicate AllAtZero(r: Rows, index: map<nat, nat>, E: set<Edge>)
    requires r.Valid(|r.v|) && Maps(index, E)
  {
    forall x | x in r.Edges() :: x.src == 0 && exists e :: e in E && x.dst == index[e.dst]
  }

  lemma MisplacedRows(r: Rows, s: seq<Edge>, ids: seq<nat>, index: map<nat, nat>)
    requires Grouped(r, s, ids, index) && Misplaced(EdgeSet(s)) && Maps(index, EdgeSet(s))
    ensures r.Edges() != Rename(EdgeSet(s), index)
    ensures AllAtZero(r, index, EdgeSet(s))
  {
    var e :| e in EdgeSet(s) && e.dst != U64_MAX;
    assert e in s && s[0] in EdgeSet(s);
    IndexKeepsOrder(ids, index, e.dst, e.src);
    assert Edge(index[e.src], index[e.dst], e.weight) in Rename(EdgeSet(s), index);
    forall x | x in r.Edges()
      ensures x.src == 0 && exists e :: e in EdgeSet(s) && x.dst == index[e.dst]
    {
      var i: nat :| i < |r.e| && r.InRow(x.src, i) && x == Edge(x.src, r.e[i], r.w[i]);
      forall j | 0 <= j <= i
        ensures s[j].src == U64_MAX
      {
        assert s[j] in EdgeSet(s);
      }
      AllAtMax(s, i);
      assert RowNumber(s, index, i) == 0 && s[i] in EdgeSet(s);
    }
  }

  lemma LoopsAtMax(s: seq<Edge>, ids: seq<nat>, index: map<nat, nat>)
    requires Ordered(s) && Covered(s, ids, index) && index.Keys <= Endpoints(s)
    requires s != [] && s[0].src == U64_MAX && !Misplaced(EdgeSet(s))
    ensures forall i | 0 <= i < |s| :: index[s[i].src] == 0
  {
    forall i | 0 <= i < |s|
      ensures s[i].src == U64_MAX
    {
      assert i > 0 ==> !LexLess(s[i], s[0]);
    }
    forall e | e in s
      ensures e.src == e.dst == U64_MAX
    {
      assert e in EdgeSet(s);
    }
    assert ids[0] in Elements(ids);
    var e := EndpointOf(s, ids[0]);
  }

  lemma RowIsSource(s: seq<Edge>, ids: seq<nat>, index: map<nat, nat>, i: nat)
    requires Ordered(s) && Covered(s, ids, index) && index.Keys <= Endpoints(s)
    requires i < |s| && !Misplaced(EdgeSet(s))
    ensures RowNumber(s, index, i) == index[s[i].src] < |ids|
  {
    IndexKeepsOrder(ids, index, s[i].src, s[i].src);
    if AtMax(s, i) {
      AtMaxBefore(s, 0, i);
      LoopsAtMax(s, ids, index);
    }
  }

  lemma PlacedRows(r: Rows, s: seq<Edge>, ids: seq<nat>, index: map<nat, nat>)
    requires Ordered(s) && Grouped(r, s, ids, index) && index.Keys <= Endpoints(s)
    requires Maps(index, EdgeSet(s)) && !Misplaced(EdgeSet(s))
    ensures r.Edges() == Rename(EdgeSet(s), index)
  {
    forall x | x in r.Edges()
      ensures x in Rename(EdgeSet(s), index)
    {
      var i: nat :| i < |r.e| && r.InRow(x.src, i) && x == Edge(x.src, r.e[i], r.w[i]);
      RowIsSource(s, ids, index, i);
      assert s[i] in EdgeSet(s);
    }
    forall x | x in Rename(EdgeSet(s), index)
      ensures x in r.Edges()
    {
      var e :| e in EdgeSet(s) && x == Edge(index[e.src], index[e.dst], e.weight);
      var i :| 0 <= i < |s| && s[i] == e;
      RowIsSource(s, ids, index, i);
      assert r.InRow(index[e.src], i);
    }
  }

  // ---- Directed graphs ----

  /** The mapping covers exactly the vertices of the stream. */
  ghost predicate MapsExactly(ids: seq<nat>, index: map<nat, nat>, E: set<Edge>) {
    && IsIndex(ids, index)
    && Maps(index, E)
    && forall x | x in index :: exists e :: e in E && (x == e.src || x == e.dst)
  }

  /** One direction holds the edges E: always as many, the right ones unless E is misplaced. */
  ghost predicate Direction(r: Rows, ids: seq<nat>, index: map<nat, nat>, E: set<Edge>, numEdges: nat)
    requires Maps(index, E)
  {
    && r.Valid(|ids|)
    && |r.e| == numEdges
    && (r.Edges() == Rename(E, index) <==> !Misplaced(E))
    && (Misplaced(E) ==> AllAtZero(r, index, E))
  }

  lemma CoveredByMap(s: seq<Edge>, ids: seq<nat>, index: map<nat, nat>, E: set<Edge>)
    requires EdgeSet(s) == E && U64Ids(E) && MapsExactly(ids, index, E)
    ensures Covered(s, ids, index) && index.Keys <= Endpoints(s)
  {
    forall i | 0 <= i < |s|
      ensures s[i].src in index && s[i].dst in index && s[i].src <= U64_MAX && s[i].dst <= U64_MAX
    {
      assert s[i] in EdgeSet(s);
    }
    forall x | x in index
      ensures x in Endpoints(s)
    {
      var e :| e in E && (x == e.src || x == e.dst);
      EndpointsCover(s, e);
    }
  }

  /** The rows built from the sorted stream s. */
  lemma SortedRows(r: Rows, s: seq<Edge>, ids: seq<nat>, index: map<nat, nat>)
    requires Ordered(s) && U64Ids(EdgeSet(s)) && MapsExactly(ids, index, EdgeSet(s)) && Built(r, s, ids, index)
    ensures Direction(r, ids, index, EdgeSet(s), |s|)
    ensures StrictlyAscending(s) ==> r.StrictlySorted()
  {
    CoveredByMap(s, ids, index, EdgeSet(s));
    RowsAreGrouped(r, s, ids, index);
    if Misplaced(EdgeSet(s)) {
      MisplacedRows(r, s, ids, index);
    } else {
      PlacedRows(r, s, ids, index);
    }
    if StrictlyAscending(s) {
      GroupedIsSorted(r, s, ids, index);
    }
  }

  lemma FlippedMapsExactly(ids: seq<nat>, index: map<nat, nat>, E: set<Edge>)
    requires MapsExactly(ids, index, E) && U64Ids(E)
    ensures MapsExactly(ids, index, Flip(E)) && U64Ids(Flip(E))
    ensures Loopless(E) ==> Loopless(Flip(E))
  {
    forall x | x in index
      ensures exists e :: e in Flip(E) && (x == e.src || x == e.dst)
    {
      var e :| e in E && (x == e.src || x == e.dst);
      assert Edge(e.dst, e.src, e.weight) in Flip(E);
    }
  }

  /** What load_directed leaves when the ids survive: both directions, the incoming edges flipped. */
  ghost predicate DirectedLoad(g: Csr, ids: seq<nat>, index: map<nat, nat>, E: set<Edge>) {
    && U64Ids(E)
    && g.n == |ids| && MapsExactly(ids, index, E) && Maps(index, Flip(E))
    && Direction(g.out, ids, index, E, g.numEdges)
    && Direction(g.inc, ids, index, Flip(E), g.numEdges)
  }

  /** In every case: rows for the ids of the mapping, with as many edges as the stream. */
  ghost predicate Shaped(g: Csr, ids: seq<nat>, index: map<nat, nat>) {
    && NamesRows(ids, index) && g.n == |ids|
    && g.out.Valid(g.n) && g.inc.Valid(g.n) && |g.out.e| == |g.inc.e| == g.numEdges
  }

  /** What load_directed leaves for a stream with the largest id m: if that does not survive the byte arrays,
      no vertex has it any more. */
  ghost predicate DirectedOutcome(g: Csr, ids: seq<nat>, index: map<nat, nat>, E: set<Edge>, m: nat) {
    && Shaped(g, ids, index)
    && (Packs(m) ==> DirectedLoad(g, ids, index, E))
    && (!Packs(m) ==> m !in index)
  }

  /** The mapping knows the ids of the edges once these are reduced. */
  ghost predicate KnowsNarrowed(index: map<nat, nat>, edges: seq<Edge>, width: nat) {
    forall i | 0 <= i < |edges| :: Kept(edges[i].src, width) in index && Kept(edges[i].dst, width) in index
  }

  lemma KeptTwice(x: nat, width: nat)
    ensures Kept(Kept(x, width), width) == Kept(x, width)
  {
    ModKeeps(Kept(x, width), Pow256(width));
  }

  lemma NarrowedStaysKnown(index: map<nat, nat>, edges: seq<Edge>, p: seq<nat>, width: nat)
    requires KnowsNarrowed(index, edges, width) && forall i | 0 <= i < |p| :: p[i] < |edges|
    ensures KnowsNarrowed(index, Narrowed(Permuted(edges, p), width), width)
  {
    forall i | 0 <= i < |p|
      ensures Kept(Kept(edges[p[i]].src, width), width) in index && Kept(Kept(edges[p[i]].dst, width), width) in index
    {
      KeptTwice(edges[p[i]].src, width);
      KeptTwice(edges[p[i]].dst, width);
    }
  }

  lemma NarrowedIsKnown(ids: seq<nat>, index: map<nat, nat>, edges: seq<Edge>, p: seq<nat>, width: nat)
    requires NamesRows(ids, index) && KnowsNarrowed(index, edges, width) && forall i | 0 <= i < |p| :: p[i] < |edges|
    ensures Known(Narrowed(Permuted(edges, p), width), ids, index)
    ensures Known(Flipped(Narrowed(Permuted(edges, p), width)), ids, index)
  {}

  /** The list of the vertices names the reduced ends of the edges. */
  lemma ListKnowsEnds(edges: seq<Edge>, list: seq<nat>, width: nat, ids: seq<nat>, index: map<nat, nat>)
    requires Elements(list) == Endpoints(edges) && NamesRows(ids, index) && Elements(ids) == Elements(NarrowedIds(list, width))
    ensures KnowsNarrowed(index, edges, width)
  {
    forall i | 0 <= i < |edges|
      ensures Kept(edges[i].src, width) in index && Kept(edges[i].dst, width) in index
    {
      EndpointsCover(edges, edges[i]);
      var a :| 0 <= a < |list| && list[a] == edges[i].src;
      var b :| 0 <= b < |list| && list[b] == edges[i].dst;
      assert NarrowedIds(list, width)[a] in Elements(ids) && NarrowedIds(list, width)[b] in Elements(ids);
    }
  }

  /** Reduced ids stay below a largest id that is lost. */
  lemma LostIsUnknown(list: seq<nat>, m: nat, ids: seq<nat>, index: map<nat, nat>)
    requires 1 < m && !Packs(m) && NamesRows(ids, index) && Elements(ids) == Elements(NarrowedIds(list, Width(m)))
    ensures m !in index
  {
    WidthHoldsMaximumIff(m);
    forall x | x in NarrowedIds(list, Width(m))
      ensures Fits(x, Width(m))
    {}
  }

  lemma EndpointBelowMax(edges: seq<Edge>, x: nat)
    requires x in Endpoints(edges)
    ensures x <= MaxId(edges)
  {
    var e := EndpointOf(edges, x);
    var i :| 0 <= i < |edges| && edges[i] == e;
    MaxIdBounds(edges, i);
  }

  /** When the ids survive, the mapping is that of the stream. */
  lemma PackedIndex(edges: seq<Edge>, list: seq<nat>, ids: seq<nat>, index: map<nat, nat>)
    requires Packs(MaxId(edges)) && Distinct(list) && Elements(list) == Endpoints(edges)
    requires multiset(ids) == multiset(NarrowedIds(list, Width(MaxId(edges)))) && NonDecreasing(ids) && NamesRows(ids, index)
    ensures MapsExactly(ids, index, EdgeSet(edges))
  {
    var m := MaxId(edges);
    forall i | 0 <= i < |list|
      ensures Kept(list[i], Width(m)) == list[i]
    {
      assert list[i] in Elements(list);
      EndpointBelowMax(edges, list[i]);
      FitsBelowMaximum(m, list[i]);
      ModKeeps(list[i], Pow256(Width(m)));
    }
    assert NarrowedIds(list, Width(m)) == list;
    SortedIsIncreasing(ids, list);
    IncreasingIsIndexed(ids, index);
    IndexCoversStream(edges, ids, index);
  }

  lemma {:induction false} DistinctCount(s: seq<nat>, x: nat)
    requires Distinct(s)
    ensures multiset(s)[x] <= 1
  {
    if s != [] {
      var front := s[..|s| - 1];
      DistinctCount(front, x);
      assert s == front + [s[|s| - 1]];
    }
  }

  lemma CountedTwice(s: seq<nat>, i: nat, j: nat)
    requires i < j < |s| && s[i] == s[j]
    ensures multiset(s)[s[i]] >= 2
  {
    assert s == s[..j] + s[j..];
    assert s[..j][i] == s[i] && s[j..][0] == s[i];
    assert s[i] in multiset(s[..j]) && s[i] in multiset(s[j..]);
  }

  lemma SortedIsIncreasing(s: seq<nat>, list: seq<nat>)
    requires NonDecreasing(s) && Distinct(list) && multiset(s) == multiset(list)
    ensures Increasing(s) && Elements(s) == Elements(list)
  {
    SameElements(s, list);
    forall i, j | 0 <= i < j < |s|
      ensures s[i] < s[j]
    {
      DistinctCount(list, s[i]);
      if s[i] == s[j] {
        CountedTwice(s, i, j);
      }
    }
  }

  lemma IndexCoversStream(edges: seq<Edge>, ids: seq<nat>, index: map<nat, nat>)
    requires IsIndex(ids, index) && Elements(ids) == Endpoints(edges)
    ensures MapsExactly(ids, index, EdgeSet(edges))
  {
    forall e | e in EdgeSet(edges)
      ensures e.src in index && e.dst in index
    {
      EndpointsCover(edges, e);
    }
    forall x | x in index
      ensures exists e :: e in EdgeSet(edges) && (x == e.src || x == e.dst)
    {
      var e := EndpointOf(edges, x);
      assert e in EdgeSet(edges);
    }
  }

  lemma PackedFirstSort(edges: seq<Edge>, p: seq<nat>)
    requires Packs(MaxId(edges)) && forall i | 0 <= i < |p| :: p[i] < |edges|
    ensures Narrowed(Permuted(edges, p), Width(MaxId(edges))) == Permuted(edges, p)
  {
    forall i | 0 <= i < |p|
      ensures Permuted(edges, p)[i].src <= MaxId(edges) && Permuted(edges, p)[i].dst <= MaxId(edges)
    {
      MaxIdBounds(edges, p[i]);
    }
    PackedIsKept(Permuted(edges, p), MaxId(edges));
  }

  /** When the ids survive, both sorts only move the edges. */
  lemma PackedSecondSort(edges: seq<Edge>, p: seq<nat>, q: seq<nat>)
    requires Packs(MaxId(edges)) && IsPermutation(p, |edges|) && forall i | 0 <= i < |q| :: q[i] < |p|
    ensures var s := Permuted(edges, p);
            Narrowed(Permuted(s, q), Width(MaxId(edges))) == Permuted(s, q)
  {
    var t := Permuted(Permuted(edges, p), q);
    forall i | 0 <= i < |t|
      ensures t[i].src <= MaxId(edges) && t[i].dst <= MaxId(edges)
    {
      MaxIdBounds(edges, p[q[i]]);
    }
    PackedIsKept(t, MaxId(edges));
  }

  lemma SortedStream(edges: seq<Edge>, p: seq<nat>)
    requires IsPermutation(p, |edges|) && SortedBy(edges, p)
    ensures Ordered(Permuted(edges, p)) && EdgeSet(Permuted(edges, p)) == EdgeSet(edges)
  {
    PermutedSameEdges(edges, p);
  }

  lemma SortedBackwards(edges: seq<Edge>, p: seq<nat>, q: seq<nat>)
    requires IsPermutation(p, |edges|) && IsPermutation(q, |edges|) && SortedBy(Flipped(Permuted(edges, p)), q)
    ensures var t := Flipped(Permuted(Permuted(edges, p), q));
            Ordered(t) && EdgeSet(t) == Flip(EdgeSet(edges))
  {
    var s := Permuted(edges, p);
    FlippedPermuted(s, q);
    SortedStream(Flipped(s), q);
    PermutedSameEdges(edges, p);
    FlippedEdgeSet(s);
  }

  lemma SimpleSorts(edges: seq<Edge>, p: seq<nat>, q: seq<nat>)
    requires SimpleStream(edges) && IsPermutation(p, |edges|) && SortedBy(edges, p)
    requires IsPermutation(q, |edges|) && SortedBy(Flipped(Permuted(edges, p)), q)
    ensures StrictlyAscending(Permuted(edges, p)) && StrictlyAscending(Flipped(Permuted(Permuted(edges, p), q)))
  {
    SortedIsStrict(edges, p);
    FlippedIsSimple(Permuted(edges, p));
    SortedIsStrict(Flipped(Permuted(edges, p)), q);
    FlippedPermuted(Permuted(edges, p), q);
  }

  /** Both directions built from the two sorted streams. */
  lemma PackedLoad(edges: seq<Edge>, p: seq<nat>, q: seq<nat>, g: Csr, ids: seq<nat>, index: map<nat, nat>)
    requires Packs(MaxId(edges)) && U64Ids(EdgeSet(edges)) && MapsExactly(ids, index, EdgeSet(edges))
    requires IsPermutation(p, |edges|) && SortedBy(edges, p)
    requires IsPermutation(q, |edges|) && SortedBy(Flipped(Permuted(edges, p)), q)
    requires g.n == |ids| && g.numEdges == |edges|
    requires Built(g.out, Permuted(edges, p), ids, index) && Built(g.inc, Flipped(Permuted(Permuted(edges, p), q)), ids, index)
    ensures DirectedLoad(g, ids, index, EdgeSet(edges))
    ensures SimpleStream(edges) ==> g.out.StrictlySorted() && g.inc.StrictlySorted()
  {
    SortedStream(edges, p);
    SortedBackwards(edges, p, q);
    FlippedMapsExactly(ids, index, EdgeSet(edges));
    if SimpleStream(edges) {
      SimpleSorts(edges, p, q);
    }
    SortedRows(g.out, Permuted(edges, p), ids, index);
    SortedRows(g.inc, Flipped(Permuted(Permuted(edges, p), q)), ids, index);
  }

  lemma StreamIsWords(edges: seq<Edge>)
    requires MaxId(edges) < U64
    ensures U64Ids(EdgeSet(edges))
  {
    forall e | e in EdgeSet(edges)
      ensures e.src <= U64_MAX && e.dst <= U64_MAX
    {
      var i :| 0 <= i < |edges| && edges[i] == e;
      MaxIdBounds(edges, i);
    }
  }

  /** What vertex_list, the sort and the loop over the vertices leave. */
  ghost predicate Listing(edges: seq<Edge>, list: seq<nat>, ids: seq<nat>, index: map<nat, nat>) {
    && Distinct(list) && Elements(list) == Endpoints(edges)
    && multiset(ids) == multiset(NarrowedIds(list, Width(MaxId(edges)))) && NonDecreasing(ids) && NamesRows(ids, index)
  }

  lemma SameElements(a: seq<nat>, b: seq<nat>)
    requires multiset(a) == multiset(b)
    ensures Elements(a) == Elements(b)
  {
    forall x
      ensures x in a <==> x in b
    {
      assert x in a <==> x in multiset(a);
      assert x in b <==> x in multiset(b);
    }
  }

  /** Lines 248-258; false where the list of vertices throws. */
  method LoadVertices(stream: WeightedEdgeStream) returns (done: bool, ids: seq<nat>, index: map<nat, nat>, ghost list: seq<nat>)
    requires stream.Valid() && stream.maxVertexId == MaxId(stream.Edges())
    ensures done <==> stream.maxVertexId > 1
    ensures done ==> Listing(stream.Edges(), list, ids, index)
  {
    var vertices;
    vertices, list := stream.VertexList();
    if vertices == null {
      return false, [], map[], list;
    }
    vertices.Sort();
    ids, index := MapVertices(vertices);
    done := true;
  }

  /** CSR::load_directed; false where the list of vertices throws. */
  method LoadDirected(stream: WeightedEdgeStream, hardwareConcurrency: nat)
    returns (done: bool, g: Csr, ids: seq<nat>, index: map<nat, nat>)
    requires stream.Valid() && stream.maxVertexId == MaxId(stream.Edges())
    modifies stream
    ensures done <==> MaxId(old(stream.Edges())) > 1
    ensures done ==> g.numEdges == |old(stream.Edges())|
    ensures done ==> DirectedOutcome(g, ids, index, EdgeSet(old(stream.Edges())), MaxId(old(stream.Edges())))
    ensures done && HoldsStream(g, ids, index, EdgeSet(old(stream.Edges()))) <==> RightlyLoaded(old(stream.Edges()))
    ensures done && Packs(MaxId(old(stream.Edges()))) && SimpleStream(old(stream.Edges())) ==> g.out.StrictlySorted() && g.inc.StrictlySorted()
  {
    ghost var edges, width := stream.Edges(), Width(stream.maxVertexId);
    ghost var list, p, q;
    done, ids, index, list := LoadVertices(stream);
    if !done {
      return false, EMPTY_CSR, [], map[];
    }
    SameElements(ids, NarrowedIds(list, width));
    ListKnowsEnds(edges, list, width, ids, index);
    var _, sorted := stream.SortBySrcDst(hardwareConcurrency);
    p := sorted;
    NarrowedIsKnown(ids, index, edges, p, width);
    NarrowedStaysKnown(index, edges, p, width);
    var s := stream.Read();
    var out := BuildRows(s, ids, index);
    var _, sorted' := stream.SortByDstSrc(hardwareConcurrency);
    q := sorted';
    NarrowedIsKnown(ids, index, s, q, width);
    var t := stream.Read();
    var inc := BuildRows(Flipped(t), ids, index);
    g := Csr(|ids|, |s|, out, inc);
    Outcome(edges, list, p, q, g, ids, index);
    MaxOccurs(edges);
    LoadIsRightIff(g, ids, index, EdgeSet(edges), MaxId(edges));
  }

  /** The two sorted streams, and the graph built from them. */
  lemma Outcome(edges: seq<Edge>, list: seq<nat>, p: seq<nat>, q: seq<nat>, g: Csr, ids: seq<nat>, index: map<nat, nat>)
    requires 1 < MaxId(edges) < U64 && Listing(edges, list, ids, index)
    requires IsPermutation(p, |edges|) && SortedBy(edges, p)
    requires var s := Narrowed(Permuted(edges, p), Width(MaxId(edges)));
             && IsPermutation(q, |edges|) && SortedBy(Flipped(s), q)
             && Built(g.out, s, ids, index) && Built(g.inc, Flipped(Narrowed(Permuted(s, q), Width(MaxId(edges)))), ids, index)
    requires g.n == |ids| && g.numEdges == |edges|
    ensures DirectedOutcome(g, ids, index, EdgeSet(edges), MaxId(edges))
    ensures Packs(MaxId(edges)) && SimpleStream(edges) ==> g.out.StrictlySorted() && g.inc.StrictlySorted()
  {
    var s := Narrowed(Permuted(edges, p), Width(MaxId(edges)));
    BuiltIsValid(g.out, s, ids, index);
    BuiltIsValid(g.inc, Flipped(Narrowed(Permuted(s, q), Width(MaxId(edges)))), ids, index);
    SameElements(ids, NarrowedIds(list, Width(MaxId(edges))));
    if Packs(MaxId(edges)) {
      StreamIsWords(edges);
      PackedIndex(edges, list, ids, index);
      PackedFirstSort(edges, p);
      PackedSecondSort(edges, p, q);
      PackedLoad(edges, p, q, g, ids, index);
    } else {
      LostIsUnknown(list, MaxId(edges), ids, index);
    }
  }

  /** The incoming rows are the transpose of the outgoing ones. */
  lemma LoadedIsTranspose(g: Csr, ids: seq<nat>, index: map<nat, nat>, E: set<Edge>)
    requires DirectedLoad(g, ids, index, E) && !Misplaced(E) && !Misplaced(Flip(E))
    ensures g.Valid() && g.inc.Edges() == Flip(g.out.Edges())
  {
    forall x | x in g.out.Edges()
      ensures Edge(x.dst, x.src, x.weight) in g.inc.Edges()
    {
      var e :| e in E && x == Edge(index[e.src], index[e.dst], e.weight);
      assert Edge(e.dst, e.src, e.weight) in Flip(E);
    }
    forall x | x in g.inc.Edges()
      ensures Edge(x.dst, x.src, x.weight) in g.out.Edges()
    {
      var f :| f in Flip(E) && x == Edge(index[f.src], index[f.dst], f.weight);
      assert Edge(f.dst, f.src, f.weight) in E;
    }
    forall x | x in g.inc.Edges()
      ensures x in Flip(g.out.Edges())
    {
      assert x == Edge(x.src, x.dst, x.weight);
    }
    FlippedRowsAreTranspose(g);
  }

  lemma HasEdgeIff(r: Rows, u: nat, v: nat)
    requires r.Valid(|r.v|)
    ensures r.HasEdge(u, v) <==> exists w :: Edge(u, v, w) in r.Edges()
  {
    if r.HasEdge(u, v) {
      var i: nat :| r.InRow(u, i) && i < |r.e| && r.e[i] == v;
      EdgeAt(r, u, i);
    }
    if w :| Edge(u, v, w) in r.Edges() {
      var i: nat :| i < |r.e| && r.InRow(u, i) && Edge(u, v, w) == Edge(u, r.e[i], r.w[i]);
    }
  }

  lemma FlippedRowsAreTranspose(g: Csr)
    requires g.out.Valid(g.n) && g.inc.Valid(g.n) && g.inc.Edges() == Flip(g.out.Edges())
    ensures g.Valid()
  {
    forall u: nat, v: nat
      ensures g.out.HasEdge(u, v) <==> g.inc.HasEdge(v, u)
    {
      HasEdgeIff(g.out, u, v);
      HasEdgeIff(g.inc, v, u);
      if w :| Edge(u, v, w) in g.out.Edges() {
        assert Edge(v, u, w) in Flip(g.out.Edges());
      }
      if w :| Edge(v, u, w) in g.inc.Edges() {
        var e :| e in g.out.Edges() && Edge(v, u, w) == Edge(e.dst, e.src, e.weight);
      }
    }
  }

  // ---- Reading a weight back ----

  /** The graph holds an edge from s to d, by external ids, with weight w. */
  ghost predicate Stored(g: Csr, index: map<nat, nat>, s: nat, d: nat, w: int)
    requires g.out.Valid(g.n)
  {
    s in index && d in index && Edge(index[s], index[d], w) in g.out.Edges()
  }

  lemma StoredAt(g: Csr, index: map<nat, nat>, s: nat, d: nat, w: int) returns (i: nat)
    requires g.out.Valid(g.n) && Stored(g, index, s, d, w)
    ensures g.out.InRow(index[s], i) && i < |g.out.e| && g.out.e[i] == index[d] && g.out.w[i] == w
  {
    i :| i < |g.out.e| && g.out.InRow(index[s], i) && Edge(index[s], index[d], w) == Edge(index[s], g.out.e[i], g.out.w[i]);
  }

  ghost predicate NotBefore(r: Rows, u: nat, i: nat, x: nat)
    requires r.Valid(|r.v|) && u < |r.v| && i <= |r.e|
  {
    forall j | r.First(u) <= j < i :: r.e[j] != x
  }

  /** Once an entry exceeds x the row, being sorted, has no x. */
  lemma EarlyExit(r: Rows, u: nat, i: nat, x: nat)
    requires r.Valid(|r.v|) && r.StrictlySorted() && u < |r.v| && r.First(u) <= i <= r.Last(u) <= |r.e|
    requires NotBefore(r, u, i, x) && (i == r.Last(u) || r.e[i] > x)
    ensures NotBefore(r, u, r.Last(u), x)
  {
    forall j | r.First(u) <= j < r.Last(u)
      ensures r.e[j] != x
    {
      if i < j {
        assert r.InRow(u, i) && r.InRow(u, j);
      }
    }
  }

  /** CSR::get_weight, with None for the signaling NaN. */
  method GetWeight(g: Csr, ids: seq<nat>, index: map<nat, nat>, source: nat, destination: nat) returns (r: Option<int>)
    requires g.out.Valid(g.n) && NamesRows(ids, index) && g.n == |ids|
    ensures g.out.StrictlySorted() ==> forall w :: Stored(g, index, source, destination, w) <==> r == Some(w)
    ensures r.Some? ==> Stored(g, index, source, destination, r.value)
    ensures source !in index || destination !in index ==> r == None
  {
    if source !in index || destination !in index {
      return None;
    }
    var u, x := index[source], index[destination];
    RowInBounds(g.out, g.n, u);
    var i: nat := g.out.First(u);
    while i < g.out.Last(u) && g.out.e[i] <= x
      invariant g.out.First(u) <= i <= g.out.Last(u) && NotBefore(g.out, u, i, x)
    {
      if g.out.e[i] == x {
        EdgeAt(g.out, u, i);
        if g.out.StrictlySorted() {
          FoundOnce(g, index, source, destination, i);
        }
        return Some(g.out.w[i]);
      }
      i := i + 1;
    }
    if g.out.StrictlySorted() {
      EarlyExit(g.out, u, i, x);
      if w :| Stored(g, index, source, destination, w) {
        var j := StoredAt(g, index, source, destination, w);
      }
    }
    r := None;
  }

  lemma FoundOnce(g: Csr, index: map<nat, nat>, s: nat, d: nat, i: nat)
    requires g.out.Valid(g.n) && g.out.StrictlySorted() && s in index && d in index
    requires g.out.InRow(index[s], i) && i < |g.out.e| && g.out.e[i] == index[d]
    ensures forall w :: Stored(g, index, s, d, w) <==> w == g.out.w[i]
  {
    EdgeAt(g.out, index[s], i);
    forall w | Stored(g, index, s, d, w)
      ensures w == g.out.w[i]
    {
      var j := StoredAt(g, index, s, d, w);
    }
  }

  /** The weight read back is the one in the stream. */
  lemma StoredIffInStream(g: Csr, ids: seq<nat>, index: map<nat, nat>, E: set<Edge>, s: nat, d: nat, w: int)
    requires DirectedLoad(g, ids, index, E) && !Misplaced(E)
    ensures Stored(g, index, s, d, w) <==> Edge(s, d, w) in E
  {
    if Stored(g, index, s, d, w) {
      var e :| e in E && Edge(index[s], index[d], w) == Edge(index[e.src], index[e.dst], e.weight);
      IndexKeepsOrder(ids, index, s, e.src);
      IndexKeepsOrder(ids, index, d, e.dst);
    }
  }

  // ---- When the load is right ----

  /** The condition: the ids survive the byte arrays, and neither direction is misplaced. */
  ghost predicate RightlyLoaded(edges: seq<Edge>) {
    Packs(MaxId(edges)) && !Misplaced(EdgeSet(edges)) && !Misplaced(Flip(EdgeSet(edges)))
  }

  /** Both directions hold the stream, and the mappings are those of its vertices. */
  ghost predicate HoldsStream(g: Csr, ids: seq<nat>, index: map<nat, nat>, E: set<Edge>)
  {
    && g.out.Valid(g.n) && g.inc.Valid(g.n)
    && MapsExactly(ids, index, E) && Maps(index, Flip(E))
    && g.out.Edges() == Rename(E, index) && g.inc.Edges() == Rename(Flip(E), index)
  }

  /** m is an end of some edge. */
  ghost predicate Occurs(E: set<Edge>, m: nat) {
    exists e :: e in E && (e.src == m || e.dst == m)
  }

  lemma MaxOccurs(edges: seq<Edge>)
    requires edges != []
    ensures Occurs(EdgeSet(edges), MaxId(edges))
  {
    var i := MaxIdOccurs(edges);
    assert edges[i] in EdgeSet(edges);
  }

  /** The graph loaded is the stream if and only if the largest id is no power of 256 and neither direction is
      misplaced. */
  lemma LoadIsRightIff(g: Csr, ids: seq<nat>, index: map<nat, nat>, E: set<Edge>, m: nat)
    requires DirectedOutcome(g, ids, index, E, m) && Occurs(E, m) && m > 1
    ensures HoldsStream(g, ids, index, E) <==> !IsPowerOf256(m) && !Misplaced(E) && !Misplaced(Flip(E))
  {}

  lemma MisplacedIsNotStored(g: Csr, ids: seq<nat>, index: map<nat, nat>, E: set<Edge>, e: Edge, w: int)
    requires DirectedLoad(g, ids, index, E) && Misplaced(E) && e in E && e.dst != U64_MAX
    ensures !Stored(g, index, e.src, e.dst, w)
  {
    IndexKeepsOrder(ids, index, e.dst, e.src);
  }

  /** Every weight read back is the one of the stream if and only if the largest id is no power of 256 and the
      stream is not misplaced. */
  lemma WeightsAreRightIff(g: Csr, ids: seq<nat>, index: map<nat, nat>, E: set<Edge>, m: nat)
    requires DirectedOutcome(g, ids, index, E, m) && Occurs(E, m) && m > 1
    ensures (forall s, d, w :: Stored(g, index, s, d, w) <==> Edge(s, d, w) in E) <==> !IsPowerOf256(m) && !Misplaced(E)
  {
    if !Packs(m) {
      var e :| e in E && (e.src == m || e.dst == m);
      assert Edge(e.src, e.dst, e.weight) in E && !Stored(g, index, e.src, e.dst, e.weight);
    } else if Misplaced(E) {
      var e :| e in E && e.dst != U64_MAX;
      MisplacedIsNotStored(g, ids, index, E, e, e.weight);
      assert Edge(e.src, e.dst, e.weight) in E;
    } else {
      forall s, d, w
        ensures Stored(g, index, s, d, w) <==> Edge(s, d, w) in E
      {
        StoredIffInStream(g, ids, index, E, s, d, w);
      }
    }
  }

  // ---- Streams with one edge ----

  lemma OneEdgeMisplaced(e: Edge)
    ensures EdgeSet([e]) == {e}
    ensures Misplaced({e}) <==> e.src == U64_MAX && e.dst != U64_MAX
  {
    assert e in {e};
  }

  lemma LargestWordPacks()
    ensures Packs(U64_MAX)
  {
    forall k: nat
      ensures U64_MAX != Pow256(k)
    {}
  }

  lemma OneEdgeSorted(r: Rows, n: nat)
    requires r.Valid(n) && |r.e| == 1
    ensures r.StrictlySorted()
  {}

  /** What a loaded graph knows of the only edge of the stream. */
  lemma OneEdgeStored(g: Csr, ids: seq<nat>, index: map<nat, nat>, e: Edge)
    requires DirectedOutcome(g, ids, index, {e}, Max(e.src, e.dst))
    ensures !Packs(Max(e.src, e.dst)) ==> e.src !in index || e.dst !in index
    ensures Packs(Max(e.src, e.dst)) && Misplaced({e}) ==> forall x :: !Stored(g, index, e.src, e.dst, x)
    ensures Packs(Max(e.src, e.dst)) && !Misplaced({e}) ==> Stored(g, index, e.src, e.dst, e.weight)
  {
    if Packs(Max(e.src, e.dst)) {
      OneEdgeMisplaced(e);
      if Misplaced({e}) {
        forall x
          ensures !Stored(g, index, e.src, e.dst, x)
        {
          MisplacedIsNotStored(g, ids, index, {e}, e, x);
        }
      } else {
        StoredIffInStream(g, ids, index, {e}, e.src, e.dst, e.weight);
      }
    }
  }

  /** Loads the stream with the one edge from s to d, and asks for its weight: not loaded if there is no byte for the
      largest id, and not found exactly if that id is a power of 256, or if the edge leaves 2^64-1 and is no loop.
      For instance 256 -> 3 and 2^64-1 -> 0 are lost, and 0 -> 1 is not loaded. */
  method LoadAndLookUp(s: nat, d: nat, w: int, hardwareConcurrency: nat) returns (done: bool, found: Option<int>)
    requires s <= U64_MAX && d <= U64_MAX
    ensures done <==> Max(s, d) > 1
    ensures done ==> found == if IsPowerOf256(Max(s, d)) || (s == U64_MAX && d != U64_MAX) then None else Some(w)
    ensures s == 256 && d == 3 ==> done && found == None
    ensures s == 0 && d == 1 ==> !done
    ensures s == U64_MAX && d == 0 ==> done && found == None
  {
    var stream := OneEdge(s, d, w);
    var g, ids, index;
    done, g, ids, index := LoadDirected(stream, hardwareConcurrency);
    found := None;
    Is256();
    LargestWordPacks();
    if done {
      ghost var e := Edge(s, d, w);
      OneEdgeMisplaced(e);
      OneEdgeStored(g, ids, index, e);
      OneEdgeSorted(g.out, g.n);
      found := GetWeight(g, ids, index, s, d);
    }
  }

  method OneEdge(s: nat, d: nat, w: int) returns (stream: WeightedEdgeStream)
    requires s <= U64_MAX && d <= U64_MAX
    ensures stream.Valid() && fresh(stream) && stream.Edges() == [Edge(s, d, w)]
    ensures stream.maxVertexId == MaxId([Edge(s, d, w)]) == Max(s, d)
  {
    assert [Edge(s, d, w)][..0] == [];
    stream := new WeightedEdgeStream([Edge(s, d, w)]);
  }
}
