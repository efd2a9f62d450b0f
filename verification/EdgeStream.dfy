/** The byte-packed edge stream: its permutation by parallel tasks, its two sort orders and its list of
    vertices, graph/edge_stream.cpp:110-319. */
module EdgeStream {
  import opened ByteArray
  import opened Counting
  import opened Numbers
  import opened Paths
  import opened Streams

  // ---- Splitting the index range into tasks ----

  datatype Task = Task(start: nat, length: nat)

  /** Each range starts where the one before ends, from 0 to n. */
  ghost predicate Tiles(tasks: seq<Task>, n: nat) {
    if tasks == [] then n == 0
    else
      var last := tasks[|tasks| - 1];
      last.start + last.length == n && Tiles(tasks[..|tasks| - 1], last.start)
  }

  ghost predicate Covers(t: Task, k: nat) {
    t.start <= k < t.start + t.length
  }

  lemma {:induction false} TilesCover(tasks: seq<Task>, n: nat, k: nat) returns (i: nat)
    requires Tiles(tasks, n) && k < n
    ensures i < |tasks| && Covers(tasks[i], k)
  {
    i := |tasks| - 1;
    if k < tasks[i].start {
      i := TilesCover(tasks[..i], tasks[i].start, k);
    }
  }

  lemma {:induction false} TilesBound(tasks: seq<Task>, n: nat, i: nat)
    requires Tiles(tasks, n) && i < |tasks|
    ensures tasks[i].start + tasks[i].length <= n
  {
    if i < |tasks| - 1 {
      TilesBound(tasks[..|tasks| - 1], tasks[|tasks| - 1].start, i);
    }
  }

  /** No two tasks write the same position. */
  lemma {:induction false} TilesAreDisjoint(tasks: seq<Task>, n: nat, i: nat, j: nat)
    requires Tiles(tasks, n) && i < j < |tasks|
    ensures tasks[i].start + tasks[i].length <= tasks[j].start
    decreases |tasks|
  {
    var last := |tasks| - 1;
    if j == last {
      TilesBound(tasks[..last], tasks[last].start, i);
    } else {
      TilesAreDisjoint(tasks[..last], tasks[last].start, i, j);
    }
  }

  function Share(items: nat, odd: nat, i: nat): nat {
    if i < odd then items + 1 else items
  }

  ghost function Start(items: nat, odd: nat, i: nat): nat {
    if i == 0 then 0 else Start(items, odd, i - 1) + Share(items, odd, i - 1)
  }

  lemma {:induction false} StartIs(items: nat, odd: nat, i: nat)
    ensures Start(items, odd, i) == items * i + if i < odd then i else odd
  {
    if i > 0 {
      StartIs(items, odd, i - 1);
      assert items * i == items * (i - 1) + items;
    }
  }

  lemma LastStart(n: nat, t: nat)
    requires t > 0
    ensures Start(n / t, n % t, t) == n
  {
    StartIs(n / t, n % t, t);
    assert n == t * (n / t) + n % t;
  }

  /** min(m_num_edges, max(4, hardware_concurrency * 8)). */
  function NumTasks(numEdges: nat, hardwareConcurrency: nat): (t: nat)
    ensures numEdges > 0 ==> 0 < t <= numEdges
  {
    var wanted := if hardwareConcurrency * 8 > 4 then hardwareConcurrency * 8 else 4;
    if numEdges < wanted then numEdges else wanted
  }

  lemma TilesSnoc(tasks: seq<Task>, start: nat, length: nat)
    requires Tiles(tasks, start)
    ensures Tiles(tasks + [Task(start, length)], start + length)
  {
    assert (tasks + [Task(start, length)])[..|tasks|] == tasks;
  }

  /** The loop that starts the threads, lines 173-184: the ranges tile the edges, with lengths that differ by one at most. */
  method PlanTasks(numEdges: nat, hardwareConcurrency: nat) returns (tasks: seq<Task>)
    requires numEdges > 0
    ensures Tiles(tasks, numEdges)
    ensures forall i, j | 0 <= i < |tasks| && 0 <= j < |tasks| :: tasks[i].length <= tasks[j].length + 1
  {
    var numTasks := NumTasks(numEdges, hardwareConcurrency);
    LastStart(numEdges, numTasks);
    tasks := LaunchTasks(numEdges, numTasks, numEdges / numTasks, numEdges % numTasks);
  }

  method LaunchTasks(numEdges: nat, numTasks: nat, items: nat, odd: nat) returns (tasks: seq<Task>)
    requires Start(items, odd, numTasks) == numEdges
    ensures Tiles(tasks, numEdges)
    ensures forall j | 0 <= j < |tasks| :: items <= tasks[j].length <= items + 1
  {
    var start := 0;
    tasks := [];
    for i := 0 to numTasks
      invariant |tasks| == i && start == Start(items, odd, i) && Tiles(tasks, start)
      invariant forall j | 0 <= j < i :: items <= tasks[j].length <= items + 1
    {
      var length := Share(items, odd, i);
      TilesSnoc(tasks, start, length);
      tasks := tasks + [Task(start, length)];
      start := start + length;
    }
  }

  // ---- The width of the ids ----

  /** compute_bytes_per_elements(m_max_vertex_id). The conversion of log2(0) to an integer is undefined;
      it stands for a width no array takes, as 0 does. */
  function Width(maxId: nat): nat {
    if maxId == 0 then 0 else BytesPerElement(maxId)
  }

  /** The constructor of the arrays throws exactly for a largest id below 2. */
  lemma WidthIsTaken(maxId: nat)
    requires maxId < U64
    ensures 1 <= Width(maxId) <= 8 <==> maxId > 1
    ensures Width(maxId) <= 8
  {
    if maxId > 0 {
      WidthAtMostEight(maxId);
    }
  }

  /** The largest ids that survive the arrays. */
  ghost predicate Packs(maxId: nat) {
    maxId > 1 && !IsPowerOf256(maxId)
  }

  /** An id reduced to the bytes that are kept. */
  ghost function Kept(id: nat, width: nat): nat {
    id % Pow256(width)
  }

  ghost function Narrow(e: Edge, width: nat): Edge {
    Edge(Kept(e.src, width), Kept(e.dst, width), e.weight)
  }

  ghost function Narrowed(edges: seq<Edge>, width: nat): (r: seq<Edge>)
    ensures |r| == |edges|
  {
    seq(|edges|, i requires 0 <= i < |edges| => Narrow(edges[i], width))
  }

  ghost function NarrowedIds(ids: seq<nat>, width: nat): (r: seq<nat>)
    ensures |r| == |ids|
  {
    seq(|ids|, i requires 0 <= i < |ids| => Kept(ids[i], width))
  }

  ghost function Zip(s: seq<nat>, d: seq<nat>, w: seq<int>): (r: seq<Edge>)
    requires |s| == |d| == |w|
    ensures |r| == |s|
  {
    seq(|s|, i requires 0 <= i < |s| => Edge(s[i], d[i], w[i]))
  }

  // ---- The stream ----

  class WeightedEdgeStream {
    var sources: CByteArray
    var destinations: CByteArray
    var weights: seq<int>
    var maxVertexId: nat

    ghost predicate Valid()
      reads this
    {
      && sources.Valid() && destinations.Valid() && sources.bytes != destinations.bytes
      && sources.capacity == destinations.capacity == |weights|
      && maxVertexId < U64
    }

    ghost function Edges(): (r: seq<Edge>)
      requires Valid()
      reads this, sources.bytes, destinations.bytes
      ensures |r| == |weights|
    {
      Zip(sources.Values(), destinations.Values(), weights)
    }

    /** From a vector of edges: 8 bytes per id, so nothing is lost. */
    constructor (vector: seq<Edge>)
      requires U64Ids(EdgeSet(vector))
      ensures Valid() && fresh(sources) && fresh(destinations) && fresh(sources.bytes) && fresh(destinations.bytes)
      ensures Edges() == vector && maxVertexId == MaxId(vector)
    {
      var src := new CByteArray(8, |vector|);
      var dst := new CByteArray(8, |vector|);
      sources, destinations, weights, maxVertexId := src, dst, Weights(vector), 0;
      new;
      FillIds(sources, destinations, vector);
      maxVertexId := LargestId(vector);
      MaxIdIsWord(vector);
      EightBytesSuffice(vector);
    }

    /** get(index); the callers stay below num_edges(). */
    method Get(index: nat) returns (e: Edge)
      requires Valid() && index < |weights|
      ensures e == Edges()[index]
    {
      var s := sources.GetValueAt(index);
      var d := destinations.GetValueAt(index);
      e := Edge(s, d, weights[index]);
    }

    /** The edges get(0), get(1), ... */
    method Read() returns (edges: seq<Edge>)
      requires Valid()
      ensures edges == Edges()
    {
      edges := [];
      for i := 0 to |weights|
        invariant edges == Edges()[..i]
      {
        var e := Get(i);
        edges := edges + [e];
      }
      assert Edges()[..|weights|] == Edges();
    }

    /** do_permute_edges; false where the constructor of the new arrays throws. The callers return early
        for an empty stream. */
    method DoPermuteEdges(permutation: seq<nat>, hardwareConcurrency: nat) returns (done: bool)
      requires Valid() && |weights| > 0 && IsPermutation(permutation, |weights|)
      modifies this
      ensures Valid() && maxVertexId == old(maxVertexId)
      ensures done <==> maxVertexId > 1
      ensures !done ==> Edges() == old(Edges())
      ensures done ==> Edges() == Narrowed(Permuted(old(Edges()), permutation), Width(maxVertexId))
    {
      WidthIsTaken(maxVertexId);
      var width := Width(maxVertexId);
      if width == 0 {
        return false;
      }
      var newSources := new CByteArray(width, |weights|);
      var newDestinations := new CByteArray(width, |weights|);
      var newWeights := new int[|weights|];
      var tasks := PlanTasks(|weights|, hardwareConcurrency);
      RunTasks(sources, destinations, weights, permutation, tasks, newSources, newDestinations, newWeights);
      sources, destinations, weights := newSources, newDestinations, newWeights[..];
      done := true;
    }

    /** sort_by_src_dst: the positions are sorted by the ids as they are, then the edges move, and their
        ids are reduced to the width. False where that throws. */
    method SortBySrcDst(hardwareConcurrency: nat) returns (done: bool, ghost p: seq<nat>)
      requires Valid()
      modifies this
      ensures Valid() && maxVertexId == old(maxVertexId)
      ensures done <==> old(Edges()) == [] || maxVertexId > 1
      ensures !done ==> Edges() == old(Edges())
      ensures IsPermutation(p, |old(Edges())|) && SortedBy(old(Edges()), p)
      ensures done ==> Edges() == Narrowed(Permuted(old(Edges()), p), Width(maxVertexId))
    {
      if |weights| == 0 {
        p := [];
        return true, p;
      }
      var permutation := SortPositions(sources, destinations, Edges());
      p := permutation;
      done := DoPermuteEdges(permutation, hardwareConcurrency);
    }

    /** sort_by_dst_src. */
    method SortByDstSrc(hardwareConcurrency: nat) returns (done: bool, ghost p: seq<nat>)
      requires Valid()
      modifies this
      ensures Valid() && maxVertexId == old(maxVertexId)
      ensures done <==> old(Edges()) == [] || maxVertexId > 1
      ensures !done ==> Edges() == old(Edges())
      ensures IsPermutation(p, |old(Edges())|) && SortedBy(Flipped(old(Edges())), p)
      ensures done ==> Edges() == Narrowed(Permuted(old(Edges()), p), Width(maxVertexId))
    {
      if |weights| == 0 {
        p := [];
        return true, p;
      }
      var permutation := SortPositions(destinations, sources, Flipped(Edges()));
      p := permutation;
      done := DoPermuteEdges(permutation, hardwareConcurrency);
    }

    /** vertex_list: every end point once, in whatever order the hash map yields them (ids lists them), each
        reduced to the width; null where the constructor of the array throws. */
    method VertexList() returns (vertices: CByteArray?, ghost ids: seq<nat>)
      requires Valid()
      ensures Distinct(ids) && Elements(ids) == Endpoints(Edges())
      ensures vertices != null <==> maxVertexId > 1
      ensures vertices != null ==> fresh(vertices) && fresh(vertices.bytes) && vertices.Valid()
      ensures vertices != null ==> vertices.Values() == NarrowedIds(ids, Width(maxVertexId))
    {
      var unique := UniqueVertices();
      var list := ListOf(unique);
      ids := list;
      DistinctSize(list);
      WidthIsTaken(maxVertexId);
      var width := Width(maxVertexId);
      if width == 0 {
        return null, ids;
      }
      vertices := new CByteArray(width, |unique|);
      assert forall x | x in list :: x in Elements(list);
      FillList(vertices, list);
    }

    /** The hash map of the vertices. */
    method UniqueVertices() returns (unique: set<nat>)
      requires Valid()
      ensures unique == Endpoints(Edges()) && forall x | x in unique :: x < U64
    {
      unique := {};
      ghost var edges := Edges();
      for i := 0 to |weights|
        invariant unique == Endpoints(edges[..i]) && forall x | x in unique :: x < U64
      {
        TakeSnoc(edges, i);
        assert edges[..i + 1][..i] == edges[..i];
        var s := sources.GetValueAt(i);
        var d := destinations.GetValueAt(i);
        FittingIsKept(s, sources.width);
        FittingIsKept(d, destinations.width);
        unique := unique + {s, d};
      }
      assert edges[..|weights|] == edges;
    }
  }

  /** The elements of a set, in any order. */
  method ListOf(elements: set<nat>) returns (list: seq<nat>)
    ensures Distinct(list) && Elements(list) == elements
  {
    list := [];
    var rest := elements;
    while rest != {}
      invariant Distinct(list) && Elements(list) + rest == elements && Elements(list) !! rest
      decreases rest
    {
      var x :| x in rest;
      assert x !in Elements(list);
      rest := rest - {x};
      assert Elements(list + [x]) == Elements(list) + {x};
      list := list + [x];
    }
  }

  method FillList(vertices: CByteArray, list: seq<nat>)
    requires vertices.Valid() && vertices.capacity == |list| && forall x | x in list :: x < U64
    modifies vertices.bytes
    ensures vertices.Values() == NarrowedIds(list, vertices.width)
  {
    for i := 0 to |list|
      invariant vertices.Values()[..i] == NarrowedIds(list, vertices.width)[..i]
    {
      assert list[i] in list;
      vertices.SetValueAt(i, list[i]);
    }
  }

  function Weights(edges: seq<Edge>): (w: seq<int>)
    ensures |w| == |edges|
  {
    seq(|edges|, i requires 0 <= i < |edges| => edges[i].weight)
  }

  lemma EightBytesSuffice(edges: seq<Edge>)
    requires U64Ids(EdgeSet(edges))
    ensures Narrowed(edges, 8) == edges
  {
    EightBytes();
    forall i | 0 <= i < |edges|
      ensures Narrow(edges[i], 8) == edges[i]
    {
      assert edges[i] in EdgeSet(edges);
    }
  }

  lemma MaxIdIsWord(edges: seq<Edge>)
    requires U64Ids(EdgeSet(edges))
    ensures MaxId(edges) < U64
  {
    if edges != [] {
      var i := MaxIdOccurs(edges);
      assert edges[i] in EdgeSet(edges);
    }
  }

  method FillIds(sources: CByteArray, destinations: CByteArray, vector: seq<Edge>)
    requires sources.Valid() && destinations.Valid() && sources.bytes != destinations.bytes && U64Ids(EdgeSet(vector))
    requires sources.width == destinations.width == 8 && sources.capacity == destinations.capacity == |vector|
    modifies sources.bytes, destinations.bytes
    ensures Zip(sources.Values(), destinations.Values(), Weights(vector)) == Narrowed(vector, 8)
  {
    for i := 0 to |vector|
      invariant forall j | 0 <= j < i :: sources.Values()[j] == vector[j].src % Pow256(8)
      invariant forall j | 0 <= j < i :: destinations.Values()[j] == vector[j].dst % Pow256(8)
    {
      assert vector[i] in EdgeSet(vector);
      sources.SetValueAt(i, vector[i].src);
      destinations.SetValueAt(i, vector[i].dst);
    }
  }

  method LargestId(vector: seq<Edge>) returns (m: nat)
    ensures m == MaxId(vector)
  {
    m := 0;
    for i := 0 to |vector|
      invariant m == MaxId(vector[..i])
    {
      assert vector[..i + 1][..i] == vector[..i];
      m := Max(m, Max(vector[i].src, vector[i].dst));
    }
    assert vector[..|vector|] == vector;
  }

  // ---- Sorting the positions ----

  /** The ids of the edges, in the order in which they are compared. */
  ghost predicate Keys(edges: seq<Edge>, first: seq<nat>, second: seq<nat>) {
    |first| == |second| == |edges| && forall i | 0 <= i < |edges| :: edges[i].src == first[i] && edges[i].dst == second[i]
  }

  /** The comparison of the two sorts. */
  method Less(first: CByteArray, second: CByteArray, i: nat, j: nat, ghost edges: seq<Edge>) returns (less: bool)
    requires first.Valid() && second.Valid() && Keys(edges, first.Values(), second.Values()) && i < |edges| && j < |edges|
    ensures less <==> LexLess(edges[i], edges[j])
  {
    var a := first.GetValueAt(i);
    var b := first.GetValueAt(j);
    if a != b {
      return a < b;
    }
    var c := second.GetValueAt(i);
    var d := second.GetValueAt(j);
    return c < d;
  }

  /** Any correct sort of the positions. */
  method SortPositions(first: CByteArray, second: CByteArray, ghost edges: seq<Edge>) returns (p: seq<nat>)
    requires first.Valid() && second.Valid() && Keys(edges, first.Values(), second.Values())
    ensures IsPermutation(p, |edges|) && SortedBy(edges, p)
  {
    p := [];
    for i := 0 to first.capacity
      invariant IsPermutation(p, i) && SortedBy(edges, p)
    {
      var k := FindPlace(first, second, edges, p, i);
      InsertPosition(edges, p, i, k);
      InsertSorted(edges, p, i, k);
      p := p[..k] + [i] + p[k..];
    }
  }

  method FindPlace(first: CByteArray, second: CByteArray, ghost edges: seq<Edge>, p: seq<nat>, i: nat) returns (k: nat)
    requires first.Valid() && second.Valid() && Keys(edges, first.Values(), second.Values())
    requires i < |edges| && forall j | 0 <= j < |p| :: p[j] < |edges|
    ensures InsertionPoint(edges, p, i, k)
  {
    k := 0;
    while k < |p|
      invariant k <= |p| && forall j | 0 <= j < k :: !LexLess(edges[i], edges[p[j]])
    {
      var less := Less(first, second, i, p[k], edges);
      if less {
        break;
      }
      k := k + 1;
    }
  }

  // ---- do_permute_edges ----

  lemma ZipUpdate(s: seq<nat>, d: seq<nat>, w: seq<int>, i: nat, e: Edge)
    requires |s| == |d| == |w| && i < |s|
    ensures Zip(s[i := e.src], d[i := e.dst], w[i := e.weight]) == Zip(s, d, w)[i := e]
  {}

  /** The arrays a permutation reads, and the ones it writes. */
  ghost predicate Operands(s: CByteArray, d: CByteArray, newS: CByteArray, newD: CByteArray, newW: array<int>, n: nat, m: nat) {
    && s.Valid() && d.Valid() && newS.Valid() && newD.Valid()
    && s.capacity == d.capacity == m && newS.capacity == newD.capacity == newW.Length == n
    && newS.width == newD.width
    && newS.bytes != newD.bytes && s.bytes != newS.bytes && s.bytes != newD.bytes && d.bytes != newS.bytes && d.bytes != newD.bytes
  }

  /** The body of the loop at line 166. */
  method PermuteOne(s: CByteArray, d: CByteArray, weights: seq<int>, p: seq<nat>, i: nat,
                    newS: CByteArray, newD: CByteArray, newW: array<int>, ghost edges: seq<Edge>)
    requires Operands(s, d, newS, newD, newW, |p|, |weights|) && i < |p| && p[i] < |weights|
    requires edges == Zip(s.Values(), d.Values(), weights)
    modifies newS.bytes, newD.bytes, newW
    ensures edges == Zip(s.Values(), d.Values(), weights)
    ensures Zip(newS.Values(), newD.Values(), newW[..])
         == old(Zip(newS.Values(), newD.Values(), newW[..]))[i := Narrow(edges[p[i]], newS.width)]
  {
    ghost var s0, d0, w0 := newS.Values(), newD.Values(), newW[..];
    ZipUpdate(s0, d0, w0, i, Narrow(edges[p[i]], newS.width));
    var x := s.GetValueAt(p[i]);
    FittingIsKept(x, s.width);
    newS.SetValueAt(i, x);
    var y := d.GetValueAt(p[i]);
    FittingIsKept(y, d.width);
    newD.SetValueAt(i, y);
    newW[i] := weights[p[i]];
    assert newW[..] == w0[i := weights[p[i]]];
    assert newS.Values() == s0[i := x % Pow256(newS.width)];
    assert newD.Values() == d0[i := y % Pow256(newS.width)];
  }

  // ---- The threads ----

  function End(t: Task): nat {
    t.start + t.length
  }

  /** next[t] is the position at which task t stands. */
  ghost predicate Cursors(tasks: seq<Task>, next: seq<nat>) {
    |next| == |tasks| && forall t | 0 <= t < |tasks| :: tasks[t].start <= next[t] <= End(tasks[t])
  }

  function Starts(tasks: seq<Task>): (r: seq<nat>)
    ensures |r| == |tasks| && forall t | 0 <= t < |tasks| :: r[t] == tasks[t].start
  {
    seq(|tasks|, i requires 0 <= i < |tasks| => tasks[i].start)
  }

  /** What the tasks have left to do. */
  ghost function Left(tasks: seq<Task>, next: seq<nat>): nat
    requires Cursors(tasks, next)
  {
    if tasks == [] then 0
    else
      var last := |tasks| - 1;
      Left(tasks[..last], next[..last]) + End(tasks[last]) - next[last]
  }

  lemma {:induction false} LeftStep(tasks: seq<Task>, next: seq<nat>, t: nat)
    requires Cursors(tasks, next) && t < |tasks| && next[t] < End(tasks[t])
    ensures Cursors(tasks, next[t := next[t] + 1]) && Left(tasks, next[t := next[t] + 1]) < Left(tasks, next)
  {
    var last := |tasks| - 1;
    if t < last {
      LeftStep(tasks[..last], next[..last], t);
      assert next[t := next[t] + 1][..last] == next[..last][t := next[t] + 1];
    } else {
      assert next[t := next[t] + 1][..last] == next[..last];
    }
  }

  /** The positions the tasks have passed hold their edges. */
  ghost predicate Placed(edges: seq<Edge>, p: seq<nat>, width: nat, now: seq<Edge>, tasks: seq<Task>, next: seq<nat>) {
    && |now| == |p| && |next| == |tasks| && (forall k | 0 <= k < |p| :: p[k] < |edges|)
    && forall t, k | 0 <= t < |tasks| && tasks[t].start <= k < next[t] && k < |p| :: now[k] == Narrow(edges[p[k]], width)
  }

  lemma PlaceStep(edges: seq<Edge>, p: seq<nat>, width: nat, now: seq<Edge>, tasks: seq<Task>, next: seq<nat>, t: nat)
    requires Placed(edges, p, width, now, tasks, next) && t < |tasks| && next[t] < |p|
    ensures Placed(edges, p, width, now[next[t] := Narrow(edges[p[next[t]]], width)], tasks, next[t := next[t] + 1])
  {}

  lemma AllPlaced(edges: seq<Edge>, p: seq<nat>, width: nat, now: seq<Edge>, tasks: seq<Task>, next: seq<nat>)
    requires Placed(edges, p, width, now, tasks, next) && Tiles(tasks, |p|)
    requires forall t | 0 <= t < |tasks| :: next[t] == End(tasks[t])
    ensures now == Narrowed(Permuted(edges, p), width)
  {
    forall k: nat | k < |p|
      ensures now[k] == Narrow(edges[p[k]], width)
    {
      var i := TilesCover(tasks, |p|, k);
    }
  }

  /** The iterations of the threads may be interleaved in any way. */
  method RunTasks(s: CByteArray, d: CByteArray, weights: seq<int>, p: seq<nat>, tasks: seq<Task>,
                  newS: CByteArray, newD: CByteArray, newW: array<int>)
    requires Operands(s, d, newS, newD, newW, |p|, |weights|) && Tiles(tasks, |p|)
    requires forall k | 0 <= k < |p| :: p[k] < |weights|
    modifies newS.bytes, newD.bytes, newW
    ensures Zip(newS.Values(), newD.Values(), newW[..]) == Narrowed(Permuted(Zip(s.Values(), d.Values(), weights), p), newS.width)
  {
    ghost var edges := Zip(s.Values(), d.Values(), weights);
    var next: seq<nat> := Starts(tasks);
    while exists t: nat :: t < |tasks| && next[t] < End(tasks[t])
      invariant Cursors(tasks, next) && edges == Zip(s.Values(), d.Values(), weights)
      invariant Placed(edges, p, newS.width, Zip(newS.Values(), newD.Values(), newW[..]), tasks, next)
      decreases Left(tasks, next)
    {
      var t: nat :| t < |tasks| && next[t] < End(tasks[t]);
      TilesBound(tasks, |p|, t);
      PlaceStep(edges, p, newS.width, Zip(newS.Values(), newD.Values(), newW[..]), tasks, next, t);
      LeftStep(tasks, next, t);
      PermuteOne(s, d, weights, p, next[t], newS, newD, newW, edges);
      next := next[t := next[t] + 1];
    }
    AllPlaced(edges, p, newS.width, Zip(newS.Values(), newD.Values(), newW[..]), tasks, next);
  }

  // ---- When the ids survive ----

  lemma NarrowKeeps(e: Edge, width: nat)
    ensures Narrow(e, width) == e <==> Fits(e.src, width) && Fits(e.dst, width)
  {
    ModKeeps(e.src, Pow256(width));
    ModKeeps(e.dst, Pow256(width));
  }

  lemma FitsBelowMaximum(m: nat, x: nat)
    requires Packs(m) && x <= m
    ensures Fits(x, Width(m))
  {
    WidthHoldsMaximumIff(m);
  }

  lemma PackedIsKept(edges: seq<Edge>, m: nat)
    requires Packs(m) && forall i | 0 <= i < |edges| :: edges[i].src <= m && edges[i].dst <= m
    ensures Narrowed(edges, Width(m)) == edges
  {
    forall i | 0 <= i < |edges|
      ensures Narrow(edges[i], Width(m)) == edges[i]
    {
      FitsBelowMaximum(m, edges[i].src);
      FitsBelowMaximum(m, edges[i].dst);
      NarrowKeeps(edges[i], Width(m));
    }
  }

  /** The output is the input composed with the permutation exactly when the largest id is not a power of 256. */
  lemma PermutationIsLosslessIff(edges: seq<Edge>, p: seq<nat>)
    requires edges != [] && IsPermutation(p, |edges|) && MaxId(edges) > 1
    ensures Narrowed(Permuted(edges, p), Width(MaxId(edges))) == Permuted(edges, p) <==> !IsPowerOf256(MaxId(edges))
  {
    var m := MaxId(edges);
    var q := Permuted(edges, p);
    if IsPowerOf256(m) {
      WidthHoldsMaximumIff(m);
      var i := MaxIdOccurs(edges);
      PermutationIsOnto(p, |edges|, i);
      var k :| 0 <= k < |p| && p[k] == i;
      NarrowKeeps(edges[i], Width(m));
      assert q[k] == edges[i] && Narrowed(q, Width(m))[k] != q[k];
    } else {
      forall k | 0 <= k < |q|
        ensures q[k].src <= m && q[k].dst <= m
      {
        MaxIdBounds(edges, p[k]);
      }
      PackedIsKept(q, m);
    }
  }

  lemma Is256()
    ensures IsPowerOf256(256)
  {
    assert Pow256(1) == 256 * Pow256(0);
  }

  /** The edge between 256 and 3 comes out as one between 0 and 3. */
  lemma PowerOf256IsNarrowed()
    ensures var edges := [Edge(256, 3, 1)];
            MaxId(edges) == 256 && Narrowed(edges, Width(256)) == [Edge(0, 3, 1)]
  {
    var edges := [Edge(256, 3, 1)];
    assert edges[..0] == [];
    Is256();
    WidthHoldsMaximumIff(256);
    BytesPerElementIsLeast(256);
    assert Width(256) == 1 && Pow256(1) == 256 * Pow256(0);
  }
}
