/** Direction-optimizing breadth-first search, library/baseline/csr.cpp:535-674. */
module Bfs {
  import opened Counting
  import opened Csr
  import opened Paths

  // ---- The gapbs containers ----

  /** gapbs::SlidingQueue: appends stay invisible until the window slides over them. */
  class SlidingQueue {
    const capacity: nat
    var shared: seq<nat>
    var outStart: nat
    var outEnd: nat

    ghost predicate Valid()
      reads this
    {
      outStart <= outEnd <= |shared| <= capacity
    }

    ghost function Window(): seq<nat>
      requires Valid()
      reads this
    {
      shared[outStart..outEnd]
    }

    constructor (capacity: nat)
      ensures Valid() && this.capacity == capacity && shared == [] && outStart == outEnd == 0
    {
      this.capacity := capacity;
      shared := [];
      outStart, outEnd := 0, 0;
    }

    /** Writes one slot of the fixed buffer, so there has to be a free one. */
    method PushBack(x: nat)
      requires Valid() && |shared| < capacity
      modifies this`shared
      ensures Valid() && shared == old(shared) + [x]
    {
      shared := shared + [x];
    }

    /** QueueBuffer::flush: copies a thread's discoveries behind the last slot in use. */
    method Flush(local: seq<nat>)
      requires Valid() && |shared| + |local| <= capacity
      modifies this`shared
      ensures Valid() && shared == old(shared) + local
    {
      shared := shared + local;
    }

    method SlideWindow()
      requires Valid()
      modifies this`outStart, this`outEnd
      ensures Valid() && outStart == old(outEnd) && outEnd == |shared|
    {
      outStart := outEnd;
      outEnd := |shared|;
    }
  }

  // ---- What one level of the search has to compute ----

  ghost predicate Reached(g: Csr, S: set<nat>, v: nat)
    requires g.Valid()
  {
    exists u: nat :: u in S && g.out.HasEdge(u, v)
  }

  /** The vertices of S hand the label d to their unvisited successors; all else stays. */
  ghost predicate SpreadFrom(g: Csr, before: seq<int>, S: set<nat>, d: int, after: seq<int>)
    requires g.Valid()
  {
    && |after| == |before|
    && forall v: nat | v < |before| :: after[v] == if before[v] < 0 && Reached(g, S, v) then d else before[v]
  }

  ghost function Frontier(dist: seq<int>, d: int): set<nat> {
    set v: nat | v < |dist| && dist[v] == d
  }

  /** The top-down and the bottom-up step both compute this. */
  ghost predicate NextLevel(g: Csr, before: seq<int>, d: int, after: seq<int>)
    requires g.Valid()
  {
    SpreadFrom(g, before, Frontier(before, d - 1), d, after)
  }

  /** news lists, once each, the vertices visited in after and not in before. */
  ghost predicate Discovers(before: seq<int>, after: seq<int>, news: seq<nat>)
    requires |before| == |after|
  {
    && Distinct(news)
    && forall v: nat :: v in news <==> v < |before| && before[v] < 0 && after[v] >= 0
  }

  /** Sum of the (negated) labels of the unvisited vertices: the out-degrees still to scan. */
  ghost function Unscanned(dist: seq<int>): nat {
    if dist == [] then 0
    else Unscanned(dist[..|dist| - 1]) + if dist[|dist| - 1] < 0 then -dist[|dist| - 1] else 0
  }

  ghost function Unvisited(dist: seq<int>): nat {
    if dist == [] then 0
    else Unvisited(dist[..|dist| - 1]) + if dist[|dist| - 1] < 0 then 1 else 0
  }

  lemma {:induction false} Visit(dist: seq<int>, v: nat, d: int)
    requires v < |dist| && dist[v] < 0 <= d
    ensures Unscanned(dist[v := d]) == Unscanned(dist) + dist[v]
    ensures Unvisited(dist[v := d]) == Unvisited(dist) - 1
  {
    var front := dist[..|dist| - 1];
    if v == |dist| - 1 {
      assert dist[v := d][..|dist| - 1] == front;
    } else {
      Visit(front, v, d);
      assert dist[v := d][..|dist| - 1] == front[v := d];
    }
  }

  lemma {:induction false} UnvisitedAll(dist: seq<int>)
    ensures Unvisited(dist) == 0 ==> forall v | 0 <= v < |dist| :: dist[v] >= 0
  {
    if dist != [] {
      UnvisitedAll(dist[..|dist| - 1]);
    }
  }

  // ---- Top-down step ----

  ghost predicate RowReached(g: Csr, u: nat, upto: nat, v: nat)
    requires g.out.Valid(g.n) && u < g.n && upto <= |g.out.e|
  {
    exists j :: g.out.First(u) <= j < upto && g.out.e[j] == v
  }

  ghost predicate SpreadRow(g: Csr, before: seq<int>, u: nat, upto: nat, d: int, after: seq<int>)
    requires g.out.Valid(g.n) && u < g.n && upto <= |g.out.e|
  {
    && |after| == |before|
    && forall v: nat | v < |before| :: after[v] == if before[v] < 0 && RowReached(g, u, upto, v) then d else before[v]
  }

  lemma SpreadRowStep(g: Csr, before: seq<int>, u: nat, i: nat, d: int, mid: seq<int>)
    requires g.out.Valid(g.n) && g.out.InRow(u, i) && u < g.n && |before| == g.n && d >= 0
    requires i < |g.out.e| && SpreadRow(g, before, u, i, d, mid)
    ensures var dst := g.out.e[i];
            SpreadRow(g, before, u, i + 1, d, if mid[dst] < 0 then mid[dst := d] else mid)
  {
    var dst := g.out.e[i];
    var after := if mid[dst] < 0 then mid[dst := d] else mid;
    forall v: nat | v < |before|
      ensures after[v] == if before[v] < 0 && RowReached(g, u, i + 1, v) then d else before[v]
    {
      assert RowReached(g, u, i + 1, v) <==> RowReached(g, u, i, v) || v == dst by {
        assert g.out.e[i] == dst;
      }
    }
  }

  lemma DiscoversStep(before: seq<int>, mid: seq<int>, news: seq<nat>, v: nat, d: int)
    requires |before| == |mid| && Discovers(before, mid, news) && v < |mid| && mid[v] < 0 <= d
    requires forall x: nat | x < |before| && before[x] >= 0 :: mid[x] >= 0
    ensures v !in news && Discovers(before, mid[v := d], news + [v])
  {
    forall x: nat
      ensures x in news + [v] <==> x < |before| && before[x] < 0 && mid[v := d][x] >= 0
    {
      assert x in news + [v] <==> x in news || x == v;
    }
  }

  /** The inner loop of do_bfs_TDStep, over the outgoing edges of u; lqueue is the QueueBuffer. */
  method ScanRow(g: Csr, distances: array<int>, distance: int, u: nat) returns (scout: int, lqueue: seq<nat>)
    requires g.out.Valid(g.n) && u < g.n == distances.Length && distance >= 0
    modifies distances
    ensures SpreadRow(g, old(distances[..]), u, g.out.Last(u), distance, distances[..])
    ensures Discovers(old(distances[..]), distances[..], lqueue)
    ensures scout == Unscanned(old(distances[..])) - Unscanned(distances[..])
  {
    scout, lqueue := 0, [];
    ghost var before := distances[..];
    RowInBounds(g.out, g.n, u);
    for i := g.out.First(u) to g.out.Last(u)
      invariant SpreadRow(g, before, u, i, distance, distances[..])
      invariant Discovers(before, distances[..], lqueue)
      invariant scout == Unscanned(before) - Unscanned(distances[..])
    {
      var dst := g.out.e[i];
      var currVal := distances[dst];
      ghost var mid := distances[..];
      SpreadRowStep(g, before, u, i, distance, mid);
      if currVal < 0 {
        Visit(mid, dst, distance);
        DiscoversStep(before, mid, lqueue, dst, distance);
        distances[dst] := distance;
        assert distances[..] == mid[dst := distance];
        lqueue := lqueue + [dst];
        scout := scout + -currVal;
      }
    }
  }

  lemma SpreadCompose(g: Csr, before: seq<int>, S: set<nat>, u: nat, d: int, mid: seq<int>, after: seq<int>)
    requires g.Valid() && u < g.n && d >= 0
    requires g.out.Last(u) <= |g.out.e|
    requires SpreadFrom(g, before, S, d, mid) && SpreadRow(g, mid, u, g.out.Last(u), d, after)
    ensures SpreadFrom(g, before, S + {u}, d, after)
  {
    forall v: nat | v < |before|
      ensures Reached(g, S + {u}, v) <==> Reached(g, S, v) || RowReached(g, u, g.out.Last(u), v)
    {
      if g.out.HasEdge(u, v) {
        var i: nat :| g.out.InRow(u, i) && i < |g.out.e| && g.out.e[i] == v;
        assert RowReached(g, u, g.out.Last(u), v);
      }
      if RowReached(g, u, g.out.Last(u), v) {
        var j: nat :| g.out.First(u) <= j < g.out.Last(u) && g.out.e[j] == v;
        EdgeAt(g.out, u, j);
        assert u in S + {u};
      }
      if Reached(g, S, v) {
        var x: nat :| x in S && g.out.HasEdge(x, v);
        assert x in S + {u};
      }
    }
  }

  lemma DiscoversCompose(before: seq<int>, mid: seq<int>, after: seq<int>, n1: seq<nat>, n2: seq<nat>)
    requires |before| == |mid| == |after|
    requires Discovers(before, mid, n1) && Discovers(mid, after, n2)
    requires forall v | 0 <= v < |before| :: (before[v] >= 0 ==> mid[v] >= 0) && (mid[v] >= 0 ==> after[v] >= 0)
    ensures Discovers(before, after, n1 + n2)
  {
    var news := n1 + n2;
    forall v: nat
      ensures v in news <==> v < |before| && before[v] < 0 && after[v] >= 0
    {
      assert v in news <==> v in n1 || v in n2;
    }
    forall i, j | 0 <= i < j < |news|
      ensures news[i] != news[j]
    {
      assert i < |n1| ==> news[i] in n1;
      assert j >= |n1| ==> news[j] in n2;
    }
  }

  /** What the queue holds: distinct visited vertices, in a buffer with a slot per vertex. */
  ghost predicate QueueOk(n: nat, capacity: nat, shared: seq<nat>, dist: seq<int>) {
    && capacity == n == |dist|
    && Distinct(shared)
    && forall x | x in shared :: x < n && dist[x] >= 0
  }

  /** The buffer never overflows: each vertex is appended at most once. */
  lemma QueueGrows(n: nat, shared: seq<nat>, before: seq<int>, after: seq<int>, news: seq<nat>)
    requires QueueOk(n, n, shared, before) && |after| == n && Discovers(before, after, news)
    requires forall v | 0 <= v < n && before[v] >= 0 :: after[v] >= 0
    ensures |shared| + |news| <= n && QueueOk(n, n, shared + news, after)
  {
    var all := shared + news;
    forall i, j | 0 <= i < j < |all|
      ensures all[i] != all[j]
    {
      assert i < |shared| ==> all[i] in shared;
      assert j >= |shared| ==> all[j] in news;
    }
    FitsBelow(all, n);
  }

  method TDStep(g: Csr, distances: array<int>, distance: int, queue: SlidingQueue) returns (scout: int)
    requires g.Valid() && distance >= 1
    requires queue.Valid() && QueueOk(g.n, queue.capacity, queue.shared, distances[..])
    requires Elements(queue.Window()) == Frontier(distances[..], distance - 1)
    modifies distances, queue`shared
    ensures queue.Valid() && QueueOk(g.n, queue.capacity, queue.shared, distances[..])
    ensures NextLevel(g, old(distances[..]), distance, distances[..])
    ensures old(queue.shared) <= queue.shared
    ensures Discovers(old(distances[..]), distances[..], queue.shared[|old(queue.shared)|..])
    ensures scout == Unscanned(old(distances[..])) - Unscanned(distances[..])
  {
    ghost var before := distances[..];
    ghost var done: set<nat> := {};
    var window := queue.shared[queue.outStart..queue.outEnd];
    var lqueue := [];
    scout := 0;
    for q := 0 to |window|
      modifies distances
      invariant done == Elements(window[0..q])
      invariant SpreadFrom(g, before, done, distance, distances[..])
      invariant Discovers(before, distances[..], lqueue)
      invariant scout == Unscanned(before) - Unscanned(distances[..])
    {
      var u := window[q];
      assert u in queue.shared;
      ghost var mid := distances[..];
      var s, more := ScanRow(g, distances, distance, u);
      RowInBounds(g.out, g.n, u);
      SpreadCompose(g, before, done, u, distance, mid, distances[..]);
      DiscoversCompose(before, mid, distances[..], lqueue, more);
      ElementsSnoc(window, 0, q);
      done := done + {u};
      lqueue := lqueue + more;
      scout := scout + s;
    }
    assert window[0..|window|] == window == queue.Window();
    QueueGrows(g.n, queue.shared, before, distances[..], lqueue);
    queue.Flush(lqueue);
  }

  // ---- What holds between two levels ----

  /** The edges out of the vertices already expanded lead to visited vertices, one hop further at most. */
  ghost predicate Expanded(g: Csr, dist: seq<int>, d: int)
    requires g.Valid() && |dist| == g.n
  {
    forall u: nat, v: nat | u < g.n && v < g.n && 0 <= dist[u] < d - 1 && g.out.HasEdge(u, v) :: 0 <= dist[v] <= dist[u] + 1
  }

  ghost predicate Level(g: Csr, root: nat, dist: seq<int>, d: int)
    requires g.Valid()
  {
    && |dist| == g.n && root < g.n && d >= 1
    && dist[root] == 0
    && (forall v: nat | v < g.n && dist[v] >= 0 :: dist[v] < d && Achieved(Hops(g.out.Edges()), root, v, dist[v]))
    && Expanded(g, dist, d)
  }

  lemma LevelStep(g: Csr, root: nat, before: seq<int>, d: int, after: seq<int>)
    requires g.Valid() && Level(g, root, before, d) && NextLevel(g, before, d, after)
    ensures Level(g, root, after, d + 1)
  {
    forall v: nat | v < g.n && after[v] >= 0
      ensures after[v] < d + 1 && Achieved(Hops(g.out.Edges()), root, v, after[v])
    {
      if before[v] < 0 {
        var u: nat :| u in Frontier(before, d - 1) && g.out.HasEdge(u, v);
        HasEdgeIffHop(g.out, u, v);
        ExtendWalk(Hops(g.out.Edges()), root, Edge(u, v, 1), d - 1);
      }
    }
    forall u: nat, v: nat | u < g.n && v < g.n && 0 <= after[u] < d && g.out.HasEdge(u, v)
      ensures 0 <= after[v] <= after[u] + 1
    {
      if after[u] == d - 1 {
        assert u in Frontier(before, d - 1);
        assert Reached(g, Frontier(before, d - 1), v);
      }
    }
  }

  ghost function Table(dist: seq<int>): map<nat, Distance> {
    map v: nat | v < |dist| :: if dist[v] >= 0 then Finite(dist[v]) else Infinite
  }

  lemma LastLevel(g: Csr, root: nat, dist: seq<int>, d: int)
    requires g.Valid() && Level(g, root, dist, d) && Frontier(dist, d - 1) == {}
    ensures AreDistances(Hops(g.out.Edges()), root, Table(dist))
  {
    var E := Hops(g.out.Edges());
    forall e | e in E
      ensures Relaxed(Table(dist), e)
    {
      HasEdgeIffHop(g.out, e.src, e.dst);
      if dist[e.src] >= 0 {
        assert dist[e.src] != d - 1 by { assert e.src !in Frontier(dist, d - 1); }
      }
    }
    SoundAndClosedAreDistances(E, root, Table(dist));
  }

  lemma {:induction false} UnvisitedShrinks(before: seq<int>, after: seq<int>)
    requires |before| == |after|
    requires forall v | 0 <= v < |before| && before[v] >= 0 :: after[v] >= 0
    ensures Unvisited(after) <= Unvisited(before)
    ensures (exists v :: 0 <= v < |before| && before[v] < 0 <= after[v]) ==> Unvisited(after) < Unvisited(before)
    ensures Unvisited(after) < Unvisited(before) ==> exists v :: 0 <= v < |before| && before[v] < 0 <= after[v]
  {
    if before != [] {
      UnvisitedShrinks(before[..|before| - 1], after[..|after| - 1]);
    }
  }

  // ---- Bottom-up step ----

  /** Bits of vertices expanded long ago may survive in the bitmap: they are harmless, since an
      unvisited vertex has no edge from them. */
  ghost predicate FrontCovers(dist: seq<int>, d: int, front: seq<bool>) {
    && |front| == |dist|
    && (forall v | 0 <= v < |dist| && dist[v] == d - 1 :: front[v])
    && (forall v | 0 <= v < |dist| && front[v] :: dist[v] >= 0)
  }

  method FindParent(g: Csr, front: array<bool>, u: nat) returns (found: bool)
    requires g.inc.Valid(g.n) && u < g.n == front.Length
    ensures found <==> exists i: nat :: g.inc.InRow(u, i) && i < |g.inc.e| && front[g.inc.e[i]]
  {
    RowInBounds(g.inc, g.n, u);
    for i := g.inc.First(u) to g.inc.Last(u)
      invariant forall j: nat :: g.inc.InRow(u, j) && j < i ==> !front[g.inc.e[j]]
    {
      if front[g.inc.e[i]] {
        assert g.inc.InRow(u, i);
        return true;
      }
    }
    return false;
  }

  lemma ParentIffReached(g: Csr, root: nat, dist: seq<int>, d: int, front: seq<bool>, u: nat)
    requires g.Valid() && Level(g, root, dist, d) && FrontCovers(dist, d, front) && u < g.n && dist[u] < 0
    ensures (exists i: nat :: g.inc.InRow(u, i) && i < |g.inc.e| && front[g.inc.e[i]]) <==> Reached(g, Frontier(dist, d - 1), u)
  {
    if i: nat :| g.inc.InRow(u, i) && i < |g.inc.e| && front[g.inc.e[i]] {
      var x := g.inc.e[i];
      EdgeAt(g.inc, u, i);
      assert g.out.HasEdge(x, u);
      assert x in Frontier(dist, d - 1);
    }
    if x: nat :| x in Frontier(dist, d - 1) && g.out.HasEdge(x, u) {
      assert g.inc.HasEdge(u, x);
    }
  }

  /** The bottom-up step after it has looked at the vertices below upto. */
  ghost predicate SpreadBelow(g: Csr, before: seq<int>, S: set<nat>, d: int, upto: nat, after: seq<int>)
    requires g.Valid()
  {
    && |after| == |before|
    && forall v: nat | v < |before| :: after[v] == if v < upto && before[v] < 0 && Reached(g, S, v) then d else before[v]
  }

  lemma SpreadBelowStep(g: Csr, before: seq<int>, S: set<nat>, d: int, u: nat, mid: seq<int>)
    requires g.Valid() && u < |before| && SpreadBelow(g, before, S, d, u, mid)
    ensures mid[u] == before[u]
    ensures SpreadBelow(g, before, S, d, u + 1, if before[u] < 0 && Reached(g, S, u) then mid[u := d] else mid)
  {}

  /** The body of the loop of do_bfs_BUStep: does some vertex of the frontier lead to u? */
  method ProbeVertex(g: Csr, ghost root: nat, ghost before: seq<int>, distances: array<int>, distance: int,
                     front: array<bool>, next: array<bool>, u: nat) returns (awake: int)
    requires g.Valid() && Level(g, root, before, distance) && FrontCovers(before, distance, front[..])
    requires u < g.n && next.Length == g.n && next != front
    requires SpreadBelow(g, before, Frontier(before, distance - 1), distance, u, distances[..])
    requires forall v | 0 <= v < g.n :: next[v] <==> distances[v] == distance
    modifies distances, next
    ensures SpreadBelow(g, before, Frontier(before, distance - 1), distance, u + 1, distances[..])
    ensures forall v | 0 <= v < g.n :: next[v] <==> distances[v] == distance
    ensures 0 <= awake == Unvisited(old(distances[..])) - Unvisited(distances[..])
  {
    ghost var mid := distances[..];
    awake := 0;
    SpreadBelowStep(g, before, Frontier(before, distance - 1), distance, u, mid);
    if distances[u] < 0 {
      var found := FindParent(g, front, u);
      ParentIffReached(g, root, before, distance, front[..], u);
      if found {
        Visit(mid, u, distance);
        distances[u] := distance;
        assert distances[..] == mid[u := distance];
        awake := 1;
        next[u] := true;
      }
    }
  }

  method BUStep(g: Csr, ghost root: nat, distances: array<int>, distance: int, front: array<bool>, next: array<bool>) returns (awakeCount: int)
    requires g.Valid() && Level(g, root, distances[..], distance) && FrontCovers(distances[..], distance, front[..])
    requires next.Length == g.n && next != front
    modifies distances, next
    ensures NextLevel(g, old(distances[..]), distance, distances[..])
    ensures Level(g, root, distances[..], distance + 1)
    ensures forall v | 0 <= v < g.n && old(distances[v]) >= 0 :: distances[v] == old(distances[v])
    ensures forall v | 0 <= v < g.n :: next[v] <==> distances[v] == distance
    ensures 0 <= awakeCount == Unvisited(old(distances[..])) - Unvisited(distances[..])
  {
    ghost var before := distances[..];
    for v := 0 to next.Length
      modifies next
      invariant forall x | 0 <= x < v :: !next[x]
    {
      next[v] := false;
    }
    assert distances[..] == before;
    awakeCount := 0;
    for u := 0 to g.n
      invariant SpreadBelow(g, before, Frontier(before, distance - 1), distance, u, distances[..])
      invariant forall v | 0 <= v < g.n :: next[v] <==> distances[v] == distance
      invariant front[..] == old(front[..])
      invariant 0 <= awakeCount == Unvisited(before) - Unvisited(distances[..])
    {
      var awake := ProbeVertex(g, root, before, distances, distance, front, next, u);
      awakeCount := awakeCount + awake;
    }
    LevelStep(g, root, before, distance, distances[..]);
  }

  // ---- Switching between the queue and the bitmap ----

  method QueueToBitmap(queue: SlidingQueue, bm: array<bool>)
    requires queue.Valid() && forall x | x in queue.Window() :: x < bm.Length
    modifies bm
    ensures forall v | 0 <= v < bm.Length :: bm[v] <==> old(bm[v]) || v in queue.Window()
  {
    var window := queue.shared[queue.outStart..queue.outEnd];
    for q := 0 to |window|
      invariant forall v | 0 <= v < bm.Length :: bm[v] <==> old(bm[v]) || v in window[..q]
    {
      assert window[q] in queue.Window();
      bm[window[q]] := true;
    }
    assert window[..|window|] == window;
  }

  method BitmapToQueue(n: nat, bm: array<bool>, queue: SlidingQueue)
    requires bm.Length == n == queue.capacity && queue.Valid()
    requires Distinct(queue.shared) && forall x | x in queue.shared :: x < n && !bm[x]
    modifies queue
    ensures queue.Valid() && Distinct(queue.shared)
    ensures forall x | x in queue.shared :: x in old(queue.shared) || (x < n && bm[x])
    ensures queue.outEnd == |queue.shared|
    ensures old(queue.outEnd) == |old(queue.shared)| ==> forall v: nat :: v in queue.Window() <==> v < n && bm[v]
  {
    var lqueue: seq<nat> := [];
    for v := 0 to n
      modifies {}
      invariant forall x: nat :: x in lqueue <==> x < v && bm[x]
      invariant Distinct(lqueue)
    {
      if bm[v] {
        lqueue := lqueue + [v];
      }
    }
    ghost var all := queue.shared + lqueue;
    forall i, j | 0 <= i < j < |all|
      ensures all[i] != all[j]
    {
      assert i < |queue.shared| ==> all[i] in queue.shared;
      assert j >= |queue.shared| ==> all[j] in lqueue;
    }
    FitsBelow(all, n);
    queue.Flush(lqueue);
    queue.SlideWindow();
    assert old(queue.outEnd) == |old(queue.shared)| ==> queue.Window() == lqueue;
  }

  // ---- The search ----

  /** C++ division of integers. */
  function TruncDiv(a: int, b: int): (q: int)
    requires b > 0
    ensures a >= 0 ==> q >= 0
  {
    if a >= 0 then a / b else -(-a / b)
  }

  predicate Swapped(front: array<bool>, curr: array<bool>, front0: array<bool>, curr0: array<bool>) {
    (front == front0 && curr == curr0) || (front == curr0 && curr == front0)
  }

  /** The do-while loop of the bottom-up phase. The two bitmaps may come back swapped. */
  method BottomUp(g: Csr, ghost root: nat, distances: array<int>, d0: int, front0: array<bool>, curr0: array<bool>,
                  size: int, beta: int)
    returns (distance: int, front: array<bool>, curr: array<bool>)
    requires g.Valid() && Level(g, root, distances[..], d0) && FrontCovers(distances[..], d0, front0[..])
    requires curr0.Length == g.n && front0 != curr0 && size > 0 && beta > 0
    modifies distances, front0, curr0
    ensures Swapped(front, curr, front0, curr0)
    ensures distance > d0 && Level(g, root, distances[..], distance)
    ensures forall v | 0 <= v < g.n :: front[v] <==> distances[v] == distance - 1
    ensures forall v | 0 <= v < g.n && old(distances[v]) >= 0 :: distances[v] == old(distances[v])
  {
    front, curr := front0, curr0;
    distance := d0;
    var awakeCount := size;
    ghost var start := distances[..];
    ghost var unvisited := Unvisited(start);
    var limit := TruncDiv(g.n, beta);
    while true
      invariant Swapped(front, curr, front0, curr0)
      invariant distance >= d0 && Level(g, root, distances[..], distance) && FrontCovers(distances[..], distance, front[..])
      invariant forall v | 0 <= v < g.n && start[v] >= 0 :: distances[v] == start[v]
      invariant awakeCount > 0 && unvisited == Unvisited(distances[..])
      decreases unvisited
    {
      var oldAwakeCount := awakeCount;
      awakeCount := BUStep(g, root, distances, distance, front, curr);
      unvisited := unvisited - awakeCount;
      front, curr := curr, front;
      distance := distance + 1;
      if !(awakeCount >= oldAwakeCount || awakeCount > limit) {
        break;
      }
    }
  }

  /** do_bfs_init_distances: unvisited vertices hold their negated out-degree, or -1. */
  method InitDistances(g: Csr) returns (distances: array<int>)
    requires g.Valid()
    ensures fresh(distances) && distances.Length == g.n
    ensures forall v | 0 <= v < g.n :: distances[v] == if g.out.Degree(v) != 0 then 0 - g.out.Degree(v) else -1
  {
    distances := new int[g.n];
    for v := 0 to g.n
      invariant forall x | 0 <= x < v :: distances[x] == if g.out.Degree(x) != 0 then 0 - g.out.Degree(x) else -1
    {
      RowInBounds(g.out, g.n, v);
      distances[v] := if g.out.Degree(v) != 0 then 0 - g.out.Degree(v) else -1;
    }
  }

  ghost predicate BetweenLevels(g: Csr, root: nat, dist: seq<int>, d: int, queue: SlidingQueue, front: seq<bool>)
    requires g.Valid()
    reads queue
  {
    && Level(g, root, dist, d)
    && queue.Valid() && QueueOk(g.n, queue.capacity, queue.shared, dist)
    && queue.outEnd == |queue.shared|
    && Elements(queue.Window()) == Frontier(dist, d - 1)
    && |front| == g.n
    && forall v | 0 <= v < g.n && front[v] :: dist[v] >= 0
  }

  method TopDownLevel(g: Csr, ghost root: nat, distances: array<int>, distance: int, queue: SlidingQueue, front: array<bool>)
    returns (scout: int)
    requires g.Valid() && BetweenLevels(g, root, distances[..], distance, queue, front[..])
    modifies distances, queue
    ensures BetweenLevels(g, root, distances[..], distance + 1, queue, front[..])
    ensures Unvisited(distances[..]) <= Unvisited(old(distances[..]))
    ensures |queue.Window()| > 0 ==> Unvisited(distances[..]) < Unvisited(old(distances[..]))
  {
    ghost var before := distances[..];
    scout := TDStep(g, distances, distance, queue);
    queue.SlideWindow();
    LevelStep(g, root, before, distance, distances[..]);
    UnvisitedShrinks(before, distances[..]);
    assert queue.Window() == queue.shared[|old(queue.shared)|..];
    assert |queue.Window()| > 0 ==> queue.Window()[0] in queue.Window();
  }

  method BottomUpLevels(g: Csr, ghost root: nat, distances: array<int>, d0: int, queue: SlidingQueue,
                        front0: array<bool>, curr0: array<bool>, beta: int)
    returns (distance: int, front: array<bool>, curr: array<bool>)
    requires g.Valid() && BetweenLevels(g, root, distances[..], d0, queue, front0[..])
    requires curr0.Length == g.n && front0 != curr0 && |queue.Window()| > 0 && beta > 0
    modifies distances, queue, front0, curr0
    ensures Swapped(front, curr, front0, curr0)
    ensures BetweenLevels(g, root, distances[..], distance, queue, front[..])
    ensures Unvisited(distances[..]) <= Unvisited(old(distances[..]))
    ensures |queue.Window()| > 0 ==> Unvisited(distances[..]) < Unvisited(old(distances[..]))
  {
    ghost var before := distances[..];
    ghost var window := queue.Window();
    forall x | x in queue.Window()
      ensures x < front0.Length && distances[x] >= 0
    {
      assert x in queue.shared;
    }
    QueueToBitmap(queue, front0);
    forall v | 0 <= v < g.n && distances[v] == d0 - 1
      ensures front0[v]
    {
      assert v in Frontier(before, d0 - 1);
    }
    var size := queue.outEnd - queue.outStart;
    queue.SlideWindow();
    assert distances[..] == before;
    distance, front, curr := BottomUp(g, root, distances, d0, front0, curr0, size, beta);
    UnvisitedShrinks(before, distances[..]);
    BitmapToQueue(g.n, front, queue);
    assert Elements(queue.Window()) == Frontier(distances[..], distance - 1);
    if |queue.Window()| > 0 {
      var v := queue.Window()[0];
      assert v in queue.Window();
    }
  }

  method StartAt(g: Csr, root: nat) returns (distances: array<int>, queue: SlidingQueue)
    requires g.Valid() && root < g.n
    ensures fresh(distances) && fresh(queue) && distances.Length == g.n
    ensures BetweenLevels(g, root, distances[..], 1, queue, seq(g.n, _ => false))
  {
    distances := InitDistances(g);
    distances[root] := 0;
    queue := new SlidingQueue(g.n);
    queue.PushBack(root);
    queue.SlideWindow();
    assert queue.Window() == [root];
    assert Elements([root]) == {root};
    EmptyWalk(Hops(g.out.Edges()), root);
  }

  /** CSR::do_bfs: whatever alpha and beta make of the direction, the result is the hop distance from
      the root, negative exactly for the vertices that cannot be reached. */
  method DoBfs(g: Csr, root: nat, alpha: int, beta: int) returns (distances: array<int>)
    requires g.Valid() && root < g.n && alpha > 0 && beta > 0
    ensures distances.Length == g.n
    ensures AreDistances(Hops(g.out.Edges()), root, Table(distances[..]))
  {
    var queue;
    distances, queue := StartAt(g, root);
    var curr := new bool[g.n](_ => false);
    var front := new bool[g.n](_ => false);
    assert front[..] == seq(g.n, _ => false);
    var edgesToCheck: int := g.numEdges;
    var scoutCount: int := g.out.Degree(root);
    var distance := 1;
    while queue.outStart != queue.outEnd
      invariant fresh(distances) && fresh(queue) && fresh(front) && fresh(curr)
      invariant front != curr && curr.Length == distances.Length == g.n
      invariant BetweenLevels(g, root, distances[..], distance, queue, front[..])
      decreases Unvisited(distances[..]), |queue.Window()|
    {
      if scoutCount > TruncDiv(edgesToCheck, alpha) {
        distance, front, curr := BottomUpLevels(g, root, distances, distance, queue, front, curr, beta);
        scoutCount := 1;
      } else {
        edgesToCheck := edgesToCheck - scoutCount;
        scoutCount := TopDownLevel(g, root, distances, distance, queue, front);
        distance := distance + 1;
      }
    }
    LastLevel(g, root, distances[..], distance);
  }
}
