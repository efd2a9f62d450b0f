/** Delta-stepping as OpenMP runs it, library/baseline/csr.cpp:1266-1335: any number of threads relax the
    shared frontier, each with bins of its own, one access to shared memory at a time; a barrier, a
    refill of the frontier from the next bin of all threads, and a second barrier. */
module SsspRace {
  import opened Counting
  import opened Csr
  import opened Numbers
  import opened Paths
  import opened Sssp

  type Graph = g: Csr | g.out.Valid(g.n) && NonNegative(g.out.Edges()) witness EMPTY_CSR

  /** Where a thread is. At: about to look at position i of the row of u. Read: it knows the label of the target.
      Cas: it tries to replace the label seen by d. Push: it has, and still has to enter the target in a bin. Lower: it
      still has to lower the shared bin index to k. Copy: it has copied m entries to the frontier from start on. */
  datatype Pc =
    | Idle
    | Took(u: nat)
    | At(u: nat, i: nat)
    | Read(u: nat, i: nat, seen: Distance)
    | Cas(u: nat, i: nat, seen: Distance, d: nat)
    | Reread(u: nat, i: nat, d: nat)
    | Push(u: nat, i: nat, d: nat)
    | Lower(k: nat)
    | Wait1
    | Single
    | Refill
    | Copy(start: nat, m: nat)
    | Wait2

  datatype Thread = Thread(pc: Pc, bins: seq<seq<nat>>)

  datatype Phase = Relaxing | Refilling | Finished

  /** curr and next are the two elements of shared_indexes, tail and nextTail those of frontier_tails; they change
      roles with every iteration. frontier holds the cells written since the last barrier that matter; open are the
      positions not yet handed out; reset tells whether the single block has been executed. */
  datatype State = State(phase: Phase, dist: seq<Distance>, curr: BinIndex, next: BinIndex, tail: nat, nextTail: nat,
                         frontier: map<nat, nat>, open: set<nat>, reset: bool, threads: seq<Thread>)

  ghost predicate Init(g: Graph, source: nat, s: State) {
    && source < g.n && s.phase == Relaxing
    && s.dist == seq(g.n, v => if v == source then Finite(0) else Infinite)
    && s.curr == Bin(0) && s.next == NoBin && s.tail == 1 && s.nextTail == 0
    && s.frontier == map[0 := source] && s.open == {0} && !s.reset
    && |s.threads| >= 1 && forall t | 0 <= t < |s.threads| :: s.threads[t] == Thread(Idle, [])
  }

  // ---- Steps ----

  function Go(s: State, t: nat, pc: Pc): State
    requires t < |s.threads|
  {
    s.(threads := s.threads[t := Thread(pc, s.threads[t].bins)])
  }

  /** The loop of lines 1309-1315. */
  function FirstFrom(bins: seq<seq<nat>>, c: nat): (r: BinIndex)
    ensures r.Bin? ==> c <= r.i < |bins| && bins[r.i] != [] && forall j | c <= j < r.i :: bins[j] == []
    ensures r.NoBin? ==> forall j | c <= j < |bins| :: bins[j] == []
    decreases |bins| - c
  {
    if c >= |bins| then NoBin
    else if bins[c] != [] then Bin(c)
    else FirstFrom(bins, c + 1)
  }

  function Scanned(r: BinIndex): Pc {
    match r
    case NoBin => Wait1
    case Bin(k) => Lower(k)
  }

  function Lowest(next: BinIndex, k: nat): BinIndex {
    match next
    case NoBin => Bin(k)
    case Bin(j) => Bin(Min(j, k))
  }

  function Put(bins: seq<seq<nat>>, k: nat, v: nat): seq<seq<nat>> {
    var grown := Grow(bins, k);
    grown[k := grown[k] + [v]]
  }

  /** The position of an edge the thread works on. */
  predicate AtEdge(g: Csr, u: nat, i: nat) {
    u < g.n && u < |g.out.v| && g.out.First(u) <= i < g.out.Last(u) && i < |g.out.e| && i < |g.out.w|
  }

  predicate Far(d: Distance, floor: nat) {
    d.Infinite? || d.d >= floor
  }

  ghost predicate RelaxStep(g: Graph, delta: nat, s: State, s': State, t: nat)
    requires delta > 0
  {
    && t < |s.threads| && s.phase == Relaxing && s.curr.Bin?
    && match s.threads[t].pc
       case Idle =>
         if s.open != {} then
           exists p :: p in s.open && p in s.frontier && s' == Go(s, t, Took(s.frontier[p])).(open := s.open - {p})
         else s' == Go(s, t, Scanned(FirstFrom(s.threads[t].bins, s.curr.i)))
       case Took(u) =>
         u < g.n == |s.dist| && s' == Go(s, t, if Far(s.dist[u], delta * s.curr.i) then At(u, g.out.First(u)) else Idle)
       case At(u, i) =>
         if AtEdge(g, u, i) then g.out.e[i] < |s.dist| && s' == Go(s, t, Read(u, i, s.dist[g.out.e[i]])) else s' == Go(s, t, Idle)
       case Read(u, i, seen) =>
         && AtEdge(g, u, i) && u < |s.dist| && s.dist[u].Finite? && s.dist[u].d + g.out.w[i] >= 0
         && var d: nat := s.dist[u].d + g.out.w[i];
            s' == Go(s, t, if Closer(d, seen) then Cas(u, i, seen, d) else At(u, i + 1))
       case Cas(u, i, seen, d) =>
         && AtEdge(g, u, i) && g.out.e[i] < |s.dist|
         && if s.dist[g.out.e[i]] == seen then s' == Go(s, t, Push(u, i, d)).(dist := s.dist[g.out.e[i] := Finite(d)])
            else s' == Go(s, t, Reread(u, i, d))
       case Reread(u, i, d) =>
         && AtEdge(g, u, i) && g.out.e[i] < |s.dist|
         && s' == Go(s, t, if Closer(d, s.dist[g.out.e[i]]) then Cas(u, i, s.dist[g.out.e[i]], d) else At(u, i + 1))
       case Push(u, i, d) =>
         && AtEdge(g, u, i)
         && s' == s.(threads := s.threads[t := Thread(At(u, i + 1), Put(s.threads[t].bins, d / delta, g.out.e[i]))])
       case Lower(k) =>
         s' == Go(s, t, Wait1).(next := Lowest(s.next, k))
       case _ => false
  }

  ghost predicate AllAt(s: State, pc: Pc) {
    forall t | 0 <= t < |s.threads| :: s.threads[t].pc == pc
  }

  function Restarted(threads: seq<Thread>, pc: Pc): (r: seq<Thread>)
    ensures |r| == |threads| && forall t | 0 <= t < |threads| :: r[t] == Thread(pc, threads[t].bins)
  {
    seq(|threads|, t requires 0 <= t < |threads| => Thread(pc, threads[t].bins))
  }

  /** The first barrier. What the frontier holds is not read any more. */
  ghost predicate FirstBarrier(s: State, s': State) {
    s.phase == Relaxing && AllAt(s, Wait1)
    && s' == s.(phase := Refilling, frontier := map[], threads := Restarted(s.threads, Single))
  }

  ghost predicate RefillStep(s: State, s': State, t: nat) {
    && t < |s.threads| && s.phase == Refilling
    && match s.threads[t].pc
       case Single =>
         s' == if s.reset then Go(s, t, Refill) else Go(s, t, Refill).(reset := true, curr := NoBin, tail := 0)
       case Refill =>
         s' == if s.next.Bin? && s.next.i < |s.threads[t].bins|
               then Go(s, t, Copy(s.nextTail, 0)).(nextTail := s.nextTail + |s.threads[t].bins[s.next.i]|)
               else Go(s, t, Wait2)
       case Copy(start, m) =>
         && s.next.Bin? && s.next.i < |s.threads[t].bins|
         && var bins := s.threads[t].bins;
            if m < |bins[s.next.i]| then s' == Go(s, t, Copy(start, m + 1)).(frontier := s.frontier[start + m := bins[s.next.i][m]])
            else s' == s.(threads := s.threads[t := Thread(Wait2, bins[s.next.i := []])])
       case _ => false
  }

  /** The second barrier, and the test at the head of the loop. */
  ghost predicate SecondBarrier(s: State, s': State) {
    s.phase == Refilling && AllAt(s, Wait2)
    && s' == if s.next.NoBin? then s.(phase := Finished)
             else State(Relaxing, s.dist, s.next, s.curr, s.nextTail, s.tail, s.frontier, Below(s.nextTail), false,
                        Restarted(s.threads, Idle))
  }

  ghost predicate Next(g: Graph, delta: nat, s: State, s': State)
    requires delta > 0
  {
    || (exists t :: RelaxStep(g, delta, s, s', t))
    || FirstBarrier(s, s')
    || (exists t :: RefillStep(s, s', t))
    || SecondBarrier(s, s')
  }

  // ---- The invariant while the frontier is relaxed ----

  /** A vertex in a bin or in the frontier has been reached. */
  ghost predicate Entry(dist: seq<Distance>, v: nat) {
    v < |dist| && dist[v].Finite?
  }

  ghost predicate BinsFrom(dist: seq<Distance>, bins: seq<seq<nat>>, c: nat) {
    && (forall j, v | 0 <= j < |bins| && v in bins[j] :: Entry(dist, v))
    && (forall j | 0 <= j < |bins| && j < c :: bins[j] == [])
  }

  ghost predicate NotFarther(a: Distance, b: Distance) {
    a == b || (a.Finite? && Closer(a.d, b))
  }

  /** u is being relaxed: its label is not below the current bin. */
  ghost predicate Source(g: Graph, dist: seq<Distance>, floor: nat, u: nat) {
    u < g.n == |dist| && dist[u].Finite? && dist[u].d >= floor
  }

  /** d is the length of a walk to the target of edge i, over u, and not below the current bin. */
  ghost predicate Candidate(g: Graph, source: nat, dist: seq<Distance>, floor: nat, u: nat, i: nat, d: nat) {
    && Source(g, dist, floor, u) && AtEdge(g, u, i)
    && d >= floor && dist[u].d + g.out.w[i] <= d
    && Achieved(g.out.Edges(), source, g.out.e[i], d)
  }

  ghost predicate PcOk(g: Graph, source: nat, dist: seq<Distance>, floor: nat, pc: Pc) {
    match pc
    case Idle => true
    case Took(u) => u < g.n && Entry(dist, u)
    case At(u, i) => Source(g, dist, floor, u) && g.out.First(u) <= i <= g.out.Last(u)
    case Read(u, i, seen) => Source(g, dist, floor, u) && AtEdge(g, u, i) && NotFarther(dist[g.out.e[i]], seen)
    case Cas(u, i, seen, d) => Candidate(g, source, dist, floor, u, i, d) && Closer(d, seen) && NotFarther(dist[g.out.e[i]], seen)
    case Reread(u, i, d) => Candidate(g, source, dist, floor, u, i, d)
    case Push(u, i, d) => Candidate(g, source, dist, floor, u, i, d) && NotFarther(dist[g.out.e[i]], Finite(d))
    case Lower(_) => true
    case Wait1 => true
    case _ => false
  }

  /** Threads that have left the loop over the frontier. */
  ghost predicate Left(pc: Pc) {
    pc.Lower? || pc.Wait1?
  }

  ghost predicate BinOk(next: BinIndex, th: Thread) {
    && (th.pc.Lower? ==> th.pc.k < |th.bins| && th.bins[th.pc.k] != [])
    && (th.pc.Lower? ==> forall j | 0 <= j < |th.bins| && th.bins[j] != [] :: th.pc.k <= j)
    && (th.pc.Wait1? ==> forall j | 0 <= j < |th.bins| && th.bins[j] != [] :: next.Bin? && next.i <= j)
  }

  ghost predicate ThreadOk(g: Graph, source: nat, dist: seq<Distance>, delta: nat, c: nat, next: BinIndex, th: Thread) {
    PcOk(g, source, dist, delta * c, th.pc) && BinsFrom(dist, th.bins, c) && BinOk(next, th)
  }

  /** The thread will see to v, or has v in the bin of its label. */
  ghost predicate Cares(g: Graph, dist: seq<Distance>, delta: nat, c: nat, th: Thread, v: nat)
    requires v < g.n == |dist| && dist[v].Finite? && delta > 0
  {
    Binned(th.bins, v, dist[v].d, delta) || PcCares(g, dist, delta, c, th.pc, v)
  }

  ghost predicate PcCares(g: Graph, dist: seq<Distance>, delta: nat, c: nat, pc: Pc, v: nat)
    requires v < g.n == |dist| && dist[v].Finite? && delta > 0
  {
    match pc
    case Took(u) => u == v && dist[v].d / delta == c
    case At(u, i) => u == v && i <= |g.out.e| && RowRelaxed(g, dist, v, i)
    case Read(u, i, seen) => u == v && i <= |g.out.e| && RowRelaxed(g, dist, v, i)
    case Cas(u, i, seen, d) => u == v && AtEdge(g, u, i) && RowRelaxed(g, dist, v, i) && dist[v].d + g.out.w[i] == d
    case Reread(u, i, d) => u == v && AtEdge(g, u, i) && RowRelaxed(g, dist, v, i) && dist[v].d + g.out.w[i] == d
    case Push(u, i, d) => AtEdge(g, u, i) && ((u == v && RowRelaxed(g, dist, v, i + 1)) || (g.out.e[i] == v && dist[v].d == d))
    case _ => false
  }

  ghost predicate SomeoneCares(g: Graph, dist: seq<Distance>, delta: nat, c: nat, threads: seq<Thread>, v: nat)
    requires v < g.n == |dist| && dist[v].Finite? && delta > 0
  {
    exists t :: 0 <= t < |threads| && Cares(g, dist, delta, c, threads[t], v)
  }

  ghost predicate Waits(frontier: map<nat, nat>, open: set<nat>, v: nat) {
    exists p :: p in open && p in frontier && frontier[p] == v
  }

  /** What is still to be done about v: nothing, or a thread sees to it, or it waits in the frontier. */
  ghost predicate Handled(g: Graph, delta: nat, s: State, v: nat)
    requires v < g.n == |s.dist| && s.dist[v].Finite? && delta > 0 && s.curr.Bin?
  {
    || Settled(g, s.dist, v)
    || SomeoneCares(g, s.dist, delta, s.curr.i, s.threads, v)
    || (Waits(s.frontier, s.open, v) && s.dist[v].d / delta == s.curr.i)
  }

  ghost predicate Base(g: Graph, source: nat, s: State) {
    && |s.dist| == g.n && source < g.n && s.dist[source] == Finite(0)
    && Sound(g.out.Edges(), source, Table(s.dist))
    && |s.threads| >= 1
  }

  ghost predicate FrontierOk(s: State) {
    && (forall p | p in s.open :: p in s.frontier)
    && (forall p | p in s.frontier :: Entry(s.dist, s.frontier[p]))
  }

  ghost predicate RelaxInv(g: Graph, source: nat, delta: nat, s: State)
    requires delta > 0
  {
    && s.phase == Relaxing && Base(g, source, s) && FrontierOk(s)
    && s.curr.Bin? && s.nextTail == 0 && !s.reset
    && (s.next.Bin? ==> s.curr.i <= s.next.i)
    && (forall t | 0 <= t < |s.threads| :: ThreadOk(g, source, s.dist, delta, s.curr.i, s.next, s.threads[t]))
    && (forall t | 0 <= t < |s.threads| && Left(s.threads[t].pc) :: s.open == {})
    && (forall v: nat | v < g.n && s.dist[v].Finite? :: Handled(g, delta, s, v))
  }

  // ---- Steps that leave the labels alone ----

  /** Thread t moves on; what it cared about it still cares about, or it is settled. */
  ghost predicate KeepsCaring(g: Graph, dist: seq<Distance>, delta: nat, c: nat, th: Thread, th': Thread)
    requires delta > 0 && |dist| == g.n
  {
    forall v: nat | v < g.n && dist[v].Finite? && Cares(g, dist, delta, c, th, v) ::
      Cares(g, dist, delta, c, th', v) || Settled(g, dist, v)
  }

  lemma CaringStays(g: Graph, delta: nat, s: State, t: nat, th': Thread, v: nat)
    requires delta > 0 && v < g.n == |s.dist| && s.dist[v].Finite? && s.curr.Bin? && t < |s.threads|
    requires KeepsCaring(g, s.dist, delta, s.curr.i, s.threads[t], th')
    requires SomeoneCares(g, s.dist, delta, s.curr.i, s.threads, v)
    ensures SomeoneCares(g, s.dist, delta, s.curr.i, s.threads[t := th'], v) || Settled(g, s.dist, v)
  {
    var u :| 0 <= u < |s.threads| && Cares(g, s.dist, delta, s.curr.i, s.threads[u], v);
    var threads' := s.threads[t := th'];
    if u != t {
      assert threads'[u] == s.threads[u];
    } else {
      assert threads'[t] == th';
    }
  }

  /** A step of thread t that changes neither labels nor frontier. */
  lemma LocalStep(g: Graph, source: nat, delta: nat, s: State, s': State, t: nat, th': Thread)
    requires delta > 0 && RelaxInv(g, source, delta, s) && t < |s.threads|
    requires s' == s.(threads := s.threads[t := th'])
    requires ThreadOk(g, source, s.dist, delta, s.curr.i, s.next, th') && (Left(th'.pc) ==> s.open == {})
    requires KeepsCaring(g, s.dist, delta, s.curr.i, s.threads[t], th')
    ensures RelaxInv(g, source, delta, s')
  {
    forall v: nat | v < g.n && s'.dist[v].Finite?
      ensures Handled(g, delta, s', v)
    {
      assert Handled(g, delta, s, v);
      if SomeoneCares(g, s.dist, delta, s.curr.i, s.threads, v) {
        CaringStays(g, delta, s, t, th', v);
      }
    }
  }

  /** Position p of the frontier is handed to thread t. */
  lemma TakeStep(g: Graph, source: nat, delta: nat, s: State, s': State, t: nat, p: nat)
    requires delta > 0 && RelaxInv(g, source, delta, s) && t < |s.threads| && s.threads[t].pc == Idle
    requires p in s.open && p in s.frontier && s' == Go(s, t, Took(s.frontier[p])).(open := s.open - {p})
    ensures RelaxInv(g, source, delta, s')
  {
    var th' := Thread(Took(s.frontier[p]), s.threads[t].bins);
    assert Entry(s.dist, s.frontier[p]);
    forall v: nat | v < g.n && s'.dist[v].Finite?
      ensures Handled(g, delta, s', v)
    {
      assert Handled(g, delta, s, v);
      if SomeoneCares(g, s.dist, delta, s.curr.i, s.threads, v) {
        CaringStays(g, delta, s, t, th', v);
      } else if Waits(s.frontier, s.open, v) && s.dist[v].d / delta == s.curr.i {
        var q :| q in s.open && q in s.frontier && s.frontier[q] == v;
        assert q == p ==> Cares(g, s'.dist, delta, s.curr.i, s'.threads[t], v);
        assert q != p ==> q in s'.open;
      }
    }
  }

  /** A label below the current bin. */
  lemma StaleIsLower(d: nat, delta: nat, c: nat)
    requires delta > 0 && d < delta * c
    ensures d / delta != c
  {
    BinLowerBound(d, delta);
  }

  lemma IdleStep(g: Graph, source: nat, delta: nat, s: State, s': State, t: nat)
    requires delta > 0 && RelaxInv(g, source, delta, s) && RelaxStep(g, delta, s, s', t) && s.threads[t].pc == Idle
    ensures RelaxInv(g, source, delta, s')
  {
    if s.open != {} {
      var p :| p in s.open && p in s.frontier && s' == Go(s, t, Took(s.frontier[p])).(open := s.open - {p});
      TakeStep(g, source, delta, s, s', t, p);
    } else {
      var th := s.threads[t];
      var th' := Thread(Scanned(FirstFrom(th.bins, s.curr.i)), th.bins);
      assert BinsFrom(s.dist, th.bins, s.curr.i);
      LocalStep(g, source, delta, s, s', t, th');
    }
  }

  lemma TookStep(g: Graph, source: nat, delta: nat, s: State, s': State, t: nat)
    requires delta > 0 && RelaxInv(g, source, delta, s) && RelaxStep(g, delta, s, s', t) && s.threads[t].pc.Took?
    ensures RelaxInv(g, source, delta, s')
  {
    var th, u := s.threads[t], s.threads[t].pc.u;
    var far := Far(s.dist[u], delta * s.curr.i);
    var th' := Thread(if far then At(u, g.out.First(u)) else Idle, th.bins);
    RowInBounds(g.out, g.n, u);
    if !far {
      StaleIsLower(s.dist[u].d, delta, s.curr.i);
    }
    LocalStep(g, source, delta, s, s', t, th');
  }

  lemma EdgeStep(g: Graph, source: nat, delta: nat, s: State, s': State, t: nat)
    requires delta > 0 && RelaxInv(g, source, delta, s) && RelaxStep(g, delta, s, s', t) && s.threads[t].pc.At?
    ensures RelaxInv(g, source, delta, s')
  {
    var th, u, i := s.threads[t], s.threads[t].pc.u, s.threads[t].pc.i;
    RowInBounds(g.out, g.n, u);
    var th' := Thread(if AtEdge(g, u, i) then Read(u, i, s.dist[g.out.e[i]]) else Idle, th.bins);
    LocalStep(g, source, delta, s, s', t, th');
  }

  lemma WeightNonNegative(g: Graph, u: nat, i: nat)
    requires AtEdge(g, u, i)
    ensures g.out.w[i] >= 0 && g.out.e[i] < g.n
  {
    assert g.out.InRow(u, i);
    EdgeAt(g.out, u, i);
  }

  lemma WalkOver(g: Graph, source: nat, dist: seq<Distance>, u: nat, i: nat)
    requires u < g.n == |dist| && dist[u].Finite? && AtEdge(g, u, i) && Sound(g.out.Edges(), source, Table(dist))
    ensures Achieved(g.out.Edges(), source, g.out.e[i], dist[u].d + g.out.w[i])
  {
    assert g.out.InRow(u, i);
    EdgeAt(g.out, u, i);
    assert Table(dist)[u] == dist[u];
    ExtendWalk(g.out.Edges(), source, Edge(u, g.out.e[i], g.out.w[i]), dist[u].d);
  }

  /** Looking further along the row: the edge is relaxed. */
  lemma EdgeDone(g: Graph, dist: seq<Distance>, u: nat, i: nat)
    requires u < g.n == |dist| && dist[u].Finite? && AtEdge(g, u, i) && RowRelaxed(g, dist, u, i)
    requires g.out.e[i] < g.n && dist[u].d + g.out.w[i] >= 0 && !Closer(dist[u].d + g.out.w[i], dist[g.out.e[i]])
    ensures RowRelaxed(g, dist, u, i + 1)
  {}

  lemma ReadOk(g: Graph, source: nat, dist: seq<Distance>, delta: nat, c: nat, next: BinIndex, th: Thread, th': Thread, d: nat)
    requires |dist| == g.n && Sound(g.out.Edges(), source, Table(dist))
    requires th.pc.Read? && ThreadOk(g, source, dist, delta, c, next, th) && d == dist[th.pc.u].d + g.out.w[th.pc.i]
    requires th' == Thread(if Closer(d, th.pc.seen) then Cas(th.pc.u, th.pc.i, th.pc.seen, d) else At(th.pc.u, th.pc.i + 1), th.bins)
    ensures ThreadOk(g, source, dist, delta, c, next, th') && g.out.e[th.pc.i] < g.n
  {
    WeightNonNegative(g, th.pc.u, th.pc.i);
    WalkOver(g, source, dist, th.pc.u, th.pc.i);
  }

  lemma ReadStep(g: Graph, source: nat, delta: nat, s: State, s': State, t: nat)
    requires delta > 0 && RelaxInv(g, source, delta, s) && RelaxStep(g, delta, s, s', t) && s.threads[t].pc.Read?
    ensures RelaxInv(g, source, delta, s')
  {
    var th := s.threads[t];
    var u, i, seen := th.pc.u, th.pc.i, th.pc.seen;
    var d: nat := s.dist[u].d + g.out.w[i];
    var th' := Thread(if Closer(d, seen) then Cas(u, i, seen, d) else At(u, i + 1), th.bins);
    ReadOk(g, source, s.dist, delta, s.curr.i, s.next, th, th', d);
    ReadKeeps(g, s.dist, delta, s.curr.i, th, th', d);
    LocalStep(g, source, delta, s, s', t, th');
  }

  lemma ReadKeeps(g: Graph, dist: seq<Distance>, delta: nat, c: nat, th: Thread, th': Thread, d: nat)
    requires delta > 0 && |dist| == g.n && th.pc.Read?
    requires var Read(u, i, seen) := th.pc;
             && u < g.n && dist[u].Finite? && AtEdge(g, u, i) && g.out.e[i] < g.n && NotFarther(dist[g.out.e[i]], seen)
             && d == dist[u].d + g.out.w[i]
             && th' == Thread(if Closer(d, seen) then Cas(u, i, seen, d) else At(u, i + 1), th.bins)
    ensures KeepsCaring(g, dist, delta, c, th, th')
  {
    forall v: nat | v < g.n && dist[v].Finite? && PcCares(g, dist, delta, c, th.pc, v)
      ensures PcCares(g, dist, delta, c, th'.pc, v)
    {
      if !Closer(d, th.pc.seen) {
        EdgeDone(g, dist, th.pc.u, th.pc.i);
      }
    }
  }

  lemma RereadStep(g: Graph, source: nat, delta: nat, s: State, s': State, t: nat)
    requires delta > 0 && RelaxInv(g, source, delta, s) && RelaxStep(g, delta, s, s', t) && s.threads[t].pc.Reread?
    ensures RelaxInv(g, source, delta, s')
  {
    var th := s.threads[t];
    var u, i, d := th.pc.u, th.pc.i, th.pc.d;
    assert ThreadOk(g, source, s.dist, delta, s.curr.i, s.next, th);
    WeightNonNegative(g, u, i);
    var now := s.dist[g.out.e[i]];
    var th' := Thread(if Closer(d, now) then Cas(u, i, now, d) else At(u, i + 1), th.bins);
    RereadKeeps(g, s.dist, delta, s.curr.i, th, th');
    LocalStep(g, source, delta, s, s', t, th');
  }

  lemma RereadKeeps(g: Graph, dist: seq<Distance>, delta: nat, c: nat, th: Thread, th': Thread)
    requires delta > 0 && |dist| == g.n && th.pc.Reread?
    requires var Reread(u, i, d) := th.pc;
             && u < g.n && dist[u].Finite? && AtEdge(g, u, i) && g.out.e[i] < g.n && g.out.w[i] >= 0
             && th' == Thread(if Closer(d, dist[g.out.e[i]]) then Cas(u, i, dist[g.out.e[i]], d) else At(u, i + 1), th.bins)
    ensures KeepsCaring(g, dist, delta, c, th, th')
  {
    forall v: nat | v < g.n && dist[v].Finite? && PcCares(g, dist, delta, c, th.pc, v)
      ensures PcCares(g, dist, delta, c, th'.pc, v)
    {
      if !Closer(th.pc.d, dist[g.out.e[th.pc.i]]) {
        EdgeDone(g, dist, th.pc.u, th.pc.i);
      }
    }
  }

  lemma CasFails(g: Graph, source: nat, delta: nat, s: State, s': State, t: nat)
    requires delta > 0 && RelaxInv(g, source, delta, s) && RelaxStep(g, delta, s, s', t) && s.threads[t].pc.Cas?
    requires AtEdge(g, s.threads[t].pc.u, s.threads[t].pc.i) && s.dist[g.out.e[s.threads[t].pc.i]] != s.threads[t].pc.seen
    ensures RelaxInv(g, source, delta, s')
  {
    var th := s.threads[t];
    assert ThreadOk(g, source, s.dist, delta, s.curr.i, s.next, th);
    LocalStep(g, source, delta, s, s', t, Thread(Reread(th.pc.u, th.pc.i, th.pc.d), th.bins));
  }

  // ---- Entering a vertex in a bin ----

  lemma PutKeeps(bins: seq<seq<nat>>, k: nat, v: nat)
    ensures |Put(bins, k, v)| >= |bins| && k < |Put(bins, k, v)| && v in Put(bins, k, v)[k]
    ensures forall j, x | 0 <= j < |bins| && x in bins[j] :: x in Put(bins, k, v)[j]
    ensures forall j, x | 0 <= j < |Put(bins, k, v)| && x in Put(bins, k, v)[j] :: (j < |bins| && x in bins[j]) || (j == k && x == v)
  {
    var grown := Grow(bins, k);
    assert Put(bins, k, v)[k] == grown[k] + [v];
  }

  lemma PutFrom(dist: seq<Distance>, bins: seq<seq<nat>>, c: nat, k: nat, v: nat)
    requires BinsFrom(dist, bins, c) && k >= c && Entry(dist, v)
    ensures BinsFrom(dist, Put(bins, k, v), c)
  {
    PutKeeps(bins, k, v);
  }

  lemma FarIsHigh(d: nat, delta: nat, c: nat)
    requires delta > 0 && d >= delta * c
    ensures d / delta >= c
  {
    BinOfLarger(d, d, delta, c);
  }

  lemma PushKeeps(g: Graph, dist: seq<Distance>, delta: nat, c: nat, th: Thread, th': Thread)
    requires delta > 0 && |dist| == g.n && th.pc.Push?
    requires AtEdge(g, th.pc.u, th.pc.i)
    requires th' == Thread(At(th.pc.u, th.pc.i + 1), Put(th.bins, th.pc.d / delta, g.out.e[th.pc.i]))
    ensures KeepsCaring(g, dist, delta, c, th, th')
  {
    PutKeeps(th.bins, th.pc.d / delta, g.out.e[th.pc.i]);
    forall v: nat | v < g.n && dist[v].Finite? && Cares(g, dist, delta, c, th, v)
      ensures Cares(g, dist, delta, c, th', v)
    {
      if Binned(th.bins, v, dist[v].d, delta) {
        assert v in th'.bins[dist[v].d / delta];
      } else if dist[v].d == th.pc.d && g.out.e[th.pc.i] == v {
        assert Binned(th'.bins, v, dist[v].d, delta);
      } else {
        assert PcCares(g, dist, delta, c, th'.pc, v);
      }
    }
  }

  lemma PushStep(g: Graph, source: nat, delta: nat, s: State, s': State, t: nat)
    requires delta > 0 && RelaxInv(g, source, delta, s) && RelaxStep(g, delta, s, s', t) && s.threads[t].pc.Push?
    ensures RelaxInv(g, source, delta, s')
  {
    var th := s.threads[t];
    var u, i, d := th.pc.u, th.pc.i, th.pc.d;
    assert ThreadOk(g, source, s.dist, delta, s.curr.i, s.next, th);
    WeightNonNegative(g, u, i);
    FarIsHigh(d, delta, s.curr.i);
    PutFrom(s.dist, th.bins, s.curr.i, d / delta, g.out.e[i]);
    var th' := Thread(At(u, i + 1), Put(th.bins, d / delta, g.out.e[i]));
    PushKeeps(g, s.dist, delta, s.curr.i, th, th');
    LocalStep(g, source, delta, s, s', t, th');
  }

  // ---- Lowering the shared bin index ----

  lemma NextLowered(g: Graph, source: nat, delta: nat, s: State, k: nat)
    requires delta > 0 && RelaxInv(g, source, delta, s) && k >= s.curr.i
    ensures RelaxInv(g, source, delta, s.(next := Lowest(s.next, k)))
  {
    var s' := s.(next := Lowest(s.next, k));
    forall r | 0 <= r < |s.threads|
      ensures ThreadOk(g, source, s.dist, delta, s.curr.i, s'.next, s.threads[r])
    {
      assert ThreadOk(g, source, s.dist, delta, s.curr.i, s.next, s.threads[r]);
    }
    forall v: nat | v < g.n && s'.dist[v].Finite?
      ensures Handled(g, delta, s', v)
    {
      assert Handled(g, delta, s, v);
    }
  }

  lemma LowerStep(g: Graph, source: nat, delta: nat, s: State, s': State, t: nat)
    requires delta > 0 && RelaxInv(g, source, delta, s) && RelaxStep(g, delta, s, s', t) && s.threads[t].pc.Lower?
    ensures RelaxInv(g, source, delta, s')
  {
    var th, k := s.threads[t], s.threads[t].pc.k;
    assert ThreadOk(g, source, s.dist, delta, s.curr.i, s.next, th);
    NextLowered(g, source, delta, s, k);
    LocalStep(g, source, delta, s.(next := Lowest(s.next, k)), s', t, Thread(Wait1, th.bins));
  }

  // ---- A label is replaced ----

  /** The label of x became d. */
  ghost predicate Replaced(dist: seq<Distance>, dist': seq<Distance>, x: nat, d: nat) {
    x < |dist| && Closer(d, dist[x]) && dist' == dist[x := Finite(d)]
  }

  lemma PcStaysOk(g: Graph, source: nat, dist: seq<Distance>, dist': seq<Distance>, x: nat, d: nat, floor: nat, pc: Pc)
    requires Replaced(dist, dist', x, d) && d >= floor && |dist| == g.n && PcOk(g, source, dist, floor, pc)
    ensures PcOk(g, source, dist', floor, pc)
  {
    match pc
    case Took(u) => assert PcOk(g, source, dist', floor, Took(u));
    case At(u, i) => assert PcOk(g, source, dist', floor, At(u, i));
    case Read(u, i, seen) => FartherTrans(dist'[g.out.e[i]], dist[g.out.e[i]], seen);
      assert PcOk(g, source, dist', floor, Read(u, i, seen));
    case Cas(u, i, seen, d') => FartherTrans(dist'[g.out.e[i]], dist[g.out.e[i]], seen);
      assert PcOk(g, source, dist', floor, Cas(u, i, seen, d'));
    case Reread(u, i, d') =>
      assert PcOk(g, source, dist', floor, Reread(u, i, d'));
    case Push(u, i, d') => FartherTrans(dist'[g.out.e[i]], dist[g.out.e[i]], Finite(d'));
      assert PcOk(g, source, dist', floor, Push(u, i, d'));
    case _ =>
  }

  lemma FartherTrans(a: Distance, b: Distance, c: Distance)
    requires NotFarther(a, b) && NotFarther(b, c)
    ensures NotFarther(a, c)
  {}

  lemma ThreadStaysOk(g: Graph, source: nat, dist: seq<Distance>, dist': seq<Distance>, x: nat, d: nat,
                      delta: nat, c: nat, next: BinIndex, th: Thread)
    requires Replaced(dist, dist', x, d) && d >= delta * c && |dist| == g.n && ThreadOk(g, source, dist, delta, c, next, th)
    ensures ThreadOk(g, source, dist', delta, c, next, th)
  {
    PcStaysOk(g, source, dist, dist', x, d, delta * c, th.pc);
    BinsStay(dist, dist', x, d, th.bins, c);
  }

  lemma BinsStay(dist: seq<Distance>, dist': seq<Distance>, x: nat, d: nat, bins: seq<seq<nat>>, c: nat)
    requires Replaced(dist, dist', x, d) && BinsFrom(dist, bins, c)
    ensures BinsFrom(dist', bins, c)
  {
    forall j, v | 0 <= j < |bins| && v in bins[j]
      ensures Entry(dist', v)
    {
      assert Entry(dist, v);
    }
  }

  /** What is settled or cared about stays so, but for x. */
  lemma RowStaysRelaxed(g: Graph, dist: seq<Distance>, dist': seq<Distance>, x: nat, d: nat, v: nat, upto: nat)
    requires Replaced(dist, dist', x, d) && |dist| == g.n && v < g.n && v != x && dist[v].Finite? && upto <= |g.out.e|
    requires RowRelaxed(g, dist, v, upto)
    ensures RowRelaxed(g, dist', v, upto)
  {}

  lemma StillCares(g: Graph, dist: seq<Distance>, dist': seq<Distance>, x: nat, d: nat, delta: nat, c: nat, th: Thread, v: nat)
    requires Replaced(dist, dist', x, d) && |dist| == g.n && v < g.n && v != x && dist[v].Finite? && delta > 0
    requires Cares(g, dist, delta, c, th, v)
    ensures Cares(g, dist', delta, c, th, v)
  {
    match th.pc
    case At(u, i) => if u == v && i <= |g.out.e| && RowRelaxed(g, dist, v, i) { RowStaysRelaxed(g, dist, dist', x, d, v, i); }
    case Read(u, i, seen) => if u == v && i <= |g.out.e| && RowRelaxed(g, dist, v, i) { RowStaysRelaxed(g, dist, dist', x, d, v, i); }
    case Cas(u, i, seen, d') => if AtEdge(g, u, i) && RowRelaxed(g, dist, v, i) { RowStaysRelaxed(g, dist, dist', x, d, v, i); }
    case Reread(u, i, d') => if AtEdge(g, u, i) && RowRelaxed(g, dist, v, i) { RowStaysRelaxed(g, dist, dist', x, d, v, i); }
    case Push(u, i, d') => if AtEdge(g, u, i) && RowRelaxed(g, dist, v, i + 1) { RowStaysRelaxed(g, dist, dist', x, d, v, i + 1); }
    case _ =>
  }

  /** The thread that replaced the label of x. */
  lemma WriterCares(g: Graph, dist: seq<Distance>, dist': seq<Distance>, x: nat, d: nat, delta: nat, c: nat, th: Thread, v: nat)
    requires th.pc.Cas? && AtEdge(g, th.pc.u, th.pc.i) && x == g.out.e[th.pc.i] && d == th.pc.d
    requires Replaced(dist, dist', x, d) && |dist| == g.n && v < g.n && dist'[v].Finite? && delta > 0
    requires v != x ==> dist[v].Finite? && Cares(g, dist, delta, c, th, v)
    ensures Cares(g, dist', delta, c, Thread(Push(th.pc.u, th.pc.i, d), th.bins), v)
  {
    if v != x && PcCares(g, dist, delta, c, th.pc, v) {
      RowStaysRelaxed(g, dist, dist', x, d, v, th.pc.i);
    }
  }

  lemma HandledAfterCas(g: Graph, source: nat, delta: nat, s: State, s': State, t: nat, x: nat, d: nat, v: nat)
    requires delta > 0 && RelaxInv(g, source, delta, s) && t < |s.threads| && s.threads[t].pc.Cas?
    requires AtEdge(g, s.threads[t].pc.u, s.threads[t].pc.i) && x == g.out.e[s.threads[t].pc.i] && d == s.threads[t].pc.d
    requires Replaced(s.dist, s'.dist, x, d)
    requires s' == Go(s, t, Push(s.threads[t].pc.u, s.threads[t].pc.i, d)).(dist := s'.dist)
    requires v < g.n && s'.dist[v].Finite?
    ensures Handled(g, delta, s', v)
  {
    var c, th := s.curr.i, s.threads[t];
    if v == x {
      WriterCares(g, s.dist, s'.dist, x, d, delta, c, th, v);
      assert Cares(g, s'.dist, delta, c, s'.threads[t], v);
    } else {
      assert Handled(g, delta, s, v);
      if Settled(g, s.dist, v) {
        RowStaysRelaxed(g, s.dist, s'.dist, x, d, v, g.out.Last(v));
      } else if SomeoneCares(g, s.dist, delta, c, s.threads, v) {
        var r :| 0 <= r < |s.threads| && Cares(g, s.dist, delta, c, s.threads[r], v);
        if r == t {
          WriterCares(g, s.dist, s'.dist, x, d, delta, c, th, v);
        } else {
          StillCares(g, s.dist, s'.dist, x, d, delta, c, s.threads[r], v);
        }
        assert Cares(g, s'.dist, delta, c, s'.threads[r], v);
      }
    }
  }

  lemma SoundAfterCas(g: Graph, source: nat, dist: seq<Distance>, x: nat, d: nat)
    requires Sound(g.out.Edges(), source, Table(dist)) && x < |dist| && Achieved(g.out.Edges(), source, x, d)
    ensures Sound(g.out.Edges(), source, Table(dist[x := Finite(d)]))
  {
    assert Table(dist[x := Finite(d)]) == Table(dist)[x := Finite(d)];
  }

  lemma CasSucceeds(g: Graph, source: nat, delta: nat, s: State, s': State, t: nat)
    requires delta > 0 && RelaxInv(g, source, delta, s) && RelaxStep(g, delta, s, s', t) && s.threads[t].pc.Cas?
    requires AtEdge(g, s.threads[t].pc.u, s.threads[t].pc.i) && s.dist[g.out.e[s.threads[t].pc.i]] == s.threads[t].pc.seen
    ensures RelaxInv(g, source, delta, s')
  {
    var th := s.threads[t];
    var u, i, d := th.pc.u, th.pc.i, th.pc.d;
    var x := g.out.e[i];
    assert ThreadOk(g, source, s.dist, delta, s.curr.i, s.next, th);
    SoundAfterCas(g, source, s.dist, x, d);
    forall r | 0 <= r < |s.threads|
      ensures ThreadOk(g, source, s'.dist, delta, s.curr.i, s.next, s'.threads[r])
    {
      ThreadStaysOk(g, source, s.dist, s'.dist, x, d, delta, s.curr.i, s.next, s.threads[r]);
    }
    forall v: nat | v < g.n && s'.dist[v].Finite?
      ensures Handled(g, delta, s', v)
    {
      HandledAfterCas(g, source, delta, s, s', t, x, d, v);
    }
  }

  lemma RelaxStepInv(g: Graph, source: nat, delta: nat, s: State, s': State, t: nat)
    requires delta > 0 && RelaxInv(g, source, delta, s) && RelaxStep(g, delta, s, s', t)
    ensures RelaxInv(g, source, delta, s')
  {
    match s.threads[t].pc
    case Idle => IdleStep(g, source, delta, s, s', t);
    case Took(_) => TookStep(g, source, delta, s, s', t);
    case At(_, _) => EdgeStep(g, source, delta, s, s', t);
    case Read(_, _, _) => ReadStep(g, source, delta, s, s', t);
    case Cas(u, i, seen, d) =>
      if s.dist[g.out.e[i]] == seen {
        CasSucceeds(g, source, delta, s, s', t);
      } else {
        CasFails(g, source, delta, s, s', t);
      }
    case Reread(_, _, _) => RereadStep(g, source, delta, s, s', t);
    case Push(_, _, _) => PushStep(g, source, delta, s, s', t);
    case Lower(_) => LowerStep(g, source, delta, s, s', t);
    case _ =>
  }

  // ---- The invariant while the frontier is refilled ----

  /** The bin a thread copies. */
  ghost predicate HasBin(next: BinIndex, th: Thread) {
    next.Bin? && next.i < |th.bins|
  }

  /** Position p is reserved by the thread and not written yet. */
  ghost predicate Claims(next: BinIndex, th: Thread, p: nat) {
    th.pc.Copy? && HasBin(next, th) && th.pc.start + th.pc.m <= p < th.pc.start + |th.bins[next.i]|
  }

  ghost predicate CopyOk(next: BinIndex, nextTail: nat, frontier: map<nat, nat>, th: Thread)
    requires th.pc.Copy?
  {
    && HasBin(next, th)
    && var list, start := th.bins[next.i], th.pc.start;
       && th.pc.m <= |list| && start + |list| <= nextTail
       && forall j: nat | j < th.pc.m :: CopiedAt(frontier, start + j, list[j])
  }

  ghost predicate CopiedAt(frontier: map<nat, nat>, p: nat, v: nat) {
    p in frontier && frontier[p] == v
  }

  ghost predicate RefillOk(dist: seq<Distance>, next: BinIndex, nextTail: nat, frontier: map<nat, nat>, reset: bool, th: Thread) {
    && (th.pc.Single? || ((th.pc.Refill? || th.pc.Copy? || th.pc.Wait2?) && reset))
    && BinsFrom(dist, th.bins, 0)
    && (forall j | 0 <= j < |th.bins| && th.bins[j] != [] :: next.Bin? && next.i <= j)
    && (th.pc.Copy? ==> CopyOk(next, nextTail, frontier, th))
    && (th.pc.Wait2? && HasBin(next, th) ==> th.bins[next.i] == [])
  }

  ghost predicate InBins(dist: seq<Distance>, delta: nat, threads: seq<Thread>, v: nat)
    requires v < |dist| && dist[v].Finite? && delta > 0
  {
    exists t :: 0 <= t < |threads| && Binned(threads[t].bins, v, dist[v].d, delta)
  }

  ghost predicate InFrontier(frontier: map<nat, nat>, v: nat) {
    exists p :: p in frontier && frontier[p] == v
  }

  ghost predicate Kept(g: Graph, delta: nat, s: State, v: nat)
    requires v < g.n == |s.dist| && s.dist[v].Finite? && delta > 0
  {
    || Settled(g, s.dist, v)
    || InBins(s.dist, delta, s.threads, v)
    || (InFrontier(s.frontier, v) && s.next == Bin(s.dist[v].d / delta))
  }

  ghost predicate Claimed(s: State, p: nat) {
    exists t :: 0 <= t < |s.threads| && Claims(s.next, s.threads[t], p)
  }

  /** Every reserved position is written, or claimed by one thread. */
  ghost predicate Reserved(s: State) {
    && (forall p | p in s.frontier :: p < s.nextTail && Entry(s.dist, s.frontier[p]) && !Claimed(s, p))
    && (forall p: nat | p < s.nextTail && p !in s.frontier :: Claimed(s, p))
    && (forall t, u, p: nat | 0 <= t < u < |s.threads| && Claims(s.next, s.threads[t], p) :: !Claims(s.next, s.threads[u], p))
  }

  ghost predicate RefillInv(g: Graph, source: nat, delta: nat, s: State)
    requires delta > 0
  {
    && s.phase == Refilling && Base(g, source, s) && Reserved(s)
    && (s.reset ==> s.curr == NoBin && s.tail == 0)
    && (forall t | 0 <= t < |s.threads| :: RefillOk(s.dist, s.next, s.nextTail, s.frontier, s.reset, s.threads[t]))
    && (forall v: nat | v < g.n && s.dist[v].Finite? :: Kept(g, delta, s, v))
  }

  lemma FirstBarrierInv(g: Graph, source: nat, delta: nat, s: State, s': State)
    requires delta > 0 && RelaxInv(g, source, delta, s) && FirstBarrier(s, s')
    ensures RefillInv(g, source, delta, s')
  {
    assert s.threads[0].pc == Wait1 && s.open == {};
    forall t | 0 <= t < |s.threads|
      ensures RefillOk(s.dist, s.next, 0, map[], false, s'.threads[t])
    {
      assert ThreadOk(g, source, s.dist, delta, s.curr.i, s.next, s.threads[t]);
    }
    forall v: nat | v < g.n && s.dist[v].Finite?
      ensures Kept(g, delta, s', v)
    {
      assert Handled(g, delta, s, v);
      if SomeoneCares(g, s.dist, delta, s.curr.i, s.threads, v) {
        var t :| 0 <= t < |s.threads| && Cares(g, s.dist, delta, s.curr.i, s.threads[t], v);
        assert Binned(s'.threads[t].bins, v, s.dist[v].d, delta);
      }
    }
  }

  // ---- Steps of the refill ----

  /** Bins and frontier stay as they are. */
  lemma KeptStays(g: Graph, delta: nat, s: State, s': State, v: nat)
    requires delta > 0 && v < g.n == |s.dist| && s.dist[v].Finite? && Kept(g, delta, s, v)
    requires s'.dist == s.dist && s'.next == s.next && |s'.threads| == |s.threads|
    requires forall t | 0 <= t < |s.threads| :: s'.threads[t].bins == s.threads[t].bins
    requires forall p | p in s.frontier :: p in s'.frontier && s'.frontier[p] == s.frontier[p]
    ensures Kept(g, delta, s', v)
  {
    if InBins(s.dist, delta, s.threads, v) {
      var t :| 0 <= t < |s.threads| && Binned(s.threads[t].bins, v, s.dist[v].d, delta);
      assert Binned(s'.threads[t].bins, v, s.dist[v].d, delta);
    } else if InFrontier(s.frontier, v) {
      var p :| p in s.frontier && s.frontier[p] == v;
      assert p in s'.frontier;
    }
  }

  lemma SameClaims(s: State, s': State)
    requires |s'.threads| == |s.threads| && s'.next == s.next
    requires forall t, p: nat | 0 <= t < |s.threads| :: Claims(s.next, s'.threads[t], p) <==> Claims(s.next, s.threads[t], p)
    ensures forall p: nat :: Claimed(s', p) <==> Claimed(s, p)
  {
    forall p: nat
      ensures Claimed(s', p) <==> Claimed(s, p)
    {
      if t :| 0 <= t < |s.threads| && Claims(s.next, s.threads[t], p) {
        assert Claims(s.next, s'.threads[t], p);
      }
      if t :| 0 <= t < |s.threads| && Claims(s.next, s'.threads[t], p) {
        assert Claims(s.next, s.threads[t], p);
      }
    }
  }

  lemma SingleStep(g: Graph, source: nat, delta: nat, s: State, s': State, t: nat)
    requires delta > 0 && RefillInv(g, source, delta, s) && RefillStep(s, s', t) && s.threads[t].pc.Single?
    ensures RefillInv(g, source, delta, s')
  {
    SameClaims(s, s');
    forall v: nat | v < g.n && s.dist[v].Finite?
      ensures Kept(g, delta, s', v)
    {
      KeptStays(g, delta, s, s', v);
    }
    forall r | 0 <= r < |s.threads|
      ensures RefillOk(s'.dist, s'.next, s'.nextTail, s'.frontier, s'.reset, s'.threads[r])
    {
      assert RefillOk(s.dist, s.next, s.nextTail, s.frontier, s.reset, s.threads[r]);
    }
  }

  /** Only the reserving thread claims positions from the old tail on. */
  lemma ReserveClaims(s: State, s': State, t: nat, len: nat)
    requires t < |s.threads| && Reserved(s) && s.threads[t].pc == Refill && HasBin(s.next, s.threads[t])
    requires len == |s.threads[t].bins[s.next.i]| && s' == Go(s, t, Copy(s.nextTail, 0)).(nextTail := s.nextTail + len)
    requires forall r | 0 <= r < |s.threads| && s.threads[r].pc.Copy? :: CopyOk(s.next, s.nextTail, s.frontier, s.threads[r])
    ensures Reserved(s')
  {
    forall r, p: nat | 0 <= r < |s.threads|
      ensures Claims(s.next, s'.threads[r], p) <==> if r == t then s.nextTail <= p < s.nextTail + len else Claims(s.next, s.threads[r], p)
      ensures Claims(s.next, s.threads[r], p) ==> p < s.nextTail && r != t
    {}
    forall p: nat
      ensures Claimed(s', p) <==> Claimed(s, p) || s.nextTail <= p < s.nextTail + len
    {
      if s.nextTail <= p < s.nextTail + len {
        assert Claims(s.next, s'.threads[t], p);
      }
      if r :| 0 <= r < |s.threads| && Claims(s.next, s.threads[r], p) {
        assert Claims(s.next, s'.threads[r], p);
      }
      if r :| 0 <= r < |s.threads| && Claims(s.next, s'.threads[r], p) {
        assert r == t || Claims(s.next, s.threads[r], p);
      }
    }
  }

  lemma ThreadsAfterReserve(s: State, s': State, t: nat, r: nat)
    requires t < |s.threads| && r < |s.threads| && RefillStep(s, s', t) && s.threads[t].pc.Refill?
    requires RefillOk(s.dist, s.next, s.nextTail, s.frontier, s.reset, s.threads[r])
    ensures RefillOk(s'.dist, s'.next, s'.nextTail, s'.frontier, s'.reset, s'.threads[r])
  {}

  lemma ReserveStep(g: Graph, source: nat, delta: nat, s: State, s': State, t: nat)
    requires delta > 0 && RefillInv(g, source, delta, s) && RefillStep(s, s', t) && s.threads[t].pc.Refill?
    ensures RefillInv(g, source, delta, s')
  {
    forall v: nat | v < g.n && s.dist[v].Finite?
      ensures Kept(g, delta, s', v)
    {
      KeptStays(g, delta, s, s', v);
    }
    forall r: nat | r < |s.threads|
      ensures RefillOk(s'.dist, s'.next, s'.nextTail, s'.frontier, s'.reset, s'.threads[r])
      ensures s.threads[r].pc.Copy? ==> CopyOk(s.next, s.nextTail, s.frontier, s.threads[r])
    {
      ThreadsAfterReserve(s, s', t, r);
    }
    ReserveReserved(s, s', t);
  }

  lemma ReserveReserved(s: State, s': State, t: nat)
    requires t < |s.threads| && RefillStep(s, s', t) && s.threads[t].pc.Refill? && Reserved(s)
    requires forall r | 0 <= r < |s.threads| && s.threads[r].pc.Copy? :: CopyOk(s.next, s.nextTail, s.frontier, s.threads[r])
    ensures Reserved(s')
  {
    if HasBin(s.next, s.threads[t]) {
      ReserveClaims(s, s', t, |s.threads[t].bins[s.next.i]|);
    } else {
      SameClaims(s, s');
    }
  }

  /** One entry is copied: the position is written and no longer claimed. */
  lemma WriteClaims(s: State, s': State, t: nat, p: nat, v: nat)
    requires t < |s.threads| && Reserved(s) && s.threads[t].pc.Copy? && Claims(s.next, s.threads[t], p)
    requires p == s.threads[t].pc.start + s.threads[t].pc.m && Entry(s.dist, v) && p < s.nextTail
    requires s' == Go(s, t, Copy(s.threads[t].pc.start, s.threads[t].pc.m + 1)).(frontier := s.frontier[p := v])
    ensures Reserved(s')
  {
    forall r, q: nat | 0 <= r < |s.threads|
      ensures Claims(s.next, s'.threads[r], q) <==> Claims(s.next, s.threads[r], q) && q != p
    {
      if r != t && Claims(s.next, s.threads[r], p) {
        assert false;
      }
    }
    forall q: nat
      ensures Claimed(s', q) <==> Claimed(s, q) && q != p
    {
      if r :| 0 <= r < |s.threads| && Claims(s.next, s.threads[r], q) && q != p {
        assert Claims(s.next, s'.threads[r], q);
      }
      if r :| 0 <= r < |s.threads| && Claims(s.next, s'.threads[r], q) {
        assert Claims(s.next, s.threads[r], q);
      }
    }
  }

  /** The other threads, after position p has been written. */
  lemma OthersAfterWrite(s: State, p: nat, v: nat, th: Thread)
    requires p !in s.frontier && RefillOk(s.dist, s.next, s.nextTail, s.frontier, s.reset, th)
    ensures RefillOk(s.dist, s.next, s.nextTail, s.frontier[p := v], s.reset, th)
  {}

  lemma WriterAfterWrite(s: State, th: Thread)
    requires th.pc.Copy? && RefillOk(s.dist, s.next, s.nextTail, s.frontier, s.reset, th)
    requires th.pc.m < |th.bins[s.next.i]| && th.pc.start + th.pc.m !in s.frontier
    ensures RefillOk(s.dist, s.next, s.nextTail, s.frontier[th.pc.start + th.pc.m := th.bins[s.next.i][th.pc.m]], s.reset,
                     Thread(Copy(th.pc.start, th.pc.m + 1), th.bins))
  {}

  lemma ThreadsAfterWrite(s: State, s': State, t: nat, p: nat, v: nat)
    requires t < |s.threads| && s.threads[t].pc.Copy? && p !in s.frontier
    requires forall r | 0 <= r < |s.threads| :: RefillOk(s.dist, s.next, s.nextTail, s.frontier, s.reset, s.threads[r])
    requires HasBin(s.next, s.threads[t])
    requires p == s.threads[t].pc.start + s.threads[t].pc.m && s.threads[t].pc.m < |s.threads[t].bins[s.next.i]|
    requires v == s.threads[t].bins[s.next.i][s.threads[t].pc.m]
    requires s' == Go(s, t, Copy(s.threads[t].pc.start, s.threads[t].pc.m + 1)).(frontier := s.frontier[p := v])
    ensures forall r | 0 <= r < |s.threads| :: RefillOk(s.dist, s.next, s.nextTail, s'.frontier, s.reset, s'.threads[r])
  {
    forall r | 0 <= r < |s.threads|
      ensures RefillOk(s.dist, s.next, s.nextTail, s'.frontier, s.reset, s'.threads[r])
    {
      if r == t {
        WriterAfterWrite(s, s.threads[t]);
      } else {
        OthersAfterWrite(s, p, v, s.threads[r]);
      }
    }
  }

  lemma WriteStep(g: Graph, source: nat, delta: nat, s: State, s': State, t: nat)
    requires delta > 0 && RefillInv(g, source, delta, s) && RefillStep(s, s', t) && s.threads[t].pc.Copy?
    requires s.threads[t].pc.m < |s.threads[t].bins[s.next.i]|
    ensures RefillInv(g, source, delta, s')
  {
    var th := s.threads[t];
    assert RefillOk(s.dist, s.next, s.nextTail, s.frontier, s.reset, th);
    var p, v := th.pc.start + th.pc.m, th.bins[s.next.i][th.pc.m];
    assert v in th.bins[s.next.i] && Claims(s.next, th, p) && Claimed(s, p);
    WriteClaims(s, s', t, p, v);
    ThreadsAfterWrite(s, s', t, p, v);
    forall u: nat | u < g.n && s.dist[u].Finite?
      ensures Kept(g, delta, s', u)
    {
      KeptStays(g, delta, s, s', u);
    }
  }

  lemma ClearStep(g: Graph, source: nat, delta: nat, s: State, s': State, t: nat)
    requires delta > 0 && RefillInv(g, source, delta, s) && RefillStep(s, s', t) && s.threads[t].pc.Copy?
    requires s.threads[t].pc.m >= |s.threads[t].bins[s.next.i]|
    ensures RefillInv(g, source, delta, s')
  {
    var th, k := s.threads[t], s.next.i;
    assert RefillOk(s.dist, s.next, s.nextTail, s.frontier, s.reset, th);
    SameClaims(s, s');
    forall r | 0 <= r < |s.threads|
      ensures RefillOk(s'.dist, s'.next, s'.nextTail, s'.frontier, s'.reset, s'.threads[r])
    {
      assert RefillOk(s.dist, s.next, s.nextTail, s.frontier, s.reset, s.threads[r]);
    }
    forall v: nat | v < g.n && s.dist[v].Finite?
      ensures Kept(g, delta, s', v)
    {
      ClearedIsKept(g, delta, s, s', t, v);
    }
  }

  lemma ClearedIsKept(g: Graph, delta: nat, s: State, s': State, t: nat, v: nat)
    requires delta > 0 && v < g.n == |s.dist| && s.dist[v].Finite? && Kept(g, delta, s, v) && t < |s.threads|
    requires s.threads[t].pc.Copy? && CopyOk(s.next, s.nextTail, s.frontier, s.threads[t])
    requires s.threads[t].pc.m >= |s.threads[t].bins[s.next.i]|
    requires s' == s.(threads := s.threads[t := Thread(Wait2, s.threads[t].bins[s.next.i := []])])
    ensures Kept(g, delta, s', v)
  {
    var th, k := s.threads[t], s.next.i;
    if InBins(s.dist, delta, s.threads, v) {
      var r :| 0 <= r < |s.threads| && Binned(s.threads[r].bins, v, s.dist[v].d, delta);
      if r == t && s.dist[v].d / delta == k {
        var j: nat :| j < |th.bins[k]| && th.bins[k][j] == v;
        assert CopiedAt(s.frontier, th.pc.start + j, th.bins[k][j]);
      } else {
        assert Binned(s'.threads[r].bins, v, s.dist[v].d, delta);
      }
    }
  }

  lemma RefillStepInv(g: Graph, source: nat, delta: nat, s: State, s': State, t: nat)
    requires delta > 0 && RefillInv(g, source, delta, s) && RefillStep(s, s', t)
    ensures RefillInv(g, source, delta, s')
  {
    match s.threads[t].pc
    case Single => SingleStep(g, source, delta, s, s', t);
    case Refill => ReserveStep(g, source, delta, s, s', t);
    case Copy(_, m) =>
      if m < |s.threads[t].bins[s.next.i]| {
        WriteStep(g, source, delta, s, s', t);
      } else {
        ClearStep(g, source, delta, s, s', t);
      }
    case _ =>
  }

  // ---- The second barrier ----

  lemma NothingClaimed(s: State, p: nat)
    requires AllAt(s, Wait2)
    ensures !Claimed(s, p)
  {}

  lemma HandledNextRound(g: Graph, delta: nat, s: State, s': State, v: nat)
    requires delta > 0 && v < g.n == |s.dist| && s.dist[v].Finite? && Kept(g, delta, s, v) && SecondBarrier(s, s') && s.next.Bin?
    requires forall p | p in s.frontier :: p in s'.open
    ensures Handled(g, delta, s', v)
  {
    if InBins(s.dist, delta, s.threads, v) {
      var t :| 0 <= t < |s.threads| && Binned(s.threads[t].bins, v, s.dist[v].d, delta);
      assert Cares(g, s.dist, delta, s.next.i, s'.threads[t], v);
    } else if InFrontier(s.frontier, v) && s.next == Bin(s.dist[v].d / delta) {
      var p :| p in s.frontier && s.frontier[p] == v;
      assert p in s'.open;
    }
  }

  lemma ThreadNextRound(g: Graph, source: nat, delta: nat, s: State, th: Thread)
    requires |s.dist| == g.n && s.next.Bin? && th.pc == Wait2
    requires RefillOk(s.dist, s.next, s.nextTail, s.frontier, s.reset, th)
    ensures ThreadOk(g, source, s.dist, delta, s.next.i, NoBin, Thread(Idle, th.bins))
  {}

  lemma NextRoundInv(g: Graph, source: nat, delta: nat, s: State, s': State)
    requires delta > 0 && RefillInv(g, source, delta, s) && SecondBarrier(s, s') && s.next.Bin?
    ensures RelaxInv(g, source, delta, s')
  {
    assert RefillOk(s.dist, s.next, s.nextTail, s.frontier, s.reset, s.threads[0]);
    forall p: nat
      ensures p in s'.open <==> p in s.frontier
    {
      NothingClaimed(s, p);
    }
    forall t | 0 <= t < |s.threads|
      ensures ThreadOk(g, source, s.dist, delta, s.next.i, NoBin, s'.threads[t])
    {
      ThreadNextRound(g, source, delta, s, s.threads[t]);
    }
    forall v: nat | v < g.n && s.dist[v].Finite?
      ensures Handled(g, delta, s', v)
    {
      HandledNextRound(g, delta, s, s', v);
    }
  }

  lemma SearchDone(g: Graph, source: nat, delta: nat, s: State)
    requires delta > 0 && RefillInv(g, source, delta, s) && AllAt(s, Wait2) && s.next.NoBin?
    ensures AreDistances(g.out.Edges(), source, Table(s.dist))
  {
    forall t, j | 0 <= t < |s.threads| && 0 <= j < |s.threads[t].bins|
      ensures s.threads[t].bins[j] == []
    {
      assert RefillOk(s.dist, s.next, s.nextTail, s.frontier, s.reset, s.threads[t]);
    }
    forall v: nat | v < g.n && s.dist[v].Finite?
      ensures Settled(g, s.dist, v)
    {
      assert Kept(g, delta, s, v);
    }
    AllSettled(g, source, s.dist);
  }

  lemma AllSettled(g: Graph, source: nat, dist: seq<Distance>)
    requires |dist| == g.n && source < g.n && dist[source] == Finite(0) && Sound(g.out.Edges(), source, Table(dist))
    requires forall v: nat | v < g.n && dist[v].Finite? :: Settled(g, dist, v)
    ensures AreDistances(g.out.Edges(), source, Table(dist))
  {
    forall e | e in g.out.Edges()
      ensures Relaxed(Table(dist), e)
    {
      var u: nat, i: nat :| u < g.n && i < |g.out.e| && g.out.InRow(u, i) && e == Edge(u, g.out.e[i], g.out.w[i]);
      if dist[u].Finite? {
        assert Settled(g, dist, u);
      }
    }
    SoundAndClosedAreDistances(g.out.Edges(), source, Table(dist));
  }

  // ---- Every run ----

  ghost predicate Inv(g: Graph, source: nat, delta: nat, s: State)
    requires delta > 0
  {
    match s.phase
    case Relaxing => RelaxInv(g, source, delta, s)
    case Refilling => RefillInv(g, source, delta, s)
    case Finished => |s.dist| == g.n && AreDistances(g.out.Edges(), source, Table(s.dist))
  }

  lemma InitInv(g: Graph, source: nat, delta: nat, s: State)
    requires delta > 0 && Init(g, source, s)
    ensures Inv(g, source, delta, s)
  {
    EmptyWalk(g.out.Edges(), source);
    assert 0 in s.open && s.frontier[0] == source;
    forall v: nat | v < g.n && s.dist[v].Finite?
      ensures Handled(g, delta, s, v)
    {
      assert v == source && Waits(s.frontier, s.open, v);
    }
  }

  /** Every access, and both barriers, keep the invariant. */
  lemma NextInv(g: Graph, source: nat, delta: nat, s: State, s': State)
    requires delta > 0 && Inv(g, source, delta, s) && Next(g, delta, s, s')
    ensures Inv(g, source, delta, s')
  {
    if t :| RelaxStep(g, delta, s, s', t) {
      RelaxStepInv(g, source, delta, s, s', t);
    } else if FirstBarrier(s, s') {
      FirstBarrierInv(g, source, delta, s, s');
    } else if t :| RefillStep(s, s', t) {
      RefillStepInv(g, source, delta, s, s', t);
    } else if s.next.Bin? {
      NextRoundInv(g, source, delta, s, s');
    } else {
      SearchDone(g, source, delta, s);
    }
  }

  ghost predicate Run(g: Graph, source: nat, delta: nat, states: seq<State>)
    requires delta > 0
  {
    && states != [] && Init(g, source, states[0])
    && forall i | 0 <= i < |states| - 1 :: Next(g, delta, states[i], states[i + 1])
  }

  // ---- No run gets stuck ----

  lemma EdgeEnabled(g: Graph, source: nat, delta: nat, s: State, t: nat) returns (s': State)
    requires delta > 0 && t < |s.threads| && s.phase == Relaxing && s.curr.Bin? && |s.dist| == g.n
    requires PcOk(g, source, s.dist, delta * s.curr.i, s.threads[t].pc)
    requires s.threads[t].pc.Read? || s.threads[t].pc.Cas? || s.threads[t].pc.Reread? || s.threads[t].pc.Push?
    ensures RelaxStep(g, delta, s, s', t)
  {
    var th := s.threads[t];
    WeightNonNegative(g, th.pc.u, th.pc.i);
    match th.pc
    case Read(u, i, seen) =>
      var d: nat := s.dist[u].d + g.out.w[i];
      s' := Go(s, t, if Closer(d, seen) then Cas(u, i, seen, d) else At(u, i + 1));
    case Cas(u, i, seen, d) =>
      s' := if s.dist[g.out.e[i]] == seen then Go(s, t, Push(u, i, d)).(dist := s.dist[g.out.e[i] := Finite(d)])
            else Go(s, t, Reread(u, i, d));
    case Reread(u, i, d) =>
      s' := Go(s, t, if Closer(d, s.dist[g.out.e[i]]) then Cas(u, i, s.dist[g.out.e[i]], d) else At(u, i + 1));
    case Push(u, i, d) =>
      s' := s.(threads := s.threads[t := Thread(At(u, i + 1), Put(th.bins, d / delta, g.out.e[i]))]);
  }

  lemma LoopEnabled(g: Graph, source: nat, delta: nat, s: State, t: nat) returns (s': State)
    requires delta > 0 && t < |s.threads| && s.phase == Relaxing && s.curr.Bin? && |s.dist| == g.n && FrontierOk(s)
    requires PcOk(g, source, s.dist, delta * s.curr.i, s.threads[t].pc)
    requires s.threads[t].pc.Idle? || s.threads[t].pc.Took? || s.threads[t].pc.At? || s.threads[t].pc.Lower?
    ensures RelaxStep(g, delta, s, s', t)
  {
    var th := s.threads[t];
    match th.pc
    case Idle =>
      if s.open != {} {
        var p :| p in s.open;
        s' := Go(s, t, Took(s.frontier[p])).(open := s.open - {p});
      } else {
        s' := Go(s, t, Scanned(FirstFrom(th.bins, s.curr.i)));
      }
    case Took(u) => s' := Go(s, t, if Far(s.dist[u], delta * s.curr.i) then At(u, g.out.First(u)) else Idle);
    case At(u, i) => s' := Go(s, t, if AtEdge(g, u, i) then Read(u, i, s.dist[g.out.e[i]]) else Idle);
    case Lower(k) => s' := Go(s, t, Wait1).(next := Lowest(s.next, k));
  }

  lemma RelaxEnabled(g: Graph, source: nat, delta: nat, s: State, t: nat) returns (s': State)
    requires delta > 0 && RelaxInv(g, source, delta, s) && t < |s.threads| && s.threads[t].pc != Wait1
    ensures RelaxStep(g, delta, s, s', t)
  {
    var pc := s.threads[t].pc;
    assert ThreadOk(g, source, s.dist, delta, s.curr.i, s.next, s.threads[t]);
    if pc.Read? || pc.Cas? || pc.Reread? || pc.Push? {
      s' := EdgeEnabled(g, source, delta, s, t);
    } else {
      s' := LoopEnabled(g, source, delta, s, t);
    }
  }

  lemma RefillEnabled(g: Graph, source: nat, delta: nat, s: State, t: nat) returns (s': State)
    requires delta > 0 && RefillInv(g, source, delta, s) && t < |s.threads| && s.threads[t].pc != Wait2
    ensures RefillStep(s, s', t)
  {
    var th := s.threads[t];
    assert RefillOk(s.dist, s.next, s.nextTail, s.frontier, s.reset, th);
    match th.pc
    case Single => s' := if s.reset then Go(s, t, Refill) else Go(s, t, Refill).(reset := true, curr := NoBin, tail := 0);
    case Refill =>
      s' := if HasBin(s.next, th) then Go(s, t, Copy(s.nextTail, 0)).(nextTail := s.nextTail + |th.bins[s.next.i]|) else Go(s, t, Wait2);
    case Copy(start, m) =>
      s' := if m < |th.bins[s.next.i]| then Go(s, t, Copy(start, m + 1)).(frontier := s.frontier[start + m := th.bins[s.next.i][m]])
            else s.(threads := s.threads[t := Thread(Wait2, th.bins[s.next.i := []])]);
  }

  /** Until the search has finished, some thread can move or a barrier opens. */
  lemma NoDeadlock(g: Graph, source: nat, delta: nat, s: State) returns (s': State)
    requires delta > 0 && Inv(g, source, delta, s) && s.phase != Finished
    ensures Next(g, delta, s, s')
  {
    if s.phase == Relaxing {
      if t: nat :| t < |s.threads| && s.threads[t].pc != Wait1 {
        s' := RelaxEnabled(g, source, delta, s, t);
      } else {
        s' := s.(phase := Refilling, frontier := map[], threads := Restarted(s.threads, Single));
        assert FirstBarrier(s, s');
      }
    } else {
      if t: nat :| t < |s.threads| && s.threads[t].pc != Wait2 {
        s' := RefillEnabled(g, source, delta, s, t);
      } else {
        s' := if s.next.NoBin? then s.(phase := Finished)
              else State(Relaxing, s.dist, s.next, s.curr, s.nextTail, s.tail, s.frontier, Below(s.nextTail), false,
                         Restarted(s.threads, Idle));
        assert SecondBarrier(s, s');
      }
    }
  }

  // ---- Every run ends ----

  /** What a thread still has to hand on: the entries of its bins, and the one it is about to enter. */
  ghost function Tokens(next: BinIndex, th: Thread): nat {
    if th.pc.Copy? && HasBin(next, th) then Entries(th.bins[next.i := []])
    else Entries(th.bins) + if th.pc.Push? then 1 else 0
  }

  /** The steps a thread can make before it takes another entry, as long as no label changes. */
  ghost function Work(g: Graph, dist: seq<Distance>, next: BinIndex, th: Thread): nat {
    match th.pc
    case Idle => 2
    case Took(_) => 5 * |g.out.e| + 9
    case At(_, i) => Ahead(g, i) + 8
    case Read(_, i, _) => Ahead(g, i) + 7
    case Cas(u, i, seen, _) =>
      if AtEdge(g, u, i) && g.out.e[i] < |dist| && dist[g.out.e[i]] == seen then Ahead(g, i) + 4 else Ahead(g, i) + 6
    case Reread(_, i, _) => Ahead(g, i) + 5
    case Push(_, i, _) => Ahead(g, i) + 4
    case Lower(_) => 1
    case Wait1 => 0
    case Single => 3 + if HasBin(next, th) then |th.bins[next.i]| else 0
    case Refill => 2 + if HasBin(next, th) then |th.bins[next.i]| else 0
    case Copy(_, m) => 1 + if HasBin(next, th) && m < |th.bins[next.i]| then |th.bins[next.i]| - m else 0
    case Wait2 => 0
  }

  ghost function Ahead(g: Graph, i: nat): nat {
    if i < |g.out.e| then 5 * (|g.out.e| - i) else 0
  }

  ghost function TokenSum(next: BinIndex, threads: seq<Thread>): nat {
    if threads == [] then 0 else TokenSum(next, threads[..|threads| - 1]) + Tokens(next, threads[|threads| - 1])
  }

  ghost function WorkSum(g: Graph, dist: seq<Distance>, next: BinIndex, threads: seq<Thread>): nat {
    if threads == [] then 0
    else WorkSum(g, dist, next, threads[..|threads| - 1]) + Work(g, dist, next, threads[|threads| - 1])
  }

  lemma {:induction false} SumsUpdate(g: Graph, dist: seq<Distance>, next: BinIndex, threads: seq<Thread>, t: nat, th: Thread)
    requires t < |threads|
    ensures TokenSum(next, threads[t := th]) == TokenSum(next, threads) - Tokens(next, threads[t]) + Tokens(next, th)
    ensures WorkSum(g, dist, next, threads[t := th]) == WorkSum(g, dist, next, threads) - Work(g, dist, next, threads[t]) + Work(g, dist, next, th)
  {
    var last := |threads| - 1;
    if t < last {
      SumsUpdate(g, dist, next, threads[..last], t, th);
      assert threads[t := th][..last] == threads[..last][t := th];
    } else {
      assert threads[t := th][..last] == threads[..last];
    }
  }

  /** Compared from left to right. */
  datatype Rank = Rank(unreached: nat, labels: nat, tokens: nat, phase: nat, work: nat) {
    ghost predicate Below(r: Rank) {
      || unreached < r.unreached
      || (unreached == r.unreached && labels < r.labels)
      || (unreached == r.unreached && labels == r.labels && tokens < r.tokens)
      || (unreached == r.unreached && labels == r.labels && tokens == r.tokens && phase < r.phase)
      || (unreached == r.unreached && labels == r.labels && tokens == r.tokens && phase == r.phase && work < r.work)
    }
  }

  ghost function RankOf(g: Graph, s: State): Rank {
    Rank(InfiniteCount(s.dist), FiniteSum(s.dist),
         TokenSum(s.next, s.threads) + (match s.phase case Relaxing => |s.open| case Refilling => s.nextTail case Finished => 0),
         match s.phase case Relaxing => if s.open == {} then 2 else 0 case Refilling => 1 case Finished => 0,
         WorkSum(g, s.dist, s.next, s.threads))
  }

  /** The bin announced as the next one is not empty. */
  ghost predicate Announced(s: State) {
    s.next.Bin? ==>
      || (s.phase == Refilling && s.nextTail > 0)
      || exists t :: 0 <= t < |s.threads| && HasBin(s.next, s.threads[t]) && s.threads[t].bins[s.next.i] != []
                     && (s.threads[t].pc.Wait1? || s.threads[t].pc.Single? || s.threads[t].pc.Refill?)
  }

  lemma AnnouncedByLower(s: State, s': State, t: nat)
    requires t < |s.threads| && s.threads[t].pc.Lower? && Announced(s) && s.phase == Relaxing
    requires s.threads[t].pc.k < |s.threads[t].bins| && s.threads[t].bins[s.threads[t].pc.k] != []
    requires s' == Go(s, t, Wait1).(next := Lowest(s.next, s.threads[t].pc.k))
    ensures Announced(s')
  {
    if s'.next == Bin(s.threads[t].pc.k) {
      assert HasBin(s'.next, s'.threads[t]) && s'.threads[t].pc.Wait1?;
    } else {
      var r :| 0 <= r < |s.threads| && HasBin(s.next, s.threads[r]) && s.threads[r].bins[s.next.i] != []
               && (s.threads[r].pc.Wait1? || s.threads[r].pc.Single? || s.threads[r].pc.Refill?);
      assert s'.threads[r] == s.threads[r];
    }
  }

  lemma AnnouncedByOthers(s: State, s': State, t: nat)
    requires t < |s.threads| && s.phase == s'.phase && s'.next == s.next && Announced(s) && s'.nextTail >= s.nextTail
    requires |s'.threads| == |s.threads| && forall r | 0 <= r < |s.threads| && r != t :: s'.threads[r] == s.threads[r]
    requires !s.threads[t].pc.Wait1? && !s.threads[t].pc.Single? && !s.threads[t].pc.Refill?
    ensures Announced(s')
  {
    if s.next.Bin? && !(s.phase == Refilling && s.nextTail > 0) {
      var r :| 0 <= r < |s.threads| && HasBin(s.next, s.threads[r]) && s.threads[r].bins[s.next.i] != []
               && (s.threads[r].pc.Wait1? || s.threads[r].pc.Single? || s.threads[r].pc.Refill?);
      assert s'.threads[r] == s.threads[r];
    }
  }

  lemma AnnouncedRelax(g: Graph, source: nat, delta: nat, s: State, s': State, t: nat)
    requires delta > 0 && RelaxInv(g, source, delta, s) && Announced(s) && RelaxStep(g, delta, s, s', t)
    ensures Announced(s')
  {
    assert ThreadOk(g, source, s.dist, delta, s.curr.i, s.next, s.threads[t]);
    if s.threads[t].pc.Lower? {
      AnnouncedByLower(s, s', t);
    } else {
      AnnouncedByOthers(s, s', t);
    }
  }

  lemma AnnouncedRefill(s: State, s': State, t: nat)
    requires RefillStep(s, s', t) && Announced(s)
    ensures Announced(s')
  {
    var th := s.threads[t];
    if th.pc.Copy? {
      AnnouncedByOthers(s, s', t);
    } else if s.next.Bin? && s.nextTail == 0 {
      var r :| 0 <= r < |s.threads| && HasBin(s.next, s.threads[r]) && s.threads[r].bins[s.next.i] != []
               && (s.threads[r].pc.Wait1? || s.threads[r].pc.Single? || s.threads[r].pc.Refill?);
      assert r != t ==> s'.threads[r] == s.threads[r];
      assert r == t && th.pc.Single? ==> s'.threads[t].pc.Refill?;
    }
  }

  lemma AnnouncedFirstBarrier(s: State, s': State)
    requires FirstBarrier(s, s') && Announced(s)
    ensures Announced(s')
  {
    if s.next.Bin? {
      var r :| 0 <= r < |s.threads| && HasBin(s.next, s.threads[r]) && s.threads[r].bins[s.next.i] != []
               && (s.threads[r].pc.Wait1? || s.threads[r].pc.Single? || s.threads[r].pc.Refill?);
      assert s'.threads[r].pc.Single?;
    }
  }

  lemma NextAnnounced(g: Graph, source: nat, delta: nat, s: State, s': State)
    requires delta > 0 && Inv(g, source, delta, s) && Announced(s) && Next(g, delta, s, s')
    ensures Announced(s')
  {
    if t :| RelaxStep(g, delta, s, s', t) {
      AnnouncedRelax(g, source, delta, s, s', t);
    } else if FirstBarrier(s, s') {
      AnnouncedFirstBarrier(s, s');
    } else if t :| RefillStep(s, s', t) {
      AnnouncedRefill(s, s', t);
    } else if s.next.Bin? {
      assert RefillOk(s.dist, s.next, s.nextTail, s.frontier, s.reset, s.threads[0]);
    }
  }

  // ---- The rank of the next state ----

  /** A thread step that leaves labels, frontier and indexes alone. */
  lemma ThreadLowers(g: Graph, s: State, s': State, t: nat, th: Thread)
    requires t < |s.threads| && s'.threads == s.threads[t := th] && s'.dist == s.dist && s'.phase == s.phase && s'.next == s.next
    requires s'.open == s.open && s'.nextTail == s.nextTail
    requires Tokens(s.next, th) == Tokens(s.next, s.threads[t]) && Work(g, s.dist, s.next, th) < Work(g, s.dist, s.next, s.threads[t])
    ensures RankOf(g, s').Below(RankOf(g, s))
  {
    SumsUpdate(g, s.dist, s.next, s.threads, t, th);
  }

  lemma TakeLowers(g: Graph, s: State, s': State, t: nat, p: nat)
    requires t < |s.threads| && s.threads[t].pc == Idle && s.phase == Relaxing && p in s.open && p in s.frontier
    requires s' == Go(s, t, Took(s.frontier[p])).(open := s.open - {p})
    ensures RankOf(g, s').Below(RankOf(g, s))
  {
    SumsUpdate(g, s.dist, s.next, s.threads, t, s'.threads[t]);
    assert s.open == s'.open + {p};
  }

  lemma {:induction false} EntriesGrown(bins: seq<seq<nat>>, k: nat)
    ensures Entries(bins + seq(k, _ => [])) == Entries(bins)
  {
    var more := seq<seq<nat>>(k, _ => []);
    if k > 0 {
      EntriesGrown(bins, k - 1);
      assert (bins + more)[..|bins + more| - 1] == bins + seq<seq<nat>>(k - 1, _ => []);
    } else {
      assert bins + more == bins;
    }
  }

  lemma {:induction false} EntriesReplaced(bins: seq<seq<nat>>, k: nat, list: seq<nat>)
    requires k < |bins|
    ensures Entries(bins[k := list]) == Entries(bins) - |bins[k]| + |list|
  {
    var m := |bins| - 1;
    if k < m {
      EntriesReplaced(bins[..m], k, list);
      assert bins[k := list][..m] == bins[..m][k := list];
    } else {
      assert bins[k := list][..m] == bins[..m];
    }
  }

  lemma EntriesPut(bins: seq<seq<nat>>, k: nat, v: nat)
    ensures Entries(Put(bins, k, v)) == Entries(bins) + 1
  {
    var grown := Grow(bins, k);
    if k >= |bins| {
      EntriesGrown(bins, k + 1 - |bins|);
      assert grown == bins + seq<seq<nat>>(k + 1 - |bins|, _ => []);
    }
    EntriesReplaced(grown, k, grown[k] + [v]);
  }

  lemma LoopWork(g: Graph, delta: nat, s: State, s': State, t: nat)
    requires delta > 0 && RelaxStep(g, delta, s, s', t)
    requires (s.threads[t].pc.Idle? && s.open == {}) || s.threads[t].pc.Took? || s.threads[t].pc.At?
    ensures s'.threads == s.threads[t := s'.threads[t]] && Tokens(s.next, s'.threads[t]) == Tokens(s.next, s.threads[t])
    ensures Work(g, s.dist, s.next, s'.threads[t]) < Work(g, s.dist, s.next, s.threads[t])
  {}

  lemma EdgeWork(g: Graph, delta: nat, s: State, s': State, t: nat)
    requires delta > 0 && RelaxStep(g, delta, s, s', t) && s'.dist == s.dist
    requires s.threads[t].pc.Read? || s.threads[t].pc.Reread?
          || (s.threads[t].pc.Cas? && s.dist[g.out.e[s.threads[t].pc.i]] != s.threads[t].pc.seen)
    ensures s'.threads == s.threads[t := s'.threads[t]] && Tokens(s.next, s'.threads[t]) == Tokens(s.next, s.threads[t])
    ensures Work(g, s.dist, s.next, s'.threads[t]) < Work(g, s.dist, s.next, s.threads[t])
  {}

  lemma PushWork(g: Graph, delta: nat, s: State, s': State, t: nat)
    requires delta > 0 && RelaxStep(g, delta, s, s', t) && s.threads[t].pc.Push?
    ensures s'.threads == s.threads[t := s'.threads[t]] && Tokens(s.next, s'.threads[t]) == Tokens(s.next, s.threads[t])
    ensures Work(g, s.dist, s.next, s'.threads[t]) < Work(g, s.dist, s.next, s.threads[t])
  {
    EntriesPut(s.threads[t].bins, s.threads[t].pc.d / delta, g.out.e[s.threads[t].pc.i]);
  }

  /** Replacing a label by a smaller one changes the labels. */
  lemma CasChanges(g: Graph, source: nat, delta: nat, s: State, s': State, t: nat)
    requires delta > 0 && RelaxInv(g, source, delta, s) && RelaxStep(g, delta, s, s', t) && s.threads[t].pc.Cas? && s'.dist == s.dist
    ensures s.dist[g.out.e[s.threads[t].pc.i]] != s.threads[t].pc.seen
  {
    assert ThreadOk(g, source, s.dist, delta, s.curr.i, s.next, s.threads[t]);
    var x := g.out.e[s.threads[t].pc.i];
    assert s'.dist[x] == s.dist[x];
  }

  /** A step of one thread that leaves labels, frontier and indexes alone. */
  lemma QuietStepLowers(g: Graph, source: nat, delta: nat, s: State, s': State, t: nat)
    requires delta > 0 && RelaxInv(g, source, delta, s) && RelaxStep(g, delta, s, s', t)
    requires s'.dist == s.dist && !s.threads[t].pc.Lower? && !(s.threads[t].pc.Idle? && s.open != {})
    ensures RankOf(g, s').Below(RankOf(g, s))
  {
    var pc := s.threads[t].pc;
    if pc.Push? {
      PushWork(g, delta, s, s', t);
    } else if pc.Idle? || pc.Took? || pc.At? {
      LoopWork(g, delta, s, s', t);
    } else {
      if pc.Cas? {
        CasChanges(g, source, delta, s, s', t);
      }
      EdgeWork(g, delta, s, s', t);
    }
    ThreadLowers(g, s, s', t, s'.threads[t]);
  }

  lemma {:induction false} SumsIgnoreNext(g: Graph, dist: seq<Distance>, next: BinIndex, next': BinIndex, threads: seq<Thread>)
    requires forall t | 0 <= t < |threads| :: !threads[t].pc.Copy? && !threads[t].pc.Single? && !threads[t].pc.Refill?
    ensures TokenSum(next', threads) == TokenSum(next, threads) && WorkSum(g, dist, next', threads) == WorkSum(g, dist, next, threads)
  {
    if threads != [] {
      SumsIgnoreNext(g, dist, next, next', threads[..|threads| - 1]);
    }
  }

  lemma LowerLowers(g: Graph, source: nat, delta: nat, s: State, s': State, t: nat)
    requires delta > 0 && RelaxInv(g, source, delta, s) && RelaxStep(g, delta, s, s', t) && s.threads[t].pc.Lower?
    ensures RankOf(g, s').Below(RankOf(g, s))
  {
    forall r | 0 <= r < |s.threads|
      ensures !s.threads[r].pc.Copy? && !s.threads[r].pc.Single? && !s.threads[r].pc.Refill?
    {
      assert ThreadOk(g, source, s.dist, delta, s.curr.i, s.next, s.threads[r]);
    }
    SumsIgnoreNext(g, s.dist, s.next, s'.next, s.threads);
    var mid := s.(next := s'.next);
    ThreadLowers(g, mid, s', t, s'.threads[t]);
  }

  /** A successful compare-and-swap lowers a label. */
  lemma CasLowers(g: Graph, source: nat, delta: nat, s: State, s': State, t: nat)
    requires delta > 0 && RelaxInv(g, source, delta, s) && RelaxStep(g, delta, s, s', t) && s'.dist != s.dist
    ensures RankOf(g, s').Below(RankOf(g, s))
  {
    assert ThreadOk(g, source, s.dist, delta, s.curr.i, s.next, s.threads[t]);
    LabelsShrink(s.dist, s'.dist);
  }

  lemma RelaxLowers(g: Graph, source: nat, delta: nat, s: State, s': State, t: nat)
    requires delta > 0 && RelaxInv(g, source, delta, s) && RelaxStep(g, delta, s, s', t)
    ensures RankOf(g, s').Below(RankOf(g, s))
  {
    if s'.dist != s.dist {
      CasLowers(g, source, delta, s, s', t);
    } else if s.threads[t].pc.Lower? {
      LowerLowers(g, source, delta, s, s', t);
    } else if s.threads[t].pc.Idle? && s.open != {} {
      var p :| p in s.open && p in s.frontier && s' == Go(s, t, Took(s.frontier[p])).(open := s.open - {p});
      TakeLowers(g, s, s', t, p);
    } else {
      QuietStepLowers(g, source, delta, s, s', t);
    }
  }

  /** Single, a copied entry, and a bin cleared: only the work of the thread gets less. */
  lemma CopyingWork(g: Graph, s: State, s': State, t: nat)
    requires RefillStep(s, s', t) && !s.threads[t].pc.Refill?
    ensures s'.threads == s.threads[t := s'.threads[t]] && Tokens(s.next, s'.threads[t]) == Tokens(s.next, s.threads[t])
    ensures Work(g, s.dist, s.next, s'.threads[t]) < Work(g, s.dist, s.next, s.threads[t])
  {}

  lemma ReserveLowers(g: Graph, s: State, s': State, t: nat)
    requires RefillStep(s, s', t) && s.threads[t].pc.Refill?
    ensures RankOf(g, s').Below(RankOf(g, s))
  {
    var th := s.threads[t];
    SumsUpdate(g, s.dist, s.next, s.threads, t, s'.threads[t]);
    if HasBin(s.next, th) {
      EntriesAfterTaking(th.bins, s.next.i);
    }
  }

  lemma RefillLowers(g: Graph, s: State, s': State, t: nat)
    requires RefillStep(s, s', t)
    ensures RankOf(g, s').Below(RankOf(g, s))
  {
    if s.threads[t].pc.Refill? {
      ReserveLowers(g, s, s', t);
    } else {
      CopyingWork(g, s, s', t);
      ThreadLowers(g, s, s', t, s'.threads[t]);
    }
  }

  lemma {:induction false} SumsRestarted(next: BinIndex, next': BinIndex, threads: seq<Thread>, pc: Pc)
    requires !pc.Copy? && !pc.Push? && forall t | 0 <= t < |threads| :: !threads[t].pc.Copy? && !threads[t].pc.Push?
    ensures TokenSum(next', Restarted(threads, pc)) == TokenSum(next, threads)
  {
    if threads != [] {
      var last := |threads| - 1;
      SumsRestarted(next, next', threads[..last], pc);
      assert Restarted(threads, pc)[..last] == Restarted(threads[..last], pc);
    }
  }

  lemma FirstBarrierLowers(g: Graph, source: nat, delta: nat, s: State, s': State)
    requires delta > 0 && RelaxInv(g, source, delta, s) && FirstBarrier(s, s')
    ensures RankOf(g, s').Below(RankOf(g, s))
  {
    assert s.threads[0].pc == Wait1 && s.open == {};
    SumsRestarted(s.next, s.next, s.threads, Single);
  }

  lemma SecondBarrierLowers(g: Graph, source: nat, delta: nat, s: State, s': State)
    requires delta > 0 && RefillInv(g, source, delta, s) && Announced(s) && SecondBarrier(s, s')
    ensures RankOf(g, s').Below(RankOf(g, s))
  {
    assert RefillOk(s.dist, s.next, s.nextTail, s.frontier, s.reset, s.threads[0]);
    if s.next.Bin? {
      SumsRestarted(s.next, s'.next, s.threads, Idle);
      assert s.nextTail - 1 in s'.open;
    }
  }

  /** Every step, of any thread, lowers the rank, so no run goes on for ever. */
  lemma EveryStepLowersTheRank(g: Graph, source: nat, delta: nat, s: State, s': State)
    requires delta > 0 && Inv(g, source, delta, s) && Announced(s) && Next(g, delta, s, s')
    ensures RankOf(g, s').Below(RankOf(g, s))
  {
    if t :| RelaxStep(g, delta, s, s', t) {
      RelaxLowers(g, source, delta, s, s', t);
    } else if FirstBarrier(s, s') {
      FirstBarrierLowers(g, source, delta, s, s');
    } else if t :| RefillStep(s, s', t) {
      RefillLowers(g, s, s', t);
    } else {
      SecondBarrierLowers(g, source, delta, s, s');
    }
  }

  /** From every state of a run the search can be finished. */
  lemma {:induction false} RunCanFinish(g: Graph, source: nat, delta: nat, s: State) returns (rest: seq<State>)
    requires delta > 0 && Inv(g, source, delta, s) && Announced(s)
    ensures rest != [] && rest[0] == s && rest[|rest| - 1].phase == Finished
    ensures forall i | 0 <= i < |rest| - 1 :: Next(g, delta, rest[i], rest[i + 1])
    decreases RankOf(g, s).unreached, RankOf(g, s).labels, RankOf(g, s).tokens, RankOf(g, s).phase, RankOf(g, s).work
  {
    if s.phase == Finished {
      rest := [s];
    } else {
      var s' := NoDeadlock(g, source, delta, s);
      NextInv(g, source, delta, s, s');
      NextAnnounced(g, source, delta, s, s');
      EveryStepLowersTheRank(g, source, delta, s, s');
      var more := RunCanFinish(g, source, delta, s');
      rest := [s] + more;
    }
  }

  // ---- What every run leaves ----

  lemma {:induction false} RunInv(g: Graph, source: nat, delta: nat, states: seq<State>, i: nat)
    requires delta > 0 && Run(g, source, delta, states) && i < |states|
    ensures Inv(g, source, delta, states[i]) && Announced(states[i])
  {
    if i == 0 {
      InitInv(g, source, delta, states[0]);
    } else {
      RunInv(g, source, delta, states, i - 1);
      NextInv(g, source, delta, states[i - 1], states[i]);
      NextAnnounced(g, source, delta, states[i - 1], states[i]);
    }
  }

  /** Whatever the number of threads, and however their accesses are interleaved: a run that has finished leaves the
      length of a shortest path to every vertex. */
  lemma FinishedRunIsCorrect(g: Graph, source: nat, delta: nat, states: seq<State>)
    requires delta > 0 && Run(g, source, delta, states) && states[|states| - 1].phase == Finished
    ensures AreDistances(g.out.Edges(), source, Table(states[|states| - 1].dist))
  {
    RunInv(g, source, delta, states, |states| - 1);
  }
}
