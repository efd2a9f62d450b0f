/** The two steps of the breadth-first search as OpenMP runs them, library/baseline/csr.cpp:535-600: threads that
    race for the labels in a top-down step, and that write bits of shared words in a bottom-up step. */
module BfsRace {
  import opened Bfs
  import opened Counting
  import opened Csr
  import opened Numbers
  import opened Paths

  // ---- Top-down: one access to the labels at a time ----

  /** Seen: the thread has read val as the label of the target of edge i of u. */
  datatype Pc = Idle | Scan(u: nat, i: nat) | Seen(u: nat, i: nat, val: int) | Done

  /** local is the queue buffer of the thread, scout its part of the reduction. */
  datatype Thread = Thread(pc: Pc, local: seq<nat>, scout: int)

  /** open are the positions of the window not handed out yet, news what the flushes have appended. */
  datatype State = State(dist: seq<int>, open: set<nat>, news: seq<nat>, threads: seq<Thread>)

  /** The labels before the step, the new label, and the window of the queue. */
  datatype Job = Job(g: Csr, before: seq<int>, d: int, window: seq<nat>)

  ghost predicate JobOk(j: Job) {
    && j.g.Valid() && |j.before| == j.g.n && j.d >= 1
    && Elements(j.window) == Frontier(j.before, j.d - 1)
  }

  ghost predicate Init(j: Job, s: State) {
    && s.dist == j.before && s.news == [] && s.open == Below(|j.window|)
    && forall t | 0 <= t < |s.threads| :: s.threads[t] == Thread(Idle, [], 0)
  }

  function Go(s: State, t: nat, pc: Pc): State
    requires t < |s.threads|
  {
    s.(threads := s.threads[t := s.threads[t].(pc := pc)])
  }

  /** The full buffer, or the rest of it at the end, is appended to the queue. */
  function Flushed(s: State, t: nat, pc: Pc): State
    requires t < |s.threads|
  {
    s.(news := s.news + s.threads[t].local, threads := s.threads[t := s.threads[t].(pc := pc, local := [])])
  }

  predicate InRow(r: Rows, u: nat, i: nat) {
    u < |r.v| && r.First(u) <= i < r.Last(u) && i < |r.e|
  }

  ghost predicate Step(j: Job, s: State, s': State, t: nat) {
    && t < |s.threads|
    && ((s.threads[t].local != [] && s' == Flushed(s, t, s.threads[t].pc)) ||
        match s.threads[t].pc
        case Idle =>
          if s.open != {} then
            exists p :: p in s.open && p < |j.window| && j.window[p] < |j.g.out.v|
                        && s' == Go(s, t, Scan(j.window[p], j.g.out.First(j.window[p]))).(open := s.open - {p})
          else s' == Flushed(s, t, Done)
        case Scan(u, i) =>
          if InRow(j.g.out, u, i) then j.g.out.e[i] < |s.dist| && s' == Go(s, t, Seen(u, i, s.dist[j.g.out.e[i]]))
          else s' == Go(s, t, Idle)
        case Seen(u, i, val) =>
          && i < |j.g.out.e| && j.g.out.e[i] < |s.dist|
          && var x := j.g.out.e[i];
             var th := s.threads[t];
             s' == if val < 0 && s.dist[x] == val
                   then s.(dist := s.dist[x := j.d], threads := s.threads[t := Thread(Scan(u, i + 1), th.local + [x], th.scout - val)])
                   else Go(s, t, Scan(u, i + 1))
        case Done => false)
  }

  // ---- What holds at all times ----

  /** How often the buffers hold v. */
  ghost function Buffered(threads: seq<Thread>, v: nat): nat {
    if threads == [] then 0 else Buffered(threads[..|threads| - 1], v) + CountEq(threads[|threads| - 1].local, v)
  }

  ghost function Scouted(threads: seq<Thread>): int {
    if threads == [] then 0 else Scouted(threads[..|threads| - 1]) + threads[|threads| - 1].scout
  }

  lemma {:induction false} BufferedUpdate(threads: seq<Thread>, t: nat, th: Thread, v: nat)
    requires t < |threads|
    ensures Buffered(threads[t := th], v) == Buffered(threads, v) - CountEq(threads[t].local, v) + CountEq(th.local, v)
  {
    var last := |threads| - 1;
    if t < last {
      BufferedUpdate(threads[..last], t, th, v);
      assert threads[t := th][..last] == threads[..last][t := th];
    } else {
      assert threads[t := th][..last] == threads[..last];
    }
  }

  lemma {:induction false} ScoutedUpdate(threads: seq<Thread>, t: nat, th: Thread)
    requires t < |threads|
    ensures Scouted(threads[t := th]) == Scouted(threads) - threads[t].scout + th.scout
  {
    var last := |threads| - 1;
    if t < last {
      ScoutedUpdate(threads[..last], t, th);
      assert threads[t := th][..last] == threads[..last][t := th];
    } else {
      assert threads[t := th][..last] == threads[..last];
    }
  }

  lemma {:induction false} NothingBuffered(threads: seq<Thread>, v: nat)
    requires forall t | 0 <= t < |threads| :: threads[t].local == []
    ensures Buffered(threads, v) == 0
    ensures (forall t | 0 <= t < |threads| :: threads[t].scout == 0) ==> Scouted(threads) == 0
  {
    if threads != [] {
      NothingBuffered(threads[..|threads| - 1], v);
    }
  }

  ghost predicate LabelOk(j: Job, dist: seq<int>, v: nat)
    requires JobOk(j) && v < j.g.n == |dist|
  {
    dist[v] == j.before[v] || (j.before[v] < 0 && dist[v] == j.d && Reached(j.g, Frontier(j.before, j.d - 1), v))
  }

  /** The targets of u before position i are visited. */
  ghost predicate RowVisited(j: Job, dist: seq<int>, u: nat, i: nat)
    requires JobOk(j) && |dist| == j.g.n
  {
    forall k: nat | j.g.out.InRow(u, k) && k < i && k < |j.g.out.e| :: dist[j.g.out.e[k]] >= 0
  }

  ghost predicate PcOk(j: Job, dist: seq<int>, pc: Pc)
    requires JobOk(j) && |dist| == j.g.n
  {
    match pc
    case Scan(u, i) => u in Frontier(j.before, j.d - 1) && u < |j.g.out.v| && j.g.out.First(u) <= i
    case Seen(u, i, val) => u in Frontier(j.before, j.d - 1) && InRow(j.g.out, u, i)
      && (if val < 0 then val == j.before[j.g.out.e[i]] else dist[j.g.out.e[i]] >= 0)
    case _ => true
  }

  ghost predicate Expands(j: Job, dist: seq<int>, pc: Pc, u: nat)
    requires JobOk(j) && |dist| == j.g.n
  {
    match pc
    case Scan(x, i) => x == u && RowVisited(j, dist, u, i)
    case Seen(x, i, _) => x == u && RowVisited(j, dist, u, i)
    case _ => false
  }

  /** u waits in the window, is being expanded, or all its targets are visited. */
  ghost predicate Covered(j: Job, s: State, u: nat)
    requires JobOk(j) && |s.dist| == j.g.n
  {
    || RowVisited(j, s.dist, u, |j.g.out.e|)
    || (exists p :: p in s.open && p < |j.window| && j.window[p] == u)
    || (exists t :: 0 <= t < |s.threads| && Expands(j, s.dist, s.threads[t].pc, u))
  }

  ghost predicate Fresh(before: seq<int>, dist: seq<int>, v: nat) {
    v < |before| == |dist| && before[v] < 0 <= dist[v]
  }

  ghost predicate ListedOnce(before: seq<int>, s: State, v: nat) {
    CountEq(s.news, v) + Buffered(s.threads, v) == if Fresh(before, s.dist, v) then 1 else 0
  }

  /** Every vertex visited by this step is in the queue or in one buffer, once; the labels they had are scouted. */
  ghost predicate Listed(before: seq<int>, s: State) {
    && (forall v: nat :: ListedOnce(before, s, v))
    && Scouted(s.threads) == Unscanned(before) - Unscanned(s.dist)
  }

  ghost predicate ThreadsOk(j: Job, s: State)
    requires JobOk(j) && |s.dist| == j.g.n
  {
    && (forall t | 0 <= t < |s.threads| :: PcOk(j, s.dist, s.threads[t].pc))
    && (forall t | 0 <= t < |s.threads| && s.threads[t].pc == Done :: s.open == {} && s.threads[t].local == [])
  }

  ghost predicate Inv(j: Job, s: State) {
    && JobOk(j) && |s.dist| == j.g.n
    && (forall v: nat | v < j.g.n :: LabelOk(j, s.dist, v))
    && (forall p | p in s.open :: p < |j.window|)
    && ThreadsOk(j, s)
    && (forall u | u in Frontier(j.before, j.d - 1) :: Covered(j, s, u))
    && Listed(j.before, s)
  }

  lemma InitInv(j: Job, s: State)
    requires JobOk(j) && Init(j, s)
    ensures Inv(j, s)
  {
    forall v: nat
      ensures ListedOnce(j.before, s, v)
    {
      NothingBuffered(s.threads, v);
    }
    NothingBuffered(s.threads, 0);
    forall u | u in Frontier(j.before, j.d - 1)
      ensures Covered(j, s, u)
    {
      assert u in Elements(j.window);
      var p: nat :| p < |j.window| && j.window[p] == u;
      assert p in s.open;
    }
  }

  /** Thread t moves on and still expands what it expanded, or that is done. */
  lemma CoveredStays(j: Job, s: State, s': State, t: nat, u: nat)
    requires JobOk(j) && |s.dist| == j.g.n && s'.dist == s.dist && s'.open == s.open && t < |s.threads| == |s'.threads|
    requires forall r | 0 <= r < |s.threads| && r != t :: s'.threads[r].pc == s.threads[r].pc
    requires Expands(j, s.dist, s.threads[t].pc, u) ==> Expands(j, s.dist, s'.threads[t].pc, u) || RowVisited(j, s.dist, u, |j.g.out.e|)
    requires Covered(j, s, u)
    ensures Covered(j, s', u)
  {
    if r :| 0 <= r < |s.threads| && Expands(j, s.dist, s.threads[r].pc, u) {
      assert r != t ==> Expands(j, s'.dist, s'.threads[r].pc, u);
    }
  }

  /** Neither the queue nor the buffers change. */
  lemma ListedStays(before: seq<int>, s: State, s': State, t: nat, pc: Pc)
    requires Listed(before, s) && t < |s.threads| && s'.threads == s.threads[t := s.threads[t].(pc := pc)]
    requires s'.dist == s.dist && s'.news == s.news
    ensures Listed(before, s')
  {
    ScoutedUpdate(s.threads, t, s'.threads[t]);
    forall v: nat
      ensures ListedOnce(before, s', v)
    {
      assert ListedOnce(before, s, v);
      BufferedUpdate(s.threads, t, s'.threads[t], v);
    }
  }

  lemma FlushListed(before: seq<int>, s: State, s': State, t: nat, pc: Pc)
    requires Listed(before, s) && t < |s.threads| && s' == Flushed(s, t, pc)
    ensures Listed(before, s')
  {
    ScoutedUpdate(s.threads, t, s'.threads[t]);
    forall v: nat
      ensures ListedOnce(before, s', v)
    {
      assert ListedOnce(before, s, v);
      BufferedUpdate(s.threads, t, s'.threads[t], v);
      CountEqConcat(s.news, s.threads[t].local, v);
    }
  }

  lemma HitListed(before: seq<int>, s: State, s': State, t: nat, x: nat, d: int, th: Thread)
    requires Listed(before, s) && t < |s.threads| && x < |s.dist| == |before| && s.dist[x] == before[x] < 0 <= d
    requires th.local == s.threads[t].local + [x] && th.scout == s.threads[t].scout - s.dist[x]
    requires s' == s.(dist := s.dist[x := d], threads := s.threads[t := th])
    ensures Listed(before, s')
  {
    ScoutedUpdate(s.threads, t, th);
    Visit(s.dist, x, d);
    forall v: nat
      ensures ListedOnce(before, s', v)
    {
      assert ListedOnce(before, s, v);
      BufferedUpdate(s.threads, t, th, v);
      CountEqSnoc(s.threads[t].local, x, v);
    }
  }

  /** A step that leaves the labels alone. */
  lemma QuietStep(j: Job, s: State, s': State, t: nat, pc: Pc)
    requires Inv(j, s) && t < |s.threads| && s' == Go(s, t, pc)
    requires PcOk(j, s.dist, pc) && pc != Done && s.threads[t].pc != Done
    requires forall u :: Expands(j, s.dist, s.threads[t].pc, u) ==> Expands(j, s.dist, pc, u) || RowVisited(j, s.dist, u, |j.g.out.e|)
    ensures Inv(j, s')
  {
    ListedStays(j.before, s, s', t, pc);
    forall u | u in Frontier(j.before, j.d - 1)
      ensures Covered(j, s', u)
    {
      CoveredStays(j, s, s', t, u);
    }
  }

  lemma FlushStep(j: Job, s: State, s': State, t: nat, pc: Pc)
    requires Inv(j, s) && t < |s.threads| && s' == Flushed(s, t, pc)
    requires pc == s.threads[t].pc || (s.threads[t].pc == Idle && pc == Done && s.open == {})
    ensures Inv(j, s')
  {
    FlushListed(j.before, s, s', t, pc);
    forall u | u in Frontier(j.before, j.d - 1)
      ensures Covered(j, s', u)
    {
      CoveredStays(j, s, s', t, u);
    }
  }

  lemma TakeStep(j: Job, s: State, s': State, t: nat, p: nat)
    requires Inv(j, s) && t < |s.threads| && s.threads[t].pc == Idle && p in s.open && p < |j.window| && j.window[p] < |j.g.out.v|
    requires s' == Go(s, t, Scan(j.window[p], j.g.out.First(j.window[p]))).(open := s.open - {p})
    ensures Inv(j, s')
  {
    ListedStays(j.before, s, s', t, Scan(j.window[p], j.g.out.First(j.window[p])));
    assert j.window[p] in Elements(j.window);
    assert Expands(j, s'.dist, s'.threads[t].pc, j.window[p]);
    forall u | u in Frontier(j.before, j.d - 1)
      ensures Covered(j, s', u)
    {
      assert Covered(j, s, u);
      if q :| q in s.open && q < |j.window| && j.window[q] == u {
        assert q != p ==> q in s'.open;
      } else if r :| 0 <= r < |s.threads| && Expands(j, s.dist, s.threads[r].pc, u) {
        assert Expands(j, s'.dist, s'.threads[r].pc, u);
      }
    }
  }

  lemma TargetKnown(j: Job, u: nat, i: nat)
    requires JobOk(j) && InRow(j.g.out, u, i)
    ensures j.g.out.InRow(u, i) && j.g.out.e[i] < j.g.n && j.g.out.HasEdge(u, j.g.out.e[i])
  {
    EdgeAt(j.g.out, u, i);
  }

  /** Past the end of the row every target is visited. */
  lemma RowDone(j: Job, dist: seq<int>, u: nat, i: nat)
    requires JobOk(j) && |dist| == j.g.n && u < |j.g.out.v| && j.g.out.First(u) <= i && !InRow(j.g.out, u, i)
    requires RowVisited(j, dist, u, i)
    ensures RowVisited(j, dist, u, |j.g.out.e|)
  {
    RowInBounds(j.g.out, j.g.n, u);
  }

  lemma ScanStep(j: Job, s: State, s': State, t: nat)
    requires Inv(j, s) && Step(j, s, s', t) && s.threads[t].pc.Scan? && s' != Flushed(s, t, s.threads[t].pc)
    ensures Inv(j, s')
  {
    var u, i := s.threads[t].pc.u, s.threads[t].pc.i;
    assert PcOk(j, s.dist, s.threads[t].pc);
    if InRow(j.g.out, u, i) {
      TargetKnown(j, u, i);
      assert LabelOk(j, s.dist, j.g.out.e[i]);
      QuietStep(j, s, s', t, Seen(u, i, s.dist[j.g.out.e[i]]));
    } else {
      if RowVisited(j, s.dist, u, i) {
        RowDone(j, s.dist, u, i);
      }
      QuietStep(j, s, s', t, Idle);
    }
  }

  lemma MissStep(j: Job, s: State, s': State, t: nat)
    requires Inv(j, s) && t < |s.threads| && s.threads[t].pc.Seen? && s' == Go(s, t, Scan(s.threads[t].pc.u, s.threads[t].pc.i + 1))
    requires InRow(j.g.out, s.threads[t].pc.u, s.threads[t].pc.i)
    requires s.threads[t].pc.val >= 0 || s.dist[j.g.out.e[s.threads[t].pc.i]] != s.threads[t].pc.val
    ensures Inv(j, s')
  {
    var u, i := s.threads[t].pc.u, s.threads[t].pc.i;
    assert PcOk(j, s.dist, s.threads[t].pc);
    TargetKnown(j, u, i);
    assert LabelOk(j, s.dist, j.g.out.e[i]);
    QuietStep(j, s, s', t, Scan(u, i + 1));
  }

  // ---- A label is taken ----

  lemma RowStaysVisited(j: Job, dist: seq<int>, x: nat, u: nat, i: nat)
    requires JobOk(j) && |dist| == j.g.n && x < j.g.n && RowVisited(j, dist, u, i)
    ensures RowVisited(j, dist[x := j.d], u, i)
  {}

  lemma PcStaysOk(j: Job, dist: seq<int>, x: nat, pc: Pc)
    requires JobOk(j) && |dist| == j.g.n && x < j.g.n && PcOk(j, dist, pc)
    ensures PcOk(j, dist[x := j.d], pc)
  {}

  lemma CoveredAfterHit(j: Job, s: State, s': State, t: nat, x: nat, u: nat)
    requires Inv(j, s) && t < |s.threads| == |s'.threads| && x < j.g.n && s'.dist == s.dist[x := j.d] && s'.open == s.open
    requires forall r | 0 <= r < |s.threads| && r != t :: s'.threads[r].pc == s.threads[r].pc
    requires s.threads[t].pc.Seen? && InRow(j.g.out, s.threads[t].pc.u, s.threads[t].pc.i) && x == j.g.out.e[s.threads[t].pc.i]
    requires s'.threads[t].pc == Scan(s.threads[t].pc.u, s.threads[t].pc.i + 1) && Covered(j, s, u)
    ensures Covered(j, s', u)
  {
    if RowVisited(j, s.dist, u, |j.g.out.e|) {
      RowStaysVisited(j, s.dist, x, u, |j.g.out.e|);
    } else if r :| 0 <= r < |s.threads| && Expands(j, s.dist, s.threads[r].pc, u) {
      RowStaysVisited(j, s.dist, x, u, s.threads[r].pc.i);
      assert Expands(j, s'.dist, s'.threads[r].pc, u);
    }
  }

  lemma HitLabels(j: Job, dist: seq<int>, dist': seq<int>, u: nat, x: nat)
    requires JobOk(j) && |dist| == j.g.n && x < j.g.n && (forall v: nat | v < j.g.n :: LabelOk(j, dist, v))
    requires u in Frontier(j.before, j.d - 1) && j.g.out.HasEdge(u, x) && j.before[x] < 0 && dist' == dist[x := j.d]
    ensures forall v: nat | v < j.g.n :: LabelOk(j, dist', v)
  {
    forall v: nat | v < j.g.n
      ensures LabelOk(j, dist', v)
    {
      assert LabelOk(j, dist, v);
    }
  }

  lemma HitStep(j: Job, s: State, s': State, t: nat, x: nat)
    requires Inv(j, s) && t < |s.threads| && s.threads[t].pc.Seen?
    requires InRow(j.g.out, s.threads[t].pc.u, s.threads[t].pc.i) && x == j.g.out.e[s.threads[t].pc.i] < |s.dist|
    requires s.threads[t].pc.val < 0 && s.dist[x] == s.threads[t].pc.val
    requires var th := s.threads[t];
             s' == s.(dist := s.dist[x := j.d],
                      threads := s.threads[t := Thread(Scan(th.pc.u, th.pc.i + 1), th.local + [x], th.scout - th.pc.val)])
    ensures Inv(j, s')
  {
    var u, i := s.threads[t].pc.u, s.threads[t].pc.i;
    assert PcOk(j, s.dist, s.threads[t].pc);
    TargetKnown(j, u, i);
    HitLabels(j, s.dist, s'.dist, u, x);
    HitListed(j.before, s, s', t, x, j.d, s'.threads[t]);
    forall r | 0 <= r < |s.threads|
      ensures PcOk(j, s'.dist, s'.threads[r].pc)
    {
      PcStaysOk(j, s.dist, x, s.threads[r].pc);
    }
    forall w | w in Frontier(j.before, j.d - 1)
      ensures Covered(j, s', w)
    {
      CoveredAfterHit(j, s, s', t, x, w);
    }
  }

  /** Every access of any thread keeps the invariant. */
  lemma StepInv(j: Job, s: State, s': State, t: nat)
    requires Inv(j, s) && Step(j, s, s', t)
    ensures Inv(j, s')
  {
    var pc := s.threads[t].pc;
    assert PcOk(j, s.dist, pc);
    if s' == Flushed(s, t, pc) {
      FlushStep(j, s, s', t, pc);
    } else if pc.Idle? && s.open == {} {
      FlushStep(j, s, s', t, Done);
    } else if pc.Idle? {
      var p :| p in s.open && p < |j.window| && j.window[p] < |j.g.out.v|
               && s' == Go(s, t, Scan(j.window[p], j.g.out.First(j.window[p]))).(open := s.open - {p});
      TakeStep(j, s, s', t, p);
    } else if pc.Scan? {
      ScanStep(j, s, s', t);
    } else {
      var x := j.g.out.e[pc.i];
      if pc.val < 0 && s.dist[x] == pc.val {
        HitStep(j, s, s', t, x);
      } else {
        MissStep(j, s, s', t);
      }
    }
  }

  lemma VisitedLevel(j: Job, dist: seq<int>, v: nat)
    requires JobOk(j) && |dist| == j.g.n && v < j.g.n && LabelOk(j, dist, v)
    requires forall u | u in Frontier(j.before, j.d - 1) :: RowVisited(j, dist, u, |j.g.out.e|)
    ensures dist[v] == if j.before[v] < 0 && Reached(j.g, Frontier(j.before, j.d - 1), v) then j.d else j.before[v]
  {
    if j.before[v] < 0 && Reached(j.g, Frontier(j.before, j.d - 1), v) {
      var u: nat :| u in Frontier(j.before, j.d - 1) && j.g.out.HasEdge(u, v);
      var i: nat :| j.g.out.InRow(u, i) && i < |j.g.out.e| && j.g.out.e[i] == v;
      assert RowVisited(j, dist, u, |j.g.out.e|);
      assert dist[v] >= 0;
    }
  }

  ghost predicate AllDone(s: State) {
    |s.threads| > 0 && forall t | 0 <= t < |s.threads| :: s.threads[t].pc == Done
  }

  ghost predicate Steps(j: Job, s: State, s': State) {
    exists t :: Step(j, s, s', t)
  }

  ghost predicate Run(j: Job, states: seq<State>) {
    && JobOk(j) && states != [] && Init(j, states[0])
    && forall i | 0 <= i < |states| - 1 :: Steps(j, states[i], states[i + 1])
  }

  lemma StepsInv(j: Job, s: State, s': State)
    requires Inv(j, s) && Steps(j, s, s')
    ensures Inv(j, s')
  {
    var t :| Step(j, s, s', t);
    StepInv(j, s, s', t);
  }

  lemma {:induction false} RunInv(j: Job, states: seq<State>, i: nat)
    requires Run(j, states) && i < |states|
    ensures Inv(j, states[i])
  {
    if i == 0 {
      InitInv(j, states[0]);
    } else {
      RunInv(j, states, i - 1);
      StepsInv(j, states[i - 1], states[i]);
    }
  }

  /** When all threads are done, in whatever order they raced: the step has the result of the sequential one, the
      queue got every discovery once, and the reduction is exact. */
  lemma FinishedTopDown(j: Job, states: seq<State>)
    requires Run(j, states)
    requires AllDone(states[|states| - 1])
    ensures var s := states[|states| - 1];
            && NextLevel(j.g, j.before, j.d, s.dist) && Discovers(j.before, s.dist, s.news)
            && Scouted(s.threads) == Unscanned(j.before) - Unscanned(s.dist)
  {
    RunInv(j, states, |states| - 1);
    TopDownIsExact(j, states[|states| - 1]);
  }

  lemma TopDownIsExact(j: Job, s: State)
    requires Inv(j, s) && AllDone(s)
    ensures NextLevel(j.g, j.before, j.d, s.dist)
    ensures Discovers(j.before, s.dist, s.news)
    ensures Scouted(s.threads) == Unscanned(j.before) - Unscanned(s.dist)
  {
    assert s.threads[0].pc == Done && s.open == {};
    forall u | u in Frontier(j.before, j.d - 1)
      ensures RowVisited(j, s.dist, u, |j.g.out.e|)
    {
      assert Covered(j, s, u);
    }
    forall v: nat | v < j.g.n
      ensures s.dist[v] == if j.before[v] < 0 && Reached(j.g, Frontier(j.before, j.d - 1), v) then j.d else j.before[v]
    {
      VisitedLevel(j, s.dist, v);
    }
    AllListed(j.before, s);
  }

  lemma AllListed(before: seq<int>, s: State)
    requires Listed(before, s) && |s.dist| == |before| && forall t | 0 <= t < |s.threads| :: s.threads[t].local == []
    ensures Discovers(before, s.dist, s.news)
  {
    forall v: nat
      ensures CountEq(s.news, v) == if Fresh(before, s.dist, v) then 1 else 0
      ensures v in s.news <==> Fresh(before, s.dist, v)
    {
      assert ListedOnce(before, s, v);
      NothingBuffered(s.threads, v);
      CountEqPositive(s.news, v);
    }
    CountedOnce(s.news);
  }

  // ---- Bottom-up: chunks of vertices, and bits in words that are written without synchronisation ----

  /** schedule(dynamic, 1024), and the bits of a word of the bitmap. */
  const CHUNK: nat := 1024
  const WORD: nat := 64

  /** A thread owns chunk c and stands at vertex u of it. Load, Store: the two accesses of set_bit, which is not
      atomic; the word w has been read in between. */
  datatype Place =
    | Free
    | Look(c: nat, u: nat)
    | Probe(c: nat, u: nat, i: nat)
    | Load(c: nat, u: nat)
    | Store(c: nat, u: nat, w: set<nat>)
    | Left

  datatype Prober = Prober(place: Place, awake: int)

  /** words holds the bitmap, 64 vertices a word; chunks are still to be handed out. */
  datatype Board = Board(dist: seq<int>, words: seq<set<nat>>, chunks: set<nat>, threads: seq<Prober>)

  /** The labels before the step, the new label, and the bitmap of the frontier with its stale bits. */
  datatype Climb = Climb(g: Csr, root: nat, before: seq<int>, d: int, front: seq<bool>)

  ghost predicate ClimbOk(k: Climb) {
    k.g.Valid() && Bfs.Level(k.g, k.root, k.before, k.d) && FrontCovers(k.before, k.d, k.front)
  }

  function End(k: Climb, c: nat): nat {
    Min(CHUNK * (c + 1), k.g.n)
  }

  ghost predicate Chunks(k: Climb, chunks: set<nat>) {
    forall c: nat :: c in chunks <==> CHUNK * c < k.g.n
  }

  ghost predicate Opening(k: Climb, b: Board) {
    && b.dist == k.before && |b.words| * WORD >= k.g.n && (forall i | 0 <= i < |b.words| :: b.words[i] == {})
    && Chunks(k, b.chunks) && |b.threads| > 0 && forall t | 0 <= t < |b.threads| :: b.threads[t] == Prober(Free, 0)
  }

  function Put(b: Board, t: nat, place: Place): Board
    requires t < |b.threads|
  {
    b.(threads := b.threads[t := b.threads[t].(place := place)])
  }

  ghost predicate Move(k: Climb, b: Board, b': Board, t: nat) {
    && t < |b.threads|
    && match b.threads[t].place
       case Free =>
         if b.chunks != {} then exists c :: c in b.chunks && b' == Put(b, t, Look(c, CHUNK * c)).(chunks := b.chunks - {c})
         else b' == Put(b, t, Left)
       case Look(c, u) =>
         if u >= End(k, c) then b' == Put(b, t, Free)
         else u < |b.dist| && u < |k.g.inc.v| && b' == Put(b, t, if b.dist[u] < 0 then Probe(c, u, k.g.inc.First(u)) else Look(c, u + 1))
       case Probe(c, u, i) =>
         if !InRow(k.g.inc, u, i) then b' == Put(b, t, Look(c, u + 1))
         else
           && k.g.inc.e[i] < |k.front| && u < |b.dist|
           && b' == if k.front[k.g.inc.e[i]]
                    then b.(dist := b.dist[u := k.d], threads := b.threads[t := Prober(Load(c, u), b.threads[t].awake + 1)])
                    else Put(b, t, Probe(c, u, i + 1))
       case Load(c, u) =>
         u / WORD < |b.words| && b' == Put(b, t, Store(c, u, b.words[u / WORD]))
       case Store(c, u, w) =>
         u / WORD < |b.words| && b' == Put(b, t, Look(c, u + 1)).(words := b.words[u / WORD := w + {u}])
       case Left => false
  }

  // ---- Nobody else touches the chunk of a thread, nor its words ----

  predicate Owns(place: Place, c: nat) {
    !place.Free? && !place.Left? && place.c == c
  }

  ghost predicate Woken(k: Climb, v: nat)
    requires ClimbOk(k)
  {
    v < k.g.n && k.before[v] < 0 && Reached(k.g, Frontier(k.before, k.d - 1), v)
  }

  predicate Bit(words: seq<set<nat>>, v: nat) {
    v / WORD < |words| && v in words[v / WORD]
  }

  /** Not looked at yet. */
  ghost predicate Untouched(k: Climb, b: Board, v: nat)
    requires ClimbOk(k) && v < k.g.n == |b.dist|
  {
    b.dist[v] == k.before[v] && !Bit(b.words, v)
  }

  ghost predicate Settled(k: Climb, b: Board, v: nat)
    requires ClimbOk(k) && v < k.g.n == |b.dist|
  {
    && b.dist[v] == (if Woken(k, v) then k.d else k.before[v])
    && (Bit(b.words, v) <==> Woken(k, v))
  }

  /** No parent of u before position i is in the bitmap. */
  ghost predicate NoParent(k: Climb, u: nat, i: nat)
    requires ClimbOk(k)
  {
    forall j: nat | k.g.inc.InRow(u, j) && j < i && j < |k.g.inc.e| :: k.g.inc.e[j] < |k.front| && !k.front[k.g.inc.e[j]]
  }

  /** The vertex at which the thread stands. */
  ghost predicate AtVertex(k: Climb, b: Board, place: Place)
    requires ClimbOk(k) && |b.dist| == k.g.n && !place.Free? && !place.Left?
  {
    && CHUNK * place.c <= place.u
    && match place
       case Look(c, u) => u <= End(k, c) && (u < End(k, c) ==> Untouched(k, b, u))
       case Probe(c, u, i) => u < End(k, c) && Untouched(k, b, u) && b.dist[u] < 0 && NoParent(k, u, i) && u < |k.g.inc.v| && k.g.inc.First(u) <= i
       case Load(c, u) => u < End(k, c) && b.dist[u] == k.d && Woken(k, u) && !Bit(b.words, u)
       case Store(c, u, w) => u < End(k, c) && b.dist[u] == k.d && Woken(k, u) && !Bit(b.words, u) && u / WORD < |b.words| && w == b.words[u / WORD]
  }

  /** In the chunk of the thread: settled below u, untouched above. */
  ghost predicate ChunkOk(k: Climb, b: Board, place: Place)
    requires ClimbOk(k) && |b.dist| == k.g.n && !place.Free? && !place.Left?
  {
    && CHUNK * place.c < k.g.n && AtVertex(k, b, place)
    && (forall v: nat | CHUNK * place.c <= v < place.u && v < End(k, place.c) :: Settled(k, b, v))
    && (forall v: nat | place.u < v < End(k, place.c) :: Untouched(k, b, v))
  }

  ghost predicate Unowned(b: Board, c: nat) {
    forall t | 0 <= t < |b.threads| :: !Owns(b.threads[t].place, c)
  }

  ghost predicate WaitsUntouched(k: Climb, b: Board, v: nat)
    requires ClimbOk(k) && v < k.g.n == |b.dist|
  {
    v / CHUNK in b.chunks ==> Untouched(k, b, v)
  }

  ghost predicate FinishedChunk(k: Climb, b: Board, v: nat)
    requires ClimbOk(k) && v < k.g.n == |b.dist|
  {
    v / CHUNK !in b.chunks && Unowned(b, v / CHUNK) ==> Settled(k, b, v)
  }

  ghost function Awakened(threads: seq<Prober>): int {
    if threads == [] then 0 else Awakened(threads[..|threads| - 1]) + threads[|threads| - 1].awake
  }

  ghost predicate Alone(b: Board) {
    && (forall t, r, c: nat | 0 <= t < r < |b.threads| && Owns(b.threads[t].place, c) :: !Owns(b.threads[r].place, c))
    && (forall t, c: nat | 0 <= t < |b.threads| && Owns(b.threads[t].place, c) :: c !in b.chunks)
  }

  ghost predicate ProberOk(k: Climb, b: Board, th: Prober)
    requires ClimbOk(k) && |b.dist| == k.g.n
  {
    && (!th.place.Free? && !th.place.Left? ==> ChunkOk(k, b, th.place))
    && (th.place.Left? ==> b.chunks == {})
  }

  ghost predicate ClimbInv(k: Climb, b: Board) {
    && ClimbOk(k) && |b.dist| == k.g.n && |b.words| * WORD >= k.g.n && |b.threads| > 0
    && Alone(b) && (forall c | c in b.chunks :: CHUNK * c < k.g.n)
    && (forall t | 0 <= t < |b.threads| :: ProberOk(k, b, b.threads[t]))
    && (forall v: nat | v < k.g.n :: WaitsUntouched(k, b, v) && FinishedChunk(k, b, v))
    && Awakened(b.threads) == Unvisited(k.before) - Unvisited(b.dist)
  }

  lemma {:induction false} AwakenedUpdate(threads: seq<Prober>, t: nat, th: Prober)
    requires t < |threads|
    ensures Awakened(threads[t := th]) == Awakened(threads) - threads[t].awake + th.awake
  {
    var last := |threads| - 1;
    if t < last {
      AwakenedUpdate(threads[..last], t, th);
      assert threads[t := th][..last] == threads[..last][t := th];
    } else {
      assert threads[t := th][..last] == threads[..last];
    }
  }

  lemma {:induction false} NobodyAwakened(threads: seq<Prober>)
    requires forall t | 0 <= t < |threads| :: threads[t].awake == 0
    ensures Awakened(threads) == 0
  {
    if threads != [] {
      NobodyAwakened(threads[..|threads| - 1]);
    }
  }

  lemma OpeningInv(k: Climb, b: Board)
    requires ClimbOk(k) && Opening(k, b)
    ensures ClimbInv(k, b)
  {
    NobodyAwakened(b.threads);
    forall v: nat | v < k.g.n
      ensures WaitsUntouched(k, b, v) && FinishedChunk(k, b, v)
    {
      assert CHUNK * (v / CHUNK) <= v;
      assert v / CHUNK in b.chunks;
    }
  }

  // ---- What a thread does to its chunk, nobody else notices ----

  /** Labels, bits and words of the vertices outside of chunk c. */
  ghost predicate SameOutside(b: Board, b': Board, c: nat) {
    && |b'.dist| == |b.dist| && |b'.words| == |b.words|
    && forall v: nat | v / CHUNK != c :: SameAt(b, b', v)
  }

  ghost predicate SameAt(b: Board, b': Board, v: nat)
    requires |b'.dist| == |b.dist| && |b'.words| == |b.words|
  {
    (v < |b.dist| ==> b'.dist[v] == b.dist[v]) && (v / WORD < |b.words| ==> b'.words[v / WORD] == b.words[v / WORD])
  }

  lemma InChunk(k: Climb, c: nat, v: nat)
    requires CHUNK * c <= v < End(k, c)
    ensures v / CHUNK == c && v < k.g.n
  {}

  lemma VertexSame(k: Climb, b: Board, b': Board, v: nat)
    requires ClimbOk(k) && v < k.g.n == |b.dist| == |b'.dist| && |b'.words| == |b.words| && SameAt(b, b', v)
    ensures Settled(k, b', v) <==> Settled(k, b, v)
    ensures Untouched(k, b', v) <==> Untouched(k, b, v)
  {}

  lemma OtherChunkStays(k: Climb, b: Board, b': Board, place: Place)
    requires ClimbOk(k) && |b.dist| == k.g.n == |b'.dist| && |b'.words| == |b.words|
    requires !place.Free? && !place.Left? && ChunkOk(k, b, place)
    requires forall v: nat | v / CHUNK == place.c :: SameAt(b, b', v)
    ensures ChunkOk(k, b', place)
  {
    if place.u < End(k, place.c) {
      InChunk(k, place.c, place.u);
      assert SameAt(b, b', place.u);
    }
    AtVertexSame(k, b, b', place);
    forall v: nat | CHUNK * place.c <= v < End(k, place.c)
      ensures v < k.g.n && (Settled(k, b', v) <==> Settled(k, b, v)) && (Untouched(k, b', v) <==> Untouched(k, b, v))
    {
      InChunk(k, place.c, v);
      assert SameAt(b, b', v);
      VertexSame(k, b, b', v);
    }
  }

  lemma AtVertexSame(k: Climb, b: Board, b': Board, place: Place)
    requires ClimbOk(k) && |b.dist| == k.g.n == |b'.dist| && |b'.words| == |b.words|
    requires !place.Free? && !place.Left? && AtVertex(k, b, place)
    requires place.u < End(k, place.c) ==> SameAt(b, b', place.u)
    ensures AtVertex(k, b', place)
  {
    if place.u < End(k, place.c) {
      VertexSame(k, b, b', place.u);
    }
  }

  /** Nothing but the place of the thread changes. */
  lemma ProberSame(k: Climb, b: Board, b': Board, th: Prober)
    requires ClimbOk(k) && |b.dist| == k.g.n && b'.dist == b.dist && b'.words == b.words && ProberOk(k, b, th)
    requires b.chunks == {} ==> b'.chunks == {}
    ensures ProberOk(k, b', th)
  {
    if !th.place.Free? && !th.place.Left? {
      OtherChunkStays(k, b, b', th.place);
    }
  }

  lemma QuietMove(k: Climb, b: Board, b': Board, t: nat, c: nat, place: Place)
    requires ClimbInv(k, b) && t < |b.threads| && Owns(b.threads[t].place, c) && Owns(place, c)
    requires b' == Put(b, t, place) && ChunkOk(k, b, place)
    ensures ClimbInv(k, b')
  {
    OtherChunkStays(k, b, b', place);
    OwnerStep(k, b, b', t, c, b'.threads[t]);
  }

  /** Thread t stays in chunk c. */
  lemma OwnerStep(k: Climb, b: Board, b': Board, t: nat, c: nat, th: Prober)
    requires ClimbInv(k, b) && t < |b.threads| && Owns(b.threads[t].place, c) && Owns(th.place, c)
    requires b'.threads == b.threads[t := th] && b'.chunks == b.chunks && SameOutside(b, b', c) && ChunkOk(k, b', th.place)
    requires th.awake - b.threads[t].awake == Unvisited(b.dist) - Unvisited(b'.dist)
    ensures ClimbInv(k, b')
  {
    AwakenedUpdate(b.threads, t, th);
    forall r | 0 <= r < |b.threads|
      ensures ProberOk(k, b', b'.threads[r])
    {
      if r != t && !b.threads[r].place.Free? && !b.threads[r].place.Left? {
        assert Owns(b.threads[r].place, b.threads[r].place.c);
        OtherChunkStays(k, b, b', b.threads[r].place);
      }
    }
    OthersAlone(b, b', t, c, th);
    forall v: nat | v < k.g.n
      ensures WaitsUntouched(k, b', v) && FinishedChunk(k, b', v)
    {
      VertexStays(k, b, b', t, c, th, v);
    }
  }

  lemma OthersAlone(b: Board, b': Board, t: nat, c: nat, th: Prober)
    requires Alone(b) && t < |b.threads| && Owns(b.threads[t].place, c) && Owns(th.place, c)
    requires b'.threads == b.threads[t := th] && b'.chunks == b.chunks
    ensures Alone(b')
  {
    forall r, e: nat | 0 <= r < |b.threads|
      ensures Owns(b'.threads[r].place, e) <==> Owns(b.threads[r].place, e)
    {}
  }

  lemma VertexStays(k: Climb, b: Board, b': Board, t: nat, c: nat, th: Prober, v: nat)
    requires ClimbOk(k) && |b.dist| == k.g.n && v < k.g.n && WaitsUntouched(k, b, v) && FinishedChunk(k, b, v)
    requires t < |b.threads| && Owns(b.threads[t].place, c) && Owns(th.place, c) && c !in b.chunks
    requires b'.threads == b.threads[t := th] && b'.chunks == b.chunks && SameOutside(b, b', c)
    ensures WaitsUntouched(k, b', v) && FinishedChunk(k, b', v)
  {
    if v / CHUNK == c {
      assert Owns(b'.threads[t].place, c);
    } else {
      assert SameAt(b, b', v);
      if Unowned(b', v / CHUNK) {
        forall r | 0 <= r < |b.threads|
          ensures !Owns(b.threads[r].place, v / CHUNK)
        {
          assert !Owns(b'.threads[r].place, v / CHUNK);
        }
      }
    }
  }

  // ---- The steps ----

  lemma WokenIffParent(k: Climb, u: nat)
    requires ClimbOk(k) && u < k.g.n && k.before[u] < 0
    ensures (exists i: nat :: k.g.inc.InRow(u, i) && i < |k.g.inc.e| && k.front[k.g.inc.e[i]]) <==> Woken(k, u)
  {
    ParentIffReached(k.g, k.root, k.before, k.d, k.front, u);
  }

  /** Moving on to the next vertex of the chunk. */
  lemma NextVertex(k: Climb, b: Board, place: Place, c: nat, u: nat)
    requires ClimbOk(k) && |b.dist| == k.g.n && Owns(place, c) && place.u == u < End(k, c) && ChunkOk(k, b, place) && Settled(k, b, u)
    ensures ChunkOk(k, b, Look(c, u + 1))
  {}

  lemma LookStep(k: Climb, b: Board, b': Board, t: nat)
    requires ClimbInv(k, b) && Move(k, b, b', t) && b.threads[t].place.Look? && b.threads[t].place.u < End(k, b.threads[t].place.c)
    ensures ClimbInv(k, b')
  {
    var th := b.threads[t];
    var c, u := th.place.c, th.place.u;
    assert ProberOk(k, b, th);
    RowInBounds(k.g.inc, k.g.n, u);
    if b.dist[u] >= 0 {
      assert Settled(k, b, u);
      NextVertex(k, b, th.place, c, u);
    }
    QuietMove(k, b, b', t, c, b'.threads[t].place);
  }

  /** The row has no parent in the bitmap: the vertex stays asleep. */
  lemma ProbeEnds(k: Climb, b: Board, c: nat, u: nat, i: nat)
    requires ClimbOk(k) && |b.dist| == k.g.n && ChunkOk(k, b, Probe(c, u, i)) && !InRow(k.g.inc, u, i)
    ensures ChunkOk(k, b, Look(c, u + 1))
  {
    InChunk(k, c, u);
    RowInBounds(k.g.inc, k.g.n, u);
    WokenIffParent(k, u);
    assert Settled(k, b, u);
    NextVertex(k, b, Probe(c, u, i), c, u);
  }

  lemma ProbeMisses(k: Climb, b: Board, c: nat, u: nat, i: nat)
    requires ClimbOk(k) && |b.dist| == k.g.n && ChunkOk(k, b, Probe(c, u, i)) && InRow(k.g.inc, u, i)
    requires k.g.inc.e[i] < |k.front| && !k.front[k.g.inc.e[i]]
    ensures ChunkOk(k, b, Probe(c, u, i + 1))
  {
    assert NoParent(k, u, i + 1);
  }

  lemma ProbeHits(k: Climb, b: Board, c: nat, u: nat, i: nat)
    requires ClimbOk(k) && |b.dist| == k.g.n && ChunkOk(k, b, Probe(c, u, i)) && InRow(k.g.inc, u, i)
    requires k.g.inc.e[i] < |k.front| && k.front[k.g.inc.e[i]]
    ensures u < k.g.n && u / CHUNK == c && Woken(k, u) && Unvisited(b.dist[u := k.d]) == Unvisited(b.dist) - 1
  {
    InChunk(k, c, u);
    assert k.g.inc.InRow(u, i);
    WokenIffParent(k, u);
    Visit(b.dist, u, k.d);
  }

  lemma ProbeStep(k: Climb, b: Board, b': Board, t: nat)
    requires ClimbInv(k, b) && Move(k, b, b', t) && b.threads[t].place.Probe?
    ensures ClimbInv(k, b')
  {
    var th := b.threads[t];
    var c, u, i := th.place.c, th.place.u, th.place.i;
    assert ProberOk(k, b, th);
    if !InRow(k.g.inc, u, i) {
      ProbeEnds(k, b, c, u, i);
      QuietMove(k, b, b', t, c, Look(c, u + 1));
    } else if k.front[k.g.inc.e[i]] {
      ProbeHits(k, b, c, u, i);
      WakeUp(k, b, b', t, c, u);
    } else {
      ProbeMisses(k, b, c, u, i);
      QuietMove(k, b, b', t, c, Probe(c, u, i + 1));
    }
  }

  lemma WakeUp(k: Climb, b: Board, b': Board, t: nat, c: nat, u: nat)
    requires ClimbInv(k, b) && t < |b.threads| && b.threads[t].place.Probe? && b.threads[t].place.c == c && b.threads[t].place.u == u
    requires u < k.g.n && u / CHUNK == c && Woken(k, u) && Unvisited(b.dist[u := k.d]) == Unvisited(b.dist) - 1
    requires b' == b.(dist := b.dist[u := k.d], threads := b.threads[t := Prober(Load(c, u), b.threads[t].awake + 1)])
    ensures ClimbInv(k, b')
  {
    assert ProberOk(k, b, b.threads[t]);
    forall v: nat | v != u && v < k.g.n
      ensures Settled(k, b, v) ==> Settled(k, b', v)
      ensures Untouched(k, b, v) ==> Untouched(k, b', v)
    {}
    OwnerStep(k, b, b', t, c, b'.threads[t]);
  }

  lemma LoadStep(k: Climb, b: Board, b': Board, t: nat)
    requires ClimbInv(k, b) && Move(k, b, b', t) && b.threads[t].place.Load?
    ensures ClimbInv(k, b')
  {
    var th := b.threads[t];
    assert ProberOk(k, b, th);
    QuietMove(k, b, b', t, th.place.c, b'.threads[t].place);
  }

  /** The word is the one that was read, so no bit gets lost. */
  lemma BitsAfterStore(words: seq<set<nat>>, u: nat, v: nat)
    requires u / WORD < |words|
    ensures Bit(words[u / WORD := words[u / WORD] + {u}], v) <==> Bit(words, v) || v == u
  {}

  lemma StoreElsewhere(b: Board, b': Board, u: nat)
    requires u / WORD < |b.words| && b'.dist == b.dist && b'.words == b.words[u / WORD := b.words[u / WORD] + {u}]
    ensures forall v: nat :: Bit(b'.words, v) <==> Bit(b.words, v) || v == u
    ensures SameOutside(b, b', u / CHUNK)
  {
    forall v: nat
      ensures Bit(b'.words, v) <==> Bit(b.words, v) || v == u
    {
      BitsAfterStore(b.words, u, v);
    }
    forall v: nat | v / CHUNK != u / CHUNK
      ensures SameAt(b, b', v)
    {
      assert v / WORD / 16 == v / CHUNK && u / WORD / 16 == u / CHUNK;
    }
  }

  lemma StoreStep(k: Climb, b: Board, b': Board, t: nat)
    requires ClimbInv(k, b) && Move(k, b, b', t) && b.threads[t].place.Store?
    ensures ClimbInv(k, b')
  {
    var th := b.threads[t];
    var c, u := th.place.c, th.place.u;
    assert ProberOk(k, b, th);
    InChunk(k, c, u);
    StoreElsewhere(b, b', u);
    forall v: nat | v != u && v < k.g.n
      ensures Settled(k, b, v) ==> Settled(k, b', v)
      ensures Untouched(k, b, v) ==> Untouched(k, b', v)
    {}
    assert Settled(k, b', u);
    OwnerStep(k, b, b', t, c, b'.threads[t]);
  }

  lemma FreshChunk(k: Climb, b: Board, c: nat)
    requires ClimbInv(k, b) && c in b.chunks
    ensures ChunkOk(k, b, Look(c, CHUNK * c))
  {
    forall v: nat | CHUNK * c <= v < End(k, c)
      ensures Untouched(k, b, v)
    {
      InChunk(k, c, v);
      assert WaitsUntouched(k, b, v);
    }
  }

  lemma ChunkTaken(k: Climb, b: Board, b': Board, t: nat, c: nat)
    requires ClimbInv(k, b) && t < |b.threads| && b.threads[t].place.Free? && c in b.chunks
    requires b' == Put(b, t, Look(c, CHUNK * c)).(chunks := b.chunks - {c})
    ensures ClimbInv(k, b')
  {
    AwakenedUpdate(b.threads, t, b'.threads[t]);
    FreshChunk(k, b, c);
    OtherChunkStays(k, b, b', Look(c, CHUNK * c));
    forall r | 0 <= r < |b.threads|
      ensures ProberOk(k, b', b'.threads[r])
    {
      if r != t {
        ProberSame(k, b, b', b.threads[r]);
      }
    }
    forall v: nat | v < k.g.n
      ensures WaitsUntouched(k, b', v) && FinishedChunk(k, b', v)
    {
      assert WaitsUntouched(k, b, v) && FinishedChunk(k, b, v);
      UnownedBefore(b, b', t, v / CHUNK);
      assert v / CHUNK == c ==> Owns(b'.threads[t].place, c);
    }
  }

  lemma UnownedBefore(b: Board, b': Board, t: nat, c: nat)
    requires t < |b.threads| == |b'.threads| && (forall r | 0 <= r < |b.threads| && r != t :: b'.threads[r] == b.threads[r])
    requires !Owns(b.threads[t].place, c)
    ensures Unowned(b', c) ==> Unowned(b, c)
  {
    if Unowned(b', c) {
      forall r | 0 <= r < |b.threads|
        ensures !Owns(b.threads[r].place, c)
      {
        assert !Owns(b'.threads[r].place, c);
      }
    }
  }

  lemma ChunkLeft(k: Climb, b: Board, b': Board, t: nat)
    requires ClimbInv(k, b) && t < |b.threads| && b.threads[t].place.Look? && b.threads[t].place.u >= End(k, b.threads[t].place.c)
    requires b' == Put(b, t, Free)
    ensures ClimbInv(k, b')
  {
    var c := b.threads[t].place.c;
    AwakenedUpdate(b.threads, t, b'.threads[t]);
    assert ProberOk(k, b, b.threads[t]);
    forall r | 0 <= r < |b.threads|
      ensures ProberOk(k, b', b'.threads[r])
    {
      if r != t {
        ProberSame(k, b, b', b.threads[r]);
      }
    }
    forall v: nat | v < k.g.n
      ensures WaitsUntouched(k, b', v) && FinishedChunk(k, b', v)
    {
      assert WaitsUntouched(k, b, v) && FinishedChunk(k, b, v);
      if v / CHUNK == c {
        assert CHUNK * c <= v < CHUNK * (c + 1);
        assert Settled(k, b, v);
      } else {
        UnownedBefore(b, b', t, v / CHUNK);
      }
    }
  }

  lemma LastLook(k: Climb, b: Board, b': Board, t: nat)
    requires ClimbInv(k, b) && t < |b.threads| && b.threads[t].place.Free? && b.chunks == {} && b' == Put(b, t, Left)
    ensures ClimbInv(k, b')
  {
    AwakenedUpdate(b.threads, t, b'.threads[t]);
    forall r | 0 <= r < |b.threads|
      ensures ProberOk(k, b', b'.threads[r])
    {
      if r != t {
        ProberSame(k, b, b', b.threads[r]);
      }
    }
    forall v: nat | v < k.g.n
      ensures WaitsUntouched(k, b', v) && FinishedChunk(k, b', v)
    {
      assert WaitsUntouched(k, b, v) && FinishedChunk(k, b, v);
      UnownedBefore(b, b', t, v / CHUNK);
    }
  }

  /** Every access of any thread keeps the invariant of the bottom-up step. */
  lemma MoveInv(k: Climb, b: Board, b': Board, t: nat)
    requires ClimbInv(k, b) && Move(k, b, b', t)
    ensures ClimbInv(k, b')
  {
    match b.threads[t].place
    case Free =>
      if c :| c in b.chunks && b' == Put(b, t, Look(c, CHUNK * c)).(chunks := b.chunks - {c}) {
        ChunkTaken(k, b, b', t, c);
      } else {
        LastLook(k, b, b', t);
      }
    case Look(c, u) =>
      if u >= End(k, c) {
        ChunkLeft(k, b, b', t);
      } else {
        LookStep(k, b, b', t);
      }
    case Probe(_, _, _) => ProbeStep(k, b, b', t);
    case Load(_, _) => LoadStep(k, b, b', t);
    case Store(_, _, _) => StoreStep(k, b, b', t);
  }

  ghost predicate AllLeft(b: Board) {
    forall t | 0 <= t < |b.threads| :: b.threads[t].place == Left
  }

  ghost predicate Moves(k: Climb, b: Board, b': Board) {
    exists t :: Move(k, b, b', t)
  }

  ghost predicate Ascent(k: Climb, boards: seq<Board>) {
    && ClimbOk(k) && boards != [] && Opening(k, boards[0])
    && forall i | 0 <= i < |boards| - 1 :: Moves(k, boards[i], boards[i + 1])
  }

  lemma MovesInv(k: Climb, b: Board, b': Board)
    requires ClimbInv(k, b) && Moves(k, b, b')
    ensures ClimbInv(k, b')
  {
    var t :| Move(k, b, b', t);
    MoveInv(k, b, b', t);
  }

  lemma {:induction false} AscentInv(k: Climb, boards: seq<Board>, i: nat)
    requires Ascent(k, boards) && i < |boards|
    ensures ClimbInv(k, boards[i])
  {
    if i == 0 {
      OpeningInv(k, boards[0]);
    } else {
      AscentInv(k, boards, i - 1);
      MovesInv(k, boards[i - 1], boards[i]);
    }
  }

  /** When all threads have left: the labels of the sequential step, and exactly the vertices it wakes up in the bitmap,
      although its bits are set without synchronisation. That works because a chunk of the loop is made of whole words. */
  lemma FinishedBottomUp(k: Climb, boards: seq<Board>)
    requires Ascent(k, boards)
    requires AllLeft(boards[|boards| - 1])
    ensures var b := boards[|boards| - 1];
            && NextLevel(k.g, k.before, k.d, b.dist)
            && (forall v: nat | v < k.g.n :: Bit(b.words, v) <==> b.dist[v] == k.d)
            && Awakened(b.threads) == Unvisited(k.before) - Unvisited(b.dist)
  {
    AscentInv(k, boards, |boards| - 1);
    BottomUpIsExact(k, boards[|boards| - 1]);
  }

  lemma BottomUpIsExact(k: Climb, b: Board)
    requires ClimbInv(k, b) && AllLeft(b)
    ensures NextLevel(k.g, k.before, k.d, b.dist)
    ensures forall v: nat | v < k.g.n :: Bit(b.words, v) <==> b.dist[v] == k.d
    ensures Awakened(b.threads) == Unvisited(k.before) - Unvisited(b.dist)
  {
    assert ProberOk(k, b, b.threads[0]);
    forall v: nat | v < k.g.n
      ensures b.dist[v] == if k.before[v] < 0 && Reached(k.g, Frontier(k.before, k.d - 1), v) then k.d else k.before[v]
      ensures Bit(b.words, v) <==> b.dist[v] == k.d
    {
      assert FinishedChunk(k, b, v) && Unowned(b, v / CHUNK);
      assert Settled(k, b, v);
    }
  }
}
