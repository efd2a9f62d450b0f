/** The racing components kernel, library/baseline/csr.cpp:897-927, always gets on and comes to an end. */
module WccProgress {
  import opened Components
  import opened Counting
  import opened Paths
  import opened Wcc
  import opened WccRace

  // ---- Until it has finished, it can go on ----

  lemma HookEnabled(E: set<Edge>, s: State, t: nat) returns (s': State)
    requires HookInv(E, s) && t < |s.threads| && (s.threads[t] != Idle || s.edges != {})
    ensures HookStep(s, s', t)
  {
    assert HookLocal(E, s, s.threads[t]);
    match s.threads[t]
    case Idle =>
      var e :| e in s.edges;
      s' := Move(s, t, ReadU(e, s.comp[e.src])).(edges := s.edges - {e});
    case ReadU(e, compU) =>
      s' := Move(s, t, if compU == s.comp[e.dst] then Idle else ReadV(e, compU, s.comp[e.dst]));
    case ReadV(e, compU, compV) =>
      var high := if compU > compV then compU else compV;
      var low := if compU > compV then compV else compU;
      s' := if s.comp[high] == high then Move(s, t, Hooking(e, high, low)).(change := true) else Move(s, t, Idle);
    case Hooking(e, high, low) =>
      s' := Move(s, t, Idle).(comp := s.comp[high := low]);
  }

  lemma CompressEnabled(E: set<Edge>, s: State, t: nat) returns (s': State)
    requires CompressInv(E, s) && t < |s.threads| && (s.threads[t] != Idle || s.vertices != {})
    ensures CompressStep(s, s', t)
  {
    assert CompressLocal(E, s, s.threads[t]);
    match s.threads[t]
    case Idle =>
      var n :| n in s.vertices;
      s' := Move(s, t, Jump(n)).(vertices := s.vertices - {n});
    case Jump(n) =>
      s' := Move(s, t, Jumped(n, s.comp[n]));
    case Jumped(n, a) =>
      s' := Move(s, t, if a == s.comp[a] then Idle else Uneven(n));
    case Uneven(n) =>
      s' := Move(s, t, Reread(n, s.comp[n]));
    case Reread(n, c) =>
      s' := Move(s, t, Writing(n, s.comp[c]));
    case Writing(n, d) =>
      s' := Move(s, t, Jump(n)).(comp := s.comp[n := d]);
  }

  lemma BarrierEnabled(E: set<Edge>, s: State) returns (s': State)
    requires AllIdle(s) && (s.phase == Hook ==> s.edges == {}) && (s.phase == Compress ==> s.vertices == {}) && s.phase != Finished
    ensures Barrier(E, s, s')
  {
    match s.phase
    case Hook => s' := s.(phase := Compress, vertices := Below(|s.comp|));
    case Compress =>
      s' := if s.change then s.(phase := Hook, change := false, edges := E, start := s.comp) else s.(phase := Finished);
  }

  /** Until the kernel has finished, some thread can move or a barrier opens. */
  lemma NoDeadlock(E: set<Edge>, s: State) returns (s': State)
    requires Inv(E, s) && s.phase != Finished && |s.threads| > 0
    ensures Next(E, s, s')
  {
    var t: nat := 0;
    if !AllIdle(s) {
      t :| t < |s.threads| && s.threads[t] != Idle;
    }
    if s.phase == Hook && (!AllIdle(s) || s.edges != {}) {
      s' := HookEnabled(E, s, t);
    } else if s.phase == Compress && (!AllIdle(s) || s.vertices != {}) {
      s' := CompressEnabled(E, s, t);
    } else {
      s' := BarrierEnabled(E, s);
    }
  }

  // ---- Every run ends ----

  /** The accesses left until the thread is idle, if nobody changes a label. */
  ghost function Left(l: Local): nat {
    match l
    case Idle => 0
    case ReadU(_, _) => 3
    case ReadV(_, _, _) => 2
    case Hooking(_, _, _) => 1
    case Jump(_) => 6
    case Jumped(_, _) => 5
    case Uneven(_) => 4
    case Reread(_, _) => 3
    case Writing(_, _) => 2
  }

  ghost function LeftSum(threads: seq<Local>): nat {
    if threads == [] then 0 else LeftSum(threads[..|threads| - 1]) + Left(threads[|threads| - 1])
  }

  lemma {:induction false} LeftSumUpdate(threads: seq<Local>, t: nat, l: Local)
    requires t < |threads|
    ensures LeftSum(threads[t := l]) == LeftSum(threads) - Left(threads[t]) + Left(l)
  {
    var last := |threads| - 1;
    if t < last {
      LeftSumUpdate(threads[..last], t, l);
      assert threads[t := l][..last] == threads[..last][t := l];
    } else {
      assert threads[t := l][..last] == threads[..last];
    }
  }

  /** Compared from left to right. */
  datatype Rank = Rank(roots: nat, phase: nat, work: nat) {
    ghost predicate Below(r: Rank) {
      || roots < r.roots
      || (roots == r.roots && phase < r.phase)
      || (roots == r.roots && phase == r.phase && work < r.work)
    }
  }

  ghost function RankOf(s: State): Rank {
    Rank(|Roots(s.start)|,
         match s.phase case Hook => 2 case Compress => 1 case Finished => 0,
         LeftSum(s.threads) + match s.phase
                              case Hook => 4 * |s.edges|
                              case Compress => 7 * |s.vertices| + 7 * Sum(s.comp)
                              case Finished => 0)
  }

  lemma HookLowersTheRank(s: State, s': State, t: nat)
    requires HookStep(s, s', t)
    ensures RankOf(s').Below(RankOf(s))
  {
    LeftSumUpdate(s.threads, t, s'.threads[t]);
    assert s'.threads == s.threads[t := s'.threads[t]];
    if s.threads[t] == Idle {
      var e :| e in s.edges && s'.edges == s.edges - {e};
      assert |s.edges| == |s'.edges| + 1;
    }
  }

  /** The work of a step in the second phase, from the changes of its parts. */
  lemma CompressWork(s: State, s': State, t: nat, l: Local)
    requires t < |s.threads| && s.phase == s'.phase == Compress && s'.start == s.start && s'.threads == s.threads[t := l]
    requires Left(l) + 7 * |s'.vertices| + 7 * Sum(s'.comp) < Left(s.threads[t]) + 7 * |s.vertices| + 7 * Sum(s.comp)
    ensures RankOf(s').Below(RankOf(s))
  {
    LeftSumUpdate(s.threads, t, l);
  }

  lemma CompressLowersTheRank(s: State, s': State, t: nat)
    requires CompressStep(s, s', t) && (s.threads[t].Writing? ==> Sum(s'.comp) < Sum(s.comp))
    ensures RankOf(s').Below(RankOf(s))
  {
    if s.threads[t] == Idle {
      var n :| n in s.vertices && s' == Move(s, t, Jump(n)).(vertices := s.vertices - {n});
      assert |s.vertices| == |s'.vertices| + 1;
    }
    CompressWork(s, s', t, s'.threads[t]);
  }

  lemma WritesLowerTheSum(E: set<Edge>, s: State, s': State, t: nat)
    requires Inv(E, s) && CompressStep(s, s', t) && s.threads[t].Writing?
    ensures Sum(s'.comp) < Sum(s.comp)
  {
    JumpsLowerTheSum(E, s, s', t);
  }

  lemma ThreadsLowerTheRank(E: set<Edge>, s: State, s': State, t: nat)
    requires Inv(E, s) && (HookStep(s, s', t) || CompressStep(s, s', t))
    ensures RankOf(s').Below(RankOf(s))
  {
    if HookStep(s, s', t) {
      HookLowersTheRank(s, s', t);
    } else {
      if s.threads[t].Writing? {
        WritesLowerTheSum(E, s, s', t);
      }
      CompressLowersTheRank(s, s', t);
    }
  }

  lemma BarrierLowersTheRank(E: set<Edge>, s: State, s': State)
    requires Inv(E, s) && Barrier(E, s, s')
    ensures RankOf(s').Below(RankOf(s))
  {
    if s.phase == Compress && s.change {
      RoundsLoseRoots(E, s, s');
    }
  }

  /** Every step of every thread, and every barrier, lowers the rank: no run is infinite. */
  lemma EveryStepLowersTheRank(E: set<Edge>, s: State, s': State)
    requires Inv(E, s) && Next(E, s, s')
    ensures RankOf(s').Below(RankOf(s))
  {
    if Barrier(E, s, s') {
      BarrierLowersTheRank(E, s, s');
    } else {
      var t: nat :| HookStep(s, s', t) || CompressStep(s, s', t);
      ThreadsLowerTheRank(E, s, s', t);
    }
  }

  lemma NextKeepsThreads(E: set<Edge>, s: State, s': State)
    requires Next(E, s, s')
    ensures |s'.threads| == |s.threads|
  {}

  lemma RunGrows(E: set<Edge>, run: seq<State>, s': State)
    requires IsRun(E, run) && Next(E, run[|run| - 1], s')
    ensures IsRun(E, run + [s'])
  {
    var longer := run + [s'];
    forall i | 0 <= i < |longer| - 1
      ensures Next(E, longer[i], longer[i + 1])
    {
      if i < |run| - 1 {
        assert longer[i] == run[i] && longer[i + 1] == run[i + 1];
      }
    }
  }

  lemma StepOn(E: set<Edge>, run: seq<State>) returns (longer: seq<State>)
    requires IsRun(E, run) && forall e | e in E :: e.src < |run[0].comp| && e.dst < |run[0].comp|
    requires run[|run| - 1].phase != Finished && |run[|run| - 1].threads| > 0
    ensures IsRun(E, longer) && run <= longer && |longer[|longer| - 1].threads| > 0
    ensures RankOf(longer[|longer| - 1]).Below(RankOf(run[|run| - 1]))
  {
    var s := run[|run| - 1];
    RunInv(E, run, |run| - 1);
    var s' := NoDeadlock(E, s);
    EveryStepLowersTheRank(E, s, s');
    NextKeepsThreads(E, s, s');
    RunGrows(E, run, s');
    longer := run + [s'];
  }

  /** From every state a run reaches, the kernel can be brought to its end. */
  lemma RunCanFinish(E: set<Edge>, run: seq<State>) returns (whole: seq<State>)
    requires IsRun(E, run) && forall e | e in E :: e.src < |run[0].comp| && e.dst < |run[0].comp|
    requires |run[|run| - 1].threads| > 0
    ensures IsRun(E, whole) && run <= whole && whole[|whole| - 1].phase == Finished
    ensures AreComponents(E, Table(whole[|whole| - 1].comp))
  {
    whole := run;
    var rank := RankOf(run[|run| - 1]);
    while whole[|whole| - 1].phase != Finished
      invariant IsRun(E, whole) && run <= whole && |whole[|whole| - 1].threads| > 0 && rank == RankOf(whole[|whole| - 1])
      decreases rank.roots, rank.phase, rank.work
    {
      whole := StepOn(E, whole);
      rank := RankOf(whole[|whole| - 1]);
    }
    FinishedRunIsCorrect(E, whole);
  }
}
