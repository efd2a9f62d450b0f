/** The workers of the sort-merge kernel, library/baseline/csr.cpp:1440-1508, always get on and come to an end. */
module LccProgress {
  import opened Lcc
  import opened LccWorkers
  import opened Numbers
  import opened Triangles

  // ---- Every vertex can be processed ----

  /** The additions on behalf of v, counter by counter. */
  ghost function ShareAdds(N: SimpleGraph, v: nat, k: nat): seq<Add> {
    if k == 0 then [] else ShareAdds(N, v, k - 1) + [Add(k - 1, Share(N, v, k - 1))]
  }

  lemma {:induction false} ShareAddsTotal(N: SimpleGraph, v: nat, k: nat, x: nat)
    ensures Total(ShareAdds(N, v, k), x) == if x < k then Share(N, v, x) else 0
    ensures forall a | a in ShareAdds(N, v, k) :: a.x < k
  {
    if k > 0 {
      ShareAddsTotal(N, v, k - 1, x);
      assert ShareAdds(N, v, k)[..k - 1] == ShareAdds(N, v, k - 1) by {
        ShareAddsLength(N, v, k - 1);
      }
    }
  }

  lemma {:induction false} ShareAddsLength(N: SimpleGraph, v: nat, k: nat)
    ensures |ShareAdds(N, v, k)| == k
  {
    if k > 0 {
      ShareAddsLength(N, v, k - 1);
    }
  }

  lemma NoShareOutside(N: SimpleGraph, v: nat, x: nat)
    requires x !in N
    ensures Share(N, v, x) == 0
  {
    assert Corner(N, v, x) == {};
  }

  lemma CanBegin(N: SimpleGraph, n: nat, v: nat, end: nat) returns (w: Worker)
    requires forall x :: x in N <==> x < n
    ensures Begins(N, v, end, w)
  {
    var adds := ShareAdds(N, v, n);
    forall x: nat
      ensures Total(adds, x) == Share(N, v, x)
    {
      ShareAddsTotal(N, v, n, x);
      if x >= n {
        NoShareOutside(N, v, x);
      }
    }
    ShareAddsTotal(N, v, n, 0);
    w := Busy(v, end, adds);
  }

  // ---- Until all workers have stopped, each of the others can go on ----

  /** The additions still to do are to counters. */
  ghost predicate InRange(n: nat, s: State) {
    && |s.counters| == n
    && forall t, a | 0 <= t < |s.workers| && s.workers[t].Busy? && a in s.workers[t].pending :: a.x < n
  }

  lemma InRangeStays(N: SimpleGraph, n: nat, s: State, s': State, t: nat)
    requires (forall x :: x in N <==> x < n) && InRange(n, s) && Step(N, n, s, s', t)
    ensures InRange(n, s') && |s'.workers| == |s.workers|
  {}

  lemma NoDeadlock(N: SimpleGraph, n: nat, s: State, t: nat) returns (s': State)
    requires (forall x :: x in N <==> x < n) && InRange(n, s) && t < |s.workers| && !s.workers[t].Stopped?
    ensures Step(N, n, s, s', t)
  {
    match s.workers[t]
    case Fetching =>
      if s.next >= n {
        s' := Move(s, t, Stopped).(next := s.next + TASK_SIZE);
      } else {
        var w := CanBegin(N, n, s.next, Min(s.next + TASK_SIZE, n));
        s' := Move(s, t, w).(next := s.next + TASK_SIZE);
      }
    case Busy(v, end, pending) =>
      if pending != [] {
        var a := pending[0];
        s' := Move(s, t, Busy(v, end, pending[1..])).(counters := s.counters[a.x := s.counters[a.x] + a.amount]);
      } else if v + 1 < end {
        var w := CanBegin(N, n, v + 1, end);
        s' := Move(s, t, w);
      } else {
        s' := Move(s, t, Fetching);
      }
  }

  // ---- Every run ends ----

  /** Vertices of the window not yet begun. */
  ghost function Unbegun(w: Worker): nat {
    if w.Busy? && w.v + 1 < w.end then w.end - w.v - 1 else 0
  }

  ghost function Left(w: Worker): nat {
    match w
    case Fetching => 1
    case Busy(_, _, pending) => |pending| + 2
    case Stopped => 0
  }

  ghost function UnbegunSum(ws: seq<Worker>): nat {
    if ws == [] then 0 else UnbegunSum(ws[..|ws| - 1]) + Unbegun(ws[|ws| - 1])
  }

  ghost function LeftSum(ws: seq<Worker>): nat {
    if ws == [] then 0 else LeftSum(ws[..|ws| - 1]) + Left(ws[|ws| - 1])
  }

  lemma {:induction false} SumsUpdate(ws: seq<Worker>, t: nat, w: Worker)
    requires t < |ws|
    ensures UnbegunSum(ws[t := w]) == UnbegunSum(ws) - Unbegun(ws[t]) + Unbegun(w)
    ensures LeftSum(ws[t := w]) == LeftSum(ws) - Left(ws[t]) + Left(w)
  {
    var last := |ws| - 1;
    if t < last {
      SumsUpdate(ws[..last], t, w);
      assert ws[t := w][..last] == ws[..last][t := w];
    } else {
      assert ws[t := w][..last] == ws[..last];
    }
  }

  /** Compared from left to right. */
  datatype Rank = Rank(vertices: nat, work: nat) {
    ghost predicate Below(r: Rank) {
      vertices < r.vertices || (vertices == r.vertices && work < r.work)
    }
  }

  ghost function RankOf(n: nat, s: State): Rank {
    Rank(UnbegunSum(s.workers) + if s.next < n then n - s.next else 0, LeftSum(s.workers))
  }

  /** Every atomic step lowers the rank. */
  lemma EveryStepLowersTheRank(N: SimpleGraph, n: nat, s: State, s': State, t: nat)
    requires Step(N, n, s, s', t)
    ensures RankOf(n, s').Below(RankOf(n, s))
  {
    assert s'.workers == s.workers[t := s'.workers[t]];
    SumsUpdate(s.workers, t, s'.workers[t]);
  }

  lemma RunGrows(N: SimpleGraph, n: nat, run: seq<State>, s': State)
    requires IsRun(N, n, run) && Next(N, n, run[|run| - 1], s')
    ensures IsRun(N, n, run + [s'])
  {
    var longer := run + [s'];
    forall i | 0 <= i < |longer| - 1
      ensures Next(N, n, longer[i], longer[i + 1])
    {
      if i < |run| - 1 {
        assert longer[i] == run[i] && longer[i + 1] == run[i + 1];
      }
    }
  }

  lemma {:induction false} RunInRange(N: SimpleGraph, n: nat, run: seq<State>, i: nat)
    requires (forall x :: x in N <==> x < n) && IsRun(N, n, run) && i < |run|
    ensures InRange(n, run[i])
  {
    if i > 0 {
      RunInRange(N, n, run, i - 1);
      assert Next(N, n, run[i - 1], run[i]);
      var t: nat :| Step(N, n, run[i - 1], run[i], t);
      InRangeStays(N, n, run[i - 1], run[i], t);
    }
  }

  lemma StepOn(N: SimpleGraph, n: nat, run: seq<State>) returns (longer: seq<State>)
    requires (forall x :: x in N <==> x < n) && IsRun(N, n, run) && !AllStopped(run[|run| - 1])
    ensures IsRun(N, n, longer) && run <= longer
    ensures RankOf(n, longer[|longer| - 1]).Below(RankOf(n, run[|run| - 1]))
  {
    var s := run[|run| - 1];
    RunInRange(N, n, run, |run| - 1);
    var t: nat :| t < |s.workers| && !s.workers[t].Stopped?;
    var s' := NoDeadlock(N, n, s, t);
    EveryStepLowersTheRank(N, n, s, s', t);
    RunGrows(N, n, run, s');
    longer := run + [s'];
  }

  /** From every state a run reaches, all workers can be brought to stop. */
  lemma RunCanFinish(N: SimpleGraph, n: nat, run: seq<State>) returns (whole: seq<State>)
    requires (forall x :: x in N <==> x < n) && IsRun(N, n, run)
    ensures IsRun(N, n, whole) && run <= whole && AllStopped(whole[|whole| - 1])
  {
    whole := run;
    while !AllStopped(whole[|whole| - 1])
      invariant IsRun(N, n, whole) && run <= whole
      decreases RankOf(n, whole[|whole| - 1]).vertices, RankOf(n, whole[|whole| - 1]).work
    {
      whole := StepOn(N, n, whole);
    }
  }
}
