/** The workers of the sort-merge kernel, library/baseline/csr.cpp:1440-1508: they fetch windows of
    vertices from a shared counter and add to shared triangle counters, in any interleaving of their
    atomic operations. */
module LccWorkers {
  import opened Lcc
  import opened Numbers
  import opened Triangles

  /** LCC_TASK_SIZE, csr.cpp:1372. */
  const TASK_SIZE: nat := 1024

  /** A busy worker is at vertex v of a window that ends before end, with the additions of v still to do. */
  datatype Worker = Fetching | Busy(v: nat, end: nat, pending: seq<Add>) | Stopped

  datatype State = State(next: nat, counters: seq<nat>, workers: seq<Worker>)

  ghost predicate Init(n: nat, s: State) {
    && s.next == 0 && |s.workers| >= 1
    && s.counters == seq(n, _ => 0)
    && forall t | 0 <= t < |s.workers| :: s.workers[t] == Fetching
  }

  function Move(s: State, t: nat, w: Worker): State
    requires t < |s.workers|
  {
    s.(workers := s.workers[t := w])
  }

  /** The worker starts on v: any sequence of additions process_vertex can make. */
  ghost predicate Begins(N: SimpleGraph, v: nat, end: nat, w: Worker)
  {
    w.Busy? && w.v == v && w.end == end && IsTrace(N, v, w.pending) && forall a | a in w.pending :: a.x in N
  }

  ghost predicate Step(N: SimpleGraph, n: nat, s: State, s': State, t: nat)
  {
    && t < |s.workers|
    && match s.workers[t]
       case Fetching =>
         if s.next >= n then s' == Move(s, t, Stopped).(next := s.next + TASK_SIZE)
         else exists w :: Begins(N, s.next, Min(s.next + TASK_SIZE, n), w) && s' == Move(s, t, w).(next := s.next + TASK_SIZE)
       case Busy(v, end, pending) =>
         if pending != [] then
           var a := pending[0];
           a.x < |s.counters| && s' == Move(s, t, Busy(v, end, pending[1..])).(counters := s.counters[a.x := s.counters[a.x] + a.amount])
         else if v + 1 < end then exists w :: Begins(N, v + 1, end, w) && s' == Move(s, t, w)
         else s' == Move(s, t, Fetching)
       case Stopped => false
  }

  // ---- Nothing is added twice and nothing is lost ----

  /** What a worker still owes to the counter of x. */
  ghost function Owed(N: SimpleGraph, w: Worker, x: nat): nat
  {
    if w.Busy? then Total(w.pending, x) + ShareSum(N, w.v + 1, w.end, x) else 0
  }

  ghost function OwedSum(N: SimpleGraph, ws: seq<Worker>, x: nat): nat
  {
    if ws == [] then 0 else OwedSum(N, ws[..|ws| - 1], x) + Owed(N, ws[|ws| - 1], x)
  }

  lemma {:induction false} OwedSumUpdate(N: SimpleGraph, ws: seq<Worker>, t: nat, w: Worker, x: nat)
    requires t < |ws|
    ensures OwedSum(N, ws[t := w], x) == OwedSum(N, ws, x) - Owed(N, ws[t], x) + Owed(N, w, x)
  {
    var k := |ws| - 1;
    if t < k {
      OwedSumUpdate(N, ws[..k], t, w, x);
      assert ws[t := w][..k] == ws[..k][t := w];
    } else {
      assert ws[t := w][..k] == ws[..k];
    }
  }

  lemma {:induction false} NobodyOwes(N: SimpleGraph, ws: seq<Worker>, x: nat)
    requires forall t | 0 <= t < |ws| :: !ws[t].Busy?
    ensures OwedSum(N, ws, x) == 0
  {
    if ws != [] {
      NobodyOwes(N, ws[..|ws| - 1], x);
    }
  }

  /** Counter, debts of the workers and the windows not yet handed out make up the total at all times. */
  ghost predicate Balanced(N: SimpleGraph, n: nat, s: State, x: nat)
    requires x < |s.counters|
  {
    s.counters[x] + OwedSum(N, s.workers, x) + ShareSum(N, s.next, n, x) == ShareSum(N, 0, n, x)
  }

  ghost predicate Inv(N: SimpleGraph, n: nat, s: State)
  {
    && |s.counters| == n
    && (forall x | 0 <= x < n :: Balanced(N, n, s, x))
    && (forall t | 0 <= t < |s.workers| && s.workers[t].Stopped? :: s.next >= n)
    && (forall t | 0 <= t < |s.workers| && s.workers[t].Busy? :: s.workers[t].v < s.workers[t].end <= n)
  }

  lemma InitInv(N: SimpleGraph, n: nat, s: State)
    requires Init(n, s)
    ensures Inv(N, n, s)
  {
    forall x | 0 <= x < n
      ensures Balanced(N, n, s, x)
    {
      NobodyOwes(N, s.workers, x);
    }
  }

  lemma {:induction false} TotalSplit(adds: seq<Add>, x: nat)
    requires adds != []
    ensures Total(adds, x) == Total(adds[1..], x) + if adds[0].x == x then adds[0].amount else 0
  {
    TotalConcat([adds[0]], adds[1..], x);
    assert [adds[0]] + adds[1..] == adds;
    assert [adds[0]][..0] == [];
  }

  /** A step of worker t keeps the balance of x if counter, own debt and open windows add up as before. */
  lemma BalanceKept(N: SimpleGraph, n: nat, s: State, s': State, t: nat, x: nat)
    requires t < |s.workers| == |s'.workers| && s'.workers == s.workers[t := s'.workers[t]]
    requires x < |s.counters| == |s'.counters| && Balanced(N, n, s, x)
    requires s'.counters[x] + Owed(N, s'.workers[t], x) + ShareSum(N, s'.next, n, x)
          == s.counters[x] + Owed(N, s.workers[t], x) + ShareSum(N, s.next, n, x)
    ensures Balanced(N, n, s', x)
  {
    OwedSumUpdate(N, s.workers, t, s'.workers[t], x);
  }

  lemma FetchStops(N: SimpleGraph, n: nat, s: State, t: nat)
    requires Inv(N, n, s) && t < |s.workers| && s.workers[t].Fetching? && s.next >= n
    ensures Inv(N, n, Move(s, t, Stopped).(next := s.next + TASK_SIZE))
  {
    var s' := Move(s, t, Stopped).(next := s.next + TASK_SIZE);
    forall x | 0 <= x < n
      ensures Balanced(N, n, s', x)
    {
      BalanceKept(N, n, s, s', t, x);
    }
  }

  /** The worker takes over exactly the share of its window. */
  lemma WindowDebt(N: SimpleGraph, n: nat, next: nat, w: Worker, x: nat)
    requires next < n && Begins(N, next, Min(next + TASK_SIZE, n), w)
    ensures Owed(N, w, x) + ShareSum(N, next + TASK_SIZE, n, x) == ShareSum(N, next, n, x)
  {
    assert Owed(N, w, x) == ShareSum(N, next, w.end, x);
    ShareSumSplit(N, next, w.end, n, x);
  }

  lemma FetchWindow(N: SimpleGraph, n: nat, s: State, t: nat, w: Worker)
    requires Inv(N, n, s) && t < |s.workers| && s.workers[t].Fetching? && s.next < n
    requires Begins(N, s.next, Min(s.next + TASK_SIZE, n), w)
    ensures Inv(N, n, Move(s, t, w).(next := s.next + TASK_SIZE))
  {
    var s' := Move(s, t, w).(next := s.next + TASK_SIZE);
    forall x | 0 <= x < n
      ensures Balanced(N, n, s', x)
    {
      WindowDebt(N, n, s.next, w, x);
      BalanceKept(N, n, s, s', t, x);
    }
  }

  lemma AddOne(N: SimpleGraph, n: nat, s: State, t: nat)
    requires Inv(N, n, s) && t < |s.workers| && s.workers[t].Busy? && s.workers[t].pending != []
    requires s.workers[t].pending[0].x < n
    ensures var w := s.workers[t]; var a := w.pending[0];
            Inv(N, n, Move(s, t, Busy(w.v, w.end, w.pending[1..])).(counters := s.counters[a.x := s.counters[a.x] + a.amount]))
  {
    var w := s.workers[t];
    var a := w.pending[0];
    var s' := Move(s, t, Busy(w.v, w.end, w.pending[1..])).(counters := s.counters[a.x := s.counters[a.x] + a.amount]);
    forall x | 0 <= x < n
      ensures Balanced(N, n, s', x)
    {
      TotalSplit(w.pending, x);
      BalanceKept(N, n, s, s', t, x);
    }
  }

  /** Starting on the next vertex of the window owes what was owed for it before. */
  lemma SameDebt(N: SimpleGraph, before: Worker, w: Worker, x: nat)
    requires before.Busy? && before.pending == [] && before.v + 1 < before.end && Begins(N, before.v + 1, before.end, w)
    ensures Owed(N, w, x) == Owed(N, before, x)
  {}

  lemma NextVertex(N: SimpleGraph, n: nat, s: State, t: nat, w: Worker)
    requires Inv(N, n, s) && t < |s.workers| && s.workers[t].Busy? && s.workers[t].pending == []
    requires s.workers[t].v + 1 < s.workers[t].end && Begins(N, s.workers[t].v + 1, s.workers[t].end, w)
    ensures Inv(N, n, Move(s, t, w))
  {
    forall x | 0 <= x < n
      ensures Balanced(N, n, Move(s, t, w), x)
    {
      SameDebt(N, s.workers[t], w, x);
      BalanceKept(N, n, s, Move(s, t, w), t, x);
    }
  }

  lemma WindowDone(N: SimpleGraph, n: nat, s: State, t: nat)
    requires Inv(N, n, s) && t < |s.workers| && s.workers[t].Busy? && s.workers[t].pending == []
    requires s.workers[t].v + 1 >= s.workers[t].end
    ensures Inv(N, n, Move(s, t, Fetching))
  {
    forall x | 0 <= x < n
      ensures Balanced(N, n, Move(s, t, Fetching), x)
    {
      BalanceKept(N, n, s, Move(s, t, Fetching), t, x);
    }
  }

  lemma StepInv(N: SimpleGraph, n: nat, s: State, s': State, t: nat)
    requires Inv(N, n, s) && Step(N, n, s, s', t)
    ensures Inv(N, n, s')
  {
    match s.workers[t]
    case Fetching =>
      if s.next >= n {
        FetchStops(N, n, s, t);
      } else {
        var w :| Begins(N, s.next, Min(s.next + TASK_SIZE, n), w) && s' == Move(s, t, w).(next := s.next + TASK_SIZE);
        FetchWindow(N, n, s, t, w);
      }
    case Busy(v, end, pending) =>
      if pending != [] {
        AddOne(N, n, s, t);
      } else if v + 1 < end {
        var w :| Begins(N, v + 1, end, w) && s' == Move(s, t, w);
        NextVertex(N, n, s, t, w);
      } else {
        WindowDone(N, n, s, t);
      }
  }

  // ---- All runs ----

  ghost predicate Next(N: SimpleGraph, n: nat, s: State, s': State)
  {
    exists t :: Step(N, n, s, s', t)
  }

  predicate AllStopped(s: State) {
    forall t | 0 <= t < |s.workers| :: s.workers[t].Stopped?
  }

  ghost predicate IsRun(N: SimpleGraph, n: nat, run: seq<State>)
  {
    && |run| > 0 && Init(n, run[0])
    && forall i | 0 <= i < |run| - 1 :: Next(N, n, run[i], run[i + 1])
  }

  lemma {:induction false} RunInv(N: SimpleGraph, n: nat, run: seq<State>, i: nat)
    requires IsRun(N, n, run) && i < |run|
    ensures Inv(N, n, run[i]) && |run[i].workers| == |run[0].workers|
  {
    if i == 0 {
      InitInv(N, n, run[0]);
    } else {
      RunInv(N, n, run, i - 1);
      assert Next(N, n, run[i - 1], run[i]);
      var t :| Step(N, n, run[i - 1], run[i], t);
      StepInv(N, n, run[i - 1], run[i], t);
    }
  }

  /** When all workers have stopped, every counter holds the number of adjacent pairs of neighbours,
      the same number the hash kernel counts. */
  lemma StoppedRunCountsWedges(N: SimpleGraph, n: nat, run: seq<State>, x: nat)
    requires (forall v :: v in N <==> v < n) && IsRun(N, n, run) && x < n
    requires AllStopped(run[|run| - 1])
    ensures x < |run[|run| - 1].counters| && run[|run| - 1].counters[x] == |Wedges(N, x)|
  {
    var last := run[|run| - 1];
    RunInv(N, n, run, |run| - 1);
    NobodyOwes(N, last.workers, x);
    assert last.workers[0].Stopped?;
    assert Balanced(N, n, last, x);
    SharesCountWedges(N, n, x);
  }
}
