/** The same kernel as OpenMP runs it: in each phase any number of threads read and write comp
    without any synchronisation, one atomic access at a time. Which thread takes which edge or vertex,
    and in which order, is left open. */
module WccRace {
  import opened Components
  import opened Counting
  import opened Paths
  import opened Wcc

  /** Where a thread is inside the loop bodies of csr.cpp:905-918 and 922-926. */
  datatype Local =
    | Idle
    | ReadU(e: Edge, compU: nat)
    | ReadV(e: Edge, compU: nat, compV: nat)
    | Hooking(e: Edge, high: nat, low: nat)
    | Jump(n: nat)
    | Jumped(n: nat, a: nat)
    | Uneven(n: nat)
    | Reread(n: nat, c: nat)
    | Writing(n: nat, d: nat)
  {
    predicate Owns(x: nat) {
      !Idle? && !ReadU? && !ReadV? && !Hooking? && n == x
    }

    predicate Examines(f: Edge) {
      (ReadU? || ReadV? || Hooking?) && e == f
    }
  }

  datatype Phase = Hook | Compress | Finished

  /** start is comp at the beginning of the hooking phase; edges and vertices are still to be taken. */
  datatype State = State(phase: Phase, comp: seq<nat>, start: seq<nat>, change: bool,
                         edges: set<Edge>, vertices: set<nat>, threads: seq<Local>)

  ghost predicate Init(E: set<Edge>, s: State) {
    && s.phase == Hook && s.start == s.comp && !s.change
    && (forall v: nat | v < |s.comp| :: s.comp[v] == v)
    && s.edges == E && (forall t | 0 <= t < |s.threads| :: s.threads[t] == Idle)
  }

  // ---- Steps ----

  function Move(s: State, t: nat, l: Local): State
    requires t < |s.threads|
  {
    s.(threads := s.threads[t := l])
  }

  ghost predicate HookStep(s: State, s': State, t: nat) {
    && t < |s.threads| && s.phase == Hook
    && match s.threads[t]
       case Idle =>
         exists e :: e in s.edges && e.src < |s.comp| && s' == Move(s, t, ReadU(e, s.comp[e.src])).(edges := s.edges - {e})
       case ReadU(e, compU) =>
         e.dst < |s.comp| && s' == Move(s, t, if compU == s.comp[e.dst] then Idle else ReadV(e, compU, s.comp[e.dst]))
       case ReadV(e, compU, compV) =>
         var high := if compU > compV then compU else compV;
         var low := if compU > compV then compV else compU;
         high < |s.comp| &&
         if s.comp[high] == high then s' == Move(s, t, Hooking(e, high, low)).(change := true) else s' == Move(s, t, Idle)
       case Hooking(e, high, low) =>
         high < |s.comp| && s' == Move(s, t, Idle).(comp := s.comp[high := low])
       case _ => false
  }

  ghost predicate CompressStep(s: State, s': State, t: nat) {
    && t < |s.threads| && s.phase == Compress
    && match s.threads[t]
       case Idle =>
         exists n :: n in s.vertices && s' == Move(s, t, Jump(n)).(vertices := s.vertices - {n})
       case Jump(n) =>
         n < |s.comp| && s' == Move(s, t, Jumped(n, s.comp[n]))
       case Jumped(n, a) =>
         a < |s.comp| && s' == Move(s, t, if a == s.comp[a] then Idle else Uneven(n))
       case Uneven(n) =>
         n < |s.comp| && s' == Move(s, t, Reread(n, s.comp[n]))
       case Reread(n, c) =>
         c < |s.comp| && s' == Move(s, t, Writing(n, s.comp[c]))
       case Writing(n, d) =>
         n < |s.comp| && s' == Move(s, t, Jump(n)).(comp := s.comp[n := d])
       case _ => false
  }

  predicate AllIdle(s: State) {
    forall t | 0 <= t < |s.threads| :: s.threads[t] == Idle
  }

  /** The implicit barriers at the end of the two parallel loops. */
  ghost predicate Barrier(E: set<Edge>, s: State, s': State) {
    && AllIdle(s)
    && match s.phase
       case Hook => s.edges == {} && s' == s.(phase := Compress, vertices := Below(|s.comp|))
       case Compress => s.vertices == {} &&
         if s.change then s' == s.(phase := Hook, change := false, edges := E, start := s.comp)
         else s' == s.(phase := Finished)
       case Finished => false
  }

  ghost predicate Next(E: set<Edge>, s: State, s': State) {
    || (exists t :: HookStep(s, s', t))
    || (exists t :: CompressStep(s, s', t))
    || Barrier(E, s, s')
  }

  // ---- The invariant ----

  ghost predicate Agree(E: set<Edge>, comp: seq<nat>) {
    forall e | e in E && e.src < |comp| && e.dst < |comp| :: comp[e.src] == comp[e.dst]
  }

  ghost predicate Common(E: set<Edge>, s: State) {
    && LabelsOk(E, s.comp) && |s.start| == |s.comp| && AllRoots(s.start)
    && (forall e | e in E :: e.src < |s.comp| && e.dst < |s.comp|)
    && (forall x: nat | IsRoot(s.comp, x) :: IsRoot(s.start, x))
    && (!s.change ==> s.comp == s.start)
  }

  ghost predicate HookLocal(E: set<Edge>, s: State, l: Local) {
    match l
    case Idle => true
    case ReadU(e, compU) => e in E && Connected(E, e.src, compU) && compU <= e.src && (!s.change ==> e.src < |s.start| && compU == s.start[e.src])
    case ReadV(e, compU, compV) => e in E && Connected(E, e.src, compU) && compU <= e.src && Connected(E, e.dst, compV) && compV <= e.dst
      && compU != compV && (!s.change ==> e.src < |s.start| && e.dst < |s.start| && compU == s.start[e.src] && compV == s.start[e.dst])
    case Hooking(e, high, low) => s.change && e in E && low < high && Connected(E, high, low) && IsRoot(s.start, high)
    case _ => false
  }

  /** Some root of the start lost its place, or is about to. */
  ghost predicate LostRoot(s: State, x: nat) {
    IsRoot(s.start, x) && !IsRoot(s.comp, x)
  }

  ghost predicate HookPending(s: State) {
    exists t :: 0 <= t < |s.threads| && s.threads[t].Hooking?
  }

  ghost predicate InFlight(s: State, e: Edge) {
    exists t :: 0 <= t < |s.threads| && s.threads[t].Examines(e)
  }

  ghost predicate EdgeOk(s: State, e: Edge) {
    || e in s.edges
    || InFlight(s, e)
    || (e.src < |s.start| && e.dst < |s.start| && s.start[e.src] == s.start[e.dst])
  }

  ghost predicate HookInv(E: set<Edge>, s: State) {
    && s.phase == Hook && Common(E, s) && s.edges <= E
    && (forall t | 0 <= t < |s.threads| :: HookLocal(E, s, s.threads[t]))
    && (s.change ==> (exists x :: LostRoot(s, x)) || HookPending(s))
    && (!s.change ==> forall e | e in E :: EdgeOk(s, e))
  }

  ghost predicate CompressLocal(E: set<Edge>, s: State, l: Local) {
    match l
    case Idle => true
    case Jump(n) => n < |s.comp|
    case Jumped(n, a) => n < |s.comp| && s.comp[n] == a
    case Uneven(n) => n < |s.comp| && !IsRoot(s.comp, s.comp[n])
    case Reread(n, c) => n < |s.comp| && s.comp[n] == c && !IsRoot(s.comp, c)
    case Writing(n, d) => n < |s.comp| && !IsRoot(s.comp, s.comp[n]) && d < s.comp[n] && Connected(E, n, d)
    case _ => false
  }

  ghost predicate Owned(s: State, x: nat) {
    exists t :: 0 <= t < |s.threads| && s.threads[t].Owns(x)
  }

  ghost predicate CompressInv(E: set<Edge>, s: State) {
    && s.phase == Compress && Common(E, s)
    && (s.change ==> exists x :: LostRoot(s, x))
    && (!s.change ==> Agree(E, s.start))
    && (forall t | 0 <= t < |s.threads| :: CompressLocal(E, s, s.threads[t]))
    && (forall t, u, x: nat | 0 <= t < u < |s.threads| && s.threads[t].Owns(x) :: !s.threads[u].Owns(x))
    && (forall x | x in s.vertices :: x < |s.comp| && !Owned(s, x))
    && (forall x: nat | x < |s.comp| && x !in s.vertices && !Owned(s, x) :: IsRoot(s.comp, s.comp[x]))
  }

  ghost predicate Inv(E: set<Edge>, s: State) {
    match s.phase
    case Hook => HookInv(E, s)
    case Compress => CompressInv(E, s)
    case Finished => LabelsOk(E, s.comp) && Agree(E, s.comp) && forall e | e in E :: e.src < |s.comp| && e.dst < |s.comp|
  }

  lemma InitInv(E: set<Edge>, s: State)
    requires Init(E, s) && forall e | e in E :: e.src < |s.comp| && e.dst < |s.comp|
    ensures Inv(E, s)
  {
    forall v: nat | v < |s.comp|
      ensures Connected(E, v, s.comp[v])
    {
      ConnectedRefl(E, v);
    }
  }

  // ---- Every step of the hooking phase keeps it ----

  ghost predicate OnlyMoves(s: State, s': State, t: nat) {
    && t < |s.threads| == |s'.threads|
    && forall u | 0 <= u < |s.threads| && u != t :: s'.threads[u] == s.threads[u]
  }

  lemma InFlightStays(s: State, s': State, t: nat, e: Edge)
    requires OnlyMoves(s, s', t) && InFlight(s, e) && (s.threads[t].Examines(e) ==> s'.threads[t].Examines(e))
    ensures InFlight(s', e)
  {
    var u :| 0 <= u < |s.threads| && s.threads[u].Examines(e);
    assert s'.threads[u].Examines(e);
  }

  lemma HookPendingStays(s: State, s': State, t: nat)
    requires OnlyMoves(s, s', t) && HookPending(s) && !s.threads[t].Hooking?
    ensures HookPending(s')
  {
    var u :| 0 <= u < |s.threads| && s.threads[u].Hooking?;
    assert s'.threads[u].Hooking?;
  }

  /** A step that reads comp and leaves comp alone. */
  lemma HookRead(E: set<Edge>, s: State, s': State, t: nat)
    requires HookInv(E, s) && OnlyMoves(s, s', t) && !s.threads[t].Hooking? && s'.edges <= s.edges
    requires s'.phase == Hook && s'.comp == s.comp && s'.start == s.start && s'.change == s.change
    requires HookLocal(E, s', s'.threads[t])
    requires forall e | e in s.edges && e !in s'.edges :: s'.threads[t].Examines(e)
    requires !s.change ==> forall e | e in E && s.threads[t].Examines(e) :: s'.threads[t].Examines(e) || EdgeOk(s', e)
    ensures HookInv(E, s')
  {
    forall u | 0 <= u < |s'.threads|
      ensures HookLocal(E, s', s'.threads[u])
    {
      assert u != t ==> HookLocal(E, s, s.threads[u]);
    }
    if s.change {
      if HookPending(s) {
        HookPendingStays(s, s', t);
      } else {
        var x :| LostRoot(s, x);
        assert LostRoot(s', x);
      }
    } else {
      forall e | e in E
        ensures EdgeOk(s', e)
      {
        assert EdgeOk(s, e);
        if InFlight(s, e) && (s.threads[t].Examines(e) ==> s'.threads[t].Examines(e)) {
          InFlightStays(s, s', t, e);
        }
        if s'.threads[t].Examines(e) {
          assert InFlight(s', e);
        }
      }
    }
  }

  lemma HookStarts(E: set<Edge>, s: State, t: nat, high: nat, low: nat)
    requires HookInv(E, s) && t < |s.threads| && s.threads[t].ReadV?
    requires {high, low} == {s.threads[t].compU, s.threads[t].compV} && low < high && IsRoot(s.comp, high)
    ensures HookInv(E, Move(s, t, Hooking(s.threads[t].e, high, low)).(change := true))
  {
    var e := s.threads[t].e;
    var s' := Move(s, t, Hooking(e, high, low)).(change := true);
    assert HookLocal(E, s, s.threads[t]);
    LabelsAcrossEdge(E, e, s.threads[t].compU, s.threads[t].compV);
    forall u | 0 <= u < |s'.threads|
      ensures HookLocal(E, s', s'.threads[u])
    {
      assert u != t ==> HookLocal(E, s, s.threads[u]);
    }
    assert s'.threads[t].Hooking?;
  }

  lemma HookWrites(E: set<Edge>, s: State, t: nat)
    requires HookInv(E, s) && t < |s.threads| && s.threads[t].Hooking?
    ensures var high := s.threads[t].high;
            high < |s.comp| && HookInv(E, Move(s, t, Idle).(comp := s.comp[high := s.threads[t].low]))
  {
    var high, low := s.threads[t].high, s.threads[t].low;
    assert HookLocal(E, s, s.threads[t]);
    var s' := Move(s, t, Idle).(comp := s.comp[high := low]);
    assert LostRoot(s', high);
    forall u | 0 <= u < |s'.threads|
      ensures HookLocal(E, s', s'.threads[u])
    {
      assert u != t ==> HookLocal(E, s, s.threads[u]);
    }
  }

  lemma HookTakes(E: set<Edge>, s: State, t: nat, e: Edge)
    requires HookInv(E, s) && t < |s.threads| && s.threads[t].Idle? && e in s.edges && e.src < |s.comp|
    ensures HookInv(E, Move(s, t, ReadU(e, s.comp[e.src])).(edges := s.edges - {e}))
  {
    var s' := Move(s, t, ReadU(e, s.comp[e.src])).(edges := s.edges - {e});
    assert s'.threads[t].Examines(e);
    HookRead(E, s, s', t);
  }

  lemma HookReadsV(E: set<Edge>, s: State, s': State, t: nat)
    requires HookInv(E, s) && HookStep(s, s', t) && s.threads[t].ReadU?
    ensures HookInv(E, s')
  {
    assert HookLocal(E, s, s.threads[t]);
    HookRead(E, s, s', t);
  }

  /** The larger label is no root any more: some thread hooked it in this very phase. */
  lemma HookMisses(E: set<Edge>, s: State, t: nat)
    requires HookInv(E, s) && t < |s.threads| && s.threads[t].ReadV?
    requires var high := if s.threads[t].compU > s.threads[t].compV then s.threads[t].compU else s.threads[t].compV;
             high < |s.comp| && s.comp[high] != high
    ensures HookInv(E, Move(s, t, Idle))
  {
    assert HookLocal(E, s, s.threads[t]);
    assert s.change;
    HookRead(E, s, Move(s, t, Idle), t);
  }

  lemma HookStepInv(E: set<Edge>, s: State, s': State, t: nat)
    requires HookInv(E, s) && HookStep(s, s', t)
    ensures HookInv(E, s')
  {
    match s.threads[t]
    case Idle =>
      var e :| e in s.edges && e.src < |s.comp| && s' == Move(s, t, ReadU(e, s.comp[e.src])).(edges := s.edges - {e});
      HookTakes(E, s, t, e);
    case ReadU(e, compU) =>
      HookReadsV(E, s, s', t);
    case ReadV(e, compU, compV) =>
      assert HookLocal(E, s, s.threads[t]);
      var high := if compU > compV then compU else compV;
      var low := if compU > compV then compV else compU;
      if s.comp[high] == high {
        HookStarts(E, s, t, high, low);
      } else {
        HookMisses(E, s, t);
      }
    case Hooking(e, high, low) =>
      HookWrites(E, s, t);
  }

  // ---- and of the pointer-jumping phase ----

  lemma OwnedStays(s: State, s': State, t: nat, x: nat)
    requires OnlyMoves(s, s', t) && (s.threads[t].Owns(x) <==> s'.threads[t].Owns(x))
    ensures Owned(s, x) <==> Owned(s', x)
  {
    if u :| 0 <= u < |s.threads| && s.threads[u].Owns(x) {
      assert s'.threads[u].Owns(x);
    }
    if u :| 0 <= u < |s'.threads| && s'.threads[u].Owns(x) {
      assert s.threads[u].Owns(x);
    }
  }

  /** A step that reads comp while thread t keeps its vertex. */
  lemma CompressRead(E: set<Edge>, s: State, s': State, t: nat)
    requires CompressInv(E, s) && OnlyMoves(s, s', t)
    requires s' == s.(threads := s'.threads)
    requires CompressLocal(E, s', s'.threads[t])
    requires forall x: nat :: s.threads[t].Owns(x) <==> s'.threads[t].Owns(x)
    ensures CompressInv(E, s')
  {
    forall x: nat
      ensures Owned(s, x) <==> Owned(s', x)
    {
      OwnedStays(s, s', t, x);
    }
    forall u | 0 <= u < |s'.threads|
      ensures CompressLocal(E, s', s'.threads[u])
    {
      assert u != t ==> CompressLocal(E, s, s.threads[u]);
    }
    LostRootStays(s, s');
  }

  lemma LostRootStays(s: State, s': State)
    requires s'.start == s.start && |s'.comp| == |s.comp| && forall x: nat | IsRoot(s'.comp, x) :: IsRoot(s.comp, x)
    ensures (exists x :: LostRoot(s, x)) ==> exists x :: LostRoot(s', x)
  {
    if x :| LostRoot(s, x) {
      assert LostRoot(s', x);
    }
  }

  lemma CompressTake(E: set<Edge>, s: State, t: nat, n: nat)
    requires CompressInv(E, s) && t < |s.threads| && s.threads[t].Idle? && n in s.vertices
    ensures CompressInv(E, Move(s, t, Jump(n)).(vertices := s.vertices - {n}))
  {
    var s' := Move(s, t, Jump(n)).(vertices := s.vertices - {n});
    assert s'.threads[t].Owns(n) && !Owned(s, n);
    forall x: nat | x != n
      ensures Owned(s, x) <==> Owned(s', x)
    {
      OwnedStays(s, s', t, x);
    }
    forall u | 0 <= u < |s'.threads|
      ensures CompressLocal(E, s', s'.threads[u]) && (u != t ==> !s'.threads[u].Owns(n))
    {
      assert u != t ==> CompressLocal(E, s, s.threads[u]);
    }
    LostRootStays(s, s');
  }

  lemma CompressDone(E: set<Edge>, s: State, t: nat)
    requires CompressInv(E, s) && t < |s.threads| && s.threads[t].Jumped? && IsRoot(s.comp, s.threads[t].a)
    ensures CompressInv(E, Move(s, t, Idle))
  {
    var s' := Move(s, t, Idle);
    assert CompressLocal(E, s, s.threads[t]);
    forall x: nat | x != s.threads[t].n
      ensures Owned(s, x) <==> Owned(s', x)
    {
      OwnedStays(s, s', t, x);
    }
    forall u | 0 <= u < |s'.threads|
      ensures CompressLocal(E, s', s'.threads[u])
    {
      assert u != t ==> CompressLocal(E, s, s.threads[u]);
    }
    forall x | x in s'.vertices
      ensures !Owned(s', x)
    {
      assert !Owned(s, x) && s.threads[t].Owns(s.threads[t].n);
    }
    LostRootStays(s, s');
  }

  /** Jumping over an entry that is not a root: no root appears and none is lost. */
  lemma JumpRoots(comp: seq<nat>, n: nat, d: nat)
    requires n < |comp| && comp[n] <= n && !IsRoot(comp, comp[n]) && comp[n] < |comp| && d <= comp[n]
    ensures comp[n] < n && forall x: nat :: IsRoot(comp, x) <==> IsRoot(comp[n := d], x)
  {}

  /** The other threads work on other vertices, and no root comes or goes. */
  lemma OthersKeepTheirView(E: set<Edge>, s: State, t: nat)
    requires CompressInv(E, s) && t < |s.threads| && s.threads[t].Writing?
    ensures var n := s.threads[t].n; n < |s.comp|
    ensures var n := s.threads[t].n; var s' := Move(s, t, Jump(n)).(comp := s.comp[n := s.threads[t].d]);
            forall u | 0 <= u < |s'.threads| :: CompressLocal(E, s', s'.threads[u])
  {
    var n, d := s.threads[t].n, s.threads[t].d;
    assert CompressLocal(E, s, s.threads[t]);
    var s' := Move(s, t, Jump(n)).(comp := s.comp[n := d]);
    JumpRoots(s.comp, n, d);
    assert s.threads[t].Owns(n);
    forall u | 0 <= u < |s'.threads|
      ensures CompressLocal(E, s', s'.threads[u])
    {
      assert u != t ==> CompressLocal(E, s, s.threads[u]) && !s.threads[u].Owns(n);
    }
  }

  lemma CompressWrite(E: set<Edge>, s: State, t: nat)
    requires CompressInv(E, s) && t < |s.threads| && s.threads[t].Writing?
    ensures var n := s.threads[t].n;
            n < |s.comp| && CompressInv(E, Move(s, t, Jump(n)).(comp := s.comp[n := s.threads[t].d]))
  {
    var n, d := s.threads[t].n, s.threads[t].d;
    assert CompressLocal(E, s, s.threads[t]);
    var s' := Move(s, t, Jump(n)).(comp := s.comp[n := d]);
    JumpRoots(s.comp, n, d);
    forall x: nat
      ensures Owned(s, x) <==> Owned(s', x)
    {
      OwnedStays(s, s', t, x);
    }
    assert s.threads[t].Owns(n) && Owned(s, n);
    OthersKeepTheirView(E, s, t);
    LostRootStays(s, s');
    assert IsRoot(s.start, s.start[n]);
    assert s.change;
  }

  lemma CompressStepInv(E: set<Edge>, s: State, s': State, t: nat)
    requires CompressInv(E, s) && CompressStep(s, s', t)
    ensures CompressInv(E, s')
  {
    var l := s.threads[t];
    assert CompressLocal(E, s, l);
    match l
    case Idle =>
      var n :| n in s.vertices && s' == Move(s, t, Jump(n)).(vertices := s.vertices - {n});
      CompressTake(E, s, t, n);
    case Jump(n) =>
      CompressRead(E, s, s', t);
    case Jumped(n, a) =>
      if a == s.comp[a] {
        CompressDone(E, s, t);
      } else {
        CompressRead(E, s, s', t);
      }
    case Uneven(n) =>
      CompressRead(E, s, s', t);
    case Reread(n, c) =>
      ConnectedTrans(E, n, s.comp[n], s.comp[c]);
      CompressRead(E, s, s', t);
    case Writing(n, d) =>
      CompressWrite(E, s, t);
  }

  // ---- All runs ----

  lemma BarrierInv(E: set<Edge>, s: State, s': State)
    requires Inv(E, s) && Barrier(E, s, s')
    ensures Inv(E, s')
  {
    if s.phase == Hook {
      LostRootStays(s, s');
      forall e | e in E && !s.change
        ensures e.src < |s.start| && e.dst < |s.start| && s.start[e.src] == s.start[e.dst]
      {
        assert EdgeOk(s, e);
      }
    } else if s.change {
      forall v: nat | v < |s.comp|
        ensures IsRoot(s.comp, s.comp[v])
      {
        assert !Owned(s, v);
      }
    }
  }

  lemma NextInv(E: set<Edge>, s: State, s': State)
    requires Inv(E, s) && Next(E, s, s')
    ensures Inv(E, s') && |s'.comp| == |s.comp|
  {
    if t :| HookStep(s, s', t) {
      HookStepInv(E, s, s', t);
    } else if t :| CompressStep(s, s', t) {
      CompressStepInv(E, s, s', t);
    } else {
      BarrierInv(E, s, s');
    }
  }

  ghost predicate IsRun(E: set<Edge>, run: seq<State>) {
    && |run| > 0 && Init(E, run[0])
    && forall i | 0 <= i < |run| - 1 :: Next(E, run[i], run[i + 1])
  }

  lemma {:induction false} RunInv(E: set<Edge>, run: seq<State>, i: nat)
    requires IsRun(E, run) && i < |run| && forall e | e in E :: e.src < |run[0].comp| && e.dst < |run[0].comp|
    ensures Inv(E, run[i]) && |run[i].comp| == |run[0].comp|
  {
    if i == 0 {
      InitInv(E, run[0]);
    } else {
      RunInv(E, run, i - 1);
      NextInv(E, run[i - 1], run[i]);
    }
  }

  /** Whatever the races did, a finished run names the components. */
  lemma FinishedRunIsCorrect(E: set<Edge>, run: seq<State>)
    requires IsRun(E, run) && forall e | e in E :: e.src < |run[0].comp| && e.dst < |run[0].comp|
    requires run[|run| - 1].phase == Finished
    ensures AreComponents(E, Table(run[|run| - 1].comp))
  {
    RunInv(E, run, |run| - 1);
    FinishedIsCorrect(E, run[|run| - 1]);
  }

  lemma FinishedIsCorrect(E: set<Edge>, s: State)
    requires Inv(E, s) && s.phase == Finished
    ensures AreComponents(E, Table(s.comp))
  {
    AgreeingLabels(E, s.comp);
  }

  lemma AgreeingLabels(E: set<Edge>, comp: seq<nat>)
    requires LabelsOk(E, comp) && Agree(E, comp) && forall e | e in E :: e.src < |comp| && e.dst < |comp|
    ensures AreComponents(E, Table(comp))
  {
    EqualAcrossEdges(E, Table(comp));
  }

  /** Pointer jumping comes to an end: each of its writes lowers a label. */
  lemma JumpsLowerTheSum(E: set<Edge>, s: State, s': State, t: nat)
    requires CompressInv(E, s) && CompressStep(s, s', t) && s.threads[t].Writing?
    ensures Sum(s'.comp) < Sum(s.comp)
  {
    assert CompressLocal(E, s, s.threads[t]);
    SumUpdate(s.comp, s.threads[t].n, s.threads[t].d);
  }

  ghost function Roots(comp: seq<nat>): set<nat> {
    set x | x in Below(|comp|) && IsRoot(comp, x)
  }

  /** Each round that reports a change costs at least one root, so there are fewer rounds than vertices. */
  lemma RoundsLoseRoots(E: set<Edge>, s: State, s': State)
    requires Inv(E, s) && s.phase == Compress && s.change && Barrier(E, s, s')
    ensures s'.phase == Hook && s'.start == s.comp && |Roots(s'.start)| < |Roots(s.start)|
  {
    var x :| LostRoot(s, x);
    assert x in Roots(s.start) && x !in Roots(s.comp);
    assert Roots(s.comp) <= Roots(s.start) - {x};
    SubsetSize(Roots(s.comp), Roots(s.start) - {x});
  }
}
