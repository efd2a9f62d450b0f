/** The racing steps of the breadth-first search, library/baseline/csr.cpp:535-600, always get on and come to an end. */
module BfsProgress {
  import opened Bfs
  import opened BfsRace
  import opened Counting
  import opened Csr
  import opened Numbers
  import opened Paths

  // ---- Top-down ----

  lemma WindowInGraph(j: Job, p: nat)
    requires JobOk(j) && p < |j.window|
    ensures j.window[p] < |j.g.out.v| && j.g.out.First(j.window[p]) <= |j.g.out.e|
  {
    assert j.window[p] in Elements(j.window);
  }

  lemma ScanEnabled(j: Job, s: State, t: nat) returns (s': State)
    requires Inv(j, s) && t < |s.threads| && (s.threads[t].pc.Scan? || s.threads[t].pc.Seen?)
    ensures Step(j, s, s', t)
  {
    assert PcOk(j, s.dist, s.threads[t].pc);
    match s.threads[t].pc
    case Scan(u, i) =>
      s' := if InRow(j.g.out, u, i) then Go(s, t, Seen(u, i, s.dist[j.g.out.e[i]])) else Go(s, t, Idle);
    case Seen(u, i, val) =>
      var x, th := j.g.out.e[i], s.threads[t];
      s' := if val < 0 && s.dist[x] == val
            then s.(dist := s.dist[x := j.d], threads := s.threads[t := Thread(Scan(u, i + 1), th.local + [x], th.scout - val)])
            else Go(s, t, Scan(u, i + 1));
  }

  /** Until all threads are done, each of the others can move. */
  lemma NoDeadlock(j: Job, s: State, t: nat) returns (s': State)
    requires Inv(j, s) && t < |s.threads| && s.threads[t].pc != Done
    ensures Step(j, s, s', t)
  {
    if s.threads[t].pc != Idle {
      s' := ScanEnabled(j, s, t);
    } else if s.open != {} {
      var p :| p in s.open;
      WindowInGraph(j, p);
      s' := Go(s, t, Scan(j.window[p], j.g.out.First(j.window[p]))).(open := s.open - {p});
    } else {
      s' := Flushed(s, t, Done);
    }
  }

  ghost function Ahead(r: Rows, i: nat): nat {
    if i < |r.e| then 3 * (|r.e| - i) else 0
  }

  /** The steps a thread can make before it takes another vertex. */
  ghost function Left(j: Job, th: Thread): nat {
    |th.local| + match th.pc
                 case Idle => 1
                 case Scan(_, i) => Ahead(j.g.out, i) + 2
                 case Seen(_, i, _) => Ahead(j.g.out, i) + 1
                 case Done => 0
  }

  ghost function LeftSum(j: Job, threads: seq<Thread>): nat {
    if threads == [] then 0 else LeftSum(j, threads[..|threads| - 1]) + Left(j, threads[|threads| - 1])
  }

  lemma {:induction false} LeftSumUpdate(j: Job, threads: seq<Thread>, t: nat, th: Thread)
    requires t < |threads|
    ensures LeftSum(j, threads[t := th]) == LeftSum(j, threads) - Left(j, threads[t]) + Left(j, th)
  {
    var last := |threads| - 1;
    if t < last {
      LeftSumUpdate(j, threads[..last], t, th);
      assert threads[t := th][..last] == threads[..last][t := th];
    } else {
      assert threads[t := th][..last] == threads[..last];
    }
  }

  ghost function Rank(j: Job, s: State): nat {
    3 * (|j.g.out.e| * |s.open|) + 3 * |s.open| + LeftSum(j, s.threads)
  }

  lemma TakeLowers(j: Job, s: State, s': State, p: nat)
    requires p in s.open && s'.open == s.open - {p}
    ensures |s.open| == |s'.open| + 1 && |j.g.out.e| * |s.open| == |j.g.out.e| * |s'.open| + |j.g.out.e|
  {
    assert |s.open| == |s'.open| + 1;
  }

  lemma ThreadLowers(j: Job, s: State, s': State, t: nat)
    requires Step(j, s, s', t)
    ensures s'.threads == s.threads[t := s'.threads[t]]
    ensures s'.open == s.open ==> Left(j, s'.threads[t]) < Left(j, s.threads[t])
    ensures s'.open != s.open ==> Left(j, s'.threads[t]) < Left(j, s.threads[t]) + 3 * |j.g.out.e| + 3
    ensures s'.open != s.open ==> exists p :: p in s.open && s'.open == s.open - {p}
  {}

  /** Every access and every flush lowers the rank. */
  lemma EveryStepLowersTheRank(j: Job, s: State, s': State, t: nat)
    requires Step(j, s, s', t)
    ensures Rank(j, s') < Rank(j, s) && |s'.threads| == |s.threads|
  {
    ThreadLowers(j, s, s', t);
    LeftSumUpdate(j, s.threads, t, s'.threads[t]);
    if s.open != s'.open {
      var p :| p in s.open && s'.open == s.open - {p};
      TakeLowers(j, s, s', p);
    }
  }

  lemma RunGrows(j: Job, run: seq<State>, s': State)
    requires Run(j, run) && Steps(j, run[|run| - 1], s')
    ensures Run(j, run + [s'])
  {
    var longer := run + [s'];
    forall i | 0 <= i < |longer| - 1
      ensures Steps(j, longer[i], longer[i + 1])
    {
      if i < |run| - 1 {
        assert longer[i] == run[i] && longer[i + 1] == run[i + 1];
      }
    }
  }

  lemma StepOn(j: Job, run: seq<State>) returns (longer: seq<State>)
    requires Run(j, run) && |run[|run| - 1].threads| > 0 && !AllDone(run[|run| - 1])
    ensures Run(j, longer) && run <= longer && |longer[|longer| - 1].threads| > 0
    ensures Rank(j, longer[|longer| - 1]) < Rank(j, run[|run| - 1])
  {
    var s := run[|run| - 1];
    RunInv(j, run, |run| - 1);
    var t: nat :| t < |s.threads| && s.threads[t].pc != Done;
    var s' := NoDeadlock(j, s, t);
    EveryStepLowersTheRank(j, s, s', t);
    RunGrows(j, run, s');
    longer := run + [s'];
  }

  /** From every state a run reaches, the step can be brought to its end. */
  lemma TopDownCanFinish(j: Job, run: seq<State>) returns (whole: seq<State>)
    requires Run(j, run) && |run[|run| - 1].threads| > 0
    ensures Run(j, whole) && run <= whole && AllDone(whole[|whole| - 1])
  {
    whole := run;
    while !AllDone(whole[|whole| - 1])
      invariant Run(j, whole) && run <= whole && |whole[|whole| - 1].threads| > 0
      decreases Rank(j, whole[|whole| - 1])
    {
      whole := StepOn(j, whole);
    }
  }

  // ---- Bottom-up ----

  lemma VertexEnabled(k: Climb, b: Board, t: nat) returns (b': Board)
    requires ClimbOk(k) && |b.dist| == k.g.n && |b.words| * WORD >= k.g.n
    requires t < |b.threads| && !b.threads[t].place.Free? && !b.threads[t].place.Left? && ChunkOk(k, b, b.threads[t].place)
    ensures Move(k, b, b', t)
  {
    match b.threads[t].place
    case Look(c, u) =>
      b' := if u >= End(k, c) then Put(b, t, Free)
            else Put(b, t, if b.dist[u] < 0 then Probe(c, u, k.g.inc.First(u)) else Look(c, u + 1));
    case Probe(c, u, i) =>
      b' := if !InRow(k.g.inc, u, i) then Put(b, t, Look(c, u + 1))
            else if k.front[k.g.inc.e[i]]
            then b.(dist := b.dist[u := k.d], threads := b.threads[t := Prober(Load(c, u), b.threads[t].awake + 1)])
            else Put(b, t, Probe(c, u, i + 1));
    case Load(c, u) =>
      b' := Put(b, t, Store(c, u, b.words[u / WORD]));
    case Store(c, u, w) =>
      b' := Put(b, t, Look(c, u + 1)).(words := b.words[u / WORD := w + {u}]);
  }

  /** Until all threads have left, each of the others can move. */
  lemma NoClimbDeadlock(k: Climb, b: Board, t: nat) returns (b': Board)
    requires ClimbInv(k, b) && t < |b.threads| && b.threads[t].place != Place.Left
    ensures Move(k, b, b', t)
  {
    if !b.threads[t].place.Free? {
      assert ProberOk(k, b, b.threads[t]);
      b' := VertexEnabled(k, b, t);
    } else if b.chunks != {} {
      var c :| c in b.chunks;
      b' := Put(b, t, Look(c, CHUNK * c)).(chunks := b.chunks - {c});
    } else {
      b' := Put(b, t, Place.Left);
    }
  }

  /** The steps a vertex costs at most. */
  ghost function VertexCost(k: Climb): nat {
    |k.g.inc.e| + 4
  }

  ghost function VerticesLeft(k: Climb, c: nat, u: nat): nat {
    if u < CHUNK * (c + 1) then CHUNK * (c + 1) - u else 0
  }

  /** The steps a thread can make before it takes another chunk. */
  ghost function StepsLeft(k: Climb, place: Place): nat {
    match place
    case Free => 1
    case Look(c, u) => VertexCost(k) * VerticesLeft(k, c, u) + 2
    case Probe(c, u, i) => VertexCost(k) * VerticesLeft(k, c, u + 1) + 5 + if i < |k.g.inc.e| then |k.g.inc.e| - i else 0
    case Load(c, u) => VertexCost(k) * VerticesLeft(k, c, u + 1) + 4
    case Store(c, u, _) => VertexCost(k) * VerticesLeft(k, c, u + 1) + 3
    case Left => 0
  }

  ghost function StepsSum(k: Climb, threads: seq<Prober>): nat {
    if threads == [] then 0 else StepsSum(k, threads[..|threads| - 1]) + StepsLeft(k, threads[|threads| - 1].place)
  }

  lemma {:induction false} StepsSumUpdate(k: Climb, threads: seq<Prober>, t: nat, th: Prober)
    requires t < |threads|
    ensures StepsSum(k, threads[t := th]) == StepsSum(k, threads) - StepsLeft(k, threads[t].place) + StepsLeft(k, th.place)
  {
    var last := |threads| - 1;
    if t < last {
      StepsSumUpdate(k, threads[..last], t, th);
      assert threads[t := th][..last] == threads[..last][t := th];
    } else {
      assert threads[t := th][..last] == threads[..last];
    }
  }

  ghost function ClimbRank(k: Climb, b: Board): nat {
    (VertexCost(k) * CHUNK + 2) * |b.chunks| + StepsSum(k, b.threads)
  }

  lemma NextVertex(k: Climb, c: nat, u: nat)
    requires u < CHUNK * (c + 1)
    ensures VertexCost(k) * VerticesLeft(k, c, u) == VertexCost(k) * VerticesLeft(k, c, u + 1) + VertexCost(k)
  {
    assert VerticesLeft(k, c, u) == VerticesLeft(k, c, u + 1) + 1;
  }

  lemma VertexLowers(k: Climb, b: Board, b': Board, t: nat)
    requires Move(k, b, b', t) && !b.threads[t].place.Free?
    ensures StepsLeft(k, b'.threads[t].place) < StepsLeft(k, b.threads[t].place)
    ensures b'.chunks == b.chunks && |b'.threads| == |b.threads|
  {
    if b.threads[t].place.Look? && b.threads[t].place.u < End(k, b.threads[t].place.c) {
      NextVertex(k, b.threads[t].place.c, b.threads[t].place.u);
    }
  }

  lemma ChunkTaken(x: nat, chunks: set<nat>, c: nat)
    requires c in chunks
    ensures x * |chunks| == x * |chunks - {c}| + x
  {
    assert |chunks| == |chunks - {c}| + 1;
  }

  lemma FreeLowers(k: Climb, b: Board, b': Board, t: nat)
    requires Move(k, b, b', t) && b.threads[t].place.Free?
    ensures ClimbRank(k, b') < ClimbRank(k, b) && |b'.threads| == |b.threads|
  {
    StepsSumUpdate(k, b.threads, t, b'.threads[t]);
    assert b'.threads == b.threads[t := b'.threads[t]];
    if b.chunks != {} {
      var c :| c in b.chunks && b' == Put(b, t, Look(c, CHUNK * c)).(chunks := b.chunks - {c});
      ChunkTaken(VertexCost(k) * CHUNK + 2, b.chunks, c);
      assert VerticesLeft(k, c, CHUNK * c) == CHUNK;
    }
  }

  /** Every access lowers the rank. */
  lemma EveryMoveLowersTheRank(k: Climb, b: Board, b': Board, t: nat)
    requires Move(k, b, b', t)
    ensures ClimbRank(k, b') < ClimbRank(k, b) && |b'.threads| == |b.threads|
  {
    if b.threads[t].place.Free? {
      FreeLowers(k, b, b', t);
    } else {
      VertexLowers(k, b, b', t);
      StepsSumUpdate(k, b.threads, t, b'.threads[t]);
      assert b'.threads == b.threads[t := b'.threads[t]];
    }
  }

  lemma AscentGrows(k: Climb, boards: seq<Board>, b': Board)
    requires Ascent(k, boards) && Moves(k, boards[|boards| - 1], b')
    ensures Ascent(k, boards + [b'])
  {
    var longer := boards + [b'];
    forall i | 0 <= i < |longer| - 1
      ensures Moves(k, longer[i], longer[i + 1])
    {
      if i < |boards| - 1 {
        assert longer[i] == boards[i] && longer[i + 1] == boards[i + 1];
      }
    }
  }

  lemma MoveOn(k: Climb, boards: seq<Board>) returns (longer: seq<Board>)
    requires Ascent(k, boards) && !AllLeft(boards[|boards| - 1])
    ensures Ascent(k, longer) && boards <= longer
    ensures ClimbRank(k, longer[|longer| - 1]) < ClimbRank(k, boards[|boards| - 1])
  {
    var b := boards[|boards| - 1];
    AscentInv(k, boards, |boards| - 1);
    var t: nat :| t < |b.threads| && b.threads[t].place != Place.Left;
    var b' := NoClimbDeadlock(k, b, t);
    EveryMoveLowersTheRank(k, b, b', t);
    AscentGrows(k, boards, b');
    longer := boards + [b'];
  }

  /** From every state a run reaches, the step can be brought to its end. */
  lemma BottomUpCanFinish(k: Climb, boards: seq<Board>) returns (whole: seq<Board>)
    requires Ascent(k, boards)
    ensures Ascent(k, whole) && boards <= whole && AllLeft(whole[|whole| - 1])
  {
    whole := boards;
    while !AllLeft(whole[|whole| - 1])
      invariant Ascent(k, whole) && boards <= whole
      decreases ClimbRank(k, whole[|whole| - 1])
    {
      whole := MoveOn(k, whole);
    }
  }
}
