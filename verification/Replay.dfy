/** Replaying an update log with several workers: partitioning and execution
    (experiment/details/aging2_worker.cpp:213-386, aging2_master.cpp:98-158), and why the interleaving
    of the workers does not matter. */
module Replay {
  import opened Numbers

  import AL = AdjacencyList

  /** A vector of updates is closed once it holds more than this, line 293. */
  const LAST_MAX_SZ: nat := 0x40_0000

  /** An insertion, or a deletion when the weight is negative. */
  datatype Update = Update(src: nat, dst: nat, weight: int)

  // ---- Who executes what ----

  /** (sources[i] + destinations[i]) % modulo, in 64 bits. */
  function Residue(u: Update, numThreads: nat): nat
    requires numThreads > 0
  {
    ((u.src + u.dst) % U64) % numThreads
  }

  ghost function Select(log: seq<Update>, f: Update -> bool): seq<Update> {
    if log == [] then []
    else Select(log[..|log| - 1], f) + if f(log[|log| - 1]) then [log[|log| - 1]] else []
  }

  lemma SelectSnoc(log: seq<Update>, u: Update, f: Update -> bool)
    ensures Select(log + [u], f) == Select(log, f) + if f(u) then [u] else []
  {
    assert (log + [u])[..|log|] == log;
  }

  lemma {:induction false} SelectConcat(a: seq<Update>, b: seq<Update>, f: Update -> bool)
    ensures Select(a + b, f) == Select(a, f) + Select(b, f)
  {
    if b == [] {
      assert a + b == a;
    } else {
      var last := |b| - 1;
      SelectConcat(a, b[..last], f);
      assert a + b == (a + b[..last]) + [b[last]];
      SelectSnoc(a + b[..last], b[last], f);
    }
  }

  ghost function Mine(id: nat, numThreads: nat): Update -> bool
    requires numThreads > 0
  {
    (u: Update) => ((u.src + u.dst) % U64) % numThreads == id
  }

  // ---- Loading ----

  /** A zero weight is replaced by a random one. */
  ghost predicate Resolves(u: Update, l: Update, maxWeight: int) {
    && l.src == u.src && l.dst == u.dst
    && if u.weight == 0 then 0 < l.weight <= maxWeight else l.weight == u.weight
  }

  ghost predicate AllResolve(log: seq<Update>, loaded: seq<Update>, maxWeight: int) {
    |loaded| == |log| && forall i | 0 <= i < |log| :: Resolves(log[i], loaded[i], maxWeight)
  }

  ghost function Flatten(vectors: seq<seq<Update>>): seq<Update> {
    if vectors == [] then [] else Flatten(vectors[..|vectors| - 1]) + vectors[|vectors| - 1]
  }

  ghost function Insertions(log: seq<Update>): nat {
    if log == [] then 0 else Insertions(log[..|log| - 1]) + if log[|log| - 1].weight >= 0 then 1 else 0
  }

  /** Appending to the last vector, or to a new one. */
  function Append(vectors: seq<seq<Update>>, u: Update): (r: seq<seq<Update>>)
    requires vectors != []
    ensures r != []
  {
    var last := vectors[|vectors| - 1];
    if |last| > LAST_MAX_SZ then vectors + [[u]]
    else vectors[..|vectors| - 1] + [last + [u]]
  }

  lemma FlattenAppend(vectors: seq<seq<Update>>, u: Update)
    requires vectors != []
    ensures Flatten(Append(vectors, u)) == Flatten(vectors) + [u]
  {
    var front, last := vectors[..|vectors| - 1], vectors[|vectors| - 1];
    if |last| > LAST_MAX_SZ {
      assert (vectors + [[u]])[..|vectors|] == vectors;
    } else {
      assert (front + [last + [u]])[..|front|] == front;
    }
  }

  /** What a worker still has to execute, and its two counters, after loading the log. */
  ghost predicate Loaded(id: nat, numThreads: nat, maxWeight: int, log: seq<Update>, vectors: seq<seq<Update>>, insertions: nat, deletions: nat) {
    && numThreads > 0
    && AllResolve(Select(log, Mine(id, numThreads)), Flatten(vectors), maxWeight)
    && insertions == Insertions(Select(log, Mine(id, numThreads)))
    && insertions + deletions == |Select(log, Mine(id, numThreads))|
  }

  lemma LoadedSkip(id: nat, numThreads: nat, maxWeight: int, log: seq<Update>, vectors: seq<seq<Update>>, ins: nat, del: nat, u: Update)
    requires Loaded(id, numThreads, maxWeight, log, vectors, ins, del) && Residue(u, numThreads) != id
    ensures Loaded(id, numThreads, maxWeight, log + [u], vectors, ins, del)
  {
    SelectSnoc(log, u, Mine(id, numThreads));
    var mine := Select(log, Mine(id, numThreads));
    assert mine + [] == mine;
  }

  lemma ResolveSnoc(log: seq<Update>, loaded: seq<Update>, maxWeight: int, u: Update, l: Update)
    requires AllResolve(log, loaded, maxWeight) && Resolves(u, l, maxWeight)
    ensures AllResolve(log + [u], loaded + [l], maxWeight)
  {}

  lemma InsertionsSnoc(log: seq<Update>, u: Update)
    ensures Insertions(log + [u]) == Insertions(log) + if u.weight >= 0 then 1 else 0
  {
    assert (log + [u])[..|log|] == log;
  }

  lemma LoadedTake(id: nat, numThreads: nat, maxWeight: int, log: seq<Update>, vectors: seq<seq<Update>>, ins: nat, del: nat, u: Update, l: Update)
    requires Loaded(id, numThreads, maxWeight, log, vectors, ins, del) && Residue(u, numThreads) == id
    requires vectors != [] && Resolves(u, l, maxWeight)
    ensures Loaded(id, numThreads, maxWeight, log + [u], Append(vectors, l),
                   ins + if u.weight >= 0 then 1 else 0, del + if u.weight >= 0 then 0 else 1)
  {
    var mine := Select(log, Mine(id, numThreads));
    SelectSnoc(log, u, Mine(id, numThreads));
    FlattenAppend(vectors, l);
    ResolveSnoc(mine, Flatten(vectors), maxWeight, u, l);
    InsertionsSnoc(mine, u);
  }

  // ---- Executing ----

  datatype Op = Insert(src: nat, dst: nat, weight: int) | Remove(src: nat, dst: nat)

  /** The call made for an update; on undirected graphs the end points may be swapped. */
  ghost predicate Performs(op: Op, u: Update, directed: bool) {
    && (op.Insert? <==> u.weight >= 0)
    && (op.Insert? ==> op.weight == u.weight)
    && ((op.src == u.src && op.dst == u.dst) || (!directed && op.src == u.dst && op.dst == u.src))
  }

  ghost predicate AllPerform(ops: seq<Op>, log: seq<Update>, directed: bool) {
    |ops| == |log| && forall i | 0 <= i < |ops| :: Performs(ops[i], log[i], directed)
  }

  /** After the updates offered, of which the worker performs no more than budget before it sees m_stop_experiment. */
  ghost predicate Executed(ops: seq<Op>, offered: seq<Update>, directed: bool, budget: nat) {
    AllPerform(ops, offered[..if |offered| < budget then |offered| else budget], directed)
  }

  lemma ExecutedSnoc(ops: seq<Op>, offered: seq<Update>, directed: bool, budget: nat, u: Update, op: Op)
    requires Executed(ops, offered, directed, budget) && Performs(op, u, directed)
    ensures Executed(if |ops| < budget then ops + [op] else ops, offered + [u], directed, budget)
  {
    var k := if |offered| < budget then |offered| else budget;
    if |ops| < budget {
      assert (offered + [u])[..k + 1] == offered[..k] + [u];
    } else {
      assert (offered + [u])[..budget] == offered[..budget];
    }
  }

  /** graph_insert_edge and graph_remove_edge: the call that is made. */
  method Perform(u: Update, directed: bool) returns (op: Op)
    ensures Performs(op, u, directed)
  {
    var swap: bool := *;
    var s, d := u.src, u.dst;
    if !directed && swap {
      s, d := d, s;
    }
    op := if u.weight >= 0 then Insert(s, d, u.weight) else Remove(s, d);
  }

  /** graph_execute_batch_updates0. */
  method ExecuteBatch(batch: seq<Update>, directed: bool, budget: nat, ops0: seq<Op>, ghost offered: seq<Update>) returns (ops: seq<Op>)
    requires Executed(ops0, offered, directed, budget)
    ensures Executed(ops, offered + batch, directed, budget)
  {
    ops := ops0;
    assert offered + batch[..0] == offered;
    for i := 0 to |batch|
      invariant Executed(ops, offered + batch[..i], directed, budget)
    {
      var op := Perform(batch[i], directed);
      ExecutedSnoc(ops, offered + batch[..i], directed, budget, batch[i], op);
      assert offered + batch[..i + 1] == offered + batch[..i] + [batch[i]];
      if |ops| >= budget {
        StopIsFinal(ops, offered, directed, budget, batch, i);
        return;
      }
      ops := ops + [op];
    }
    assert batch[..|batch|] == batch;
  }

  /** Once the flag is seen the rest of the batch is skipped. */
  lemma StopIsFinal(ops: seq<Op>, offered: seq<Update>, directed: bool, budget: nat, batch: seq<Update>, i: nat)
    requires i <= |batch| && Executed(ops, offered + batch[..i], directed, budget) && |ops| >= budget
    ensures Executed(ops, offered + batch, directed, budget)
  {
    assert (offered + batch)[..budget] == (offered + batch[..i])[..budget];
  }

  function CeilDiv(size: nat, granularity: nat): nat
    requires granularity > 0
  {
    size / granularity + if size % granularity != 0 then 1 else 0
  }

  /** Where chunk j starts. */
  ghost function ChunkStart(j: nat, granularity: nat, size: nat): nat {
    if j == 0 then 0
    else
      var next := ChunkStart(j - 1, granularity, size) + granularity;
      if next < size then next else size
  }

  lemma {:induction false} ChunkStartIs(j: nat, granularity: nat, size: nat)
    ensures ChunkStart(j, granularity, size) == if granularity * j < size then granularity * j else size
  {
    if j > 0 {
      ChunkStartIs(j - 1, granularity, size);
      assert granularity * j == granularity * (j - 1) + granularity;
    }
  }

  /** The chunks reach the end of the vector, and no chunk starts beyond it. */
  lemma LastChunk(granularity: nat, size: nat)
    requires granularity > 0
    ensures ChunkStart(CeilDiv(size, granularity), granularity, size) == size
  {
    var k := CeilDiv(size, granularity);
    ChunkStartIs(k, granularity, size);
    assert size == granularity * (size / granularity) + size % granularity;
    if size % granularity != 0 {
      assert granularity * k == granularity * (size / granularity) + granularity;
    }
  }

  lemma {:induction false} ChunkStartBound(j: nat, granularity: nat, size: nat)
    ensures ChunkStart(j, granularity, size) <= size
  {
    if j > 0 {
      ChunkStartBound(j - 1, granularity, size);
    }
  }

  /** The loop over the chunks of one vector, lines 236-270. */
  method ExecuteVector(operations: seq<Update>, granularity: nat, directed: bool, budget: nat, ops0: seq<Op>, ghost offered: seq<Update>)
    returns (ops: seq<Op>)
    requires granularity > 0 && Executed(ops0, offered, directed, budget)
    ensures Executed(ops, offered + operations, directed, budget)
  {
    ops := ops0;
    var numLoops := CeilDiv(|operations|, granularity);
    var start := 0;
    assert offered + operations[..0] == offered;
    for j := 0 to numLoops
      invariant start == ChunkStart(j, granularity, |operations|) <= |operations|
      invariant Executed(ops, offered + operations[..start], directed, budget)
    {
      var end := if start + granularity < |operations| then start + granularity else |operations|;
      ops := ExecuteBatch(operations[start..end], directed, budget, ops, offered + operations[..start]);
      assert offered + operations[..start] + operations[start..end] == offered + operations[..end];
      start := end;
    }
    LastChunk(granularity, |operations|);
    assert operations[..|operations|] == operations;
  }

  lemma FlattenSnoc(vectors: seq<seq<Update>>, i: nat)
    requires i < |vectors|
    ensures Flatten(vectors[..i + 1]) == Flatten(vectors[..i]) + vectors[i]
  {
    assert vectors[..i + 1][..i] == vectors[..i];
  }

  // ---- The worker ----

  /** A weight of 0 becomes a random one in [0, maxWeight), and maxWeight if that is 0 again. */
  method ResolveWeight(weight: int, maxWeight: int) returns (w: int)
    requires maxWeight > 0
    ensures if weight == 0 then 0 < w <= maxWeight else w == weight
  {
    w := weight;
    if weight == 0 {
      w := *;
      if !(0 < w < maxWeight) {
        w := maxWeight;
      }
    }
  }

  class Worker {
    const id: nat
    var updates: seq<seq<Update>>
    var numInsertions: nat
    var numDeletions: nat

    constructor (id: nat)
      ensures this.id == id && updates == [] && numInsertions == numDeletions == 0
    {
      this.id := id;
      updates, numInsertions, numDeletions := [], 0, 0;
    }

    /** The body of the loop of main_load_edges. */
    method LoadUpdate(u: Update, numThreads: nat, maxWeight: int, ghost log: seq<Update>)
      requires Loaded(id, numThreads, maxWeight, log, updates, numInsertions, numDeletions) && maxWeight > 0 && updates != []
      modifies this
      ensures Loaded(id, numThreads, maxWeight, log + [u], updates, numInsertions, numDeletions) && updates != []
    {
      if Residue(u, numThreads) == id {
        var weight := ResolveWeight(u.weight, maxWeight);
        var l := Update(u.src, u.dst, weight);
        LoadedTake(id, numThreads, maxWeight, log, updates, numInsertions, numDeletions, u, l);
        updates := Append(updates, l);
        if u.weight >= 0 {
          numInsertions := numInsertions + 1;
        } else {
          numDeletions := numDeletions + 1;
        }
      } else {
        LoadedSkip(id, numThreads, maxWeight, log, updates, numInsertions, numDeletions, u);
      }
    }

    /** main_load_edges: one block of the log. */
    method LoadEdges(edges: seq<Update>, numThreads: nat, maxWeight: int, ghost log: seq<Update>)
      requires Loaded(id, numThreads, maxWeight, log, updates, numInsertions, numDeletions) && maxWeight > 0
      modifies this
      ensures Loaded(id, numThreads, maxWeight, log + edges, updates, numInsertions, numDeletions)
    {
      if updates == [] {
        updates := [[]];
        assert updates[..0] == [] && Flatten(updates) == [];
      }
      assert log + edges[..0] == log;
      for i := 0 to |edges|
        invariant updates != []
        invariant Loaded(id, numThreads, maxWeight, log + edges[..i], updates, numInsertions, numDeletions)
      {
        assert log + edges[..i + 1] == log + edges[..i] + [edges[i]];
        LoadUpdate(edges[i], numThreads, maxWeight, log + edges[..i]);
      }
      assert edges[..|edges|] == edges;
    }

    /** main_execute_updates: in both memory modes, the updates loaded, in order, up to the stop. */
    method ExecuteUpdates(releaseMemory: bool, granularity: nat, directed: bool, budget: nat) returns (ops: seq<Op>)
      requires granularity > 0
      modifies this`updates
      ensures Executed(ops, Flatten(old(updates)), directed, budget)
      ensures updates == if releaseMemory then [] else old(updates)
    {
      ops := [];
      ghost var all := updates;
      var end := |updates|;
      for i := 0 to end
        invariant updates == if releaseMemory then all[i..] else all
        invariant Executed(ops, Flatten(all[..i]), directed, budget)
      {
        var operations := updates[if releaseMemory then 0 else i];
        FlattenSnoc(all, i);
        ops := ExecuteVector(operations, granularity, directed, budget, ops, Flatten(all[..i]));
        if releaseMemory {
          updates := updates[1..];
        }
      }
      assert all[..end] == all;
    }
  }

  /** loaded is what worker id makes of the log: the updates at the positions pos, in order, which are those whose
      end points add up, in 64 bits, to id modulo the number of threads. Only zero weights are changed. */
  ghost predicate IsShare(log: seq<Update>, id: nat, numThreads: nat, maxWeight: int, loaded: seq<Update>, pos: seq<nat>)
    requires numThreads > 0
  {
    && |pos| == |loaded|
    && (forall j, k | 0 <= j < k < |pos| :: pos[j] < pos[k])
    && (forall i | 0 <= i < |log| :: i in pos <==> ((log[i].src + log[i].dst) % 0x1_0000_0000_0000_0000) % numThreads == id)
    && forall k | 0 <= k < |pos| ::
         && pos[k] < |log|
         && loaded[k].src == log[pos[k]].src && loaded[k].dst == log[pos[k]].dst
         && (log[pos[k]].weight != 0 ==> loaded[k].weight == log[pos[k]].weight)
         && (log[pos[k]].weight == 0 ==> 0 < loaded[k].weight <= maxWeight)
  }

  lemma ShareOfWorker(log: seq<Update>, id: nat, numThreads: nat, maxWeight: int, loaded: seq<Update>) returns (pos: seq<nat>)
    requires numThreads > 0 && AllResolve(Select(log, Mine(id, numThreads)), loaded, maxWeight)
    ensures IsShare(log, id, numThreads, maxWeight, loaded, pos)
  {
    pos := SelectPositions(log, Mine(id, numThreads));
    forall k | 0 <= k < |pos|
      ensures pos[k] < |log| && Resolves(log[pos[k]], loaded[k], maxWeight)
    {}
  }

  /** What LoadEdges has left in the vectors of a worker after the log. */
  lemma LoadedShare(id: nat, numThreads: nat, maxWeight: int, log: seq<Update>, vectors: seq<seq<Update>>, insertions: nat, deletions: nat)
    returns (pos: seq<nat>)
    requires Loaded(id, numThreads, maxWeight, log, vectors, insertions, deletions)
    ensures IsShare(log, id, numThreads, maxWeight, Flatten(vectors), pos) && insertions + deletions == |pos|
  {
    pos := ShareOfWorker(log, id, numThreads, maxWeight, Flatten(vectors));
  }

  /** Aging2Master: the blocks of the log are handed to the worker one after the other, then executed. */
  method RunWorker(id: nat, blocks: seq<seq<Update>>, numThreads: nat, maxWeight: int,
                   releaseMemory: bool, granularity: nat, directed: bool, budget: nat)
    returns (ops: seq<Op>, ghost loaded: seq<Update>, ghost pos: seq<nat>)
    requires numThreads > 0 && maxWeight > 0 && granularity > 0
    ensures IsShare(Flatten(blocks), id, numThreads, maxWeight, loaded, pos)
    ensures AllResolve(Select(Flatten(blocks), Mine(id, numThreads)), loaded, maxWeight)
    ensures Executed(ops, loaded, directed, budget)
  {
    var worker := new Worker(id);
    assert blocks[..0] == [];
    for i := 0 to |blocks|
      invariant fresh(worker) && worker.id == id
      invariant Loaded(id, numThreads, maxWeight, Flatten(blocks[..i]), worker.updates, worker.numInsertions, worker.numDeletions)
    {
      FlattenSnoc(blocks, i);
      worker.LoadEdges(blocks[i], numThreads, maxWeight, Flatten(blocks[..i]));
    }
    assert blocks[..|blocks|] == blocks;
    loaded := Flatten(worker.updates);
    pos := ShareOfWorker(Flatten(blocks), id, numThreads, maxWeight, loaded);
    ops := worker.ExecuteUpdates(releaseMemory, granularity, directed, budget);
  }

  /** pos names the qualifying positions of the log, in order, and the selection holds their updates. */
  ghost predicate ArePositions(log: seq<Update>, f: Update -> bool, pos: seq<nat>, selection: seq<Update>) {
    && |pos| == |selection|
    && (forall i, j | 0 <= i < j < |pos| :: pos[i] < pos[j])
    && (forall k | 0 <= k < |pos| :: pos[k] < |log| && log[pos[k]] == selection[k])
    && forall i | 0 <= i < |log| :: i in pos <==> f(log[i])
  }

  lemma PositionTaken(log: seq<Update>, f: Update -> bool, pos: seq<nat>, selection: seq<Update>, u: Update)
    requires ArePositions(log, f, pos, selection) && f(u)
    ensures ArePositions(log + [u], f, pos + [|log|], selection + [u])
  {
    forall i | 0 <= i < |log + [u]|
      ensures i in pos + [|log|] <==> f((log + [u])[i])
    {
      assert i in pos + [|log|] <==> i in pos || i == |log|;
      assert |log| !in pos;
    }
  }

  lemma PositionSkipped(log: seq<Update>, f: Update -> bool, pos: seq<nat>, selection: seq<Update>, u: Update)
    requires ArePositions(log, f, pos, selection) && !f(u)
    ensures ArePositions(log + [u], f, pos, selection)
  {
    assert |log| !in pos;
  }

  /** A selection lists, in order, exactly the updates of the log that qualify. */
  lemma {:induction false} SelectPositions(log: seq<Update>, f: Update -> bool) returns (pos: seq<nat>)
    ensures ArePositions(log, f, pos, Select(log, f))
  {
    if log == [] {
      pos := [];
    } else {
      var front, u := log[..|log| - 1], log[|log| - 1];
      pos := SelectPositions(front, f);
      assert log == front + [u];
      SelectSnoc(front, u, f);
      if f(u) {
        PositionTaken(front, f, pos, Select(front, f), u);
        pos := pos + [|front|];
      } else {
        PositionSkipped(front, f, pos, Select(front, f), u);
        assert Select(front, f) + [] == Select(front, f);
      }
    }
  }

  // ---- Which updates are executed at all ----

  /** A worker exists for the update: their ids run from 1 to numThreads - 1. */
  ghost predicate Served(u: Update, numThreads: nat)
    requires numThreads > 0
  {
    exists id: nat :: 1 <= id < numThreads && Mine(id, numThreads)(u)
  }

  lemma ServedIff(u: Update, numThreads: nat)
    requires numThreads > 0
    ensures Served(u, numThreads) <==> ((u.src + u.dst) % U64) % numThreads != 0
  {
    if Residue(u, numThreads) != 0 {
      assert Mine(Residue(u, numThreads), numThreads)(u);
    }
  }

  // ---- The effect of a log on the graph ----

  ghost function After(directed: bool, e: AL.EdgeMap, u: Update): AL.EdgeMap {
    if u.src == u.dst then e
    else if u.weight >= 0 then AL.Insert(directed, e, u.src, u.dst, u.weight)
    else AL.Delete(directed, e, u.src, u.dst)
  }

  ghost function Apply(directed: bool, e: AL.EdgeMap, log: seq<Update>): AL.EdgeMap {
    if log == [] then e else After(directed, Apply(directed, e, log[..|log| - 1]), log[|log| - 1])
  }

  ghost function AfterOp(directed: bool, e: AL.EdgeMap, op: Op): AL.EdgeMap {
    match op
    case Insert(s, d, w) => if s == d then e else AL.Insert(directed, e, s, d, w)
    case Remove(s, d) => if s == d then e else AL.Delete(directed, e, s, d)
  }

  /** The call on the reference engine: add_edge_v2 throws for a loop, remove_edge does not find one. */
  method PerformOn(list: AL.AdjacencyList, op: Op)
    requires list.Valid()
    modifies list
    ensures list.Valid() && list.edges == AfterOp(list.directed, old(list.edges), op)
  {
    if op.Insert? {
      var _ := list.AddEdgeV2(op.src, op.dst, op.weight);
    } else {
      AbsentBothWays(list.directed, list.nodes, list.edges, op.src, op.dst);
      var _ := list.RemoveEdge(op.src, op.dst);
    }
  }

  lemma AbsentBothWays(directed: bool, nodes: AL.NodeList, e: AL.EdgeMap, s: nat, d: nat)
    requires AL.Represents(directed, nodes, e)
    ensures (s, s) !in e && ((s, d) !in e ==> AL.Delete(directed, e, s, d) == e)
  {
    if !directed && (d, s) in e {
      assert AL.Has(e, d, s, e[(d, s)]);
    }
  }

  /** Swapping the end points of an undirected update changes nothing. */
  lemma SwapIsHarmless(directed: bool, e: AL.EdgeMap, op: Op, u: Update)
    requires Performs(op, u, directed)
    ensures AfterOp(directed, e, op) == After(directed, e, u)
  {}

  /** The updates between s and d, in either direction. */
  ghost function OnPair(s: nat, d: nat): Update -> bool {
    (u: Update) => (u.src == s && u.dst == d) || (u.src == d && u.dst == s)
  }

  ghost predicate Agree(a: AL.EdgeMap, b: AL.EdgeMap, s: nat, d: nat) {
    ((s, d) in a <==> (s, d) in b) && ((s, d) in a ==> a[(s, d)] == b[(s, d)])
  }

  lemma AfterIsLocal(directed: bool, a: AL.EdgeMap, b: AL.EdgeMap, u: Update, s: nat, d: nat)
    requires Agree(a, b, s, d)
    ensures Agree(After(directed, a, u), After(directed, b, u), s, d)
    ensures !OnPair(s, d)(u) ==> Agree(After(directed, a, u), b, s, d)
  {}

  /** The edge between s and d depends on the updates between s and d only. */
  lemma {:induction false} PairDecides(directed: bool, e: AL.EdgeMap, log: seq<Update>, s: nat, d: nat)
    ensures Agree(Apply(directed, e, log), Apply(directed, e, Select(log, OnPair(s, d))), s, d)
  {
    if log != [] {
      var front, u := log[..|log| - 1], log[|log| - 1];
      PairDecides(directed, e, front, s, d);
      var mine := Select(front, OnPair(s, d));
      AfterIsLocal(directed, Apply(directed, e, front), Apply(directed, e, mine), u, s, d);
      if OnPair(s, d)(u) {
        assert (mine + [u])[..|mine|] == mine;
      } else {
        assert mine + [] == mine;
      }
    }
  }

  /** Both logs hold the same updates of every pair of vertices, in the same order. */
  ghost predicate SameByPair(a: seq<Update>, b: seq<Update>) {
    forall s: nat, d: nat :: Select(a, OnPair(s, d)) == Select(b, OnPair(s, d))
  }

  lemma SamePairsSameGraph(directed: bool, e: AL.EdgeMap, a: seq<Update>, b: seq<Update>)
    requires SameByPair(a, b)
    ensures Apply(directed, e, a) == Apply(directed, e, b)
  {
    var x, y := Apply(directed, e, a), Apply(directed, e, b);
    forall s: nat, d: nat
      ensures Agree(x, y, s, d)
    {
      PairDecides(directed, e, a, s, d);
      PairDecides(directed, e, b, s, d);
    }
    SameGraph(x, y);
  }

  lemma SameGraph(x: AL.EdgeMap, y: AL.EdgeMap)
    requires forall s: nat, d: nat :: Agree(x, y, s, d)
    ensures x == y
  {
    forall p: (nat, nat)
      ensures (p in x <==> p in y) && (p in x ==> x[p] == y[p])
    {
      assert Agree(x, y, p.0, p.1);
    }
  }

  // ---- Interleavings of the workers ----

  /** merged is what some schedule of the workers executes: every worker its share of the log, in order. */
  ghost predicate IsSchedule(merged: seq<Update>, log: seq<Update>, numThreads: nat)
    requires numThreads > 0
  {
    && (forall id: nat | 1 <= id < numThreads :: Select(merged, Mine(id, numThreads)) == Select(log, Mine(id, numThreads)))
    && forall i | 0 <= i < |merged| :: Served(merged[i], numThreads)
  }

  lemma {:induction false} SelectTwice(log: seq<Update>, f: Update -> bool, g: Update -> bool)
    requires forall u :: g(u) ==> f(u)
    ensures Select(Select(log, f), g) == Select(log, g)
  {
    if log != [] {
      var front, u := log[..|log| - 1], log[|log| - 1];
      SelectTwice(front, f, g);
      SelectSnoc(Select(front, f), u, g);
      if !f(u) {
        assert Select(front, f) + [] == Select(front, f);
        assert Select(front, g) + [] == Select(front, g);
      }
    }
  }

  lemma {:induction false} SelectNothing(log: seq<Update>, f: Update -> bool)
    requires forall i | 0 <= i < |log| :: !f(log[i])
    ensures Select(log, f) == []
  {
    if log != [] {
      SelectNothing(log[..|log| - 1], f);
    }
  }

  /** An edge and its reverse belong to the same worker. */
  lemma PairHasOneWorker(s: nat, d: nat, u: Update, numThreads: nat)
    requires numThreads > 0 && OnPair(s, d)(u)
    ensures Residue(u, numThreads) == Residue(Update(s, d, 0), numThreads)
  {}

  lemma {:induction false} ScheduleByPair(merged: seq<Update>, log: seq<Update>, numThreads: nat, s: nat, d: nat)
    requires numThreads > 0 && IsSchedule(merged, log, numThreads) && Residue(Update(s, d, 0), numThreads) != 0
    ensures Select(merged, OnPair(s, d)) == Select(log, OnPair(s, d))
  {
    var id := Residue(Update(s, d, 0), numThreads);
    forall u | OnPair(s, d)(u)
      ensures Mine(id, numThreads)(u)
    {
      PairHasOneWorker(s, d, u, numThreads);
    }
    SelectTwice(merged, Mine(id, numThreads), OnPair(s, d));
    SelectTwice(log, Mine(id, numThreads), OnPair(s, d));
  }

  lemma UnservedPair(merged: seq<Update>, log: seq<Update>, numThreads: nat, s: nat, d: nat)
    requires numThreads > 0 && IsSchedule(merged, log, numThreads) && Residue(Update(s, d, 0), numThreads) == 0
    ensures Select(merged, OnPair(s, d)) == []
  {
    forall i | 0 <= i < |merged|
      ensures !OnPair(s, d)(merged[i])
    {
      ServedIff(merged[i], numThreads);
      if OnPair(s, d)(merged[i]) {
        PairHasOneWorker(s, d, merged[i], numThreads);
      }
    }
    SelectNothing(merged, OnPair(s, d));
  }

  ghost function HasWorker(numThreads: nat): Update -> bool
    requires numThreads > 0
  {
    (u: Update) => ((u.src + u.dst) % U64) % numThreads != 0
  }

  /** Whatever the schedule, the workers leave the graph that replaying the log in order leaves, without the
      updates nobody serves. */
  lemma ScheduleDoesNotMatter(directed: bool, e: AL.EdgeMap, merged: seq<Update>, log: seq<Update>, numThreads: nat)
    requires numThreads > 0 && IsSchedule(merged, log, numThreads)
    ensures Apply(directed, e, merged) == Apply(directed, e, Select(log, HasWorker(numThreads)))
  {
    var served := Select(log, HasWorker(numThreads));
    forall s: nat, d: nat
      ensures Select(merged, OnPair(s, d)) == Select(served, OnPair(s, d))
    {
      if Residue(Update(s, d, 0), numThreads) == 0 {
        UnservedPair(merged, log, numThreads, s, d);
        UnservedSelection(log, numThreads, s, d);
      } else {
        forall u | OnPair(s, d)(u)
          ensures HasWorker(numThreads)(u)
        {
          PairHasOneWorker(s, d, u, numThreads);
        }
        SelectTwice(log, HasWorker(numThreads), OnPair(s, d));
        ScheduleByPair(merged, log, numThreads, s, d);
      }
    }
    SamePairsSameGraph(directed, e, merged, served);
  }

  lemma {:induction false} SelectedQualify(log: seq<Update>, f: Update -> bool)
    ensures forall i | 0 <= i < |Select(log, f)| :: f(Select(log, f)[i])
  {
    if log != [] {
      SelectedQualify(log[..|log| - 1], f);
    }
  }

  lemma UnservedSelection(log: seq<Update>, numThreads: nat, s: nat, d: nat)
    requires numThreads > 0 && Residue(Update(s, d, 0), numThreads) == 0
    ensures Select(Select(log, HasWorker(numThreads)), OnPair(s, d)) == []
  {
    var served := Select(log, HasWorker(numThreads));
    SelectedQualify(log, HasWorker(numThreads));
    forall i | 0 <= i < |served|
      ensures !OnPair(s, d)(served[i])
    {
      if OnPair(s, d)(served[i]) {
        PairHasOneWorker(s, d, served[i], numThreads);
      }
    }
    SelectNothing(served, OnPair(s, d));
  }

  // ---- Deletions find their edge ----

  /** Every deletion removes an edge that is there: graph_remove_edge repeats a call that fails. */
  ghost predicate DeletionsSucceed(directed: bool, e: AL.EdgeMap, log: seq<Update>) {
    forall i | 0 <= i < |log| && log[i].weight < 0 :: (log[i].src, log[i].dst) in Apply(directed, e, log[..i])
  }

  lemma {:induction false} SelectIndex(log: seq<Update>, f: Update -> bool, k: nat) returns (i: nat)
    requires k < |Select(log, f)|
    ensures i < |log| && log[i] == Select(log, f)[k] && f(log[i])
    ensures Select(log[..i], f) == Select(log, f)[..k]
  {
    var last := |log| - 1;
    if k < |Select(log[..last], f)| {
      i := SelectIndex(log[..last], f, k);
      assert log[..last][..i] == log[..i];
    } else {
      i := last;
    }
  }

  lemma {:induction false} SelectPrefix(log: seq<Update>, f: Update -> bool, j: nat)
    requires j < |log| && f(log[j])
    ensures Select(log[..j], f) + [log[j]] <= Select(log, f)
    decreases |log|
  {
    var front := log[..|log| - 1];
    if j < |front| {
      SelectPrefix(front, f, j);
      assert front[..j] == log[..j];
    }
  }

  /** Deletions that succeed in the log succeed under every schedule. */
  lemma DeletionsStaySafe(directed: bool, e: AL.EdgeMap, a: seq<Update>, b: seq<Update>)
    requires SameByPair(a, b) && DeletionsSucceed(directed, e, a)
    ensures DeletionsSucceed(directed, e, b)
  {
    forall j | 0 <= j < |b| && b[j].weight < 0
      ensures (b[j].src, b[j].dst) in Apply(directed, e, b[..j])
    {
      var s, d := b[j].src, b[j].dst;
      var f := OnPair(s, d);
      assert f(b[j]);
      SelectPrefix(b, f, j);
      var k := |Select(b[..j], f)|;
      var i := SelectIndex(a, f, k);
      assert Select(a[..i], f) == Select(b[..j], f);
      PairDecides(directed, e, a[..i], s, d);
      PairDecides(directed, e, b[..j], s, d);
      assert a[i] == b[j];
    }
  }

  lemma ScheduleKeepsPairs(merged: seq<Update>, log: seq<Update>, numThreads: nat)
    requires numThreads > 0 && IsSchedule(merged, log, numThreads)
    requires forall i | 0 <= i < |log| :: Served(log[i], numThreads)
    ensures SameByPair(merged, log)
  {
    forall s: nat, d: nat
      ensures Select(merged, OnPair(s, d)) == Select(log, OnPair(s, d))
    {
      if Residue(Update(s, d, 0), numThreads) == 0 {
        UnservedPair(merged, log, numThreads, s, d);
        UnservedPair(log, log, numThreads, s, d);
      } else {
        ScheduleByPair(merged, log, numThreads, s, d);
      }
    }
  }

  /** When every update has a worker, all schedules leave the graph of the sequential replay, and no deletion
      that succeeds there ever fails. */
  lemma ServedLogIsReplayed(directed: bool, e: AL.EdgeMap, merged: seq<Update>, log: seq<Update>, numThreads: nat)
    requires numThreads > 0 && IsSchedule(merged, log, numThreads)
    requires forall i | 0 <= i < |log| :: Served(log[i], numThreads)
    ensures Apply(directed, e, merged) == Apply(directed, e, log)
    ensures DeletionsSucceed(directed, e, log) ==> DeletionsSucceed(directed, e, merged)
  {
    ScheduleKeepsPairs(merged, log, numThreads);
    SamePairsSameGraph(directed, e, merged, log);
    if DeletionsSucceed(directed, e, log) {
      DeletionsStaySafe(directed, e, log, merged);
    }
  }

  // ---- From the operations of the workers to a schedule ----

  /** The entries of worker id: who[k] made entry k. */
  ghost function Project<T>(merged: seq<T>, who: seq<nat>, id: nat): seq<T>
    requires |merged| == |who|
  {
    if merged == [] then []
    else
      var last := |merged| - 1;
      Project(merged[..last], who[..last], id) + if who[last] == id then [merged[last]] else []
  }

  /** An interleaving of the lists of the workers 1, 2, ...; nobody has the number 0. */
  ghost predicate Interleaves<T>(merged: seq<T>, who: seq<nat>, lists: seq<seq<T>>) {
    && |who| == |merged|
    && (forall k | 0 <= k < |who| :: 1 <= who[k] < |lists|)
    && forall id: nat | 1 <= id < |lists| :: Project(merged, who, id) == lists[id]
  }

  /** What RunWorker ensures for every worker of an experiment that is not stopped early. */
  ghost predicate WorkersRan(log: seq<Update>, numThreads: nat, maxWeight: int, directed: bool, loaded: seq<seq<Update>>, ops: seq<seq<Op>>) {
    && 0 < numThreads == |loaded| == |ops| && maxWeight > 0
    && forall id: nat | 1 <= id < numThreads :: WorkerRan(log, numThreads, maxWeight, directed, id, loaded[id], ops[id])
  }

  ghost predicate WorkerRan(log: seq<Update>, numThreads: nat, maxWeight: int, directed: bool, id: nat, loaded: seq<Update>, ops: seq<Op>) {
    && numThreads > 0
    && AllResolve(Select(log, Mine(id, numThreads)), loaded, maxWeight)
    && AllPerform(ops, loaded, directed)
  }

  /** The shares of the workers are those of the log L. */
  ghost predicate SharesOf(L: seq<Update>, numThreads: nat, loaded: seq<seq<Update>>) {
    && 0 < numThreads == |loaded|
    && forall id: nat | 1 <= id < numThreads :: Select(L, Mine(id, numThreads)) == loaded[id]
  }

  ghost predicate SharesResolve(log: seq<Update>, numThreads: nat, maxWeight: int, loaded: seq<seq<Update>>) {
    && 0 < numThreads == |loaded|
    && forall id: nat | 1 <= id < numThreads :: AllResolve(Select(log, Mine(id, numThreads)), loaded[id], maxWeight)
  }

  lemma SharesStep(front: seq<Update>, u: Update, numThreads: nat, maxWeight: int, loaded: seq<seq<Update>>, id: nat)
    requires SharesResolve(front + [u], numThreads, maxWeight, loaded) && id == Residue(u, numThreads)
    ensures id == 0 ==> SharesResolve(front, numThreads, maxWeight, loaded)
    ensures id > 0 ==> |loaded[id]| > 0 && Resolves(u, loaded[id][|loaded[id]| - 1], maxWeight)
    ensures id > 0 ==> SharesResolve(front, numThreads, maxWeight, loaded[id := loaded[id][..|loaded[id]| - 1]])
  {
    forall j: nat | 1 <= j < numThreads
      ensures AllResolve(Select(front, Mine(j, numThreads)) + if j == id then [u] else [], loaded[j], maxWeight)
    {
      SelectSnoc(front, u, Mine(j, numThreads));
    }
    forall j: nat | 1 <= j < numThreads && j != id
      ensures AllResolve(Select(front, Mine(j, numThreads)), loaded[j], maxWeight)
    {
      assert Select(front, Mine(j, numThreads)) + [] == Select(front, Mine(j, numThreads));
    }
    if id > 0 {
      DropLast(Select(front, Mine(id, numThreads)), u, loaded[id], maxWeight);
    }
  }

  lemma DropLast(front: seq<Update>, u: Update, loaded: seq<Update>, maxWeight: int)
    requires AllResolve(front + [u], loaded, maxWeight)
    ensures |loaded| == |front| + 1 && Resolves(u, loaded[|front|], maxWeight) && AllResolve(front, loaded[..|front|], maxWeight)
  {
    assert (front + [u])[|front|] == u;
    forall i | 0 <= i < |front|
      ensures Resolves(front[i], loaded[i], maxWeight)
    {
      assert (front + [u])[i] == front[i];
    }
  }

  lemma SharesSnoc(L: seq<Update>, l: Update, numThreads: nat, loaded: seq<seq<Update>>, id: nat, loaded': seq<seq<Update>>)
    requires SharesOf(L, numThreads, loaded') && id == Residue(l, numThreads) && |loaded| == numThreads
    requires id == 0 ==> loaded' == loaded
    requires id > 0 ==> |loaded[id]| > 0 && loaded' == loaded[id := loaded[id][..|loaded[id]| - 1]] && l == loaded[id][|loaded[id]| - 1]
    ensures SharesOf(L + [l], numThreads, loaded)
  {
    forall j: nat | 1 <= j < numThreads
      ensures Select(L + [l], Mine(j, numThreads)) == loaded[j]
    {
      SelectSnoc(L, l, Mine(j, numThreads));
      assert Select(L, Mine(j, numThreads)) == loaded'[j];
      assert loaded'[j] + [] == loaded'[j];
    }
  }

  /** The resolved updates of all workers are those of one resolved log. */
  lemma {:induction false} ResolvedLog(log: seq<Update>, numThreads: nat, maxWeight: int, loaded: seq<seq<Update>>) returns (L: seq<Update>)
    requires SharesResolve(log, numThreads, maxWeight, loaded) && maxWeight > 0
    ensures AllResolve(log, L, maxWeight) && SharesOf(L, numThreads, loaded)
  {
    if log == [] {
      L := [];
    } else {
      var front, u := log[..|log| - 1], log[|log| - 1];
      assert log == front + [u];
      var id := Residue(u, numThreads);
      SharesStep(front, u, numThreads, maxWeight, loaded, id);
      var rest, l := loaded, Update(u.src, u.dst, if u.weight == 0 then maxWeight else u.weight);
      if id > 0 {
        l := loaded[id][|loaded[id]| - 1];
        rest := loaded[id := loaded[id][..|loaded[id]| - 1]];
      }
      L := ResolvedLog(front, numThreads, maxWeight, rest);
      SharesSnoc(L, l, numThreads, loaded, id, rest);
      L := L + [l];
    }
  }

  lemma {:induction false} ProjectMember<T>(merged: seq<T>, who: seq<nat>, k: nat)
    requires k < |merged| == |who|
    ensures merged[k] in Project(merged, who, who[k])
  {
    if k < |merged| - 1 {
      ProjectMember(merged[..|merged| - 1], who[..|merged| - 1], k);
    }
  }

  lemma InterleavesFront<T>(merged: seq<T>, who: seq<nat>, lists: seq<seq<T>>)
    requires Interleaves(merged, who, lists) && merged != []
    ensures var last, id := |merged| - 1, who[|merged| - 1];
            && |lists[id]| > 0 && lists[id][|lists[id]| - 1] == merged[last]
            && Interleaves(merged[..last], who[..last], lists[id := lists[id][..|lists[id]| - 1]])
  {
    var last, id := |merged| - 1, who[|merged| - 1];
    assert Project(merged, who, id) == Project(merged[..last], who[..last], id) + [merged[last]];
    forall j: nat | 1 <= j < |lists| && j != id
      ensures Project(merged[..last], who[..last], j) == lists[j]
    {
      assert Project(merged, who, j) == Project(merged[..last], who[..last], j) + [];
    }
  }

  lemma InterleavesSnoc<T>(merged: seq<T>, who: seq<nat>, lists: seq<seq<T>>, x: T, id: nat, lists': seq<seq<T>>)
    requires Interleaves(merged, who, lists) && 1 <= id < |lists| && lists' == lists[id := lists[id] + [x]]
    ensures Interleaves(merged + [x], who + [id], lists')
  {
    assert (merged + [x])[..|merged|] == merged && (who + [id])[..|merged|] == who;
    forall j: nat | 1 <= j < |lists|
      ensures Project(merged + [x], who + [id], j) == lists'[j]
    {
      assert Project(merged, who, j) == lists[j];
      assert lists[j] + [] == lists[j];
    }
  }

  ghost predicate ListsPerform(ops: seq<seq<Op>>, loaded: seq<seq<Update>>, directed: bool) {
    |ops| == |loaded| && forall id: nat | 1 <= id < |ops| :: AllPerform(ops[id], loaded[id], directed)
  }

  lemma PerformFront(ops: seq<seq<Op>>, loaded: seq<seq<Update>>, directed: bool, id: nat)
    requires ListsPerform(ops, loaded, directed) && 1 <= id < |ops| && |ops[id]| > 0
    ensures |loaded[id]| == |ops[id]| && Performs(ops[id][|ops[id]| - 1], loaded[id][|ops[id]| - 1], directed)
    ensures ListsPerform(ops[id := ops[id][..|ops[id]| - 1]], loaded[id := loaded[id][..|ops[id]| - 1]], directed)
  {}

  lemma PerformSnoc(ops: seq<Op>, updates: seq<Update>, directed: bool, op: Op, u: Update)
    requires AllPerform(ops, updates, directed) && Performs(op, u, directed)
    ensures AllPerform(ops + [op], updates + [u], directed)
  {}

  lemma BehindNothing(who: seq<nat>, ops: seq<seq<Op>>, loaded: seq<seq<Update>>, directed: bool)
    requires Interleaves([], who, ops) && ListsPerform(ops, loaded, directed)
    ensures Interleaves<Update>([], who, loaded)
  {
    forall id: nat | 1 <= id < |loaded|
      ensures loaded[id] == []
    {
      assert Project<Op>([], who, id) == ops[id];
      assert AllPerform(ops[id], loaded[id], directed);
    }
  }

  lemma BehindLast(who: seq<nat>, loaded: seq<seq<Update>>, id: nat, shorter: seq<seq<Update>>, updates: seq<Update>)
    requires who != [] && id == who[|who| - 1] < |loaded| && 1 <= id && |loaded[id]| > 0
    requires shorter == loaded[id := loaded[id][..|loaded[id]| - 1]] && Interleaves(updates, who[..|who| - 1], shorter)
    ensures Interleaves(updates + [loaded[id][|loaded[id]| - 1]], who, loaded)
  {
    var x := loaded[id][|loaded[id]| - 1];
    assert loaded[id] == shorter[id] + [x];
    assert loaded == shorter[id := shorter[id] + [x]];
    InterleavesSnoc(updates, who[..|who| - 1], shorter, x, id, loaded);
    assert who == who[..|who| - 1] + [id];
  }

  /** The updates behind an interleaving of operations, interleaved in the same way. */
  lemma {:induction false} Behind(merged: seq<Op>, who: seq<nat>, ops: seq<seq<Op>>, loaded: seq<seq<Update>>, directed: bool)
    returns (updates: seq<Update>)
    requires Interleaves(merged, who, ops) && ListsPerform(ops, loaded, directed)
    ensures Interleaves(updates, who, loaded) && AllPerform(merged, updates, directed)
  {
    if merged == [] {
      updates := [];
      BehindNothing(who, ops, loaded, directed);
    } else {
      var last, id := |merged| - 1, who[|merged| - 1];
      InterleavesFront(merged, who, ops);
      var k := |ops[id]| - 1;
      PerformFront(ops, loaded, directed, id);
      var shorter := loaded[id := loaded[id][..k]];
      var front := Behind(merged[..last], who[..last], ops[id := ops[id][..k]], shorter, directed);
      BehindLast(who, loaded, id, shorter, front);
      PerformSnoc(merged[..last], front, directed, merged[last], loaded[id][k]);
      assert merged == merged[..last] + [merged[last]];
      updates := front + [loaded[id][k]];
    }
  }

  lemma {:induction false} ProjectIsSelect(updates: seq<Update>, who: seq<nat>, numThreads: nat, id: nat)
    requires numThreads > 0 && |who| == |updates| && forall k | 0 <= k < |who| :: Residue(updates[k], numThreads) == who[k]
    ensures Project(updates, who, id) == Select(updates, Mine(id, numThreads))
  {
    if updates != [] {
      ProjectIsSelect(updates[..|updates| - 1], who[..|updates| - 1], numThreads, id);
    }
  }

  lemma OwnerIsResidue(updates: seq<Update>, who: seq<nat>, L: seq<Update>, numThreads: nat, loaded: seq<seq<Update>>, k: nat)
    requires Interleaves(updates, who, loaded) && SharesOf(L, numThreads, loaded) && k < |who|
    ensures Residue(updates[k], numThreads) == who[k]
  {
    ProjectMember(updates, who, k);
    var share := Select(L, Mine(who[k], numThreads));
    SelectedQualify(L, Mine(who[k], numThreads));
    assert updates[k] in share;
    var i :| 0 <= i < |share| && share[i] == updates[k];
    assert Mine(who[k], numThreads)(share[i]);
  }

  lemma InterleavingIsSchedule(updates: seq<Update>, who: seq<nat>, L: seq<Update>, numThreads: nat, loaded: seq<seq<Update>>)
    requires Interleaves(updates, who, loaded) && SharesOf(L, numThreads, loaded)
    ensures IsSchedule(updates, L, numThreads)
  {
    forall k: nat | k < |who|
      ensures Residue(updates[k], numThreads) == who[k] && Served(updates[k], numThreads)
    {
      OwnerIsResidue(updates, who, L, numThreads, loaded, k);
      ServedIff(updates[k], numThreads);
    }
    forall id: nat | 1 <= id < numThreads
      ensures Select(updates, Mine(id, numThreads)) == Select(L, Mine(id, numThreads))
    {
      ProjectIsSelect(updates, who, numThreads, id);
    }
  }

  // ---- The graph the workers leave ----

  ghost function ApplyOps(directed: bool, e: AL.EdgeMap, ops: seq<Op>): AL.EdgeMap {
    if ops == [] then e else AfterOp(directed, ApplyOps(directed, e, ops[..|ops| - 1]), ops[|ops| - 1])
  }

  /** One schedule of the workers, on the reference engine. */
  method PerformAll(list: AL.AdjacencyList, ops: seq<Op>)
    requires list.Valid()
    modifies list
    ensures list.Valid() && list.edges == ApplyOps(list.directed, old(list.edges), ops)
  {
    for i := 0 to |ops|
      invariant list.Valid() && list.edges == ApplyOps(list.directed, old(list.edges), ops[..i])
    {
      assert ops[..i + 1][..i] == ops[..i];
      PerformOn(list, ops[i]);
    }
    assert ops[..|ops|] == ops;
  }

  lemma {:induction false} OpsApplyUpdates(directed: bool, e: AL.EdgeMap, ops: seq<Op>, updates: seq<Update>)
    requires AllPerform(ops, updates, directed)
    ensures ApplyOps(directed, e, ops) == Apply(directed, e, updates)
  {
    if ops != [] {
      var k := |ops| - 1;
      OpsApplyUpdates(directed, e, ops[..k], updates[..k]);
      SwapIsHarmless(directed, Apply(directed, e, updates[..k]), ops[k], updates[k]);
    }
  }

  lemma RanShares(log: seq<Update>, numThreads: nat, maxWeight: int, directed: bool, loaded: seq<seq<Update>>, ops: seq<seq<Op>>)
    requires WorkersRan(log, numThreads, maxWeight, directed, loaded, ops)
    ensures SharesResolve(log, numThreads, maxWeight, loaded) && ListsPerform(ops, loaded, directed)
  {
    forall id: nat | 1 <= id < numThreads
      ensures AllResolve(Select(log, Mine(id, numThreads)), loaded[id], maxWeight) && AllPerform(ops[id], loaded[id], directed)
    {
      assert WorkerRan(log, numThreads, maxWeight, directed, id, loaded[id], ops[id]);
    }
  }

  /** However the operations of the workers are interleaved, they leave the graph of one resolved log, replayed in
      order without the updates nobody serves. */
  lemma WorkersReplayTheLog(log: seq<Update>, numThreads: nat, maxWeight: int, directed: bool, loaded: seq<seq<Update>>, ops: seq<seq<Op>>)
    returns (L: seq<Update>)
    requires WorkersRan(log, numThreads, maxWeight, directed, loaded, ops)
    ensures AllResolve(log, L, maxWeight)
    ensures forall e, merged, who | Interleaves(merged, who, ops) ::
              ApplyOps(directed, e, merged) == Apply(directed, e, Select(L, HasWorker(numThreads)))
  {
    RanShares(log, numThreads, maxWeight, directed, loaded, ops);
    L := ResolvedLog(log, numThreads, maxWeight, loaded);
    forall e, merged, who | Interleaves(merged, who, ops)
      ensures ApplyOps(directed, e, merged) == Apply(directed, e, Select(L, HasWorker(numThreads)))
    {
      var updates := Behind(merged, who, ops, loaded, directed);
      InterleavingIsSchedule(updates, who, L, numThreads, loaded);
      OpsApplyUpdates(directed, e, merged, updates);
      ScheduleDoesNotMatter(directed, e, updates, L, numThreads);
    }
  }

  // ---- The deletions of the workers ----

  /** Every call to remove an edge finds it. */
  ghost predicate RemovalsSucceed(directed: bool, e: AL.EdgeMap, ops: seq<Op>) {
    forall i | 0 <= i < |ops| && ops[i].Remove? :: (ops[i].src, ops[i].dst) in ApplyOps(directed, e, ops[..i])
  }

  ghost predicate Symmetric(directed: bool, e: AL.EdgeMap) {
    !directed ==> forall s: nat, d: nat :: (s, d) in e <==> (d, s) in e
  }

  lemma {:induction false} StaysSymmetric(directed: bool, e: AL.EdgeMap, log: seq<Update>)
    requires Symmetric(directed, e)
    ensures Symmetric(directed, Apply(directed, e, log))
  {
    if log != [] {
      StaysSymmetric(directed, e, log[..|log| - 1]);
    }
  }

  /** The weights given to insertions without one do not matter to the deletions. */
  lemma {:induction false} ResolvedKeys(directed: bool, e: AL.EdgeMap, log: seq<Update>, L: seq<Update>, maxWeight: int)
    requires AllResolve(log, L, maxWeight)
    ensures Apply(directed, e, L).Keys == Apply(directed, e, log).Keys
  {
    if log != [] {
      var k := |log| - 1;
      ResolvedKeys(directed, e, log[..k], L[..k], maxWeight);
      assert Resolves(log[k], L[k], maxWeight);
      SameKeysAfter(directed, Apply(directed, e, log[..k]), Apply(directed, e, L[..k]), log[k], L[k]);
    }
  }

  lemma SameKeysAfter(directed: bool, a: AL.EdgeMap, b: AL.EdgeMap, u: Update, l: Update)
    requires a.Keys == b.Keys && u.src == l.src && u.dst == l.dst && (u.weight >= 0 <==> l.weight >= 0)
    ensures After(directed, a, u).Keys == After(directed, b, l).Keys
  {}

  lemma ResolvedDeletions(directed: bool, e: AL.EdgeMap, log: seq<Update>, L: seq<Update>, maxWeight: int)
    requires AllResolve(log, L, maxWeight) && DeletionsSucceed(directed, e, log)
    ensures DeletionsSucceed(directed, e, L)
  {
    forall i | 0 <= i < |L| && L[i].weight < 0
      ensures (L[i].src, L[i].dst) in Apply(directed, e, L[..i])
    {
      assert Resolves(log[i], L[i], maxWeight);
      assert (log[i].src, log[i].dst) in Apply(directed, e, log[..i]);
      ResolvedKeys(directed, e, log[..i], L[..i], maxWeight);
    }
  }

  lemma ResolvedServed(log: seq<Update>, L: seq<Update>, maxWeight: int, numThreads: nat)
    requires AllResolve(log, L, maxWeight) && numThreads > 0 && forall i | 0 <= i < |log| :: Served(log[i], numThreads)
    ensures forall i | 0 <= i < |L| :: Served(L[i], numThreads)
  {
    forall i | 0 <= i < |L|
      ensures Served(L[i], numThreads)
    {
      assert Resolves(log[i], L[i], maxWeight);
      ServedIff(log[i], numThreads);
      ServedIff(L[i], numThreads);
    }
  }

  lemma UpdatesFindTheirEdges(directed: bool, e: AL.EdgeMap, ops: seq<Op>, updates: seq<Update>)
    requires AllPerform(ops, updates, directed) && Symmetric(directed, e) && DeletionsSucceed(directed, e, updates)
    ensures RemovalsSucceed(directed, e, ops)
  {
    forall i | 0 <= i < |ops| && ops[i].Remove?
      ensures (ops[i].src, ops[i].dst) in ApplyOps(directed, e, ops[..i])
    {
      assert Performs(ops[i], updates[i], directed);
      assert (updates[i].src, updates[i].dst) in Apply(directed, e, updates[..i]);
      OpsApplyUpdates(directed, e, ops[..i], updates[..i]);
      StaysSymmetric(directed, e, updates[..i]);
    }
  }

  /** If every update has a worker and every deletion succeeds when the log is replayed in order, no call of any
      worker to remove an edge ever fails, whatever the interleaving: graph_remove_edge repeats calls that fail. */
  lemma NoRemovalIsRepeated(directed: bool, e: AL.EdgeMap, log: seq<Update>, numThreads: nat, maxWeight: int,
                            loaded: seq<seq<Update>>, ops: seq<seq<Op>>, merged: seq<Op>, who: seq<nat>)
    requires WorkersRan(log, numThreads, maxWeight, directed, loaded, ops) && Interleaves(merged, who, ops)
    requires Symmetric(directed, e) && DeletionsSucceed(directed, e, log)
    requires forall i | 0 <= i < |log| :: Served(log[i], numThreads)
    ensures RemovalsSucceed(directed, e, merged)
  {
    RanShares(log, numThreads, maxWeight, directed, loaded, ops);
    var L := ResolvedLog(log, numThreads, maxWeight, loaded);
    var updates := Behind(merged, who, ops, loaded, directed);
    InterleavingIsSchedule(updates, who, L, numThreads, loaded);
    ResolvedServed(log, L, maxWeight, numThreads);
    ResolvedDeletions(directed, e, log, L, maxWeight);
    ServedLogIsReplayed(directed, e, updates, L, numThreads);
    UpdatesFindTheirEdges(directed, e, merged, updates);
  }

  // ---- All workers ----

  /** The operations of every worker: none depends on what the others do. budget is not reached. */
  method RunWorkers(blocks: seq<seq<Update>>, numThreads: nat, maxWeight: int, releaseMemory: bool, granularity: nat, directed: bool, budget: nat)
    returns (ops: seq<seq<Op>>, ghost loaded: seq<seq<Update>>, ghost L: seq<Update>)
    requires numThreads > 0 && maxWeight > 0 && granularity > 0 && |Flatten(blocks)| <= budget
    ensures WorkersRan(Flatten(blocks), numThreads, maxWeight, directed, loaded, ops)
    ensures AllResolve(Flatten(blocks), L, maxWeight)
    ensures forall e, merged, who | Interleaves(merged, who, ops) ::
              ApplyOps(directed, e, merged) == Apply(directed, e, Select(L, HasWorker(numThreads)))
  {
    ghost var log := Flatten(blocks);
    ops, loaded := [[]], [[]];
    for id := 1 to numThreads
      invariant |ops| == |loaded| == id
      invariant forall j: nat | 1 <= j < id :: WorkerRan(log, numThreads, maxWeight, directed, j, loaded[j], ops[j])
    {
      var mine;
      ghost var share, pos;
      mine, share, pos := RunWorker(id, blocks, numThreads, maxWeight, releaseMemory, granularity, directed, budget);
      NothingIsCut(log, Mine(id, numThreads), share, budget);
      ops, loaded := ops + [mine], loaded + [share];
    }
    L := WorkersReplayTheLog(log, numThreads, maxWeight, directed, loaded, ops);
  }

  lemma {:induction false} SelectIsShorter(log: seq<Update>, f: Update -> bool)
    ensures |Select(log, f)| <= |log|
  {
    if log != [] {
      SelectIsShorter(log[..|log| - 1], f);
    }
  }

  lemma NothingIsCut(log: seq<Update>, f: Update -> bool, share: seq<Update>, budget: nat)
    requires |share| == |Select(log, f)| && |log| <= budget
    ensures share[..if |share| < budget then |share| else budget] == share
  {
    SelectIsShorter(log, f);
  }

  // ---- An update nobody serves ----

  /** With four threads the update between 1 and 3 has residue 0. */
  lemma ResidueZeroIsLost()
    ensures !Served(Update(1, 3, 5), 4) && Select([Update(1, 3, 5)], HasWorker(4)) == []
  {
    var u := Update(1, 3, 5);
    ServedIff(u, 4);
    assert [u][..0] == [];
  }
}
