/** The ring of batches between a producer and its sender thread, experiment/details/async_batch.cpp,
    as the interleaving of their critical sections and unlocked accesses. */
module AsyncBatch {
  datatype Update = Update(source: nat, destination: nat, weight: int)

  /** What the producer does after flush() returns. */
  datatype After = Return | Store(u: Update) | Destroy

  /** Where the producer is: in the constructor's wait, outside any call, in flush() before its wait for a
      free slot, in its wait for the sender, about to write an update, in the destructor. */
  datatype Producer =
    | Starting
    | Ready
    | Entering(sync: bool, next: After)
    | Syncing(next: After)
    | Storing(u: Update)
    | Stopping
    | Joining
    | Joined

  /** Where main_thread is: before its first critical section, in a wait, before batch(), before the
      increment of m_send_index, before the decrement of m_send_upto, done. */
  datatype Sender = Booting | Waiting | Sending | Advancing | Finishing | Terminated

  /** The fields of the class, the two program counters, and three histories: the updates passed to add_edge and
      remove_edge, those written to a slot, and those handed to batch(). */
  datatype State = State(
    batches: seq<seq<Update>>, numEntries: seq<nat>, batchSize: nat,
    batchIndex: nat, batchPos: nat, sendIndex: nat, sendUpto: int,
    producer: Producer, sender: Sender,
    called: seq<Update>, submitted: seq<Update>, delivered: seq<Update>)
  {
    function Slots(): nat {
      |batches|
    }
  }

  ghost predicate Init(s: State) {
    && s.Slots() >= 1 && s.batchSize >= 1 && |s.numEntries| == s.Slots()
    && (forall i | 0 <= i < s.Slots() :: |s.batches[i]| == s.batchSize)
    && s.batchIndex == s.batchPos == s.sendIndex == 0 && s.sendUpto == 1
    && s.producer == Starting && s.sender == Booting
    && s.called == s.submitted == s.delivered == []
  }

  /** (i + 1) % slots, the way both indices go around the ring. */
  function Inc(slots: nat, i: nat): (r: nat)
    ensures i < slots ==> r == (i + 1) % slots
  {
    if i + 1 == slots then 0 else i + 1
  }

  // ---- Steps of the producer ----

  function Resume(next: After): Producer {
    match next
    case Return => Ready
    case Store(u) => Storing(u)
    case Destroy => Stopping
  }

  predicate Constructed(s: State, s': State) {
    s.producer == Starting && s.sendUpto == 0 && s' == s.(producer := Ready)
  }

  /** add_edge and remove_edge differ in the weight only. */
  predicate CallAdd(s: State, s': State, u: Update) {
    && s.producer == Ready
    && s' == s.(called := s.called + [u],
                producer := if s.batchPos == s.batchSize then Entering(false, Store(u)) else Storing(u))
  }

  predicate CallFlush(s: State, s': State, sync: bool) {
    s.producer == Ready && s' == s.(producer := Entering(sync, Return))
  }

  predicate CallDestroy(s: State, s': State) {
    s.producer == Ready && s' == s.(producer := Entering(true, Destroy))
  }

  predicate StoreUpdate(s: State, s': State) {
    && s.producer.Storing? && s.batchIndex < s.Slots() && s.batchPos < |s.batches[s.batchIndex]|
    && s' == s.(batches := s.batches[s.batchIndex := s.batches[s.batchIndex][s.batchPos := s.producer.u]],
                batchPos := s.batchPos + 1, producer := Ready, submitted := s.submitted + [s.producer.u])
  }

  /** The first critical section of flush(), once there is a free slot besides the one being filled. */
  predicate FlushBatch(s: State, s': State) {
    && s.producer.Entering? && s.sendUpto < s.Slots() - 1 && s.batchIndex < |s.numEntries|
    && var after := if s.producer.sync then Syncing(s.producer.next) else Resume(s.producer.next);
       s' == if s.batchPos > 0
             then s.(numEntries := s.numEntries[s.batchIndex := s.batchPos], batchPos := 0,
                     batchIndex := Inc(s.Slots(), s.batchIndex), sendUpto := s.sendUpto + 1, producer := after)
             else s.(producer := after)
  }

  predicate SyncDone(s: State, s': State) {
    s.producer.Syncing? && s.sendUpto == 0 && s' == s.(producer := Resume(s.producer.next))
  }

  predicate Stop(s: State, s': State) {
    s.producer == Stopping && s' == s.(sendUpto := -1, producer := Joining)
  }

  predicate Join(s: State, s': State) {
    s.producer == Joining && s.sender == Terminated && s' == s.(producer := Joined)
  }

  // ---- Steps of the sender ----

  predicate Boot(s: State, s': State) {
    s.sender == Booting && s' == s.(sendUpto := 0, sender := Waiting)
  }

  predicate Wake(s: State, s': State) {
    && s.sender == Waiting && s.sendUpto != 0
    && s' == if s.sendUpto == -1 then s.(sendUpto := -2, sender := Terminated) else s.(sender := Sending)
  }

  predicate SendBatch(s: State, s': State) {
    && s.sender == Sending && s.sendIndex < s.Slots() && s.sendIndex < |s.numEntries|
    && s.numEntries[s.sendIndex] <= |s.batches[s.sendIndex]|
    && s' == s.(delivered := s.delivered + s.batches[s.sendIndex][..s.numEntries[s.sendIndex]], sender := Advancing)
  }

  /** The index wraps around at the end of the ring. */
  predicate Advance(s: State, s': State) {
    s.sender == Advancing && s' == s.(sendIndex := Inc(s.Slots(), s.sendIndex), sender := Finishing)
  }

  predicate Finish(s: State, s': State) {
    s.sender == Finishing && s' == s.(sendUpto := s.sendUpto - 1, sender := Waiting)
  }

  predicate SenderStep(s: State, s': State) {
    Boot(s, s') || Wake(s, s') || SendBatch(s, s') || Advance(s, s') || Finish(s, s')
  }

  /** Steps of the producer inside a call; the calls themselves are up to its owner. */
  predicate ProducerStep(s: State, s': State) {
    Constructed(s, s') || StoreUpdate(s, s') || FlushBatch(s, s') || SyncDone(s, s') || Stop(s, s') || Join(s, s')
  }

  predicate InternalStep(s: State, s': State) {
    SenderStep(s, s') || ProducerStep(s, s')
  }

  ghost predicate Call(s: State, s': State) {
    (exists u :: CallAdd(s, s', u)) || (exists sync :: CallFlush(s, s', sync)) || CallDestroy(s, s')
  }

  ghost predicate Next(s: State, s': State) {
    InternalStep(s, s') || Call(s, s')
  }

  // ---- The ring ----

  /** The slot i places after start. */
  function Slot(slots: nat, start: nat, i: nat): nat
    requires start < slots && i <= slots
  {
    if start + i < slots then start + i else start + i - slots
  }

  lemma NextSlot(slots: nat, start: nat, i: nat)
    requires start < slots && i < slots
    ensures Inc(slots, Slot(slots, start, i)) == Slot(slots, start, i + 1)
    ensures Slot(slots, Inc(slots, start), i) == Slot(slots, start, i + 1)
  {}

  function Batch(s: State, i: nat): seq<Update>
    requires i < s.Slots() == |s.numEntries| && s.numEntries[i] <= |s.batches[i]|
  {
    s.batches[i][..s.numEntries[i]]
  }

  ghost predicate RingOk(s: State) {
    && s.Slots() >= 1 && s.batchSize >= 1 && |s.numEntries| == s.Slots()
    && (forall i | 0 <= i < s.Slots() :: |s.batches[i]| == s.batchSize)
    && s.batchIndex < s.Slots() && s.sendIndex < s.Slots() && s.batchPos <= s.batchSize
  }

  /** The slots queued between start and the slot being filled are full batches. */
  ghost predicate Filled(s: State, start: nat, count: nat)
    requires RingOk(s) && start < s.Slots() && count <= s.Slots()
  {
    forall i | 0 <= i < count :: 1 <= s.numEntries[Slot(s.Slots(), start, i)] <= s.batchSize
  }

  /** Their contents, oldest first. */
  ghost function Queue(s: State, start: nat, count: nat): seq<Update>
    requires RingOk(s) && start < s.Slots() && count <= s.Slots() && Filled(s, start, count)
  {
    if count == 0 then [] else Queue(s, start, count - 1) + Batch(s, Slot(s.Slots(), start, count - 1))
  }

  lemma FilledTail(s: State, start: nat, count: nat)
    requires RingOk(s) && start < s.Slots() && 0 < count <= s.Slots() && Filled(s, start, count)
    ensures Inc(s.Slots(), start) < s.Slots() && Filled(s, Inc(s.Slots(), start), count - 1)
    ensures Slot(s.Slots(), start, 0) == start && 1 <= s.numEntries[start] <= s.batchSize
  {
    NextSlot(s.Slots(), start, 0);
    assert s.numEntries[Slot(s.Slots(), start, 0)] <= s.batchSize;
    forall i: nat | i < count - 1
      ensures 1 <= s.numEntries[Slot(s.Slots(), Inc(s.Slots(), start), i)] <= s.batchSize
    {
      NextSlot(s.Slots(), start, i);
    }
  }

  lemma {:induction false} QueueHead(s: State, start: nat, count: nat)
    requires RingOk(s) && start < s.Slots() && 0 < count <= s.Slots() && Filled(s, start, count)
    requires var start' := Inc(s.Slots(), start); start' < s.Slots() && Filled(s, start', count - 1)
    requires s.numEntries[start] <= s.batchSize
    ensures Queue(s, start, count) == Batch(s, start) + Queue(s, Inc(s.Slots(), start), count - 1)
  {
    if count == 1 {
      assert Slot(s.Slots(), start, 0) == start && Queue(s, start, 0) == [];
    } else {
      var start' := Inc(s.Slots(), start);
      NextSlot(s.Slots(), start, count - 2);
      QueueHead(s, start, count - 1);
      var last := Batch(s, Slot(s.Slots(), start, count - 1));
      assert Queue(s, start', count - 1) == Queue(s, start', count - 2) + last;
      Associate(Batch(s, start), Queue(s, start', count - 2), last);
    }
  }

  lemma Associate(a: seq<Update>, b: seq<Update>, c: seq<Update>)
    ensures (a + b) + c == a + (b + c)
  {}

  /** Changes to other slots leave the queue alone. */
  lemma {:induction false} QueueFrame(s: State, s': State, start: nat, count: nat)
    requires RingOk(s) && RingOk(s') && s.Slots() == s'.Slots() && s.batchSize == s'.batchSize
    requires start < s.Slots() && count <= s.Slots() && Filled(s, start, count)
    requires forall i | 0 <= i < count :: var k := Slot(s.Slots(), start, i); s'.batches[k] == s.batches[k] && s'.numEntries[k] == s.numEntries[k]
    ensures Filled(s', start, count) && Queue(s', start, count) == Queue(s, start, count)
  {
    if count > 0 {
      QueueFrame(s, s', start, count - 1);
    }
  }

  // ---- The invariant ----

  /** Batches handed over and not yet delivered: the sender gives them back after delivery only, when it
      decrements m_send_upto. */
  function Count(s: State): int {
    if s.sendUpto < 0 || s.producer == Starting then 0
    else if s.sender == Finishing || s.sender == Advancing then s.sendUpto - 1
    else s.sendUpto
  }

  /** The slot of the oldest of them. */
  function From(s: State): nat
    requires s.Slots() > 0
  {
    if s.sender == Advancing then Inc(s.Slots(), s.sendIndex) else s.sendIndex
  }

  /** Program counters and m_send_upto fit together. */
  ghost predicate Control(s: State) {
    match s.producer
    case Starting =>
      s.batchPos == 0 && s.submitted == [] &&
      ((s.sender == Booting && s.sendUpto == 1) || (s.sender == Waiting && s.sendUpto == 0))
    case Stopping => s.sendUpto == 0 && s.sender == Waiting && s.batchPos == 0
    case Joining => s.batchPos == 0 && ((s.sendUpto == -1 && s.sender == Waiting) || (s.sendUpto == -2 && s.sender == Terminated))
    case Joined => s.batchPos == 0 && s.sendUpto == -2 && s.sender == Terminated
    case _ =>
      && 0 <= s.sendUpto <= s.Slots() - 1
      && s.sender != Booting && s.sender != Terminated && (s.sender != Waiting ==> s.sendUpto >= 1)
      && (s.producer.Entering? ==> (s.producer.next == Destroy ==> s.producer.sync) && (s.producer.next.Store? ==> !s.producer.sync))
      && (s.producer.Syncing? ==> !s.producer.next.Store?)
      && (s.producer.Syncing? ==> s.batchPos == 0)
      && (s.producer.Storing? ==> s.batchPos < s.batchSize)
  }

  /** The slot being filled is the one right after the queued slots, which are fewer than the ring has. */
  ghost predicate Ring(s: State) {
    && RingOk(s) && 0 <= Count(s) < s.Slots() && From(s) < s.Slots()
    && s.batchIndex == Slot(s.Slots(), From(s), Count(s))
    && Filled(s, From(s), Count(s))
  }

  /** Every update submitted is delivered, queued or in the slot being filled: once and in order. */
  ghost predicate Conserved(s: State)
    requires Ring(s)
  {
    s.submitted == s.delivered + Queue(s, From(s), Count(s)) + s.batches[s.batchIndex][..s.batchPos]
  }

  /** The update of a call that has not written it to a slot yet. */
  ghost function InFlight(p: Producer): seq<Update> {
    match p
    case Entering(_, Store(u)) => [u]
    case Storing(u) => [u]
    case _ => []
  }

  ghost predicate Inv(s: State) {
    Control(s) && Ring(s) && Conserved(s) && s.called == s.submitted + InFlight(s.producer)
  }

  lemma InitInv(s: State)
    requires Init(s)
    ensures Inv(s)
  {}

  // ---- Every step keeps it ----

  /** Steps that move program counters and indices only. */
  lemma QuietStepInv(s: State, s': State)
    requires Inv(s) && Control(s') && RingOk(s')
    requires s' == s.(producer := s'.producer, sender := s'.sender, sendUpto := s'.sendUpto, sendIndex := s'.sendIndex, called := s'.called)
    requires s'.called == s'.submitted + InFlight(s'.producer)
    requires Count(s') == Count(s) && From(s') == From(s)
    ensures Inv(s')
  {
    QueueFrame(s, s', From(s), Count(s));
  }

  lemma SlotsDiffer(slots: nat, start: nat, i: nat, j: nat)
    requires start < slots && i < j < slots
    ensures Slot(slots, start, i) != Slot(slots, start, j)
  {}

  /** The slot being filled is not queued: writing to it does not disturb the queue. */
  lemma FillingSlotIsFree(s: State, s': State)
    requires Ring(s) && RingOk(s') && s'.Slots() == s.Slots() && s'.batchSize == s.batchSize
    requires forall k | 0 <= k < s.Slots() && k != s.batchIndex :: s'.batches[k] == s.batches[k] && s'.numEntries[k] == s.numEntries[k]
    ensures Filled(s', From(s), Count(s)) && Queue(s', From(s), Count(s)) == Queue(s, From(s), Count(s))
  {
    forall i: nat | i < Count(s)
      ensures Slot(s.Slots(), From(s), i) != s.batchIndex
    {
      SlotsDiffer(s.Slots(), From(s), i, Count(s));
    }
    QueueFrame(s, s', From(s), Count(s));
  }

  lemma StoreRing(s: State, s': State)
    requires Inv(s) && StoreUpdate(s, s')
    ensures Control(s') && Ring(s') && From(s') == From(s) && Count(s') == Count(s) && s'.batchIndex == s.batchIndex
    ensures Queue(s', From(s), Count(s)) == Queue(s, From(s), Count(s))
  {
    FillingSlotIsFree(s, s');
  }

  lemma StoreInv(s: State, s': State)
    requires Inv(s) && StoreUpdate(s, s')
    ensures Inv(s')
  {
    StoreRing(s, s');
    var k := s.batchIndex;
    assert s'.batches[k][..s'.batchPos] == s.batches[k][..s.batchPos] + [s.producer.u];
    Associate(s.delivered + Queue(s, From(s), Count(s)), s.batches[k][..s.batchPos], [s.producer.u]);
  }

  /** The slot just filled joins the queue at its end. */
  lemma QueueSnoc(s: State, s': State)
    requires Inv(s) && FlushBatch(s, s') && s.batchPos > 0
    ensures RingOk(s') && Count(s') == Count(s) + 1 < s.Slots() && From(s') == From(s)
    ensures s'.batchIndex == Slot(s.Slots(), From(s), Count(s) + 1)
    ensures Filled(s', From(s), Count(s) + 1)
    ensures Queue(s', From(s), Count(s) + 1) == Queue(s, From(s), Count(s)) + s.batches[s.batchIndex][..s.batchPos]
  {
    NextSlot(s.Slots(), From(s), Count(s));
    FillingSlotIsFree(s, s');
  }

  lemma HandOverInv(s: State, s': State)
    requires Inv(s) && FlushBatch(s, s') && s.batchPos > 0
    ensures Inv(s')
  {
    QueueSnoc(s, s');
    assert s'.batches[s'.batchIndex][..0] == [];
  }

  lemma FlushInv(s: State, s': State)
    requires Inv(s) && FlushBatch(s, s')
    ensures Inv(s')
  {
    if s.batchPos > 0 {
      HandOverInv(s, s');
    } else {
      QuietStepInv(s, s');
    }
  }

  lemma SendRing(s: State, s': State)
    requires Inv(s) && SendBatch(s, s')
    ensures Count(s') == Count(s) - 1 && From(s') == Inc(s.Slots(), From(s)) < s.Slots()
    ensures Filled(s, From(s'), Count(s')) && s.numEntries[From(s)] <= s.batchSize
    ensures Control(s') && Ring(s')
  {
    FilledTail(s, From(s), Count(s));
    NextSlot(s.Slots(), From(s), Count(s'));
  }

  lemma ThreeParts(submitted: seq<Update>, delivered: seq<Update>, batch: seq<Update>, queue: seq<Update>, filling: seq<Update>)
    requires submitted == delivered + (batch + queue) + filling
    ensures submitted == (delivered + batch) + queue + filling
  {}

  /** The oldest batch leaves the queue when it is delivered. */
  lemma SendInv(s: State, s': State)
    requires Inv(s) && SendBatch(s, s')
    ensures Inv(s')
  {
    SendRing(s, s');
    QueueHead(s, From(s), Count(s));
    QueueFrame(s, s', From(s'), Count(s'));
    assert s'.delivered == s.delivered + Batch(s, From(s));
    ThreeParts(s.submitted, s.delivered, Batch(s, From(s)), Queue(s, From(s'), Count(s')), s.batches[s.batchIndex][..s.batchPos]);
  }

  lemma SenderInv(s: State, s': State)
    requires Inv(s) && SenderStep(s, s')
    ensures Inv(s')
  {
    if SendBatch(s, s') {
      SendInv(s, s');
    } else if Advance(s, s') {
      NextSlot(s.Slots(), s.sendIndex, 0);
      QuietStepInv(s, s');
    } else {
      QuietStepInv(s, s');
    }
  }

  lemma ProducerInv(s: State, s': State)
    requires Inv(s) && ProducerStep(s, s')
    ensures Inv(s')
  {
    if StoreUpdate(s, s') {
      StoreInv(s, s');
    } else if FlushBatch(s, s') {
      FlushInv(s, s');
    } else {
      QuietStepInv(s, s');
    }
  }

  lemma CallInv(s: State, s': State)
    requires Inv(s) && Call(s, s')
    ensures Inv(s')
  {
    QuietStepInv(s, s');
  }

  lemma NextInv(s: State, s': State)
    requires Inv(s) && Next(s, s')
    ensures Inv(s')
  {
    if SenderStep(s, s') {
      SenderInv(s, s');
    } else if ProducerStep(s, s') {
      ProducerInv(s, s');
    } else {
      CallInv(s, s');
    }
  }

  // ---- All runs ----

  ghost predicate IsRun(run: seq<State>) {
    && |run| > 0 && Init(run[0])
    && forall i | 0 <= i < |run| - 1 :: Follows(run, i)
  }

  ghost predicate Follows(run: seq<State>, i: int)
    requires 0 <= i < |run| - 1
  {
    Next(run[i], run[i + 1])
  }

  lemma {:induction false} RunInv(run: seq<State>, i: nat)
    requires IsRun(run) && i < |run|
    ensures Inv(run[i])
  {
    if i == 0 {
      InitInv(run[0]);
    } else {
      RunInv(run, i - 1);
      assert Follows(run, i - 1);
      NextInv(run[i - 1], run[i]);
    }
  }

  /** What was delivered is a prefix of the updates passed to add_edge and remove_edge, at all times: nothing twice,
      nothing out of order. Between calls all of them have been written to a slot. */
  lemma DeliveredInOrder(run: seq<State>, i: nat)
    requires IsRun(run) && i < |run|
    ensures run[i].delivered <= run[i].called
    ensures run[i].producer == Ready ==> run[i].submitted == run[i].called
  {
    RunInv(run, i);
  }

  /** flush(sync) is called at step i and has not come back before step j. */
  ghost predicate InFlush(run: seq<State>, i: nat, j: nat, sync: bool) {
    && i < j < |run| && CallFlush(run[i], run[i + 1], sync)
    && forall k | i < k < j :: run[k].producer != Ready
  }

  ghost predicate Flushing(s: State, sync: bool) {
    s.producer == Entering(sync, Return) || (sync && s.producer == Syncing(Return))
  }

  lemma FlushGoesOn(s: State, s': State, sync: bool)
    requires Inv(s) && Next(s, s') && Flushing(s, sync)
    ensures Flushing(s', sync) || s'.producer == Ready
    ensures s'.called == s.called
    ensures s'.producer == Ready ==> s'.batchPos == 0 && (sync ==> SyncDone(s, s'))
  {}

  lemma FlushStep(run: seq<State>, k: nat, sync: bool)
    requires IsRun(run) && k + 1 < |run| && Flushing(run[k], sync)
    ensures Flushing(run[k + 1], sync) || run[k + 1].producer == Ready
    ensures run[k + 1].called == run[k].called
    ensures run[k + 1].producer == Ready ==> run[k + 1].batchPos == 0 && (sync ==> SyncDone(run[k], run[k + 1]))
  {
    RunInv(run, k);
    assert Follows(run, k);
    FlushGoesOn(run[k], run[k + 1], sync);
  }

  /** Until flush() comes back. */
  lemma {:induction false} StillFlushing(run: seq<State>, i: nat, j: nat, sync: bool)
    requires IsRun(run) && i < j < |run| && Flushing(run[i + 1], sync) && forall k | i < k < j :: run[k].producer != Ready
    ensures Flushing(run[j], sync) || run[j].producer == Ready
    ensures run[j].called == run[i + 1].called
    decreases j
  {
    if j > i + 1 {
      StillFlushing(run, i, j - 1, sync);
      FlushStep(run, j - 1, sync);
    }
  }

  lemma FlushReturns(run: seq<State>, i: nat, j: nat, sync: bool)
    requires IsRun(run) && InFlush(run, i, j, sync) && run[j].producer == Ready
    ensures run[j].called == run[i].called && run[j].batchPos == 0 && j > 0
    ensures sync ==> SyncDone(run[j - 1], run[j])
  {
    StillFlushing(run, i, j - 1, sync);
    FlushStep(run, j - 1, sync);
  }

  /** When flush() comes back, with or without synchronisation, every update passed to add_edge and remove_edge has been
      handed over to the sender: it is delivered or in the queue. */
  lemma FlushHandsOver(run: seq<State>, i: nat, j: nat, sync: bool)
    requires IsRun(run) && InFlush(run, i, j, sync) && run[j].producer == Ready
    ensures Inv(run[j]) && run[i].called == run[j].called == run[j].delivered + Queue(run[j], From(run[j]), Count(run[j]))
  {
    FlushReturns(run, i, j, sync);
    RunInv(run, j);
    var s := run[j];
    assert s.batches[s.batchIndex][..0] == [];
  }

  /** flush(true) comes back only when all of them have been delivered. */
  lemma SyncMeansDelivered(run: seq<State>, i: nat, j: nat)
    requires IsRun(run) && InFlush(run, i, j, true) && run[j].producer == Ready
    ensures run[j].delivered == run[j].called == run[i].called
  {
    FlushReturns(run, i, j, true);
    RunInv(run, j - 1);
    RunInv(run, j);
  }

  /** So does the destructor. */
  lemma DestroyedMeansDelivered(run: seq<State>, i: nat)
    requires IsRun(run) && i < |run| && run[i].producer == Joined
    ensures run[i].delivered == run[i].called
  {
    RunInv(run, i);
  }

  /** add_edge and remove_edge never wait for the delivery of a batch, only for a free slot. */
  lemma AddDoesNotSync(run: seq<State>, i: nat)
    requires IsRun(run) && i < |run|
    ensures run[i].producer.Syncing? ==> run[i].producer.next == Return || run[i].producer.next == Destroy
  {
    RunInv(run, i);
  }

  /** Whenever batch() runs, the slot it reads is not the slot being filled. */
  lemma NoSlotIsShared(run: seq<State>, i: nat)
    requires IsRun(run) && i < |run| && run[i].sender == Sending
    ensures run[i].sendIndex != run[i].batchIndex
  {
    RunInv(run, i);
    SlotsDiffer(run[i].Slots(), run[i].sendIndex, 0, Count(run[i]));
  }

  // ---- No deadlock, no livelock ----

  predicate CanStep(s: State)  {
    || s.sender == Booting
    || (s.sender == Waiting && s.sendUpto != 0)
    || s.sender == Sending || s.sender == Advancing || s.sender == Finishing
    || (s.producer == Starting && s.sendUpto == 0)
    || s.producer.Storing?
    || (s.producer.Entering? && s.sendUpto < s.Slots() - 1)
    || (s.producer.Syncing? && s.sendUpto == 0)
    || s.producer == Stopping
    || (s.producer == Joining && s.sender == Terminated)
  }

  ghost predicate HasStep(s: State) {
    exists s' :: InternalStep(s, s')
  }

  /** The guards of the steps, spelled out. */
  lemma CanStepIffHasStep(s: State)
    requires Inv(s)
    ensures CanStep(s) <==> HasStep(s)
  {
    if CanStep(s) {
      assert s.sender == Sending ==> Slot(s.Slots(), From(s), 0) == s.sendIndex;
      var s' := Fire(s);
      assert InternalStep(s, s');
    }
  }

  /** Some step that is enabled. */
  function Fire(s: State): (s': State)
    requires s.Slots() > 0 && CanStep(s)
    requires s.sendIndex < s.Slots() == |s.numEntries| && s.batchIndex < s.Slots()
    requires s.sender == Sending ==> s.numEntries[s.sendIndex] <= |s.batches[s.sendIndex]|
    requires s.producer.Storing? ==> s.batchPos < |s.batches[s.batchIndex]|
    ensures InternalStep(s, s')
  {
    if s.sender == Booting then s.(sendUpto := 0, sender := Waiting)
    else if s.sender == Waiting && s.sendUpto != 0 then
      if s.sendUpto == -1 then s.(sendUpto := -2, sender := Terminated) else s.(sender := Sending)
    else if s.sender == Sending then
      s.(delivered := s.delivered + s.batches[s.sendIndex][..s.numEntries[s.sendIndex]], sender := Advancing)
    else if s.sender == Advancing then s.(sendIndex := Inc(s.Slots(), s.sendIndex), sender := Finishing)
    else if s.sender == Finishing then s.(sendUpto := s.sendUpto - 1, sender := Waiting)
    else if s.producer == Starting then s.(producer := Ready)
    else if s.producer.Storing? then
      s.(batches := s.batches[s.batchIndex := s.batches[s.batchIndex][s.batchPos := s.producer.u]],
         batchPos := s.batchPos + 1, producer := Ready, submitted := s.submitted + [s.producer.u])
    else if s.producer.Entering? then
      var after := if s.producer.sync then Syncing(s.producer.next) else Resume(s.producer.next);
      if s.batchPos > 0
      then s.(numEntries := s.numEntries[s.batchIndex := s.batchPos], batchPos := 0,
              batchIndex := Inc(s.Slots(), s.batchIndex), sendUpto := s.sendUpto + 1, producer := after)
      else s.(producer := after)
    else if s.producer.Syncing? then s.(producer := Resume(s.producer.next))
    else if s.producer == Stopping then s.(sendUpto := -1, producer := Joining)
    else s.(producer := Joined)
  }

  /** With two batches or more somebody can always move, unless the producer is idle with nothing left
      to send or the object is gone. */
  lemma NoDeadlock(run: seq<State>, i: nat)
    requires IsRun(run) && i < |run| && run[i].Slots() >= 2
    requires run[i].producer != Ready && run[i].producer != Joined
    ensures HasStep(run[i])
  {
    RunInv(run, i);
    CanStepIffHasStep(run[i]);
  }

  /** With one batch every flush blocks for ever: its wait asks for a negative m_send_upto. */
  lemma SingleBatchBlocks(run: seq<State>, i: nat)
    requires IsRun(run) && i < |run| && run[i].Slots() == 1 && run[i].producer.Entering?
    ensures !HasStep(run[i])
    ensures i == |run| - 1
  {
    RunInv(run, i);
    CanStepIffHasStep(run[i]);
    assert i < |run| - 1 ==> Follows(run, i);
  }

  function Remaining(next: After): nat {
    match next
    case Return => 0
    case Store(_) => 1
    case Destroy => 3
  }

  /** How many steps the two threads can still make before the producer has to be called again. */
  function Rank(s: State): int {
    (match s.producer
     case Starting => 1
     case Ready => 0
     case Entering(_, next) => 6 + Remaining(next)
     case Syncing(next) => 1 + Remaining(next)
     case Storing(_) => 1
     case Stopping => 3
     case Joining => 1
     case Joined => 0)
    +
    (match s.sender
     case Booting => 1
     case Waiting => if s.sendUpto == -1 then 1 else 4 * s.sendUpto
     case Sending => 4 * s.sendUpto - 1
     case Advancing => 4 * s.sendUpto - 2
     case Finishing => 4 * s.sendUpto - 3
     case Terminated => 0)
  }

  lemma RankNonNegative(s: State)
    requires Control(s)
    ensures Rank(s) >= 0
  {}

  lemma SenderCountsDown(s: State, s': State)
    requires Control(s) && SenderStep(s, s')
    ensures Rank(s') < Rank(s)
  {}

  lemma ProducerCountsDown(s: State, s': State)
    requires Control(s) && ProducerStep(s, s')
    ensures Rank(s') < Rank(s)
  {}

  /** So every call comes back after finitely many steps, under any scheduling. */
  lemma EveryStepCountsDown(s: State, s': State)
    requires Inv(s) && InternalStep(s, s')
    ensures 0 <= Rank(s') < Rank(s)
  {
    NextInv(s, s');
    RankNonNegative(s');
    if SenderStep(s, s') {
      SenderCountsDown(s, s');
    } else {
      ProducerCountsDown(s, s');
    }
  }
}
