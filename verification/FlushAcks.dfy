/** The index worker: documents go in, segment writes come back, flushes are acknowledged. */
module FlushAcks {
  import opened LsmState
  import opened LsmInvariants
  import opened LsmCompaction
  import opened LsmVisibility

  /** A `Flush` waiting for every segment numbered below `target`. */
  datatype Waiter = Waiter(flush: nat, target: nat, before: Mem)

  /** An acknowledged `Flush`, with the documents added before the command. */
  datatype Ack = Ack(flush: nat, ok: bool, before: Mem)

  datatype Worker = Worker(
    index: Lsm,
    writer: seq<nat>,        // flushes handed to the segment writer, oldest first
    waiters: seq<Waiter>,
    acks: seq<Ack>,          // in the order they were sent
    flushes: nat,            // `Flush` commands so far
    added: Mem)              // documents added so far

  datatype Step =
    | Inner(event: Event)                             // one step of the index within a command
    | Submit                                          // hand queued flushes to the writer
    | Flush(keep: nat, syncOk: bool)
    | SegmentWritten(writeOk: bool, manifestOk: bool)

  function Start(persistent: bool): Worker { Worker(New(persistent), [], [], [], 0, {}) }

  predicate CanStep(w: Worker, step: Step)
  {
    SameLengths(w.index) &&
    match step
    case Inner(e) => !e.Take? && !e.Complete? && Enabled(w.index, e)
    case Submit => true
    case Flush(keep, _) => keep <= |w.index.generations|
    case SegmentWritten(_, _) => w.writer != []
  }

  function SubmitAll(w: Worker): Worker { w.(index := TakeJobs(w.index), writer := w.writer + w.index.queued) }

  /** Acknowledges the waiting flushes whose segments are all written. */
  function Release(w: Worker): Worker
    decreases |w.waiters|
  {
    if w.waiters == [] || FlushedThrough(w.index) < w.waiters[0].target then w
    else
      var first := w.waiters[0];
      Release(w.(waiters := w.waiters[1..], acks := w.acks + [Ack(first.flush, !w.index.failure, first.before)]))
  }

  /** Whether a `Flush` is answered with an error at once. */
  predicate Refused(w: Worker, keep: nat, syncOk: bool)
    requires keep <= |w.index.generations|
  {
    !QueueFlush(w.index, keep, syncOk).1
  }

  function HandleFlush(w: Worker, keep: nat, syncOk: bool): Worker
    requires keep <= |w.index.generations|
  {
    var queued := w.(index := QueueFlush(w.index, keep, syncOk).0, flushes := w.flushes + 1);
    if Refused(w, keep, syncOk) then queued.(acks := w.acks + [Ack(w.flushes, false, w.added)])
    else
      var sent := SubmitAll(queued);
      Release(sent.(waiters := w.waiters + [Waiter(w.flushes, sent.index.nextSeq, w.added)]))
  }

  function HandleWritten(w: Worker, writeOk: bool, manifestOk: bool): Worker
    requires SameLengths(w.index) && w.writer != []
  {
    Release(w.(index := CompleteFlush(w.index, w.writer[0], writeOk, manifestOk).0, writer := w.writer[1..]))
  }

  function Do(w: Worker, step: Step): Worker
    requires CanStep(w, step)
  {
    match step
    case Inner(e) => w.(index := Next(w.index, e), added := w.added + NewDocs(w.index, e))
    case Submit => SubmitAll(w)
    case Flush(keep, syncOk) => HandleFlush(w, keep, syncOk)
    case SegmentWritten(writeOk, manifestOk) => HandleWritten(w, writeOk, manifestOk)
  }

  // ---------------------------------------------------------------------------------------
  // Invariants.
  // ---------------------------------------------------------------------------------------

  /** The writer holds exactly the pending flushes not queued, oldest first. */
  ghost predicate WriterInOrder(w: Worker)
  {
    && |w.writer| + |w.index.queued| == |w.index.pending|
    && forall k :: 0 <= k < |w.writer| ==> w.writer[k] == FlushedThrough(w.index) + k
  }

  function PendingBelow(pending: seq<PendingFlush>, target: nat): Mem
  {
    set k, d | 0 <= k < |pending| && pending[k].number < target && d in Union(pending[k].generations) :: d
  }

  /** What a waiting flush waits for is in a segment or in a pending write below its target. */
  ghost predicate Covered(s: Lsm, docs: Mem, target: nat)
  {
    Surviving(docs, s.everDeleted) <= Union(s.readers) + PendingBelow(s.pending, target)
  }

  ghost predicate WaitersCovered(w: Worker)
  {
    forall k :: 0 <= k < |w.waiters| ==>
      w.waiters[k].target <= w.index.nextSeq && Covered(w.index, w.waiters[k].before, w.waiters[k].target)
  }

  ghost predicate WaitersInOrder(waiters: seq<Waiter>)
  {
    forall i, j :: 0 <= i < j < |waiters| ==> waiters[i].target <= waiters[j].target
  }

  /** Nothing that could be acknowledged still waits. */
  ghost predicate Released(w: Worker)
  {
    forall k :: 0 <= k < |w.waiters| ==> FlushedThrough(w.index) < w.waiters[k].target
  }

  ghost predicate AcksDurable(w: Worker)
  {
    forall k :: 0 <= k < |w.acks| && w.acks[k].ok ==>
      Surviving(w.acks[k].before, w.index.everDeleted) <= Durable(w.index)
  }

  ghost predicate AddedHeld(w: Worker) { Surviving(w.added, w.index.everDeleted) <= Held(w.index) }

  ghost predicate WInv(w: Worker)
  {
    && Inv(w.index) && WriterInOrder(w) && WaitersCovered(w) && WaitersInOrder(w.waiters) && Released(w)
    && (w.index.persistent ==> AcksDurable(w)) && AddedHeld(w)
  }

  // ---------------------------------------------------------------------------------------
  // What a step of the index keeps for waiting and acknowledged flushes.
  // ---------------------------------------------------------------------------------------

  lemma StepKeepsHeld(s: Lsm, e: Event)
    requires Inv(s) && Enabled(s, e)
    ensures Surviving(Held(s), s.everDeleted) + NewDocs(s, e) <= Held(Next(s, e))
  {
    if Installs(s, e) {
      InstalledFields(s, e.job, e.manifestOk);
      InstallHolds(s, e.job, Next(s, e));
    } else {
      StepMoves(s, e);
    }
  }

  lemma InstallHolds(s: Lsm, j: nat, t: Lsm)
    requires Installable(s, j) && t.readers == Merged(s, j).readers
    requires t.mem == s.mem && t.generations == s.generations && t.pending == s.pending
    ensures Surviving(Held(s), s.everDeleted) <= Held(t)
    ensures Surviving(Union(s.readers), s.everDeleted) <= Union(t.readers)
  {
    MergedShows(s, j);
    var job := s.jobs[j];
    assert JobKnows(s, job);
    forall d | d in Surviving(Union(s.readers), s.everDeleted) ensures d in Union(t.readers) {
      if d in Shown(s, job) { assert d in Surviving(Shown(s, job), job.deleted); }
    }
  }

  lemma BelowAppend(pending: seq<PendingFlush>, p: PendingFlush, target: nat)
    ensures PendingBelow(pending, target) <= PendingBelow(pending + [p], target)
  {
    forall d | d in PendingBelow(pending, target) ensures d in PendingBelow(pending + [p], target) {
      var k :| 0 <= k < |pending| && pending[k].number < target && d in Union(pending[k].generations);
      assert (pending + [p])[k] == pending[k];
    }
  }

  lemma BelowTail(pending: seq<PendingFlush>, target: nat)
    requires pending != []
    ensures PendingBelow(pending, target) <= PendingBelow(pending[1..], target) + Union(pending[0].generations)
  {
    forall d | d in PendingBelow(pending, target) && d !in Union(pending[0].generations)
      ensures d in PendingBelow(pending[1..], target)
    {
      var k :| 0 <= k < |pending| && pending[k].number < target && d in Union(pending[k].generations);
      assert pending[1..][k - 1] == pending[k];
    }
  }

  lemma BelowSame(pending: seq<PendingFlush>, target: nat)
    ensures PendingBelow(pending, target) <= PendingBelow(SegmentAdded(pending), target)
  {
    var added := SegmentAdded(pending);
    forall d | d in PendingBelow(pending, target) ensures d in PendingBelow(added, target) {
      var k :| 0 <= k < |pending| && pending[k].number < target && d in Union(pending[k].generations);
      assert added[k].number == pending[k].number && d in Union(added[k].generations);
    }
  }

  /** Where covered documents are. */
  function Cover(s: Lsm, target: nat): Mem { Union(s.readers) + PendingBelow(s.pending, target) }

  lemma QueueKeepsCover(s: Lsm, keep: nat, syncOk: bool, target: nat)
    requires keep <= |s.generations|
    ensures Cover(s, target) <= Cover(QueueFlush(s, keep, syncOk).0, target)
  {
    var sealed := Seal(s, keep);
    if s.persistent {
      BelowAppend(s.pending, PendingFlush(s.nextSeq, s.nextSegmentId, sealed.generations, 0, s.clock), target);
    } else {
      UnionAppend(s.readers, Union(sealed.generations));
    }
  }

  lemma CompleteKeepsCover(s: Lsm, number: nat, writeOk: bool, manifestOk: bool, target: nat)
    requires SameLengths(s)
    ensures Cover(s, target) <= Cover(CompleteFlush(s, number, writeOk, manifestOk).0, target)
  {
    if s.pending != [] && s.pending[0].number == number {
      BelowTail(s.pending, target);
      UnionInsert(s.readers, FlushPosition(s, s.pending[0]), Union(s.pending[0].generations));
    }
  }

  lemma AddKeepsCover(s: Lsm, docs: Mem, writeOk: bool, target: nat)
    ensures Cover(s, target) <= Cover(AddSegment(s, docs, writeOk).0, target)
  {
    UnionAppend(s.readers, docs);
    BelowSame(s.pending, target);
  }

  lemma StepKeepsCover(s: Lsm, e: Event, target: nat)
    requires Inv(s) && Enabled(s, e)
    ensures Surviving(Cover(s, target), s.everDeleted) <= Cover(Next(s, e), target)
  {
    match e
    case Queue(keep, syncOk) => QueueKeepsCover(s, keep, syncOk, target);
    case Complete(number, writeOk, manifestOk) => CompleteKeepsCover(s, number, writeOk, manifestOk, target);
    case AddImmutable(docs, writeOk) => AddKeepsCover(s, docs, writeOk, target);
    case InstallJob(j, openOk, manifestOk) =>
      if Installs(s, e) {
        InstalledFields(s, j, manifestOk);
        InstallHolds(s, j, Next(s, e));
      } else {
        RejectedFields(s, j, openOk, manifestOk);
      }
    case _ =>
  }

  lemma StepKeepsDiskDocs(s: Lsm, e: Event)
    requires Inv(s) && Enabled(s, e)
    ensures Surviving(DiskDocs(s), s.everDeleted) <= DiskDocs(Next(s, e))
  {
    var t := Next(s, e);
    match e
    case Queue(keep, syncOk) => QueueKeepsDiskDocs(s, keep, syncOk);
    case Complete(number, writeOk, manifestOk) => CompleteKeepsDiskDocs(s, number, writeOk, manifestOk);
    case AddImmutable(docs, writeOk) => if t.handles == s.handles { SameDiskDocs(s, t); } else { PushKeepsDiskDocs(s, t); }
    case InstallJob(j, openOk, manifestOk) =>
      if Installs(s, e) {
        InstalledFields(s, j, manifestOk);
        MergedKeepsRecorded(s, j);
        SameDiskDocs(t, Merged(s, j));
      } else {
        RejectedFields(s, j, openOk, manifestOk);
        SameDiskDocs(s, t);
      }
    case _ => SameDiskDocs(s, t);
  }

  lemma QueueKeepsDiskDocs(s: Lsm, keep: nat, syncOk: bool)
    requires SameLengths(s) && keep <= |s.generations|
    ensures DiskDocs(s) <= DiskDocs(QueueFlush(s, keep, syncOk).0)
  {
    var t := QueueFlush(s, keep, syncOk).0;
    if t.handles == s.handles { SameDiskDocs(s, t); } else { PushKeepsDiskDocs(s, t); }
  }

  lemma CompleteKeepsDiskDocs(s: Lsm, number: nat, writeOk: bool, manifestOk: bool)
    requires SameLengths(s)
    ensures DiskDocs(s) <= DiskDocs(CompleteFlush(s, number, writeOk, manifestOk).0)
  {
    var t := CompleteFlush(s, number, writeOk, manifestOk).0;
    if s.pending != [] && s.pending[0].number == number {
      var p := s.pending[0];
      var docs := Union(p.generations);
      var h := if writeOk && manifestOk then Disk(p.path) else Memory(docs);
      DiskDocsInsert(s, FlushPosition(s, p), h, docs, Span(p.queuedAt, p.queuedAt));
      SameDiskDocs(t, InsertSegment(s, FlushPosition(s, p), h, docs, Span(p.queuedAt, p.queuedAt)));
    } else {
      SameDiskDocs(s, t);
    }
  }

  lemma PushKeepsDiskDocs(s: Lsm, t: Lsm)
    requires SameLengths(s) && |t.handles| == |t.readers| == |s.handles| + 1
    requires t.handles[..|s.handles|] == s.handles && t.readers[..|s.handles|] == s.readers
    ensures DiskDocs(s) <= DiskDocs(t)
  {
    forall d | d in DiskDocs(s) ensures d in DiskDocs(t) {
      var k :| 0 <= k < |s.handles| && s.handles[k].Disk? && d in s.readers[k];
      assert t.handles[k] == s.handles[k] && t.readers[k] == s.readers[k];
    }
  }

  /** Once durable, a document not deleted stays durable. */
  lemma StepKeepsDurable(s: Lsm, e: Event)
    requires Inv(s) && Enabled(s, e)
    ensures Surviving(Durable(s), Next(s, e).everDeleted) <= Durable(Next(s, e))
  {
    var t := Next(s, e);
    NextKeepsInv(s, e);
    DeletedAfter(s, e);
    StepKeepsDiskDocs(s, e);
    forall d | d in Surviving(Durable(s), t.everDeleted) ensures d in Durable(t) {
      assert d in Surviving(Durable(s), s.everDeleted);
      assert d in DiskDocs(t);
      assert d in Surviving(DiskDocs(t), t.everDeleted);
    }
  }

  // ---------------------------------------------------------------------------------------
  // Every step of the worker keeps the invariants.
  // ---------------------------------------------------------------------------------------

  /** Everything but that nothing releasable waits. */
  ghost predicate Tracked(w: Worker)
  {
    && Inv(w.index) && WriterInOrder(w) && WaitersCovered(w) && WaitersInOrder(w.waiters)
    && (w.index.persistent ==> AcksDurable(w)) && AddedHeld(w)
  }

  /** A flush whose target is reached has all its documents in segments; unless a write failed they are
      in files the manifest lists. */
  lemma ReachedIsDurable(s: Lsm, docs: Mem, target: nat)
    requires Inv(s) && Covered(s, docs, target) && FlushedThrough(s) >= target && s.persistent && !s.failure
    ensures Surviving(docs, s.everDeleted) <= Durable(s)
  {
    assert PendingBelow(s.pending, target) == {};
    forall d | d in Surviving(docs, s.everDeleted) ensures d in Durable(s) {
      assert d in Union(s.readers);
      var k :| 0 <= k < |s.readers| && d in s.readers[k];
      assert s.handles[k].Disk?;
      assert d in DiskDocs(s);
      assert d in Surviving(DiskDocs(s), s.everDeleted);
    }
  }

  lemma ReleaseOne(w: Worker)
    requires Tracked(w) && w.waiters != [] && FlushedThrough(w.index) >= w.waiters[0].target
    ensures Tracked(w.(waiters := w.waiters[1..],
                       acks := w.acks + [Ack(w.waiters[0].flush, !w.index.failure, w.waiters[0].before)]))
  {
    var first := w.waiters[0];
    if w.index.persistent && !w.index.failure { ReachedIsDurable(w.index, first.before, first.target); }
  }

  lemma {:induction false} ReleaseKeepsInv(w: Worker)
    requires Tracked(w)
    ensures WInv(Release(w))
    decreases |w.waiters|
  {
    if w.waiters == [] || FlushedThrough(w.index) < w.waiters[0].target {
    } else {
      var first := w.waiters[0];
      ReleaseOne(w);
      ReleaseKeepsInv(w.(waiters := w.waiters[1..], acks := w.acks + [Ack(first.flush, !w.index.failure, first.before)]));
    }
  }

  predicate FinishesFlush(s: Lsm, e: Event)
  {
    e.Complete? && s.pending != [] && s.pending[0].number == e.number
  }

  /** What an event does to the numbering of flushes and to the failure flag. */
  ghost predicate Numbered(s: Lsm, t: Lsm, finishes: bool, takes: bool)
  {
    && s.nextSeq <= t.nextSeq && t.persistent == s.persistent && (s.failure ==> t.failure)
    && FlushedThrough(t) == FlushedThrough(s) + (if finishes then 1 else 0)
    && (!takes ==> |t.pending| - |t.queued| == |s.pending| - |s.queued| + FlushedThrough(s) - FlushedThrough(t))
  }

  lemma QueueNumbers(s: Lsm, keep: nat, syncOk: bool)
    requires keep <= |s.generations|
    ensures Numbered(s, QueueFlush(s, keep, syncOk).0, false, false)
  {
  }

  lemma CompleteNumbers(s: Lsm, number: nat, writeOk: bool, manifestOk: bool)
    requires SameLengths(s)
    ensures Numbered(s, CompleteFlush(s, number, writeOk, manifestOk).0, s.pending != [] && s.pending[0].number == number, false)
  {
  }

  lemma InstallNumbers(s: Lsm, j: nat, openOk: bool, manifestOk: bool)
    requires Inv(s) && j < |s.jobs|
    ensures Numbered(s, Install(s, j, openOk, manifestOk).0, false, false)
  {
    if Installable(s, j) && openOk {
      InstalledFields(s, j, manifestOk);
    } else {
      RejectedFields(s, j, openOk, manifestOk);
    }
  }

  lemma SequenceGrows(s: Lsm, e: Event)
    requires Inv(s) && Enabled(s, e)
    ensures Numbered(s, Next(s, e), FinishesFlush(s, e), e.Take?)
  {
    match e
    case Queue(keep, syncOk) => QueueNumbers(s, keep, syncOk);
    case Complete(number, writeOk, manifestOk) => CompleteNumbers(s, number, writeOk, manifestOk);
    case InstallJob(j, openOk, manifestOk) => InstallNumbers(s, j, openOk, manifestOk);
    case _ =>
  }

  lemma StepKeepsCovered(s: Lsm, e: Event, docs: Mem, target: nat)
    requires Inv(s) && Enabled(s, e) && Covered(s, docs, target)
    ensures Covered(Next(s, e), docs, target)
  {
    var t := Next(s, e);
    StepKeepsCover(s, e, target);
    DeletedAfter(s, e);
    forall d | d in Surviving(docs, t.everDeleted) ensures d in Cover(t, target) {
      assert d in Surviving(docs, s.everDeleted);
      assert d in Surviving(Cover(s, target), s.everDeleted);
    }
  }

  lemma IndexStepKeepsFlushes(w: Worker, e: Event)
    requires Tracked(w) && Enabled(w.index, e)
    ensures var t := w.(index := Next(w.index, e));
            WaitersCovered(t) && (t.index.persistent ==> AcksDurable(t))
  {
    var s, t := w.index, w.(index := Next(w.index, e));
    SequenceGrows(s, e);
    forall k | 0 <= k < |t.waiters|
      ensures t.waiters[k].target <= t.index.nextSeq && Covered(t.index, t.waiters[k].before, t.waiters[k].target)
    {
      StepKeepsCovered(s, e, w.waiters[k].before, w.waiters[k].target);
    }
    StepKeepsDurable(s, e);
    DeletedAfter(s, e);
    if t.index.persistent {
      forall k | 0 <= k < |t.acks| && t.acks[k].ok
        ensures Surviving(t.acks[k].before, t.index.everDeleted) <= Durable(t.index)
      {
        DurableStays(s, t.index, w.acks[k].before);
      }
    }
  }

  lemma DurableStays(s: Lsm, t: Lsm, docs: Mem)
    requires Surviving(docs, s.everDeleted) <= Durable(s) && s.everDeleted <= t.everDeleted
    requires Surviving(Durable(s), t.everDeleted) <= Durable(t)
    ensures Surviving(docs, t.everDeleted) <= Durable(t)
  {
    forall d | d in Surviving(docs, t.everDeleted) ensures d in Durable(t) {
      assert d in Surviving(docs, s.everDeleted);
      assert d in Surviving(Durable(s), t.everDeleted);
    }
  }

  lemma IndexStepKeepsAdded(w: Worker, e: Event)
    requires Tracked(w) && Enabled(w.index, e)
    ensures AddedHeld(w.(index := Next(w.index, e), added := w.added + NewDocs(w.index, e)))
  {
    var s, t := w.index, Next(w.index, e);
    StepKeepsHeld(s, e);
    DeletedAfter(s, e);
    forall d | d in Surviving(w.added + NewDocs(s, e), t.everDeleted) ensures d in Held(t) {
      if d in w.added {
        assert d in Surviving(w.added, s.everDeleted);
        assert d in Surviving(Held(s), s.everDeleted);
      }
    }
  }

  /** A step of the index, with the writer told of completed and submitted flushes. */
  lemma IndexStepKeepsTracked(w: Worker, e: Event, t: Worker)
    requires Tracked(w) && Enabled(w.index, e) && WriterInOrder(t)
    requires t == w.(index := Next(w.index, e), added := w.added + NewDocs(w.index, e), writer := t.writer, flushes := t.flushes)
    ensures Tracked(t)
  {
    NextKeepsInv(w.index, e);
    IndexStepKeepsFlushes(w, e);
    IndexStepKeepsAdded(w, e);
  }

  lemma InnerKeepsInv(w: Worker, e: Event)
    requires WInv(w) && CanStep(w, Inner(e))
    ensures WInv(Do(w, Inner(e)))
  {
    SequenceGrows(w.index, e);
    IndexStepKeepsTracked(w, e, Do(w, Inner(e)));
  }

  lemma SubmitKeepsTracked(w: Worker)
    requires Tracked(w)
    ensures Tracked(SubmitAll(w))
  {
    assert Next(w.index, Take) == TakeJobs(w.index);
    IndexStepKeepsTracked(w, Take, SubmitAll(w));
  }

  lemma WrittenKeepsInv(w: Worker, writeOk: bool, manifestOk: bool)
    requires WInv(w) && w.writer != []
    ensures WInv(HandleWritten(w, writeOk, manifestOk))
  {
    var e := Complete(w.writer[0], writeOk, manifestOk);
    assert w.index.pending[0].number == w.writer[0];
    var t := w.(index := Next(w.index, e), writer := w.writer[1..]);
    SequenceGrows(w.index, e);
    IndexStepKeepsTracked(w, e, t);
    ReleaseKeepsInv(t);
  }

  /** After an accepted flush everything added is in segments or in pending writes. */
  lemma QueuedIsCovered(s: Lsm, keep: nat, syncOk: bool, docs: Mem)
    requires Inv(s) && keep <= |s.generations| && QueueFlush(s, keep, syncOk).1
    requires Surviving(docs, s.everDeleted) <= Held(s)
    ensures var t := QueueFlush(s, keep, syncOk).0; Covered(t, docs, t.nextSeq)
  {
    var t := QueueFlush(s, keep, syncOk).0;
    QueueMoves(s, keep, syncOk);
    QueueKeepsInv(s, keep, syncOk);
    QueueEmptiesMemory(s, keep, syncOk);
    AllPendingBelow(t);
  }

  lemma QueueEmptiesMemory(s: Lsm, keep: nat, syncOk: bool)
    requires keep <= |s.generations| && QueueFlush(s, keep, syncOk).1
    ensures var t := QueueFlush(s, keep, syncOk).0;
            t.mem == {} && t.generations == [] && t.everDeleted == s.everDeleted && InMemory(t) == PendingDocs(t.pending)
  {
    var t := QueueFlush(s, keep, syncOk).0;
    assert Union(t.generations) == {};
  }

  lemma AllPendingBelow(t: Lsm)
    requires QueueInOrder(t)
    ensures PendingDocs(t.pending) <= PendingBelow(t.pending, t.nextSeq)
  {
    forall d | d in PendingDocs(t.pending) ensures d in PendingBelow(t.pending, t.nextSeq) {
      var k :| 0 <= k < |t.pending| && d in Union(t.pending[k].generations);
      assert t.pending[k].number == FlushedThrough(t) + k;
    }
  }

  lemma QueueKeepsWInv(w: Worker, keep: nat, syncOk: bool)
    requires WInv(w) && keep <= |w.index.generations|
    ensures WInv(w.(index := QueueFlush(w.index, keep, syncOk).0, flushes := w.flushes + 1))
  {
    var e := Queue(keep, syncOk);
    var queued := w.(index := QueueFlush(w.index, keep, syncOk).0, flushes := w.flushes + 1);
    SequenceGrows(w.index, e);
    IndexStepKeepsTracked(w, e, queued);
  }

  lemma AcceptedKeepsInv(queued: Worker, flush: nat)
    requires WInv(queued) && Covered(queued.index, queued.added, queued.index.nextSeq)
    ensures var sent := SubmitAll(queued);
            WInv(Release(sent.(waiters := sent.waiters + [Waiter(flush, sent.index.nextSeq, sent.added)])))
  {
    SubmitKeepsTracked(queued);
    var sent := SubmitAll(queued);
    var waiter := Waiter(flush, sent.index.nextSeq, sent.added);
    assert Covered(sent.index, sent.added, sent.index.nextSeq);
    WaiterKeepsTracked(sent, waiter);
    ReleaseKeepsInv(sent.(waiters := sent.waiters + [waiter]));
  }

  lemma FlushKeepsInv(w: Worker, keep: nat, syncOk: bool)
    requires WInv(w) && keep <= |w.index.generations|
    ensures WInv(HandleFlush(w, keep, syncOk))
  {
    var queued := w.(index := QueueFlush(w.index, keep, syncOk).0, flushes := w.flushes + 1);
    QueueKeepsWInv(w, keep, syncOk);
    if Refused(w, keep, syncOk) {
      RefusedKeepsInv(queued, Ack(w.flushes, false, w.added));
    } else {
      QueuedIsCovered(w.index, keep, syncOk, w.added);
      AcceptedKeepsInv(queued, w.flushes);
    }
  }

  lemma RefusedKeepsInv(w: Worker, ack: Ack)
    requires WInv(w) && !ack.ok
    ensures WInv(w.(acks := w.acks + [ack]))
  {
    RefusedKeepsTracked(w, ack);
  }

  lemma RefusedKeepsTracked(w: Worker, ack: Ack)
    requires Tracked(w) && !ack.ok
    ensures Tracked(w.(acks := w.acks + [ack]))
  {
  }

  lemma WaiterKeepsTracked(w: Worker, waiter: Waiter)
    requires Tracked(w) && waiter.target == w.index.nextSeq && Covered(w.index, waiter.before, waiter.target)
    ensures Tracked(w.(waiters := w.waiters + [waiter]))
  {
  }

  lemma DoKeepsInv(w: Worker, step: Step)
    requires WInv(w) && CanStep(w, step)
    ensures WInv(Do(w, step))
  {
    match step
    case Inner(e) => InnerKeepsInv(w, e);
    case Submit => SubmitKeepsTracked(w);
    case Flush(keep, syncOk) => FlushKeepsInv(w, keep, syncOk);
    case SegmentWritten(writeOk, manifestOk) => WrittenKeepsInv(w, writeOk, manifestOk);
  }

  // ---------------------------------------------------------------------------------------
  // Every run.
  // ---------------------------------------------------------------------------------------

  ghost predicate Steps(w: Worker, step: Step, t: Worker) { CanStep(w, step) && t == Do(w, step) }

  ghost predicate IsWorkerRun(run: seq<Worker>, steps: seq<Step>)
  {
    |run| == |steps| + 1 && forall k :: 0 <= k < |steps| ==> Steps(run[k], steps[k], run[k + 1])
  }

  lemma {:induction false} RunKeepsWInv(persistent: bool, run: seq<Worker>, steps: seq<Step>, k: nat)
    requires IsWorkerRun(run, steps) && run[0] == Start(persistent) && k < |run|
    ensures WInv(run[k])
  {
    if k > 0 {
      RunKeepsWInv(persistent, run, steps, k - 1);
      assert Steps(run[k - 1], steps[k - 1], run[k]);
      DoKeepsInv(run[k - 1], steps[k - 1]);
    }
  }

  /** The documents of an acknowledgement or a waiter are those added before its command. */
  ghost predicate IsBefore(run: seq<Worker>, steps: seq<Step>, k: nat, flush: nat, docs: Mem)
    requires |run| == |steps| + 1
  {
    exists m :: 0 <= m < k && m < |steps| && steps[m].Flush? && run[m].flushes == flush && run[m].added == docs
  }

  ghost predicate Traced(run: seq<Worker>, steps: seq<Step>, k: nat, w: Worker)
    requires |run| == |steps| + 1
  {
    && (forall i :: 0 <= i < |w.acks| ==> IsBefore(run, steps, k, w.acks[i].flush, w.acks[i].before))
    && (forall i :: 0 <= i < |w.waiters| ==> IsBefore(run, steps, k, w.waiters[i].flush, w.waiters[i].before))
  }

  lemma {:induction false} ReleaseKeepsTraced(run: seq<Worker>, steps: seq<Step>, k: nat, w: Worker)
    requires |run| == |steps| + 1 && Traced(run, steps, k, w)
    ensures Traced(run, steps, k, Release(w))
    decreases |w.waiters|
  {
    if w.waiters == [] || FlushedThrough(w.index) < w.waiters[0].target {
    } else {
      var first := w.waiters[0];
      assert IsBefore(run, steps, k, first.flush, first.before);
      ReleaseKeepsTraced(run, steps, k,
        w.(waiters := w.waiters[1..], acks := w.acks + [Ack(first.flush, !w.index.failure, first.before)]));
    }
  }

  lemma TracedLater(run: seq<Worker>, steps: seq<Step>, k: nat, w: Worker)
    requires |run| == |steps| + 1 && Traced(run, steps, k, w)
    ensures Traced(run, steps, k + 1, w)
  {
    forall i | 0 <= i < |w.acks| ensures IsBefore(run, steps, k + 1, w.acks[i].flush, w.acks[i].before) {
      assert IsBefore(run, steps, k, w.acks[i].flush, w.acks[i].before);
    }
    forall i | 0 <= i < |w.waiters| ensures IsBefore(run, steps, k + 1, w.waiters[i].flush, w.waiters[i].before) {
      assert IsBefore(run, steps, k, w.waiters[i].flush, w.waiters[i].before);
    }
  }

  lemma FlushKeepsTraced(run: seq<Worker>, steps: seq<Step>, k: nat, w: Worker, keep: nat, syncOk: bool)
    requires |run| == |steps| + 1 && Traced(run, steps, k, w) && IsBefore(run, steps, k, w.flushes, w.added)
    requires keep <= |w.index.generations|
    ensures Traced(run, steps, k, HandleFlush(w, keep, syncOk))
  {
    if !Refused(w, keep, syncOk) {
      var sent := SubmitAll(w.(index := QueueFlush(w.index, keep, syncOk).0, flushes := w.flushes + 1));
      ReleaseKeepsTraced(run, steps, k, sent.(waiters := w.waiters + [Waiter(w.flushes, sent.index.nextSeq, w.added)]));
    }
  }

  lemma StepKeepsTraced(run: seq<Worker>, steps: seq<Step>, k: nat, w: Worker, step: Step)
    requires |run| == |steps| + 1 && Traced(run, steps, k, w) && CanStep(w, step)
    requires step.Flush? ==> IsBefore(run, steps, k, w.flushes, w.added)
    ensures Traced(run, steps, k, Do(w, step))
  {
    match step
    case Flush(keep, syncOk) => FlushKeepsTraced(run, steps, k, w, keep, syncOk);
    case SegmentWritten(writeOk, manifestOk) =>
      ReleaseKeepsTraced(run, steps, k,
        w.(index := CompleteFlush(w.index, w.writer[0], writeOk, manifestOk).0, writer := w.writer[1..]));
    case _ =>
  }

  lemma {:induction false} RunIsTraced(persistent: bool, run: seq<Worker>, steps: seq<Step>, k: nat)
    requires IsWorkerRun(run, steps) && run[0] == Start(persistent) && k < |run|
    ensures Traced(run, steps, k, run[k])
  {
    if k > 0 {
      var w, step := run[k - 1], steps[k - 1];
      RunIsTraced(persistent, run, steps, k - 1);
      TracedLater(run, steps, k - 1, w);
      assert Steps(w, step, run[k]);
      assert step.Flush? ==> IsBefore(run, steps, k, w.flushes, w.added);
      StepKeepsTraced(run, steps, k, w, step);
    }
  }

  /** On a persistent index, a flush acknowledged Ok has every document added before the command, unless
      deleted, in a file the manifest lists, from then on. */
  lemma AcknowledgedFlushIsDurable(run: seq<Worker>, steps: seq<Step>, k: nat, i: nat)
    requires IsWorkerRun(run, steps) && run[0] == Start(true) && k < |run| && i < |run[k].acks| && run[k].acks[i].ok
    ensures exists m :: 0 <= m < k && steps[m].Flush? && run[m].flushes == run[k].acks[i].flush
                        && Surviving(run[m].added, run[k].index.everDeleted) <= Durable(run[k].index)
  {
    RunKeepsWInv(true, run, steps, k);
    StaysPersistent(run, steps, k);
    RunIsTraced(true, run, steps, k);
    assert IsBefore(run, steps, k, run[k].acks[i].flush, run[k].acks[i].before);
  }

  lemma {:induction false} StaysPersistent(run: seq<Worker>, steps: seq<Step>, k: nat)
    requires IsWorkerRun(run, steps) && run[0] == Start(true) && k < |run|
    ensures run[k].index.persistent
  {
    if k > 0 {
      StaysPersistent(run, steps, k - 1);
      RunKeepsWInv(true, run, steps, k - 1);
      assert Steps(run[k - 1], steps[k - 1], run[k]);
      DoKeepsKind(run[k - 1], steps[k - 1]);
    }
  }

  lemma {:induction false} ReleaseKeepsIndex(w: Worker)
    ensures var t := Release(w);
            && t == w.(acks := t.acks, waiters := t.waiters) && |w.acks| <= |t.acks| && t.acks[..|w.acks|] == w.acks
            && (w.index.failure ==> forall i :: |w.acks| <= i < |t.acks| ==> !t.acks[i].ok)
            && Ids(t) == Ids(w)
    decreases |w.waiters|
  {
    if w.waiters == [] || FlushedThrough(w.index) < w.waiters[0].target {
    } else {
      var first := w.waiters[0];
      var one := w.(waiters := w.waiters[1..], acks := w.acks + [Ack(first.flush, !w.index.failure, first.before)]);
      ReleaseKeepsIndex(one);
      assert Ids(one) == Ids(w);
    }
  }

  /** Acknowledgements are only appended, and not as Ok once a write failed. */
  ghost predicate AcksFollow(w: Worker, t: Worker)
  {
    && t.index.persistent == w.index.persistent && (w.index.failure ==> t.index.failure)
    && |w.acks| <= |t.acks| && t.acks[..|w.acks|] == w.acks
    && (w.index.failure ==> forall i :: |w.acks| <= i < |t.acks| ==> !t.acks[i].ok)
  }

  lemma ReleaseFollows(w: Worker, waiting: Worker)
    requires waiting.index.persistent == w.index.persistent && (w.index.failure ==> waiting.index.failure)
    requires waiting.acks == w.acks
    ensures AcksFollow(w, Release(waiting))
  {
    ReleaseKeepsIndex(waiting);
  }

  lemma DoKeepsKind(w: Worker, step: Step)
    requires WInv(w) && CanStep(w, step)
    ensures AcksFollow(w, Do(w, step))
  {
    match step
    case Inner(e) => SequenceGrows(w.index, e);
    case Submit =>
    case Flush(keep, syncOk) => FlushFollows(w, keep, syncOk);
    case SegmentWritten(writeOk, manifestOk) =>
      ReleaseFollows(w, w.(index := CompleteFlush(w.index, w.writer[0], writeOk, manifestOk).0, writer := w.writer[1..]));
  }

  lemma FlushFollows(w: Worker, keep: nat, syncOk: bool)
    requires keep <= |w.index.generations|
    ensures AcksFollow(w, HandleFlush(w, keep, syncOk))
  {
    if !Refused(w, keep, syncOk) {
      var sent := SubmitAll(w.(index := QueueFlush(w.index, keep, syncOk).0, flushes := w.flushes + 1));
      ReleaseFollows(w, sent.(waiters := w.waiters + [Waiter(w.flushes, sent.index.nextSeq, w.added)]));
    }
  }

  /** After a failed segment write no later flush is acknowledged Ok. */
  lemma {:induction false} NoOkAfterFailure(persistent: bool, run: seq<Worker>, steps: seq<Step>, failed: nat, k: nat)
    requires IsWorkerRun(run, steps) && run[0] == Start(persistent) && failed <= k < |run| && run[failed].index.failure
    ensures run[k].index.failure && |run[failed].acks| <= |run[k].acks|
    ensures forall i :: |run[failed].acks| <= i < |run[k].acks| ==> !run[k].acks[i].ok
  {
    if k > failed {
      NoOkAfterFailure(persistent, run, steps, failed, k - 1);
      RunKeepsWInv(persistent, run, steps, k - 1);
      assert Steps(run[k - 1], steps[k - 1], run[k]);
      DoKeepsKind(run[k - 1], steps[k - 1]);
      var before, now := run[k - 1].acks, run[k].acks;
      forall i | |run[failed].acks| <= i < |now| ensures !now[i].ok {
        if i < |before| { assert now[i] == now[..|before|][i]; }
      }
    }
  }

  /** When no write is pending, no flush waits. */
  lemma NoFlushIsForgotten(persistent: bool, run: seq<Worker>, steps: seq<Step>, k: nat)
    requires IsWorkerRun(run, steps) && run[0] == Start(persistent) && k < |run| && run[k].index.pending == []
    ensures run[k].waiters == []
  {
    RunKeepsWInv(persistent, run, steps, k);
    if run[k].waiters != [] {
      WaitingMeansPending(run[k]);
      assert false;
    }
  }

  lemma WaitingMeansPending(w: Worker)
    requires WInv(w) && w.waiters != []
    ensures w.index.pending != []
  {
    assert w.waiters[0].target <= w.index.nextSeq;
  }

  // ---------------------------------------------------------------------------------------
  // The order of the acknowledgements.
  // ---------------------------------------------------------------------------------------

  function AckIds(acks: seq<Ack>): seq<nat> { seq(|acks|, i requires 0 <= i < |acks| => acks[i].flush) }
  function WaiterIds(waiters: seq<Waiter>): seq<nat>
  {
    seq(|waiters|, i requires 0 <= i < |waiters| => waiters[i].flush)
  }

  /** The flushes in the order they are acknowledged: those already, then those waiting. */
  function Ids(w: Worker): seq<nat> { AckIds(w.acks) + WaiterIds(w.waiters) }

  ghost predicate Ascending(ids: seq<nat>) { forall i, j :: 0 <= i < j < |ids| ==> ids[i] < ids[j] }

  ghost predicate IdsBelow(ids: seq<nat>, n: nat) { forall i :: 0 <= i < |ids| ==> ids[i] < n }

  /** A flush is refused while others wait. */
  ghost predicate Overtakes(w: Worker, step: Step)
  {
    step.Flush? && CanStep(w, step) && Refused(w, step.keep, step.syncOk) && w.waiters != []
  }

  lemma StepOrdersIds(w: Worker, step: Step)
    requires CanStep(w, step)
    ensures var t := Do(w, step);
            && t.flushes == w.flushes + (if step.Flush? then 1 else 0)
            && Ids(t) == if step.Flush? then
                           if Refused(w, step.keep, step.syncOk) then AckIds(w.acks) + [w.flushes] + WaiterIds(w.waiters)
                           else Ids(w) + [w.flushes]
                         else Ids(w)
  {
    match step
    case Flush(keep, syncOk) =>
      if Refused(w, keep, syncOk) {
        assert AckIds(w.acks + [Ack(w.flushes, false, w.added)]) == AckIds(w.acks) + [w.flushes];
      } else {
        var sent := SubmitAll(w.(index := QueueFlush(w.index, keep, syncOk).0, flushes := w.flushes + 1));
        var waiting := sent.(waiters := w.waiters + [Waiter(w.flushes, sent.index.nextSeq, w.added)]);
        ReleaseKeepsIndex(waiting);
        assert Ids(waiting) == Ids(w) + [w.flushes];
      }
    case SegmentWritten(writeOk, manifestOk) =>
      ReleaseKeepsIndex(w.(index := CompleteFlush(w.index, w.writer[0], writeOk, manifestOk).0, writer := w.writer[1..]));
    case _ =>
  }

  lemma InsertedAscends(front: seq<nat>, back: seq<nat>, n: nat)
    requires IdsBelow(front + back, n)
    ensures IdsBelow(front + [n] + back, n + 1)
    ensures Ascending(front + [n] + back) <==> Ascending(front + back) && back == []
  {
    var ids, all := front + back, front + [n] + back;
    forall i | 0 <= i < |ids| ensures ids[i] == all[if i < |front| then i else i + 1] {
    }
    forall i | 0 <= i < |all| && i != |front| ensures all[i] == ids[if i < |front| then i else i - 1] {
    }
    assert back != [] ==> all[|front|] == n && all[|front| + 1] == ids[|front|] < n;
    if Ascending(all) {
      forall i, j | 0 <= i < j < |ids| ensures ids[i] < ids[j] {
        assert ids[i] == all[if i < |front| then i else i + 1] && ids[j] == all[if j < |front| then j else j + 1];
      }
    }
  }

  /** Acknowledgements go out in command order exactly as long as no flush is refused while others
      wait. */
  lemma {:induction false} AcksInCommandOrderIff(persistent: bool, run: seq<Worker>, steps: seq<Step>, k: nat)
    requires IsWorkerRun(run, steps) && run[0] == Start(persistent) && k < |run|
    ensures IdsBelow(Ids(run[k]), run[k].flushes) && |Ids(run[k])| == run[k].flushes
    ensures Ascending(Ids(run[k])) <==> forall i :: 0 <= i < k ==> !Overtakes(run[i], steps[i])
  {
    if k > 0 {
      var w, step := run[k - 1], steps[k - 1];
      AcksInCommandOrderIff(persistent, run, steps, k - 1);
      assert Steps(w, step, run[k]);
      StepOrdersIds(w, step);
      if step.Flush? {
        if Refused(w, step.keep, step.syncOk) {
          InsertedAscends(AckIds(w.acks), WaiterIds(w.waiters), w.flushes);
        } else {
          InsertedAscends(Ids(w), [], w.flushes);
          assert Ids(w) + [w.flushes] + [] == Ids(w) + [w.flushes] && Ids(w) + [] == Ids(w);
        }
      }
      assert Overtakes(w, step) <==> step.Flush? && Refused(w, step.keep, step.syncOk) && w.waiters != [];
    }
  }

  /** It does happen: the tombstones of a second flush cannot be synced while the first waits, and the
      second is answered first. */
  lemma RefusedFlushOvertakes() returns (run: seq<Worker>, steps: seq<Step>)
    ensures IsWorkerRun(run, steps) && run[0] == Start(true) && |steps| == 3
    ensures Overtakes(run[2], steps[2]) && Ids(run[3]) == [1, 0]
  {
    steps := [Inner(Merge({Doc(1, 0)})), Flush(0, true), Flush(0, false)];
    var w1 := Do(Start(true), steps[0]);
    assert w1.index.generations == [] && w1.index.mem == {Doc(1, 0)};
    var w2 := Do(w1, steps[1]);
    FirstFlushWaits(w1);
    var w3 := Do(w2, steps[2]);
    run := [Start(true), w1, w2, w3];
    assert Steps(run[0], steps[0], run[1]);
    assert Steps(run[1], steps[1], run[2]);
    assert Steps(run[2], steps[2], run[3]);
    StepOrdersIds(w2, steps[2]);
  }

  lemma FirstFlushWaits(w: Worker)
    requires w.index.persistent && !w.index.failure && w.index.mem != {} && w.index.generations == []
    requires w.index.pending == [] && w.waiters == [] && w.acks == [] && SameLengths(w.index)
    ensures var t := HandleFlush(w, 0, true);
            && SameLengths(t.index) && t.index.persistent && !t.index.failure && t.acks == []
            && |t.waiters| == 1 && t.waiters[0].flush == w.flushes && t.flushes == w.flushes + 1
  {
  }
}
