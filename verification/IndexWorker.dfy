/** The worker that owns the index: one method per command. Every state a method passes through is a
    state of a run of module `FlushAcks`, so what is proved of all runs there holds here. */
module IndexWorker {
  import opened Options
  import opened Numbers
  import opened LsmState
  import opened LsmInvariants
  import opened LsmCompaction
  import opened LsmVisibility
  import opened FlushAcks
  import opened FlushOutcomes
  import I = LsmIndex
  import W = CompactionWindows

  const PUBLISH_DOC_THRESHOLD: nat := 100

  lemma RunAppend(run: seq<Worker>, steps: seq<Step>, step: Step)
    requires IsWorkerRun(run, steps) && CanStep(run[|steps|], step)
    ensures IsWorkerRun(run + [Do(run[|steps|], step)], steps + [step])
  {
    var run', steps' := run + [Do(run[|steps|], step)], steps + [step];
    forall k | 0 <= k < |steps'| ensures Steps(run'[k], steps'[k], run'[k + 1]) {
      if k < |steps| { assert Steps(run[k], steps[k], run[k + 1]); }
    }
  }

  ghost predicate Extends<T>(before: seq<T>, after: seq<T>)
  {
    |before| <= |after| && forall k :: 0 <= k < |before| ==> after[k] == before[k]
  }

  function DocsOf(documents: seq<Doc>): Mem { set d | d in documents }

  lemma DocsOfAppend(documents: seq<Doc>, n: nat)
    requires n < |documents|
    ensures DocsOf(documents[..n + 1]) == DocsOf(documents[..n]) + {documents[n]}
  {
    assert documents[..n + 1] == documents[..n] + [documents[n]];
  }

  lemma InstallShows(w: Worker, j: nat, openOk: bool, manifestOk: bool)
    requires WInv(w) && j < |w.index.jobs|
    ensures w.index.jobs[j].selected != []
    ensures !Clears(w.index, InstallJob(j, openOk, manifestOk)) ==>
              Visible(Install(w.index, j, openOk, manifestOk).0) == Visible(w.index)
  {
    assert JobKnows(w.index, w.index.jobs[j]);
    VisibleAfterStep(w.index, InstallJob(j, openOk, manifestOk));
    NothingAdded(Visible(w.index), w.index.deleted);
  }

  lemma QueueShowsAll(s: Lsm, keep: nat, syncOk: bool)
    requires keep <= |s.generations|
    ensures var t := QueueFlush(s, keep, syncOk).0; Visible(t) == Visible(s) && Visible(TakeJobs(t)) == Visible(s)
  {
    QueueMoves(s, keep, syncOk);
    var t := QueueFlush(s, keep, syncOk).0;
    assert Held(TakeJobs(t)) == Held(t);
  }

  lemma FlushShowsAll(w: Worker, keep: nat, syncOk: bool)
    requires keep <= |w.index.generations|
    ensures Visible(HandleFlush(w, keep, syncOk).index) == Visible(w.index)
    ensures HandleFlush(w, keep, syncOk).added == w.added
  {
    QueueShowsAll(w.index, keep, syncOk);
    if !Refused(w, keep, syncOk) {
      var sent := SubmitAll(w.(index := QueueFlush(w.index, keep, syncOk).0, flushes := w.flushes + 1));
      ReleaseKeepsIndex(sent.(waiters := w.waiters + [Waiter(w.flushes, sent.index.nextSeq, w.added)]));
    }
  }

  lemma WrittenShowsAll(w: Worker, writeOk: bool, manifestOk: bool)
    requires SameLengths(w.index) && w.writer != []
    ensures Visible(HandleWritten(w, writeOk, manifestOk).index) == Visible(w.index)
    ensures HandleWritten(w, writeOk, manifestOk).added == w.added
  {
    CompleteMoves(w.index, w.writer[0], writeOk, manifestOk);
    ReleaseKeepsIndex(
      w.(index := CompleteFlush(w.index, w.writer[0], writeOk, manifestOk).0, writer := w.writer[1..]));
  }

  /** The documents of the segments `AddSegments` adds. */
  function DocsAdded(persistent: bool, segments: seq<Mem>, writeOk: nat -> bool): Mem
    decreases |segments|
  {
    if segments == [] || (persistent && !writeOk(|segments|)) then {}
    else segments[0] + DocsAdded(persistent, segments[1..], writeOk)
  }

  /** No segment fails to be written, where segments are files. */
  ghost predicate AllWritten(persistent: bool, segments: seq<Mem>, writeOk: nat -> bool)
  {
    persistent ==> forall k :: 1 <= k <= |segments| ==> writeOk(k)
  }

  lemma {:induction false} AddsAllIff(s: Lsm, segments: seq<Mem>, writeOk: nat -> bool)
    ensures I.AddSegments(s, segments, writeOk).1 == AllWritten(s.persistent, segments, writeOk)
    decreases |segments|
  {
    if segments != [] {
      var (t, ok) := LsmState.AddSegment(s, segments[0], writeOk(|segments|));
      if ok { AddsAllIff(t, segments[1..], writeOk); }
    }
  }

  function SizeOfAll(parts: seq<Mem>, size: Mem -> nat): nat
  {
    if parts == [] then 0 else size(parts[0]) + SizeOfAll(parts[1..], size)
  }

  class IndexWorker {
    const index: I.LsmIndex
    const flushThreshold: nat
    /** Segment writes handed to the writer thread, oldest first. */
    var writer: seq<nat>
    var flushWaiters: seq<Waiter>
    /** Acknowledgements of flushes, in the order sent. */
    var acks: seq<Ack>
    var flushes: nat
    /** Documents added so far: what acknowledgements speak of. */
    var added: Mem
    var docsSincePublish: nat
    /** The snapshot searches read: the documents of its segments that are not hidden. */
    var snapshot: seq<Mem>
    var snapshotHidden: set<nat>
    ghost var run: seq<Worker>
    ghost var steps: seq<Step>

    ghost function Value(): Worker
      reads this, index
    {
      Worker(index.state, writer, flushWaiters, acks, flushes, added)
    }

    ghost predicate Valid()
      reads this, index
    {
      && index.Valid() && IsWorkerRun(run, steps) && run[0] == Start(index.persistent)
      && run[|steps|] == Value() && docsSincePublish < 100
    }

    /** What a search sees now. */
    ghost function Seen(): Mem
      reads this
    {
      Surviving(Union(snapshot), snapshotHidden)
    }

    /** Searches see everything the index holds. */
    ghost predicate IsPublished()
      reads this, index
    {
      docsSincePublish == 0 && Seen() == Visible(index.state)
    }

    /** Searches see what they saw before. */
    twostate predicate KeepsSnapshot()
      reads this
    {
      snapshot == old(snapshot) && snapshotHidden == old(snapshotHidden)
    }

    /** A new snapshot if `due`, else the old one with `docs` documents more to publish. */
    twostate predicate PublishesIf(due: bool, docs: nat)
      reads this, index
    {
      if due then IsPublished() else KeepsSnapshot() && docsSincePublish == old(docsSincePublish) + docs
    }

    /** The past is kept. */
    twostate predicate Continues()
      reads this
    {
      Extends(old(run), run) && Extends(old(steps), steps)
    }

    constructor (persistent: bool, flushThreshold: nat)
      ensures Valid() && Value() == Start(persistent) && fresh(index) && IsPublished()
    {
      index := new I.LsmIndex(persistent);
      this.flushThreshold := flushThreshold;
      writer, flushWaiters, acks, flushes, added, docsSincePublish := [], [], [], 0, {}, 0;
      snapshot, snapshotHidden := [], {};
      run, steps := [Start(persistent)], [];
    }

    ghost method Advance(step: Step)
      requires IsWorkerRun(run, steps) && CanStep(run[|steps|], step)
      modifies `run, `steps
      ensures IsWorkerRun(run, steps) && run[0] == old(run)[0]
      ensures steps == old(steps) + [step] && run == old(run) + [Do(old(run)[|old(steps)|], step)]
    {
      RunAppend(run, steps, step);
      run, steps := run + [Do(run[|steps|], step)], steps + [step];
    }

    // ------------------------------------------------------------------ pieces of commands

    method Publish(size: Mem -> nat, shared: nat -> bool)
      requires Valid()
      modifies `docsSincePublish, `snapshot, `snapshotHidden, `run, `steps, index
      ensures Valid() && Continues() && IsPublished()
      ensures Value() == old(Value()).(index := index.state)
      ensures Visible(index.state) == Visible(old(index.state)) && index.failure == old(index.failure)
      ensures index.pending == old(index.pending) && index.madeNotFlushed == old(index.madeNotFlushed)
    {
      ghost var keep;
      snapshot, snapshotHidden, keep := index.PublishSnapshot(size, shared);
      docsSincePublish := 0;
      Advance(Inner(SealMemtable(keep)));
    }

    method Merge(docs: Mem)
      requires Valid()
      modifies `added, `run, `steps, index
      ensures Valid() && Continues() && added == old(added) + docs
      ensures Value() == Do(old(Value()), Inner(LsmInvariants.Merge(docs)))
    {
      Advance(Inner(LsmInvariants.Merge(docs)));
      index.MergeIntoMemtable(docs);
      added := added + docs;
    }

    method Submit()
      requires Valid()
      modifies `writer, `run, `steps, index
      ensures Valid() && Continues() && Value() == SubmitAll(old(Value()))
    {
      Advance(FlushAcks.Submit);
      var jobs := index.TakeFlushJobs();
      writer := writer + jobs;
    }

    /** Acknowledges every waiting flush whose segments have all finished writing. */
    method ReleaseFlushWaiters() returns (ghost n: nat)
      requires index.Valid()
      modifies `flushWaiters, `acks
      ensures Value() == Release(old(Value()))
      ensures ReachedFirst(old(flushWaiters), index.nextSeq - |index.pending|, n)
      ensures flushWaiters == old(flushWaiters)[n..]
      ensures acks == old(acks) + AnswerAll(old(flushWaiters)[..n], !index.failure)
    {
      n := ReleaseAnswersTheReached(Value());
      while flushWaiters != [] && index.nextSeq - |index.pending| >= flushWaiters[0].target
        invariant Release(Value()) == Release(old(Value()))
        decreases |flushWaiters|
      {
        var first := flushWaiters[0];
        flushWaiters := flushWaiters[1..];
        acks := acks + [Ack(first.flush, !index.failure, first.before)];
      }
    }

    // ------------------------------------------------------------------ commands

    /** `Flush`: refused with an error at once, or acknowledged when every segment queued so far is
        written. */
    method AnswerFlush(size: Mem -> nat, shared: nat -> bool, syncOk: bool) returns (ok: bool, ghost keep: nat)
      requires Valid()
      modifies `writer, `flushWaiters, `acks, `flushes, `run, `steps, index
      ensures Valid() && Continues() && keep <= |old(index.generations)|
      ensures Value() == HandleFlush(old(Value()), keep, syncOk) && ok == !Refused(old(Value()), keep, syncOk)
      ensures steps == old(steps) + [FlushAcks.Flush(keep, syncOk)]
    {
      ok, keep := index.QueueFlush(size, shared, syncOk);
      flushes := flushes + 1;
      if !ok {
        acks := acks + [Ack(flushes - 1, false, added)];
      } else {
        Await(flushes - 1);
      }
      Advance(FlushAcks.Flush(keep, syncOk));
    }

    /** Hands the queued writes over and lets flush `id` wait for everything queued so far. */
    method Await(id: nat)
      requires index.Valid()
      modifies `writer, `flushWaiters, `acks, index
      ensures index.Valid()
      ensures var sent := SubmitAll(old(Value()));
              Value() == Release(sent.(waiters := sent.waiters + [Waiter(id, sent.index.nextSeq, sent.added)]))
    {
      var jobs := index.TakeFlushJobs();
      writer := writer + jobs;
      flushWaiters := flushWaiters + [Waiter(id, index.nextSeq, added)];
      var _ := ReleaseFlushWaiters();
    }

    method InstallWritten(writeOk: bool, manifestOk: bool) returns (ok: bool)
      requires Valid() && writer != []
      modifies `writer, `flushWaiters, `acks, `run, `steps, index
      ensures Valid() && Continues() && Value() == HandleWritten(old(Value()), writeOk, manifestOk)
      ensures ok == (writeOk && manifestOk)
      ensures steps == old(steps) + [FlushAcks.SegmentWritten(writeOk, manifestOk)]
    {
      ghost var before := Value();
      RunKeepsWInv(index.persistent, run, steps, |steps|);
      assert before.index.pending[0].number == writer[0];
      ok := index.CompleteFlush(writer[0], writeOk, manifestOk);
      writer := writer[1..];
      var _ := ReleaseFlushWaiters();
      Advance(FlushAcks.SegmentWritten(writeOk, manifestOk));
    }

    /** The index step `event` was just made on the index. */
    ghost method Made(event: Event)
      requires IsWorkerRun(run, steps) && CanStep(run[|steps|], Inner(event))
      modifies `run, `steps
      ensures IsWorkerRun(run, steps) && run[0] == old(run)[0]
      ensures steps == old(steps) + [Inner(event)]
      ensures var w := old(run)[|old(steps)|];
              run == old(run) + [w.(index := Next(w.index, event), added := w.added + NewDocs(w.index, event))]
    {
      Advance(Inner(event));
    }

    /** No segment write failed so far, and the tombstones can be synced if there are files. */
    predicate CanQueue(syncOk: bool)
      reads index
    {
      !index.failure && (index.persistent ==> syncOk)
    }

    method QueueFlush(size: Mem -> nat, shared: nat -> bool, syncOk: bool) returns (ok: bool)
      requires Valid()
      modifies `run, `steps, index
      ensures Valid() && Continues() && added == old(added) && acks == old(acks)
      ensures ok ==> index.mem == {} && index.generations == []
      ensures index.failure == old(index.failure) && ok == CanQueue(syncOk)
    {
      ghost var keep;
      ok, keep := index.QueueFlush(size, shared, syncOk);
      Made(Queue(keep, syncOk));
    }

    /** What is in memory and not queued is below the flush threshold, or nothing. */
    ghost predicate MemtableIsBounded(size: Mem -> nat)
      reads index
    {
      || size(index.mem) + SizeOfAll(index.generations, size) < flushThreshold
      || (index.mem == {} && index.generations == [])
    }

    /** Merges a staged batch into the memtable and queues a flush if the memtable is full. */
    method MergeStaged(staging: Mem, size: Mem -> nat, shared: nat -> bool, syncOk: bool) returns (ok: bool)
      requires Valid()
      modifies `added, `run, `steps, index
      ensures Valid() && Continues() && added == old(added) + staging && acks == old(acks)
      ensures ok ==> MemtableIsBounded(size)
      ensures index.failure == old(index.failure) && (CanQueue(syncOk) ==> ok)
    {
      Merge(staging);
      ok := true;
      if size(index.mem) + SizeOfAll(index.generations, size) >= flushThreshold {
        ok := QueueFlush(size, shared, syncOk);
      }
    }

    /** Stages documents, merges them into the memtable and flushes at the threshold; stops at the first
        flush that fails. The documents counted are exactly those that reached the memtable. */
    method StageAndMerge(documents: seq<Doc>, size: Mem -> nat, shared: nat -> bool, syncOk: nat -> bool)
      returns (count: nat, ok: bool)
      requires Valid()
      modifies `added, `run, `steps, index
      ensures Valid() && Continues() && count <= |documents| && (ok ==> count == |documents|) && acks == old(acks)
      ensures added == old(added) + DocsOf(documents[..count])
      ensures ok && documents != [] ==> MemtableIsBounded(size)
      ensures index.failure == old(index.failure)
      ensures !ok ==> exists n :: 0 <= n <= |documents| && !CanQueue(syncOk(n))
    {
      var staging;
      staging, count, ok := StageAll(documents, size, shared, syncOk);
      if ok && count > 0 { ok := MergeStaged(staging, size, shared, syncOk(|documents|)); }
    }

    /** The loop over the documents; what it leaves staged is not merged yet. */
    method StageAll(documents: seq<Doc>, size: Mem -> nat, shared: nat -> bool, syncOk: nat -> bool)
      returns (staging: Mem, count: nat, ok: bool)
      requires Valid()
      modifies `added, `run, `steps, index
      ensures Valid() && Continues() && count <= |documents| && (ok ==> count == |documents|)
      ensures added + staging == old(added) + DocsOf(documents[..count])
      ensures !ok || count == 0 ==> staging == {}
      ensures index.failure == old(index.failure) && (!ok ==> count > 0 && !CanQueue(syncOk(count - 1)))
    {
      staging, count, ok := {}, 0, true;
      while count < |documents| && ok
        invariant Valid() && Continues() && count <= |documents| && index.failure == old(index.failure)
        invariant added + staging == old(added) + DocsOf(documents[..count])
        invariant !ok || count == 0 ==> staging == {}
        invariant !ok ==> count > 0 && !CanQueue(syncOk(count - 1))
        decreases |documents| - count
      {
        DocsOfAppend(documents, count);
        staging, ok := StageOne(staging + {documents[count]}, size, shared, syncOk(count));
        count := count + 1;
      }
    }

    /** Merges the staged documents if they reached the threshold. */
    method StageOne(staging: Mem, size: Mem -> nat, shared: nat -> bool, syncOk: bool) returns (left: Mem, ok: bool)
      requires Valid()
      modifies `added, `run, `steps, index
      ensures Valid() && Continues() && acks == old(acks) && added + left == old(added) + staging && (!ok ==> left == {})
      ensures index.failure == old(index.failure) && (CanQueue(syncOk) ==> ok)
    {
      left, ok := staging, true;
      if size(staging) >= flushThreshold {
        ok := MergeStaged(staging, size, shared, syncOk);
        left := {};
      }
    }

    /** What every command ends with: publish if due, then hand queued writes to the writer. */
    method EndCommand(publish: bool, size: Mem -> nat, shared: nat -> bool)
      requires Valid()
      modifies `writer, `docsSincePublish, `snapshot, `snapshotHidden, `run, `steps, index
      ensures Valid() && Continues() && PublishesIf(publish && old(docsSincePublish) > 0, 0)
      ensures Visible(index.state) == Visible(old(index.state)) && index.madeNotFlushed == []
    {
      if publish && docsSincePublish > 0 { Publish(size, shared); }
      Submit();
    }

    /** The end of a command that publishes at once or not at all. */
    method FinishCommand(publish: bool, size: Mem -> nat, shared: nat -> bool)
      requires Valid()
      modifies `writer, `docsSincePublish, `snapshot, `snapshotHidden, `run, `steps, index
      ensures Valid() && Continues() && PublishesIf(publish, 0)
      ensures Visible(index.state) == Visible(old(index.state)) && index.madeNotFlushed == []
    {
      if publish { Publish(size, shared); }
      EndCommand(false, size, shared);
    }

    /** Counts documents to publish and publishes once there are 100. */
    method CountDocuments(docs: nat, size: Mem -> nat, shared: nat -> bool)
      requires Valid()
      modifies `docsSincePublish, `snapshot, `snapshotHidden, `run, `steps, index
      ensures Valid() && Continues() && PublishesIf(old(docsSincePublish) + docs >= 100, docs)
      ensures Visible(index.state) == Visible(old(index.state))
    {
      if docsSincePublish + docs >= PUBLISH_DOC_THRESHOLD {
        Publish(size, shared);
      } else {
        docsSincePublish := docsSincePublish + docs;
      }
    }

    method AddIndexedDocuments(
      documents: Option<seq<Doc>>, size: Mem -> nat, shared: nat -> bool, syncOk: nat -> bool, due: bool)
      returns (ok: bool, ghost count: nat)
      requires Valid()
      modifies this, index
      ensures Valid() && Continues() && acks == old(acks)
      ensures documents.None? ==> !ok && count == 0 && added == old(added)
      ensures documents.Some? ==> count <= |documents.value| && added == old(added) + DocsOf(documents.value[..count])
      ensures ok ==> documents.Some? && count == |documents.value|
      ensures documents.Some? && !ok ==>
                old(index.failure) || (index.persistent && exists n :: 0 <= n <= |documents.value| && !syncOk(n))
      ensures var total := old(docsSincePublish) + count; PublishesIf(total >= 100 || (due && total > 0), count)
    {
      count, ok := 0, false;
      if documents.Some? {
        var staged;
        staged, ok := StageAndMerge(documents.value, size, shared, syncOk);
        count := staged;
        assert !ok ==> exists n :: 0 <= n <= |documents.value| && !CanQueue(syncOk(n));
        CountDocuments(staged, size, shared);
      }
      EndCommand(due, size, shared);
    }

    method DeleteDocument(id: nat, appendOk: bool, size: Mem -> nat, shared: nat -> bool) returns (ok: bool)
      requires Valid()
      modifies this, index
      ensures Valid() && Continues() && acks == old(acks) && added == old(added)
      ensures Visible(index.state) == Surviving(Visible(old(index.state)), {id})
      ensures ok == (index.persistent ==> appendOk) && PublishesIf(ok, 0)
    {
      ok := index.DeleteDocument(id, appendOk);
      Made(Delete(id));
      FinishCommand(ok, size, shared);
    }

    ghost method AdvanceAdds(segments: seq<Mem>, writeOk: nat -> bool)
      requires IsWorkerRun(run, steps) && SameLengths(run[|steps|].index)
      modifies `run, `steps
      ensures IsWorkerRun(run, steps) && run[0] == old(run)[0]
      ensures Extends(old(run), run) && Extends(old(steps), steps)
      ensures var w := old(run)[|old(steps)|];
              run[|steps|] == w.(index := I.AddSegments(w.index, segments, writeOk).0,
                                 added := w.added + DocsAdded(w.index.persistent, segments, writeOk))
      decreases |segments|
    {
      if segments != [] {
        ghost var w := run[|steps|];
        Made(AddImmutable(segments[0], writeOk(|segments|)));
        if LsmState.AddSegment(w.index, segments[0], writeOk(|segments|)).1 { AdvanceAdds(segments[1..], writeOk); }
      }
    }

    method AddSegment(segments: seq<Mem>, docCount: nat, writeOk: nat -> bool, size: Mem -> nat, shared: nat -> bool, due: bool)
      returns (ok: bool)
      requires Valid()
      modifies this, index
      ensures Valid() && Continues() && acks == old(acks)
      ensures added == old(added) + DocsAdded(index.persistent, segments, writeOk)
      ensures ok == AllWritten(index.persistent, segments, writeOk)
      ensures var docs := if ok then docCount else 0;
              var total := old(docsSincePublish) + docs; PublishesIf(total >= 100 || (due && total > 0), docs)
    {
      ok := AddToIndex(segments, writeOk);
      if ok { CountDocuments(docCount, size, shared); }
      EndCommand(due, size, shared);
    }

    method AddToIndex(segments: seq<Mem>, writeOk: nat -> bool) returns (ok: bool)
      requires Valid()
      modifies `added, `run, `steps, index
      ensures Valid() && Continues() && acks == old(acks)
      ensures added == old(added) + DocsAdded(index.persistent, segments, writeOk)
      ensures ok == AllWritten(index.persistent, segments, writeOk)
    {
      AdvanceAdds(segments, writeOk);
      AddsAllIff(index.state, segments, writeOk);
      ok := index.AddImmutableSegment(segments, writeOk);
      added := added + DocsAdded(index.persistent, segments, writeOk);
    }

    method PlanCompaction(config: I.Config, quiet: bool, bytes: nat -> U64)
      returns (job: Option<Job>, ghost start: nat, ghost end: nat)
      requires Valid() && W.Sum(W.DiskSizes(I.SizesOf(index.segmentHandles, bytes))) <= U64_MAX
      modifies this, index
      ensures Valid() && Continues() && acks == old(acks) && added == old(added)
      ensures Visible(index.state) == Visible(old(index.state))
      ensures I.IsChoice(index.persistent, quiet, old(index.pending) == [], config,
                         I.SizesOf(old(index.segmentHandles), bytes), if job.Some? then Some((start, end)) else None)
      ensures job.Some? ==> I.Selects(old(index.segmentHandles), start, end, job.value.selected)
      ensures PublishesIf(false, 0)
    {
      job, start, end := index.PlanCompaction(config, quiet, bytes);
      if job.Some? { Made(PlanJob(start, end)); }
      FinishCommand(false, _ => 0, _ => false);
    }

    method InstallCompaction(
      ghost j: nat, completed: Job, merged: Mem, openOk: bool, manifestOk: bool, size: Mem -> nat, shared: nat -> bool)
      returns (outcome: Outcome)
      requires Valid() && j < |index.state.jobs| && index.state.jobs[j] == completed
      requires merged == Output(index.state, completed)
      modifies this, index
      ensures Valid() && Continues() && acks == old(acks) && added == old(added)
      ensures !Clears(old(index.state), InstallJob(j, openOk, manifestOk)) ==>
                Visible(index.state) == Visible(old(index.state))
      ensures outcome == Install(old(index.state), j, openOk, manifestOk).1 && PublishesIf(outcome == Installed, 0)
    {
      outcome := InstallOnIndex(j, completed, merged, openOk, manifestOk);
      FinishCommand(outcome == Installed, size, shared);
    }

    method InstallOnIndex(ghost j: nat, completed: Job, merged: Mem, openOk: bool, manifestOk: bool) returns (outcome: Outcome)
      requires Valid() && j < |index.state.jobs| && index.state.jobs[j] == completed
      requires merged == Output(index.state, completed)
      modifies `run, `steps, index
      ensures Valid() && Continues() && outcome == Install(old(index.state), j, openOk, manifestOk).1
      ensures Value() == old(Value()).(index := Install(old(index.state), j, openOk, manifestOk).0)
      ensures !Clears(old(index.state), InstallJob(j, openOk, manifestOk)) ==>
                Visible(index.state) == Visible(old(index.state))
    {
      RunKeepsWInv(index.persistent, run, steps, |steps|);
      InstallShows(Value(), j, openOk, manifestOk);
      outcome := index.InstallCompaction(j, completed, merged, openOk, manifestOk);
      Made(InstallJob(j, openOk, manifestOk));
    }

    method Flush(size: Mem -> nat, shared: nat -> bool, syncOk: bool) returns (ghost keep: nat)
      requires Valid()
      modifies this, index
      ensures Valid() && Continues() && keep <= |old(index.generations)| && added == old(added)
      ensures acks == HandleFlush(old(Value()), keep, syncOk).acks
      ensures old(steps) + [FlushAcks.Flush(keep, syncOk)] <= steps
      ensures PublishesIf(!old(index.failure) && (index.persistent ==> syncOk), 0)
      ensures Visible(index.state) == Visible(old(index.state))
    {
      var ok;
      ok, keep := AnswerFlush(size, shared, syncOk);
      FlushShowsAll(old(Value()), keep, syncOk);
      FinishCommand(ok, size, shared);
    }

    method SegmentWritten(writeOk: bool, manifestOk: bool, size: Mem -> nat, shared: nat -> bool)
      requires Valid() && writer != []
      modifies this, index
      ensures Valid() && Continues() && added == old(added)
      ensures acks == HandleWritten(old(Value()), writeOk, manifestOk).acks
      ensures old(steps) + [FlushAcks.SegmentWritten(writeOk, manifestOk)] <= steps
      ensures PublishesIf(writeOk && manifestOk, 0)
      ensures Visible(index.state) == Visible(old(index.state))
    {
      var ok := InstallWritten(writeOk, manifestOk);
      WrittenShowsAll(old(Value()), writeOk, manifestOk);
      FinishCommand(ok, size, shared);
    }
  }
}
