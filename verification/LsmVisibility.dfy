/** What a search sees while documents move from the memtable to disk and segments are merged. */
module LsmVisibility {
  import opened Lists
  import opened LsmState
  import opened LsmInvariants
  import opened LsmCompaction

  // ---------------------------------------------------------------------------------------
  // Documents only move.
  // ---------------------------------------------------------------------------------------

  /** Everything the index holds, tombstoned or not. */
  function Held(s: Lsm): Mem { InMemory(s) + Union(s.readers) }

  lemma UnionAppend(parts: seq<Mem>, docs: Mem)
    ensures Union(parts + [docs]) == Union(parts) + docs
  {
    assert parts + [docs] == InsertAt(parts, |parts|, docs);
    UnionInsert(parts, |parts|, docs);
  }

  lemma UnionSplit(parts: seq<Mem>, at: nat)
    requires at <= |parts|
    ensures Union(parts) == Union(parts[..at]) + Union(parts[at..])
  {
    forall d ensures d in Union(parts) <==> d in Union(parts[..at]) || d in Union(parts[at..]) {
      if d in Union(parts) {
        var k :| 0 <= k < |parts| && d in parts[k];
        if k < at { assert d in parts[..at][k]; } else { assert d in parts[at..][k - at]; }
      }
    }
  }

  lemma SealMoves(s: Lsm, keep: nat)
    requires keep <= |s.generations|
    ensures InMemory(Seal(s, keep)) == InMemory(s)
  {
    if s.mem != {} {
      UnionSplit(s.generations, keep);
      UnionAppend(s.generations[..keep], Union(s.generations[keep..]) + s.mem);
    }
  }

  lemma PendingDocsAppend(pending: seq<PendingFlush>, p: PendingFlush)
    ensures PendingDocs(pending + [p]) == PendingDocs(pending) + Union(p.generations)
  {
    var all := pending + [p];
    forall d ensures d in PendingDocs(all) <==> d in PendingDocs(pending) || d in Union(p.generations) {
      if d in PendingDocs(pending) {
        var k :| 0 <= k < |pending| && d in Union(pending[k].generations);
        assert d in Union(all[k].generations);
      }
      assert all[|pending|] == p;
    }
  }

  lemma EnqueueMoves(s: Lsm)
    ensures Held(Enqueue(s)) == Held(s)
  {
    if s.persistent {
      PendingDocsAppend(s.pending, PendingFlush(s.nextSeq, s.nextSegmentId, s.generations, 0, s.clock));
    } else {
      UnionAppend(s.readers, Union(s.generations));
    }
  }

  lemma PendingDocsTail(pending: seq<PendingFlush>)
    requires pending != []
    ensures PendingDocs(pending) == PendingDocs(pending[1..]) + Union(pending[0].generations)
  {
    forall d ensures d in PendingDocs(pending) <==> d in PendingDocs(pending[1..]) || d in Union(pending[0].generations) {
      if d in PendingDocs(pending) {
        var k :| 0 <= k < |pending| && d in Union(pending[k].generations);
        if k > 0 { assert d in Union(pending[1..][k - 1].generations); }
      }
      if d in PendingDocs(pending[1..]) {
        var k :| 0 <= k < |pending[1..]| && d in Union(pending[1..][k].generations);
        assert d in Union(pending[k + 1].generations);
      }
    }
  }

  lemma CompleteMoves(s: Lsm, number: nat, writeOk: bool, manifestOk: bool)
    requires SameLengths(s)
    ensures Held(CompleteFlush(s, number, writeOk, manifestOk).0) == Held(s)
  {
    if s.pending != [] && s.pending[0].number == number {
      PendingDocsTail(s.pending);
      UnionInsert(s.readers, FlushPosition(s, s.pending[0]), Union(s.pending[0].generations));
    }
  }

  lemma PendingDocsSame(pending: seq<PendingFlush>)
    ensures PendingDocs(SegmentAdded(pending)) == PendingDocs(pending)
  {
    var added := SegmentAdded(pending);
    forall d | d in PendingDocs(pending) ensures d in PendingDocs(added) {
      var k :| 0 <= k < |pending| && d in Union(pending[k].generations);
      assert d in Union(added[k].generations);
    }
  }

  /** Documents a step brings in. */
  function NewDocs(s: Lsm, e: Event): Mem
  {
    match e
    case Merge(docs) => docs
    case AddImmutable(docs, writeOk) => if s.persistent && !writeOk then {} else docs
    case _ => {}
  }

  /** Whether the step installs a merge. */
  ghost predicate Installs(s: Lsm, e: Event)
  {
    e.InstallJob? && Installable(s, e.job) && e.openOk
  }

  /** Whether the step drops the tombstones. */
  ghost predicate Clears(s: Lsm, e: Event)
  {
    Installs(s, e) && e.manifestOk && ClearsTombstones(s, s.jobs[e.job])
  }

  /** Everything but an installed merge only adds. */
  lemma StepMoves(s: Lsm, e: Event)
    requires Inv(s) && Enabled(s, e) && !Installs(s, e)
    ensures Held(Next(s, e)) == Held(s) + NewDocs(s, e)
  {
    match e
    case SealMemtable(keep) => SealMoves(s, keep);
    case Queue(keep, syncOk) => QueueMoves(s, keep, syncOk);
    case Complete(number, writeOk, manifestOk) => CompleteMoves(s, number, writeOk, manifestOk);
    case AddImmutable(docs, writeOk) => AddMoves(s, docs, writeOk);
    case InstallJob(j, openOk, manifestOk) => RejectedFields(s, j, openOk, manifestOk);
    case _ =>
  }

  lemma QueueMoves(s: Lsm, keep: nat, syncOk: bool)
    requires keep <= |s.generations|
    ensures Held(QueueFlush(s, keep, syncOk).0) == Held(s)
  {
    SealMoves(s, keep);
    EnqueueMoves(Seal(s, keep));
  }

  lemma AddMoves(s: Lsm, docs: Mem, writeOk: bool)
    ensures Held(AddSegment(s, docs, writeOk).0) == Held(s) + NewDocs(s, AddImmutable(docs, writeOk))
  {
    PendingDocsSame(s.pending);
    UnionAppend(s.readers, docs);
  }

  // ---------------------------------------------------------------------------------------
  // Visible documents, step by step.
  // ---------------------------------------------------------------------------------------

  /** No document still in memory has a tombstone. */
  ghost predicate MemoryIsClean(s: Lsm) { forall d :: d in InMemory(s) ==> d.id !in s.deleted }

  /** A merge that keeps the tombstones changes nothing a search sees. */
  lemma MergeKeepsVisible(s: Lsm, j: nat, manifestOk: bool)
    requires Installable(s, j) && !(manifestOk && ClearsTombstones(s, s.jobs[j]))
    ensures Visible(Install(s, j, true, manifestOk).0) == Visible(s)
  {
    var job, t := s.jobs[j], Install(s, j, true, manifestOk).0;
    InstalledFields(s, j, manifestOk);
    MergedShows(s, j);
    assert JobKnows(s, job);
    assert InMemory(t) == InMemory(s);
    forall d ensures d in Visible(t) <==> d in Visible(s) {
      if d in Visible(s) && d in Shown(s, job) { assert d in Surviving(Shown(s, job), job.deleted); }
    }
  }

  lemma JobIsCurrent(s: Lsm, j: nat)
    requires Tombstones(s) && j < |s.jobs| && AllLive(s, s.jobs[j]) && ClearsTombstones(s, s.jobs[j])
    ensures s.jobs[j].deleted == s.deleted
  {
    assert JobKnows(s, s.jobs[j]);
  }

  /** A merge that drops the tombstones brings back every document still in memory. */
  lemma ClearingShowsMemory(s: Lsm, j: nat)
    requires Installable(s, j) && ClearsTombstones(s, s.jobs[j])
    ensures Visible(Install(s, j, true, true).0) == Visible(s) + InMemory(s)
    ensures Visible(Install(s, j, true, true).0) == Visible(s) <==> MemoryIsClean(s)
  {
    JobIsCurrent(s, j);
    InstalledFields(s, j, true);
    WholeMergeLeavesOne(s, j);
    InputsShowFiles(s, s.jobs[j]);
    ClearedShows(s, Install(s, j, true, true).0);
    BackIsCleanOrNot(s);
  }

  lemma ClearedShows(s: Lsm, t: Lsm)
    requires t.mem == s.mem && t.generations == s.generations && t.pending == s.pending
    requires t.deleted == {} && t.readers == [Surviving(Union(s.readers), s.deleted)]
    ensures Visible(t) == Visible(s) + InMemory(s)
  {
    OnlySegment(t, Surviving(Union(s.readers), s.deleted));
    SurvivingUnion(InMemory(s), Union(s.readers), s.deleted);
  }

  lemma OnlySegment(t: Lsm, docs: Mem)
    requires t.readers == [docs] && t.deleted == {}
    ensures Visible(t) == InMemory(t) + docs
  {
    UnionOne(docs);
    SurvivingNone(InMemory(t) + docs);
  }

  lemma SurvivingNone(docs: Mem)
    ensures Surviving(docs, {}) == docs
  {
  }

  lemma BackIsCleanOrNot(s: Lsm)
    ensures Visible(s) + InMemory(s) == Visible(s) <==> MemoryIsClean(s)
  {
    if MemoryIsClean(s) {
      assert InMemory(s) <= Visible(s);
    } else {
      var d :| d in InMemory(s) && d.id in s.deleted;
      assert d in Visible(s) + InMemory(s) && d !in Visible(s);
    }
  }

  lemma UnionOne(docs: Mem)
    ensures Union([docs]) == docs
  {
    forall d | d in docs ensures d in Union([docs]) { assert d in [docs][0]; }
  }

  function Removed(e: Event): set<nat> { if e.Delete? then {e.id} else {} }

  lemma DeletedAfter(s: Lsm, e: Event)
    requires Inv(s) && Enabled(s, e)
    ensures Next(s, e).everDeleted == s.everDeleted + Removed(e)
    ensures Next(s, e).deleted == if Clears(s, e) then {} else s.deleted + Removed(e)
  {
    if Installs(s, e) {
      InstalledFields(s, e.job, e.manifestOk);
    } else if e.InstallJob? {
      RejectedFields(s, e.job, e.openOk, e.manifestOk);
    } else {
      OthersDelete(s, e);
    }
  }

  lemma OthersDelete(s: Lsm, e: Event)
    requires Enabled(s, e) && !e.InstallJob?
    ensures Next(s, e).everDeleted == s.everDeleted + Removed(e) && Next(s, e).deleted == s.deleted + Removed(e)
  {
    match e
    case Queue(keep, syncOk) => QueueDeletesNothing(s, keep, syncOk);
    case Complete(number, writeOk, manifestOk) => CompleteDeletesNothing(s, number, writeOk, manifestOk);
    case _ =>
  }

  lemma QueueDeletesNothing(s: Lsm, keep: nat, syncOk: bool)
    requires keep <= |s.generations|
    ensures var t := QueueFlush(s, keep, syncOk).0; t.everDeleted == s.everDeleted && t.deleted == s.deleted
  {
  }

  lemma CompleteDeletesNothing(s: Lsm, number: nat, writeOk: bool, manifestOk: bool)
    requires SameLengths(s)
    ensures var t := CompleteFlush(s, number, writeOk, manifestOk).0; t.everDeleted == s.everDeleted && t.deleted == s.deleted
  {
  }

  /** What every step does to the visible documents. */
  lemma VisibleAfterStep(s: Lsm, e: Event)
    requires Inv(s) && Enabled(s, e)
    ensures !Clears(s, e) ==>
              Visible(Next(s, e)) == Surviving(Visible(s) + Surviving(NewDocs(s, e), s.deleted), Removed(e))
    ensures Clears(s, e) ==> Visible(Next(s, e)) == Visible(s) + InMemory(s)
    ensures Clears(s, e) ==> (Visible(Next(s, e)) == Visible(s) <==> MemoryIsClean(s))
  {
    if Installs(s, e) {
      if Clears(s, e) {
        ClearingShowsMemory(s, e.job);
      } else {
        MergeKeepsVisible(s, e.job, e.manifestOk);
        NothingAdded(Visible(s), s.deleted);
      }
    } else {
      StepMoves(s, e);
      DeletedAfter(s, e);
      SurvivingGrows(Held(s), NewDocs(s, e), s.deleted, Removed(e));
    }
  }

  lemma NothingAdded(docs: Mem, deleted: set<nat>)
    ensures Surviving(docs + Surviving({}, deleted), {}) == docs
  {
  }

  lemma SurvivingGrows(held: Mem, more: Mem, deleted: set<nat>, removed: set<nat>)
    ensures Surviving(held + more, deleted + removed) == Surviving(Surviving(held, deleted) + Surviving(more, deleted), removed)
  {
  }

  // ---------------------------------------------------------------------------------------
  // Visible documents over whole runs.
  // ---------------------------------------------------------------------------------------

  /** All documents the first `k` steps brought in. */
  ghost function Added(run: seq<Lsm>, events: seq<Event>, k: nat): Mem
    requires |run| == |events| + 1 && k <= |events|
  {
    if k == 0 then {} else Added(run, events, k - 1) + NewDocs(run[k - 1], events[k - 1])
  }

  /** No document arrives under an id that was deleted, and tombstones are dropped only while memory
      is clean of them. */
  ghost predicate Disciplined(s: Lsm, e: Event)
  {
    && (forall d :: d in NewDocs(s, e) ==> d.id !in s.everDeleted)
    && (Clears(s, e) ==> MemoryIsClean(s))
  }

  lemma AddedMinusDeletedAfterStep(s: Lsm, e: Event, added: Mem)
    requires Inv(s) && Enabled(s, e) && Disciplined(s, e)
    requires Visible(s) == Surviving(added, s.everDeleted)
    ensures Visible(Next(s, e)) == Surviving(added + NewDocs(s, e), Next(s, e).everDeleted)
  {
    VisibleAfterStep(s, e);
    DeletedAfter(s, e);
    if Clears(s, e) {
      NothingAdded(added, s.everDeleted);
    } else {
      assert Surviving(NewDocs(s, e), s.deleted) == Surviving(NewDocs(s, e), s.everDeleted);
      SurvivingGrows(added, NewDocs(s, e), s.everDeleted, Removed(e));
    }
  }

  /** At every point of every such run a search sees exactly the documents added and not deleted. */
  lemma {:induction false} SearchSeesAddedMinusDeleted(persistent: bool, run: seq<Lsm>, events: seq<Event>, k: nat)
    requires IsRun(run, events) && run[0] == New(persistent) && k <= |events|
    requires forall i :: 0 <= i < k ==> Disciplined(run[i], events[i])
    ensures Visible(run[k]) == Surviving(Added(run, events, k), run[k].everDeleted)
  {
    if k > 0 {
      SearchSeesAddedMinusDeleted(persistent, run, events, k - 1);
      RunKeepsInv(persistent, run, events, k - 1);
      AddedMinusDeletedAfterStep(run[k - 1], events[k - 1], Added(run, events, k - 1));
    }
  }

  /** Two segments, a deleted document still in the memtable, and a merge of both segments planned. */
  function BeforeClearing(): Lsm
  {
    Lsm(true, {Doc(3, 0)}, [], [Disk(0), Disk(1)], [{Doc(1, 0)}, {Doc(2, 0)}], [], [], 0, false, {3}, 1, 3,
        [Job([0, 1], {3}, 1, 2)], map[0 := {Doc(1, 0)}, 1 := {Doc(2, 0)}], {0, 1}, [Span(0, 0), Span(1, 1)], {3}, 2)
  }

  /** Two segments on disk. */
  function WithTwoSegments(): Lsm
  {
    Lsm(true, {}, [], [Disk(0), Disk(1)], [{Doc(1, 0)}, {Doc(2, 0)}], [], [], 0, false, {}, 0, 2, [],
        map[0 := {Doc(1, 0)}, 1 := {Doc(2, 0)}], {0, 1}, [Span(0, 0), Span(1, 1)], {}, 2)
  }

  lemma TwoSegmentsAdded() returns (run: seq<Lsm>, events: seq<Event>)
    ensures IsRun(run, events) && run[0] == New(true) && |events| == 2 && run[2] == WithTwoSegments()
  {
    events := [AddImmutable({Doc(1, 0)}, true), AddImmutable({Doc(2, 0)}, true)];
    var s1 := Next(New(true), events[0]);
    assert s1.handles == [Disk(0)];
    assert Next(s1, events[1]) == WithTwoSegments();
    run := [New(true), s1, WithTwoSegments()];
  }

  lemma DeletedAndPlanned() returns (run: seq<Lsm>, events: seq<Event>)
    ensures IsRun(run, events) && run[0] == WithTwoSegments() && |events| == 3 && run[3] == BeforeClearing()
  {
    events := [Merge({Doc(3, 0)}), Delete(3), PlanJob(0, 2)];
    var s2 := WithTwoSegments();
    var s4 := Next(Next(s2, events[0]), events[1]);
    assert s4 == BeforeClearing().(jobs := [], nextSegmentId := 2);
    assert Paths(s4.handles[0..2]) == [0, 1];
    assert Next(s4, events[2]) == BeforeClearing();
    run := [s2, Next(s2, events[0]), s4, BeforeClearing()];
  }

  lemma ClearingIsReachable() returns (run: seq<Lsm>, events: seq<Event>)
    ensures IsRun(run, events) && run[0] == New(true) && |events| == 5 && run[5] == BeforeClearing()
  {
    run, events := TwoSegmentsAdded();
    var more, later := DeletedAndPlanned();
    JoinRuns(run, events, more, later);
    run, events := run + more[1..], events + later;
  }

  /** The clean memory is needed: a document deleted while still in the memtable comes back when a
      merge of all segments, planned after the deletion, is installed. */
  lemma DeletedDocumentComesBack() returns (run: seq<Lsm>, events: seq<Event>)
    ensures IsRun(run, events) && run[0] == New(true) && |events| == 5
    ensures var s := run[5];
            && Enabled(s, InstallJob(0, true, true)) && 3 in s.deleted
            && Doc(3, 0) !in Visible(s) && Doc(3, 0) in Visible(Next(s, InstallJob(0, true, true)))
  {
    run, events := ClearingIsReachable();
    RunKeepsInv(true, run, events, 5);
    ClearingShows();
  }

  lemma ClearingShows()
    requires Inv(BeforeClearing())
    ensures var s := BeforeClearing();
            Doc(3, 0) !in Visible(s) && Doc(3, 0) in Visible(Next(s, InstallJob(0, true, true)))
  {
    var s, e := BeforeClearing(), InstallJob(0, true, true);
    assert IsLive(s, 0) && IsLive(s, 1);
    assert 0 in Positions(s, s.jobs[0]);
    assert Clears(s, e);
    VisibleAfterStep(s, e);
    assert Doc(3, 0) in s.mem;
  }
}
