/** What every operation of the index keeps. */
module LsmInvariants {
  import opened Lists
  import opened LsmState

  datatype Event =
    | Merge(docs: Mem)
    | SealMemtable(keep: nat)
    | Queue(keep: nat, syncOk: bool)
    | Take
    | Complete(number: nat, writeOk: bool, manifestOk: bool)
    | AddImmutable(docs: Mem, writeOk: bool)
    | Delete(id: nat)
    | PlanJob(start: nat, end: nat)
    | InstallJob(job: nat, openOk: bool, manifestOk: bool)

  predicate Enabled(s: Lsm, e: Event)
  {
    SameLengths(s) &&
    match e
    case SealMemtable(keep) => keep <= |s.generations|
    case Queue(keep, _) => keep <= |s.generations|
    // only a write handed to the writer finishes
    case Complete(number, _, _) =>
      s.pending != [] && s.pending[0].number == number ==> |s.queued| < |s.pending|
    case PlanJob(start, end) =>
      s.persistent && start < end <= |s.handles| && forall k :: start <= k < end ==> s.handles[k].Disk?
    case InstallJob(j, _, _) => j < |s.jobs|
    case _ => true
  }

  function Next(s: Lsm, e: Event): Lsm
    requires Enabled(s, e)
  {
    match e
    case Merge(docs) => MergeIntoMemtable(s, docs)
    case SealMemtable(keep) => Seal(s, keep)
    case Queue(keep, syncOk) => QueueFlush(s, keep, syncOk).0
    case Take => TakeJobs(s)
    case Complete(number, writeOk, manifestOk) => CompleteFlush(s, number, writeOk, manifestOk).0
    case AddImmutable(docs, writeOk) => AddSegment(s, docs, writeOk).0
    case Delete(id) => DeleteDocument(s, id)
    case PlanJob(start, end) => Plan(s, start, end)
    case InstallJob(j, openOk, manifestOk) => Install(s, j, openOk, manifestOk).0
  }

  // ---------------------------------------------------------------------------------------

  /** Each reader serves the segment at the same position. */
  ghost predicate Serves(h: Handle, reader: Mem, files: map<nat, Mem>)
  {
    match h
    case Disk(path) => path in files && files[path] == reader
    case Memory(segment) => segment == reader
  }

  ghost predicate Aligned(s: Lsm)
  {
    SameLengths(s) && forall k :: 0 <= k < |s.handles| ==> Serves(s.handles[k], s.readers[k], s.files)
  }

  ghost predicate DistinctPaths(handles: seq<Handle>)
  {
    forall i, j :: 0 <= i < j < |handles| && handles[i].Disk? && handles[j].Disk? ==> handles[i].path != handles[j].path
  }

  function PendingPaths(pending: seq<PendingFlush>): set<nat> { set k | 0 <= k < |pending| :: pending[k].path }
  function Outputs(jobs: seq<Job>): set<nat> { set k | 0 <= k < |jobs| :: jobs[k].output }
  function Inputs(jobs: seq<Job>): set<nat> { set k, p | 0 <= k < |jobs| && p in jobs[k].selected :: p }

  /** Paths given out but not yet installed: of pending flushes and of running jobs. */
  function Reserved(s: Lsm): set<nat> { PendingPaths(s.pending) + Outputs(s.jobs) }

  /** Paths that are or were segments. */
  function Used(s: Lsm): set<nat> { LivePaths(s.handles) + Inputs(s.jobs) + s.manifest }

  /** Reserved and used paths are different, and the next one is neither. */
  ghost predicate Apart(reserved: set<nat>, used: set<nat>, next: nat)
  {
    && (forall p :: p in reserved ==> p < next && p !in used)
    && (forall p :: p in used ==> p < next)
  }

  /** No path is used twice. */
  ghost predicate PathsFresh(s: Lsm)
  {
    && DistinctPaths(s.handles)
    && Apart(Reserved(s), Used(s), s.nextSegmentId)
    && PendingPaths(s.pending) !! Outputs(s.jobs)
    && (forall i, j :: 0 <= i < j < |s.pending| ==> s.pending[i].path != s.pending[j].path)
    && (forall i, j :: 0 <= i < j < |s.jobs| ==> s.jobs[i].output != s.jobs[j].output)
  }

  /** Flush numbers are the contiguous range [flushedThrough, nextSeq), queued ones at its end. */
  ghost predicate QueueInOrder(s: Lsm)
  {
    && |s.queued| <= |s.pending| <= s.nextSeq
    && (forall k :: 0 <= k < |s.pending| ==> s.pending[k].number == FlushedThrough(s) + k)
    && (forall k :: 0 <= k < |s.queued| ==> s.queued[k] == s.nextSeq - |s.queued| + k)
  }

  /** As long as no write failed, every segment of a persistent index is on disk. */
  ghost predicate KindsAgree(s: Lsm)
  {
    && (s.persistent && !s.failure ==> forall k :: 0 <= k < |s.handles| ==> s.handles[k].Disk?)
    && (!s.persistent ==> s.pending == [] && s.queued == [] && s.jobs == [])
  }

  /** What a job knows of the tombstones. */
  ghost predicate JobKnows(s: Lsm, job: Job)
  {
    && job.selected != [] && (forall i, j :: 0 <= i < j < |job.selected| ==> job.selected[i] != job.selected[j])
    && job.deleted <= s.everDeleted && job.deleteGeneration <= s.deleteGeneration
    && (AllLive(s, job) ==>
          && job.deleted <= s.deleted
          && (job.deleteGeneration == s.deleteGeneration ==> job.deleted == s.deleted))
  }

  ghost predicate Tombstones(s: Lsm)
  {
    s.deleted <= s.everDeleted && forall k :: 0 <= k < |s.jobs| ==> JobKnows(s, s.jobs[k])
  }

  ghost function Durable(s: Lsm): Mem
  {
    set p, d | p in s.manifest && p in s.files && d in s.files[p] :: d
  }

  ghost function DiskDocs(s: Lsm): Mem
  {
    set k, d | 0 <= k < |s.handles| && k < |s.readers| && s.handles[k].Disk? && d in s.readers[k] :: d
  }

  /** Up to documents ever deleted, the files the manifest lists hold what the disk segments show. */
  ghost predicate Recorded(s: Lsm)
  {
    Surviving(DiskDocs(s), s.everDeleted) == Surviving(Durable(s), s.everDeleted)
  }

  lemma NextPathReserved(reserved: set<nat>, used: set<nat>, next: nat, reserved': set<nat>, used': set<nat>)
    requires Apart(reserved, used, next) && reserved' <= reserved + {next} && used' <= used
    ensures Apart(reserved', used', next + 1)
  {
  }

  lemma NextPathUsed(reserved: set<nat>, used: set<nat>, next: nat, reserved': set<nat>, used': set<nat>)
    requires Apart(reserved, used, next) && reserved' <= reserved && used' <= used + {next}
    ensures Apart(reserved', used', next + 1)
  {
  }

  lemma ReservedPathUsed(
    reserved: set<nat>, used: set<nat>, next: nat, p: nat, reserved': set<nat>, used': set<nat>)
    requires Apart(reserved, used, next) && p in reserved && reserved' <= reserved - {p} && used' <= used + {p}
    ensures Apart(reserved', used', next)
  {
  }

  ghost predicate Inv(s: Lsm)
  {
    && Aligned(s) && PathsFresh(s) && QueueInOrder(s) && KindsAgree(s) && Tombstones(s) && Recorded(s)
  }

  // ---------------------------------------------------------------------------------------
  // Steps that leave segments, flushes and jobs alone.
  // ---------------------------------------------------------------------------------------

  ghost predicate SameSegments(s: Lsm, t: Lsm)
  {
    && s.persistent == t.persistent && s.handles == t.handles && s.readers == t.readers && s.ages == t.ages
    && s.files == t.files && s.manifest == t.manifest && s.jobs == t.jobs
    && s.deleted == t.deleted && s.everDeleted == t.everDeleted && s.deleteGeneration == t.deleteGeneration
  }

  lemma MemtableStepsKeepInv(s: Lsm, t: Lsm)
    requires Inv(s) && SameSegments(s, t)
    requires t.pending == s.pending && t.nextSeq == s.nextSeq && t.nextSegmentId == s.nextSegmentId
    requires t.queued == s.queued || t.queued == []
    requires t.failure == s.failure
    ensures Inv(t)
  {
    JobsStillKnow(s, t);
  }

  lemma JobsStillKnow(s: Lsm, t: Lsm)
    requires Tombstones(s) && t.handles == s.handles && t.jobs == s.jobs
    requires s.deleted == t.deleted && s.everDeleted == t.everDeleted && s.deleteGeneration == t.deleteGeneration
    ensures Tombstones(t)
  {
    forall k | 0 <= k < |t.jobs| ensures JobKnows(t, t.jobs[k]) {
      assert JobKnows(s, s.jobs[k]);
      assert AllLive(t, t.jobs[k]) == AllLive(s, s.jobs[k]);
    }
  }

  /** A job planned over segments that are no longer all live stays stale. */
  lemma JobsKnowLess(s: Lsm, t: Lsm)
    requires Tombstones(s) && s.deleted == t.deleted && s.everDeleted == t.everDeleted
    requires s.deleteGeneration == t.deleteGeneration
    requires forall k :: 0 <= k < |t.jobs| ==> t.jobs[k] in s.jobs
    requires LivePaths(t.handles) * Inputs(t.jobs) <= LivePaths(s.handles)
    ensures Tombstones(t)
  {
    forall k | 0 <= k < |t.jobs| ensures JobKnows(t, t.jobs[k]) {
      var job := t.jobs[k];
      var i :| 0 <= i < |s.jobs| && s.jobs[i] == job;
      assert JobKnows(s, s.jobs[i]);
      if AllLive(t, job) {
        forall n | 0 <= n < |job.selected| ensures IsLive(s, job.selected[n]) {
          assert IsLive(t, job.selected[n]);
          LiveIffListed(t.handles, job.selected[n]);
          LiveIffListed(s.handles, job.selected[n]);
          assert job.selected[n] in t.jobs[k].selected;
        }
      }
    }
  }

  lemma LiveIffListed(handles: seq<Handle>, p: nat)
    ensures Disk(p) in handles <==> p in LivePaths(handles)
  {
    if Disk(p) in handles {
      var k :| 0 <= k < |handles| && handles[k] == Disk(p);
      assert handles[k].path == p;
    }
  }

  // ---------------------------------------------------------------------------------------
  // Flushes.
  // ---------------------------------------------------------------------------------------

  lemma PendingPathsAppend(pending: seq<PendingFlush>, p: PendingFlush)
    ensures PendingPaths(pending + [p]) == PendingPaths(pending) + {p.path}
  {
    var all := pending + [p];
    forall x ensures x in PendingPaths(all) <==> x in PendingPaths(pending) || x == p.path {
      if x in PendingPaths(pending) {
        var k :| 0 <= k < |pending| && pending[k].path == x;
        assert all[k].path == x;
      }
      assert all[|pending|].path == p.path;
    }
  }

  lemma EnqueueKeepsInv(s: Lsm)
    requires Inv(s) && s.persistent
    ensures Inv(Enqueue(s))
  {
    var t := Enqueue(s);
    var p := PendingFlush(s.nextSeq, s.nextSegmentId, s.generations, 0, s.clock);
    PendingPathsAppend(s.pending, p);
    assert forall k :: 0 <= k < |s.pending| ==> s.pending[k].path in PendingPaths(s.pending);
    NextPathReserved(Reserved(s), Used(s), s.nextSegmentId, Reserved(t), Used(t));
    JobsStillKnow(s, t);
  }

  lemma PendingPathsTail(pending: seq<PendingFlush>)
    requires pending != [] && forall i, j :: 0 <= i < j < |pending| ==> pending[i].path != pending[j].path
    ensures PendingPaths(pending[1..]) == PendingPaths(pending) - {pending[0].path}
  {
    var rest := pending[1..];
    forall x ensures x in PendingPaths(rest) <==> x in PendingPaths(pending) && x != pending[0].path {
      if x in PendingPaths(rest) {
        var k :| 0 <= k < |rest| && rest[k].path == x;
        assert pending[k + 1].path == x && pending[0].path != pending[k + 1].path;
      }
      if x in PendingPaths(pending) && x != pending[0].path {
        var k :| 0 <= k < |pending| && pending[k].path == x;
        assert rest[k - 1].path == x;
      }
    }
  }

  lemma LivePathsInsert(handles: seq<Handle>, at: nat, h: Handle)
    requires at <= |handles|
    ensures LivePaths(InsertAt(handles, at, h)) == LivePaths(handles) + if h.Disk? then {h.path} else {}
    ensures DistinctPaths(handles) && (h.Disk? ==> h.path !in LivePaths(handles)) ==> DistinctPaths(InsertAt(handles, at, h))
  {
    var r := InsertAt(handles, at, h);
    forall x ensures x in LivePaths(r) <==> x in LivePaths(handles) || (h.Disk? && x == h.path) {
      if x in LivePaths(handles) {
        var k :| 0 <= k < |handles| && handles[k].Disk? && handles[k].path == x;
        assert r[if k < at then k else k + 1] == handles[k];
      }
      assert r[at] == h;
    }
    if DistinctPaths(handles) && (h.Disk? ==> h.path !in LivePaths(handles)) {
      forall i, j | 0 <= i < j < |r| && r[i].Disk? && r[j].Disk? ensures r[i].path != r[j].path {
        assert i != at ==> r[i] == handles[if i < at then i else i - 1] && r[i].path in LivePaths(handles);
        assert j != at ==> r[j] == handles[if j < at then j else j - 1] && r[j].path in LivePaths(handles);
      }
    }
  }

  /** Writing a file under a path no segment uses leaves every reader as it is. */
  lemma WriteKeepsAligned(s: Lsm, path: nat, docs: Mem)
    requires Aligned(s) && path !in LivePaths(s.handles)
    ensures Aligned(s.(files := s.files[path := docs]))
  {
    forall k | 0 <= k < |s.handles| ensures Serves(s.handles[k], s.readers[k], s.files[path := docs]) {
      assert Serves(s.handles[k], s.readers[k], s.files);
      assert s.handles[k].Disk? ==> s.handles[k].path in LivePaths(s.handles);
    }
  }

  lemma InsertKeepsAligned(s: Lsm, at: nat, h: Handle, docs: Mem, age: Span)
    requires Aligned(s) && at <= |s.handles| && Serves(h, docs, s.files)
    ensures Aligned(InsertSegment(s, at, h, docs, age))
  {
    var t := InsertSegment(s, at, h, docs, age);
    forall k | 0 <= k < |t.handles| ensures Serves(t.handles[k], t.readers[k], t.files) {
      if k != at {
        var i := if k < at then k else k - 1;
        assert Serves(s.handles[i], s.readers[i], s.files);
      }
    }
  }

  lemma SurvivingUnion(a: Mem, b: Mem, deleted: set<nat>)
    ensures Surviving(a + b, deleted) == Surviving(a, deleted) + Surviving(b, deleted)
  {
  }

  /** Writing a file under a path the manifest does not list, and maybe listing it. */
  lemma DurableGrows(s: Lsm, path: nat, docs: Mem, listed: bool)
    requires path !in s.manifest
    ensures var t := s.(files := s.files[path := docs], manifest := if listed then s.manifest + {path} else s.manifest);
            Durable(t) == Durable(s) + if listed then docs else {}
  {
    var t := s.(files := s.files[path := docs], manifest := if listed then s.manifest + {path} else s.manifest);
    forall d ensures d in Durable(t) <==> d in Durable(s) || (listed && d in docs) {
      if d in Durable(s) {
        var p :| p in s.manifest && p in s.files && d in s.files[p];
        assert p in t.manifest && p in t.files && d in t.files[p];
      }
      if listed && d in docs { assert path in t.manifest && path in t.files && d in t.files[path]; }
    }
  }

  lemma DiskDocsInsert(s: Lsm, at: nat, h: Handle, docs: Mem, age: Span)
    requires SameLengths(s) && at <= |s.handles|
    ensures DiskDocs(InsertSegment(s, at, h, docs, age)) == DiskDocs(s) + if h.Disk? then docs else {}
  {
    var t := InsertSegment(s, at, h, docs, age);
    forall d ensures d in DiskDocs(t) <==> d in DiskDocs(s) || (h.Disk? && d in docs) {
      if d in DiskDocs(s) {
        var k :| 0 <= k < |s.handles| && s.handles[k].Disk? && d in s.readers[k];
        var i := if k < at then k else k + 1;
        assert t.handles[i] == s.handles[k] && t.readers[i] == s.readers[k];
      }
      assert t.handles[at] == h && t.readers[at] == docs;
      if d in DiskDocs(t) {
        var i :| 0 <= i < |t.handles| && t.handles[i].Disk? && d in t.readers[i];
        if i != at {
          var k := if i < at then i else i - 1;
          assert t.handles[i] == s.handles[k] && t.readers[i] == s.readers[k];
        }
      }
    }
  }

  /** The flush that completes next, where it goes and as what. */
  ghost predicate Completes(s: Lsm, t: Lsm, ok: bool)
    requires SameLengths(s)
  {
    s.pending != [] &&
    var p := s.pending[0];
    var docs, at, age := Union(p.generations), FlushPosition(s, p), Span(p.queuedAt, p.queuedAt);
    var h := if ok then Disk(p.path) else Memory(docs);
    t == InsertSegment(s, at, h, docs, age)
           .(pending := s.pending[1..], failure := s.failure || !ok,
             files := if ok then s.files[p.path := docs] else s.files,
             manifest := if ok then s.manifest + {p.path} else s.manifest)
  }

  lemma CompleteKeepsPaths(s: Lsm, t: Lsm, ok: bool)
    requires SameLengths(s) && Completes(s, t, ok) && PathsFresh(s)
    ensures PathsFresh(t)
  {
    var p := s.pending[0];
    PendingPathsTail(s.pending);
    assert p.path in PendingPaths(s.pending);
    LivePathsInsert(s.handles, FlushPosition(s, p), if ok then Disk(p.path) else Memory(Union(p.generations)));
    ReservedPathUsed(Reserved(s), Used(s), s.nextSegmentId, p.path, Reserved(t), Used(t));
  }

  lemma CompleteKeepsContents(s: Lsm, t: Lsm, ok: bool)
    requires Aligned(s) && Completes(s, t, ok) && PathsFresh(s) && Recorded(s)
    ensures Aligned(t) && Recorded(t)
  {
    var p := s.pending[0];
    var docs, at, age := Union(p.generations), FlushPosition(s, p), Span(p.queuedAt, p.queuedAt);
    var h := if ok then Disk(p.path) else Memory(docs);
    assert p.path in PendingPaths(s.pending);
    if ok {
      WriteKeepsAligned(s, p.path, docs);
      DurableGrows(s, p.path, docs, true);
    }
    InsertKeepsAligned(s.(files := t.files), at, h, docs, age);
    DiskDocsInsert(s, at, h, docs, age);
    assert DiskDocs(t) == DiskDocs(s) + (if ok then docs else {});
    assert Durable(t) == Durable(s) + (if ok then docs else {});
    SurvivingUnion(DiskDocs(s), if ok then docs else {}, s.everDeleted);
    SurvivingUnion(Durable(s), if ok then docs else {}, s.everDeleted);
  }

  lemma CompleteKeepsRest(s: Lsm, t: Lsm, ok: bool)
    requires SameLengths(s) && Completes(s, t, ok) && |s.queued| < |s.pending|
    requires PathsFresh(s) && QueueInOrder(s) && KindsAgree(s) && Tombstones(s)
    ensures QueueInOrder(t) && KindsAgree(t) && Tombstones(t)
  {
    var p := s.pending[0];
    assert p.path in PendingPaths(s.pending);
    LivePathsInsert(s.handles, FlushPosition(s, p), if ok then Disk(p.path) else Memory(Union(p.generations)));
    JobsKnowLess(s, t);
  }

  lemma CompleteKeepsInv(s: Lsm, number: nat, writeOk: bool, manifestOk: bool)
    requires Inv(s) && Enabled(s, Complete(number, writeOk, manifestOk))
    ensures Inv(CompleteFlush(s, number, writeOk, manifestOk).0)
  {
    var t := CompleteFlush(s, number, writeOk, manifestOk).0;
    if s.pending == [] || s.pending[0].number != number {
      JobsStillKnow(s, t);
    } else {
      var ok := writeOk && manifestOk;
      assert Completes(s, t, ok);
      CompleteKeepsPaths(s, t, ok);
      CompleteKeepsContents(s, t, ok);
      CompleteKeepsRest(s, t, ok);
    }
  }

  // ---------------------------------------------------------------------------------------
  // Added segments, deletions and plans.
  // ---------------------------------------------------------------------------------------

  /** A segment is pushed: on disk under the next path, or in memory on an index without files. */
  ghost predicate Pushes(s: Lsm, t: Lsm, docs: Mem)
  {
    var h := if s.persistent then Disk(s.nextSegmentId) else Memory(docs);
    t == PushSegment(s, h, docs).(
           pending := SegmentAdded(s.pending),
           nextSegmentId := if s.persistent then s.nextSegmentId + 1 else s.nextSegmentId,
           files := if s.persistent then s.files[s.nextSegmentId := docs] else s.files,
           manifest := if s.persistent then s.manifest + {s.nextSegmentId} else s.manifest)
  }

  lemma PushKeepsContents(s: Lsm, t: Lsm, docs: Mem)
    requires Aligned(s) && PathsFresh(s) && Recorded(s) && Pushes(s, t, docs)
    ensures Aligned(t) && Recorded(t)
  {
    var n, h := |s.handles|, if s.persistent then Disk(s.nextSegmentId) else Memory(docs);
    if s.persistent {
      WriteKeepsAligned(s, s.nextSegmentId, docs);
      DurableGrows(s, s.nextSegmentId, docs, true);
    }
    assert t.handles == InsertAt(s.handles, n, h) && t.readers == InsertAt(s.readers, n, docs);
    assert t.ages == InsertAt(s.ages, n, Span(s.clock, s.clock));
    InsertKeepsAligned(s.(files := t.files), n, h, docs, Span(s.clock, s.clock));
    DiskDocsInsert(s, n, h, docs, Span(s.clock, s.clock));
    var more := if s.persistent then docs else {};
    assert DiskDocs(t) == DiskDocs(s) + more && Durable(t) == Durable(s) + more;
    SurvivingUnion(DiskDocs(s), more, s.everDeleted);
    SurvivingUnion(Durable(s), more, s.everDeleted);
  }

  lemma PushKeepsRest(s: Lsm, t: Lsm, docs: Mem)
    requires PathsFresh(s) && QueueInOrder(s) && KindsAgree(s) && Tombstones(s) && Pushes(s, t, docs)
    ensures QueueInOrder(t) && KindsAgree(t) && Tombstones(t)
  {
    var n, h := |s.handles|, if s.persistent then Disk(s.nextSegmentId) else Memory(docs);
    assert t.handles == InsertAt(s.handles, n, h);
    LivePathsInsert(s.handles, n, h);
    JobsKnowLess(s, t);
  }

  lemma PushKeepsInv(s: Lsm, t: Lsm, docs: Mem)
    requires Inv(s) && Pushes(s, t, docs)
    ensures Inv(t)
  {
    PushKeepsContents(s, t, docs);
    PushKeepsRest(s, t, docs);
    if s.persistent {
      PushKeepsPaths(s, t, docs);
    } else {
      assert t.handles == InsertAt(s.handles, |s.handles|, Memory(docs));
      LivePathsInsert(s.handles, |s.handles|, Memory(docs));
      SamePendingPaths(s.pending);
    }
  }

  lemma SamePendingPaths(pending: seq<PendingFlush>)
    ensures PendingPaths(SegmentAdded(pending)) == PendingPaths(pending)
  {
    var added := SegmentAdded(pending);
    forall x | x in PendingPaths(pending) ensures x in PendingPaths(added) {
      var k :| 0 <= k < |pending| && pending[k].path == x;
      assert added[k].path == x;
    }
  }

  lemma PushKeepsPaths(s: Lsm, t: Lsm, docs: Mem)
    requires PathsFresh(s) && t.handles == s.handles + [Disk(s.nextSegmentId)] && t.jobs == s.jobs
    requires t.pending == SegmentAdded(s.pending)
    requires t.manifest == s.manifest + {s.nextSegmentId} && t.nextSegmentId == s.nextSegmentId + 1
    ensures PathsFresh(t)
  {
    SamePendingPaths(s.pending);
    assert t.handles == InsertAt(s.handles, |s.handles|, Disk(s.nextSegmentId));
    LivePathsInsert(s.handles, |s.handles|, Disk(s.nextSegmentId));
    NextPathUsed(Reserved(s), Used(s), s.nextSegmentId, Reserved(t), Used(t));
  }

  lemma AddKeepsInv(s: Lsm, docs: Mem, writeOk: bool)
    requires Inv(s)
    ensures Inv(AddSegment(s, docs, writeOk).0)
  {
    if s.persistent && !writeOk {
      JobsStillKnow(s, AddSegment(s, docs, writeOk).0);
    } else {
      PushKeepsInv(s, AddSegment(s, docs, writeOk).0, docs);
    }
  }

  lemma QueueKeepsInv(s: Lsm, keep: nat, syncOk: bool)
    requires Inv(s) && keep <= |s.generations|
    ensures Inv(QueueFlush(s, keep, syncOk).0)
  {
    var sealed := Seal(s, keep);
    MemtableStepsKeepInv(s, sealed);
    if !s.failure && (s.persistent ==> syncOk) && sealed.generations != [] {
      if s.persistent {
        EnqueueKeepsInv(sealed);
      } else {
        var emptied := sealed.(generations := []);
        MemtableStepsKeepInv(sealed, emptied);
        assert SegmentAdded(emptied.pending) == emptied.pending;
        PushKeepsInv(emptied, Enqueue(sealed), Union(sealed.generations));
      }
    }
  }

  lemma DeleteKeepsInv(s: Lsm, id: nat)
    requires Inv(s)
    ensures Inv(DeleteDocument(s, id))
  {
    var t := DeleteDocument(s, id);
    forall k | 0 <= k < |t.jobs| ensures JobKnows(t, t.jobs[k]) {
      assert JobKnows(s, s.jobs[k]);
      assert AllLive(t, t.jobs[k]) == AllLive(s, s.jobs[k]);
    }
    assert DiskDocs(t) == DiskDocs(s) && Durable(t) == Durable(s);
    SurvivingMore(DiskDocs(s), Durable(s), s.everDeleted, t.everDeleted);
  }

  lemma SurvivingMore(a: Mem, b: Mem, deleted: set<nat>, more: set<nat>)
    requires Surviving(a, deleted) == Surviving(b, deleted) && deleted <= more
    ensures Surviving(a, more) == Surviving(b, more)
  {
    forall d ensures d in Surviving(a, more) <==> d in Surviving(b, more) {
      assert d in Surviving(a, deleted) <==> d in Surviving(b, deleted);
    }
  }

  lemma InputsAppend(jobs: seq<Job>, job: Job)
    ensures Inputs(jobs + [job]) == Inputs(jobs) + (set p | p in job.selected)
    ensures Outputs(jobs + [job]) == Outputs(jobs) + {job.output}
  {
    var all := jobs + [job];
    assert forall k :: 0 <= k < |jobs| ==> all[k] == jobs[k];
    assert all[|jobs|] == job;
    forall x ensures x in Inputs(all) <==> x in Inputs(jobs) || x in job.selected {
      if x in Inputs(jobs) {
        var k :| 0 <= k < |jobs| && x in jobs[k].selected;
        assert x in all[k].selected;
      }
    }
    forall x ensures x in Outputs(all) <==> x in Outputs(jobs) || x == job.output {
      if x in Outputs(jobs) {
        var k :| 0 <= k < |jobs| && x == jobs[k].output;
        assert x == all[k].output;
      }
    }
  }

  /** A plan selects distinct live disk segments. */
  lemma PlanSelectsLive(s: Lsm, start: nat, end: nat)
    requires DistinctPaths(s.handles) && Enabled(s, PlanJob(start, end))
    ensures var selected := Paths(s.handles[start..end]);
            && |selected| == end - start
            && (set p | p in selected) <= LivePaths(s.handles)
            && (forall i, j :: 0 <= i < j < |selected| ==> selected[i] != selected[j])
            && (forall k :: 0 <= k < |selected| ==> s.handles[start + k] == Disk(selected[k]))
  {
    var selected := Paths(s.handles[start..end]);
    forall k | 0 <= k < |selected|
      ensures s.handles[start + k] == Disk(selected[k]) && selected[k] in LivePaths(s.handles)
    {
      assert s.handles[start..end][k] == s.handles[start + k];
    }
  }

  lemma PlanKeepsPaths(s: Lsm, t: Lsm, job: Job)
    requires PathsFresh(s) && job.output == s.nextSegmentId && (set p | p in job.selected) <= LivePaths(s.handles)
    requires t == s.(jobs := s.jobs + [job], nextSegmentId := s.nextSegmentId + 1)
    ensures PathsFresh(t)
  {
    InputsAppend(s.jobs, job);
    NextPathReserved(Reserved(s), Used(s), s.nextSegmentId, Reserved(t), Used(t));
    assert forall k :: 0 <= k < |s.jobs| ==> s.jobs[k].output in Outputs(s.jobs);
  }

  lemma PlanKeepsInv(s: Lsm, start: nat, end: nat)
    requires Inv(s) && Enabled(s, PlanJob(start, end))
    ensures Inv(Plan(s, start, end))
  {
    var t := Plan(s, start, end);
    PlanSelectsLive(s, start, end);
    PlanKeepsPaths(s, t, t.jobs[|s.jobs|]);
    forall k | 0 <= k < |t.jobs| ensures JobKnows(t, t.jobs[k]) {
      if k < |s.jobs| {
        assert JobKnows(s, s.jobs[k]);
        assert AllLive(t, t.jobs[k]) == AllLive(s, s.jobs[k]);
      }
    }
    assert DiskDocs(t) == DiskDocs(s) && Durable(t) == Durable(s);
  }
}
