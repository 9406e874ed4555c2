/** The index object: its lists are changed in place, each method as one function of `LsmState`. */
module LsmIndex {
  import opened Options
  import opened Lists
  import opened Numbers
  import opened LsmState
  import opened LsmInvariants
  import opened LsmCompaction
  import opened LsmVisibility
  import opened W = CompactionWindows

  datatype Config = Config(
    maxSegmentsPerCompaction: nat, compactWhenSegmentsAtLeast: nat, sizeRatio: U64, minWidth: nat, maxSegments: nat)

  /** Adds segments until a write fails. */
  function AddSegments(s: Lsm, segments: seq<Mem>, writeOk: nat -> bool): (Lsm, bool)
    decreases |segments|
  {
    if segments == [] then (s, true)
    else
      var (added, ok) := AddSegment(s, segments[0], writeOk(|segments|));
      if ok then AddSegments(added, segments[1..], writeOk) else (added, false)
  }

  /** A window of disk segments, as `plan_compaction` may choose. */
  ghost predicate MayPlan(s: Lsm, start: nat, end: nat)
  {
    start < end <= |s.handles| && forall k :: start <= k < end ==> s.handles[k].Disk?
  }

  /** The handle and reader lists after a merge. */
  ghost function ReplacedLists(s: Lsm, job: Job, merged: Mem): (seq<Handle>, seq<Mem>)
    requires SameLengths(s) && Positions(s, job) != {}
  {
    var n, gone := |s.handles|, Positions(s, job);
    PositionsBounded(s, job);
    var first := LowestFrom(gone, 0, n);
    KeptStartsUnmoved(n, gone, first);
    RemoveAllPicks(s, gone);
    var fewer := RemoveDown(s, n, gone);
    (InsertAt(fewer.handles, first, Disk(job.output)), InsertAt(fewer.readers, first, merged))
  }

  lemma ReplacedFields(s: Lsm, j: nat, merged: Mem)
    requires SameLengths(s) && j < |s.jobs| && Positions(s, s.jobs[j]) != {} && merged == Output(s, s.jobs[j])
    ensures var rest := s.(jobs := RemoveAt(s.jobs, j));
            Positions(rest, s.jobs[j]) == Positions(s, s.jobs[j]) &&
            var t := ReplaceInputs(rest, s.jobs[j]);
            && t == rest.(handles := t.handles, readers := t.readers, ages := t.ages)
            && (t.handles, t.readers) == ReplacedLists(s, s.jobs[j], merged)
  {
    var rest := s.(jobs := RemoveAt(s.jobs, j));
    var job, n, gone := s.jobs[j], |s.handles|, Positions(s, s.jobs[j]);
    assert Positions(rest, job) == gone;
    PositionsBounded(s, job);
    KeptStartsUnmoved(n, gone, LowestFrom(gone, 0, n));
    RemoveAllPicks(s, gone);
    RemoveAllPicks(rest, gone);
    var first, last, kept := InputsReplaced(rest, job);
    FirstIsLowest(gone, n, first);
  }

  /** All that steps other than these change stays. */
  ghost predicate SameBesides(s: Lsm, t: Lsm)
  {
    && t.persistent == s.persistent && t.mem == s.mem && t.generations == s.generations
    && t.queued == s.queued && t.nextSeq == s.nextSeq && t.deleteGeneration == s.deleteGeneration
    && t.nextSegmentId == s.nextSegmentId && t.clock == s.clock
  }

  /** The front flush is in the list, from disk or kept in memory. */
  ghost predicate HasCompleted(s: Lsm, t: Lsm, ok: bool)
  {
    s.pending != [] &&
    var p := s.pending[0];
    var docs, at := Union(p.generations), FlushPosition(s, p);
    && SameLengths(t) && SameBesides(s, t) && t.deleted == s.deleted
    && t.pending == s.pending[1..] && t.failure == (s.failure || !ok)
    && |s.handles| == |s.readers|
    && t.handles == InsertAt(s.handles, at, if ok then Disk(p.path) else Memory(docs))
    && t.readers == InsertAt(s.readers, at, docs)
  }

  lemma FlushCompleted(s: Lsm, number: nat, writeOk: bool, manifestOk: bool)
    requires SameLengths(s) && s.pending != [] && s.pending[0].number == number
    ensures var (t, ok) := CompleteFlush(s, number, writeOk, manifestOk);
            ok == (writeOk && manifestOk) && HasCompleted(s, t, ok)
  {
  }

  /** A segment is at the end of the list, or, when its write failed, only its path is used up. */
  ghost predicate HasAdded(s: Lsm, t: Lsm, docs: Mem, ok: bool)
  {
    && SameLengths(t)
    && t.persistent == s.persistent && t.mem == s.mem && t.generations == s.generations
    && t.queued == s.queued && t.nextSeq == s.nextSeq && t.deleteGeneration == s.deleteGeneration
    && t.failure == s.failure && t.deleted == s.deleted
    && t.nextSegmentId == s.nextSegmentId + (if s.persistent then 1 else 0)
    && t.clock == s.clock + (if ok then 1 else 0)
    && t.handles == s.handles + (if !ok then [] else if s.persistent then [Disk(s.nextSegmentId)] else [Memory(docs)])
    && t.readers == s.readers + (if ok then [docs] else [])
    && t.pending == if ok then SegmentAdded(s.pending) else s.pending
  }

  lemma SegmentIsAdded(s: Lsm, docs: Mem, writeOk: bool)
    requires SameLengths(s)
    ensures var (t, ok) := AddSegment(s, docs, writeOk); ok == (s.persistent ==> writeOk) && HasAdded(s, t, docs, ok)
  {
  }

  /** The inputs are replaced by the output, and the tombstones dropped if `cleared`. */
  ghost predicate HasInstalled(s: Lsm, t: Lsm, job: Job, merged: Mem, cleared: bool)
    requires SameLengths(s) && Positions(s, job) != {}
  {
    && SameLengths(t) && SameBesides(s, t) && t.pending == s.pending && t.failure == s.failure
    && t.handles == ReplacedLists(s, job, merged).0 && t.readers == ReplacedLists(s, job, merged).1
    && t.deleted == if cleared then {} else s.deleted
  }

  lemma MergeRejected(s: Lsm, j: nat, openOk: bool, manifestOk: bool)
    requires SameLengths(s) && j < |s.jobs|
    requires !s.persistent || !AllLive(s, s.jobs[j]) || Positions(s, s.jobs[j]) == {} || !openOk
    ensures var (t, outcome) := Install(s, j, openOk, manifestOk);
            && t == s.(jobs := RemoveAt(s.jobs, j))
            && outcome == if !s.persistent || !AllLive(s, s.jobs[j]) || Positions(s, s.jobs[j]) == {} then Stale else Error
  {
  }

  lemma MergeInstalled(s: Lsm, j: nat, merged: Mem, manifestOk: bool)
    requires SameLengths(s) && j < |s.jobs| && s.persistent && AllLive(s, s.jobs[j])
    requires Positions(s, s.jobs[j]) != {} && merged == Output(s, s.jobs[j])
    ensures var (t, outcome) := Install(s, j, true, manifestOk);
            && outcome == (if manifestOk then Installed else Error)
            && HasInstalled(s, t, s.jobs[j], merged, manifestOk && ClearsTombstones(s, s.jobs[j]))
  {
    ReplacedFields(s, j, merged);
  }

  lemma FirstIsLowest(positions: set<nat>, limit: nat, first: nat)
    requires (exists k :: 0 <= k < limit && k in positions) && IsFirst(positions, first)
    ensures first == LowestFrom(positions, 0, limit)
  {
    var low := LowestFrom(positions, 0, limit);
    assert low in positions;
  }

  /** The window `plan_compaction` takes: none without two disk segments, or, unless quiet, beside a pending
      flush or with few segments; all segments when that is due; else the best tiered window, and with too
      many segments the cheapest one. */
  ghost predicate IsChoice(
    persistent: bool, quiet: bool, nonePending: bool, config: Config, sizes: Sizes, window: Option<(nat, nat)>)
  {
    var n, width := |sizes|, Max(config.maxSegmentsPerCompaction, config.minWidth);
    var whole := OnDisk(sizes, 0, n);
    if !persistent || |DiskSizes(sizes)| < 2 || (!quiet && (!nonePending || n <= config.maxSegments)) then window.None?
    else if quiet && whole then
      if MergeAllDue(DiskSizes(sizes), config.sizeRatio) then window == Some((0, n))
      else BestBelow(sizes, config.sizeRatio, 2, width, n, window)
    else if n >= config.compactWhenSegmentsAtLeast then
      if NoneBelow(sizes, config.sizeRatio, config.minWidth, width, n) then
        if n > config.maxSegments then IsCheapestWindow(sizes, width, window) else window.None?
      else window.Some? && BestBelow(sizes, config.sizeRatio, config.minWidth, width, n, window)
    else window.None?
  }

  /** The segments in `[start, end)` are the files selected, in list order. */
  ghost predicate Selects(handles: seq<Handle>, start: nat, end: nat, selected: seq<nat>)
  {
    start + |selected| == end <= |handles| && forall k :: 0 <= k < |selected| ==> handles[start + k] == Disk(selected[k])
  }

  ghost predicate IsCheapestWindow(sizes: Sizes, width: nat, window: Option<(nat, nat)>)
  {
    if window.Some? then CheapestDiskRun(sizes, width, |sizes|, window.value.0, window.value.1)
    else forall s: nat, e: nat :: s < |sizes| && DiskRun(sizes, width, s, e) ==> e - s < 2
  }

  /** `first` is the lowest position at or above `at`, or `limit` when there is none. */
  ghost predicate LowestSoFar(positions: set<nat>, at: nat, limit: nat, first: nat)
  {
    (first < limit ==> first in positions) && forall k :: k in positions && at <= k ==> first <= k
  }

  /** `now` is `start` without the positions in `gone` from `at` on. */
  ghost predicate RemovingDown(start: Lsm, now: Lsm, gone: set<nat>, at: nat, first: nat)
  {
    && SameLengths(start) && SameLengths(now) && at <= |start.handles| && at <= |now.handles|
    && now.handles[..at] == start.handles[..at]
    && RemoveDown(now, at, gone) == RemoveDown(start, |start.handles|, gone)
    && LowestSoFar(gone, at, |start.handles|, first)
  }

  /** One position down: it is removed if it is an input of the job. */
  lemma RemoveStep(start: Lsm, now: Lsm, job: Job, at: nat, first: nat)
    requires RemovingDown(start, now, Positions(start, job), at, first) && at > 0
    ensures var k, gone := at - 1, Positions(start, job);
            var input := now.handles[k].Disk? && now.handles[k].path in job.selected;
            && (input <==> k in gone)
            && RemovingDown(start, if input then RemoveSegment(now, k) else now, gone, k, if input then k else first)
  {
    var k, gone := at - 1, Positions(start, job);
    assert now.handles[k] == now.handles[..at][k] == start.handles[k];
    var next := if k in gone then RemoveSegment(now, k) else now;
    assert next.handles[..k] == now.handles[..at][..k] == start.handles[..k];
  }

  /** If all paths are live there is a position to replace. */
  lemma LivePositions(s: Lsm, job: Job)
    requires job.selected != []
    ensures AllLive(s, job) ==> Positions(s, job) != {}
  {
    if AllLive(s, job) {
      assert IsLive(s, job.selected[0]);
      var k :| 0 <= k < |s.handles| && s.handles[k] == Disk(job.selected[0]);
      assert k in Positions(s, job);
    }
  }

  lemma UnionConcat(a: seq<Mem>, b: seq<Mem>)
    ensures Union(a + b) == Union(a) + Union(b)
  {
    UnionSplit(a + b, |a|);
    assert (a + b)[..|a|] == a && (a + b)[|a|..] == b;
  }

  function AtLeastOne(n: U64): U64 { if n < 1 then 1 else n }

  /** Each segment's size, none for one in memory. */
  function SizesOf(handles: seq<Handle>, bytes: nat -> U64): (r: Sizes)
    ensures |r| == |handles| && forall k :: 0 <= k < |r| ==> (r[k].Some? <==> handles[k].Disk?)
  {
    seq(|handles|, k requires 0 <= k < |handles| =>
      if handles[k].Disk? then Some(AtLeastOne(bytes(handles[k].path))) else None)
  }

  lemma {:induction false} DiskSizesCount(sizes: Sizes)
    ensures |DiskSizes(sizes)| <= |sizes| && (|DiskSizes(sizes)| == |sizes| <==> OnDisk(sizes, 0, |sizes|))
  {
    if sizes != [] {
      DiskSizesCount(sizes[1..]);
      assert OnDisk(sizes, 0, |sizes|) <==> sizes[0].Some? && OnDisk(sizes[1..], 0, |sizes| - 1) by {
        if sizes[0].Some? && OnDisk(sizes[1..], 0, |sizes| - 1) {
          forall k | 0 <= k < |sizes| ensures sizes[k].Some? { if k > 0 { assert sizes[k] == sizes[1..][k - 1]; } }
        }
      }
    }
  }

  lemma UnionCons(newest: Mem, rest: seq<Mem>)
    ensures Union([newest] + rest) == newest + Union(rest)
  {
    assert [newest] + rest == InsertAt(rest, 0, newest);
    UnionInsert(rest, 0, newest);
  }

  /** Generation `k` is not read by anyone and no larger than `mem` with all newer generations. */
  predicate Absorbs(generations: seq<Mem>, mem: Mem, size: Mem -> nat, shared: nat -> bool, k: nat)
    requires k < |generations|
  {
    !shared(k) && size(generations[k]) <= size(Union(generations[k + 1..]) + mem)
  }

  /** All generations from `keep` on are absorbed, and the one before is not. */
  ghost predicate AbsorbsDownTo(generations: seq<Mem>, mem: Mem, size: Mem -> nat, shared: nat -> bool, keep: nat)
  {
    && keep <= |generations| && (keep > 0 ==> !Absorbs(generations, mem, size, shared, keep - 1))
    && forall k :: keep <= k < |generations| ==> Absorbs(generations, mem, size, shared, k)
  }

  /** Merges `mem` into the newest generations, up to one that is larger or still read. */
  method Absorb(generations: seq<Mem>, mem: Mem, size: Mem -> nat, shared: nat -> bool)
    returns (kept: seq<Mem>, sealed: Mem)
    ensures |kept| <= |generations| && kept == generations[..|kept|]
    ensures sealed == Union(generations[|kept|..]) + mem
    ensures AbsorbsDownTo(generations, mem, size, shared, |kept|)
  {
    kept, sealed := generations, mem;
    assert generations[|generations|..] == [];
    while kept != []
      invariant |kept| <= |generations| && kept == generations[..|kept|]
      invariant sealed == Union(generations[|kept|..]) + mem
      invariant forall k :: |kept| <= k < |generations| ==> Absorbs(generations, mem, size, shared, k)
      decreases |kept|
    {
      var newest := kept[|kept| - 1];
      if size(newest) > size(sealed) { break; }
      if shared(|kept| - 1) { break; }
      UnionCons(newest, generations[|kept|..]);
      assert generations[|kept| - 1..] == [newest] + generations[|kept|..];
      kept := kept[..|kept| - 1];
      sealed := newest + sealed;
    }
  }

  class LsmIndex {
    const persistent: bool
    var mem: Mem
    var generations: seq<Mem>
    var segmentHandles: seq<Handle>
    var querySegments: seq<Mem>
    var madeNotFlushed: seq<nat>
    var pending: seq<PendingFlush>
    var nextSeq: nat
    var failure: bool
    var deleted: set<nat>
    var deleteGeneration: nat
    var nextSegmentId: nat
    /** Numbers the flushes and added segments, to speak of their order. */
    var clock: nat
    /** The index with its files, its running jobs and the age of its data. */
    ghost var state: Lsm

    ghost predicate Valid()
      reads this
    {
      && SameLengths(state)
      && state.persistent == persistent && state.mem == mem && state.generations == generations
      && state.handles == segmentHandles && state.readers == querySegments
      && state.queued == madeNotFlushed && state.pending == pending && state.nextSeq == nextSeq
      && state.failure == failure && state.deleted == deleted && state.deleteGeneration == deleteGeneration
      && state.nextSegmentId == nextSegmentId && state.clock == clock
    }

    constructor (persistent: bool)
      ensures Valid() && state == New(persistent) && this.persistent == persistent
    {
      this.persistent := persistent;
      mem, generations, segmentHandles, querySegments := {}, [], [], [];
      madeNotFlushed, pending, nextSeq, failure := [], [], 0, false;
      deleted, deleteGeneration, nextSegmentId, clock := {}, 0, 0, 0;
      state := New(persistent);
    }

    method MergeIntoMemtable(docs: Mem)
      requires Valid()
      modifies this
      ensures Valid() && state == LsmState.MergeIntoMemtable(old(state), docs)
    {
      mem := mem + docs;
      state := LsmState.MergeIntoMemtable(state, docs);
    }

    /** Seals the memtable, merging it with the newest generations that are no larger and that no
        snapshot still reads. */
    method Seal(size: Mem -> nat, shared: nat -> bool) returns (ghost keep: nat)
      requires Valid()
      modifies this
      ensures Valid() && keep <= |old(generations)| && state == LsmState.Seal(old(state), keep)
      ensures old(mem) == {} ==> state == old(state)
      ensures old(mem) != {} ==> AbsorbsDownTo(old(generations), old(mem), size, shared, keep)
    {
      keep := |generations|;
      if mem == {} { return; }
      var kept, sealed := Absorb(generations, mem, size, shared);
      keep := |kept|;
      mem := {};
      generations := kept + [sealed];
      state := LsmState.Seal(state, keep);
    }

    /** Queues the sealed generations as one segment write, or freezes them in memory. */
    method Enqueue()
      requires Valid()
      modifies this
      ensures Valid() && state == LsmState.Enqueue(old(state))
    {
      if persistent {
        pending := pending + [PendingFlush(nextSeq, nextSegmentId, generations, 0, clock)];
        madeNotFlushed := madeNotFlushed + [nextSeq];
        nextSeq := nextSeq + 1;
        nextSegmentId := nextSegmentId + 1;
      } else {
        var segment := Union(generations);
        segmentHandles := segmentHandles + [Memory(segment)];
        querySegments := querySegments + [segment];
      }
      generations := [];
      clock := clock + 1;
      state := LsmState.Enqueue(state);
    }

    method QueueFlush(size: Mem -> nat, shared: nat -> bool, syncOk: bool) returns (ok: bool, ghost keep: nat)
      requires Valid()
      modifies this
      ensures Valid() && keep <= |old(generations)|
      ensures (state, ok) == LsmState.QueueFlush(old(state), keep, syncOk)
      ensures !failure && old(mem) != {} ==> AbsorbsDownTo(old(generations), old(mem), size, shared, keep)
    {
      keep := 0;
      if failure { return false, 0; }
      keep := Seal(size, shared);
      if persistent && !syncOk { return false, keep; }
      if generations != [] { Enqueue(); }
      ok := true;
    }

    method TakeFlushJobs() returns (jobs: seq<nat>)
      requires Valid()
      modifies this
      ensures Valid() && jobs == old(madeNotFlushed) && state == TakeJobs(old(state))
    {
      jobs := madeNotFlushed;
      madeNotFlushed := [];
      state := TakeJobs(state);
    }

    method CompleteFlush(number: nat, writeOk: bool, manifestOk: bool) returns (ok: bool)
      requires Valid()
      modifies this
      ensures Valid() && (state, ok) == LsmState.CompleteFlush(old(state), number, writeOk, manifestOk)
    {
      ghost var after := LsmState.CompleteFlush(state, number, writeOk, manifestOk);
      if pending == [] || pending[0].number != number {
        failure := true;
        state := after.0;
        return false;
      }
      FlushCompleted(state, number, writeOk, manifestOk);
      ok := writeOk && manifestOk;
      CompleteFront(ok, after.0);
    }

    method CompleteFront(ok: bool, ghost after: Lsm)
      requires Valid() && HasCompleted(state, after, ok)
      modifies this
      ensures Valid() && state == after
    {
      InsertFlushed(pending[0], ok);
      pending := pending[1..];
      failure := failure || !ok;
      state := after;
    }

    /** Puts a flush before the segments added after it was queued, from disk or kept in memory. */
    method InsertFlushed(p: PendingFlush, ok: bool)
      requires |segmentHandles| == |querySegments|
      modifies `segmentHandles, `querySegments
      ensures var docs := Union(p.generations);
              var n := |old(segmentHandles)|;
              var at := if p.addedAfter <= n then n - p.addedAfter else 0;
              && segmentHandles == InsertAt(old(segmentHandles), at, if ok then Disk(p.path) else Memory(docs))
              && querySegments == InsertAt(old(querySegments), at, docs)
    {
      var segment := Union(p.generations);
      var at := if p.addedAfter <= |segmentHandles| then |segmentHandles| - p.addedAfter else 0;
      segmentHandles := InsertAt(segmentHandles, at, if ok then Disk(p.path) else Memory(segment));
      querySegments := InsertAt(querySegments, at, segment);
    }

    /** Counts a segment as added after every pending flush. */
    method SegmentAdded()
      modifies `pending
      ensures pending == LsmState.SegmentAdded(old(pending))
    {
      var k := 0;
      while k < |pending|
        invariant |pending| == |old(pending)| && 0 <= k <= |pending|
        invariant forall i :: 0 <= i < |pending| ==>
                    pending[i] == old(pending)[i].(addedAfter := old(pending)[i].addedAfter + if i < k then 1 else 0)
      {
        pending := pending[k := pending[k].(addedAfter := pending[k].addedAfter + 1)];
        k := k + 1;
      }
    }

    method AddOne(docs: Mem, writeOk: bool) returns (ok: bool)
      requires Valid()
      modifies this
      ensures Valid() && (state, ok) == AddSegment(old(state), docs, writeOk)
    {
      SegmentIsAdded(state, docs, writeOk);
      ok := !persistent || writeOk;
      PushWritten(docs, ok, AddSegment(state, docs, writeOk).0);
    }

    /** Takes the next path on an index with files, and pushes the segment if it was written. */
    method PushWritten(docs: Mem, ok: bool, ghost after: Lsm)
      requires Valid() && HasAdded(state, after, docs, ok)
      modifies this
      ensures Valid() && state == after
    {
      if ok { Push(if persistent then Disk(nextSegmentId) else Memory(docs), docs); }
      if persistent { nextSegmentId := nextSegmentId + 1; }
      state := after;
    }

    method Push(h: Handle, docs: Mem)
      modifies `segmentHandles, `querySegments, `clock, `pending
      ensures segmentHandles == old(segmentHandles) + [h] && querySegments == old(querySegments) + [docs]
      ensures clock == old(clock) + 1 && pending == LsmState.SegmentAdded(old(pending))
    {
      segmentHandles := segmentHandles + [h];
      querySegments := querySegments + [docs];
      clock := clock + 1;
      SegmentAdded();
    }

    method AddImmutableSegment(segments: seq<Mem>, writeOk: nat -> bool) returns (ok: bool)
      requires Valid()
      modifies this
      ensures Valid() && (state, ok) == AddSegments(old(state), segments, writeOk)
    {
      var rest := segments;
      ok := true;
      while rest != [] && ok
        invariant Valid()
        invariant ok ==> AddSegments(state, rest, writeOk) == AddSegments(old(state), segments, writeOk)
        invariant !ok ==> (state, false) == AddSegments(old(state), segments, writeOk)
        decreases |rest|
      {
        ok := AddOne(rest[0], writeOk(|rest|));
        rest := rest[1..];
      }
    }

    /** The tombstone is set even when appending it to the tombstone file fails. */
    method DeleteDocument(id: nat, appendOk: bool) returns (ok: bool)
      requires Valid()
      modifies this
      ensures Valid() && state == LsmState.DeleteDocument(old(state), id) && ok == (persistent ==> appendOk)
    {
      deleted := deleted + {id};
      deleteGeneration := deleteGeneration + 1;
      state := LsmState.DeleteDocument(state, id);
      ok := !persistent || appendOk;
    }

    // ------------------------------------------------------------------ compaction

    method SegmentSizes(bytes: nat -> U64) returns (sizes: Sizes)
      requires Valid()
      ensures sizes == SizesOf(segmentHandles, bytes)
    {
      sizes := [];
      for k := 0 to |segmentHandles|
        invariant sizes == SizesOf(segmentHandles[..k], bytes)
      {
        var h := segmentHandles[k];
        assert segmentHandles[..k + 1] == segmentHandles[..k] + [h];
        sizes := sizes + [if h.Disk? then Some(AtLeastOne(bytes(h.path))) else None];
      }
      assert segmentHandles[..|segmentHandles|] == segmentHandles;
    }

    /** The window to merge next, if any. While documents still arrive, none is chosen as long as a
        flush is pending. */
    method ChooseWindow(config: Config, quiet: bool, sizes: Sizes) returns (window: Option<(nat, nat)>)
      requires Valid() && |sizes| == |segmentHandles| && Sum(DiskSizes(sizes)) <= U64_MAX
      requires forall k :: 0 <= k < |sizes| ==> (sizes[k].Some? <==> segmentHandles[k].Disk?)
      ensures window.Some? ==> MayPlan(state, window.value.0, window.value.1) && persistent
      ensures window.Some? && !quiet ==> pending == [] && |sizes| > config.maxSegments
      ensures IsChoice(persistent, quiet, pending == [], config, sizes, window)
    {
      if !persistent { return None; }
      var disk := |DiskSizes(sizes)|;
      DiskSizesCount(sizes);
      if disk < 2 { return None; }
      if !quiet && (pending != [] || |sizes| <= config.maxSegments) { return None; }
      var maxWidth := Max(config.maxSegmentsPerCompaction, config.minWidth);
      if quiet && disk == |sizes| {
        var due := IsMergeAllDue(sizes, config.sizeRatio);
        if due { return Some((0, |sizes|)); }
        window := TieredWindow(sizes, config.sizeRatio, 2, maxWidth);
      } else if |segmentHandles| >= config.compactWhenSegmentsAtLeast {
        window := TieredWindow(sizes, config.sizeRatio, config.minWidth, maxWidth);
        if window.None? && |segmentHandles| > config.maxSegments {
          window := CheapestWindow(sizes, maxWidth);
        }
      } else {
        window := None;
      }
    }

    method PlanCompaction(config: Config, quiet: bool, bytes: nat -> U64)
      returns (job: Option<Job>, ghost start: nat, ghost end: nat)
      requires Valid() && Sum(DiskSizes(SizesOf(segmentHandles, bytes))) <= U64_MAX
      modifies this
      ensures Valid()
      ensures job.None? ==> state == old(state)
      ensures job.Some? ==> persistent && MayPlan(old(state), start, end) && state == Plan(old(state), start, end)
                            && job.value == state.jobs[|old(state).jobs|]
      ensures job.Some? && !quiet ==> pending == []
      ensures IsChoice(persistent, quiet, old(pending) == [], config, SizesOf(old(segmentHandles), bytes),
                       if job.Some? then Some((start, end)) else None)
      ensures job.Some? ==> Selects(old(segmentHandles), start, end, job.value.selected)
    {
      var sizes := SegmentSizes(bytes);
      var window := ChooseWindow(config, quiet, sizes);
      if window.None? { return None, 0, 0; }
      start, end := window.value.0, window.value.1;
      var planned := PlanWindow(window.value.0, window.value.1);
      job := Some(planned);
    }

    method PlanWindow(start: nat, end: nat) returns (job: Job)
      requires Valid() && MayPlan(state, start, end)
      modifies this
      ensures Valid() && state == Plan(old(state), start, end) && job == state.jobs[|old(state).jobs|]
      ensures pending == old(pending) && Selects(old(segmentHandles), start, end, job.selected)
    {
      job := Job(Paths(segmentHandles[start..end]), deleted, deleteGeneration, nextSegmentId);
      nextSegmentId := nextSegmentId + 1;
      state := Plan(state, start, end);
    }

    /** How many of the paths are live, each searched for from the front. */
    method CountLive(selected: seq<nat>) returns (found: nat)
      requires Valid()
      ensures found <= |selected| && (found == |selected| <==> forall k :: 0 <= k < |selected| ==> IsLive(state, selected[k]))
    {
      found := 0;
      for i := 0 to |selected|
        invariant found <= i && (found == i <==> forall k :: 0 <= k < i ==> IsLive(state, selected[k]))
      {
        var at := 0;
        while at < |segmentHandles| && segmentHandles[at] != Disk(selected[i])
          invariant 0 <= at <= |segmentHandles| && Disk(selected[i]) !in segmentHandles[..at]
        {
          at := at + 1;
        }
        if at < |segmentHandles| {
          found := found + 1;
        } else {
          assert segmentHandles[..at] == segmentHandles;
        }
        assert at < |segmentHandles| <==> IsLive(state, selected[i]);
      }
    }

    /** Removes the segments of the selected paths, the last one first, and says where the first was. */
    method RemoveInputs(ghost job: Job, selected: seq<nat>) returns (first: nat)
      requires Valid() && selected == job.selected && Positions(state, job) != {}
      modifies `segmentHandles, `querySegments
      ensures var fewer := RemoveDown(old(state), |old(segmentHandles)|, Positions(old(state), job));
              segmentHandles == fewer.handles && querySegments == fewer.readers
      ensures IsFirst(Positions(state, job), first)
    {
      ghost var gone := Positions(state, job);
      ghost var now := state;
      ghost var some :| some in gone && some < |state.handles|;
      var at := |segmentHandles|;
      first := at;
      while at > 0
        invariant 0 <= at <= |state.handles| && RemovingDown(state, now, gone, at, first)
        invariant now.handles == segmentHandles && now.readers == querySegments
      {
        RemoveStep(state, now, job, at, first);
        at := at - 1;
        if segmentHandles[at].Disk? && segmentHandles[at].path in selected {
          segmentHandles := RemoveAt(segmentHandles, at);
          querySegments := RemoveAt(querySegments, at);
          now := RemoveSegment(now, at);
          first := at;
        }
      }
      assert RemoveDown(now, 0, gone) == now;
      assert first <= some;
    }

    /** Puts the merge in place of its inputs; `merged` is what its file holds. */
    method ReplaceByOutput(ghost job: Job, selected: seq<nat>, output: nat, merged: Mem)
      requires Valid() && selected == job.selected && output == job.output && Positions(state, job) != {}
      modifies `segmentHandles, `querySegments
      ensures segmentHandles == ReplacedLists(old(state), job, merged).0
      ensures querySegments == ReplacedLists(old(state), job, merged).1
    {
      ghost var before := state;
      PositionsBounded(state, job);
      var first := RemoveInputs(job, selected);
      FirstIsLowest(Positions(before, job), |before.handles|, first);
      KeptStartsUnmoved(|before.handles|, Positions(before, job), first);
      RemoveAllPicks(before, Positions(before, job));
      segmentHandles := InsertAt(segmentHandles, first, Disk(output));
      querySegments := InsertAt(querySegments, first, merged);
    }

    method InstallCompaction(ghost j: nat, completed: Job, merged: Mem, openOk: bool, manifestOk: bool)
      returns (outcome: Outcome)
      requires Valid() && j < |state.jobs| && state.jobs[j] == completed && merged == Output(state, completed)
      requires completed.selected != []
      modifies this
      ensures Valid() && (state, outcome) == Install(old(state), j, openOk, manifestOk)
    {
      var found := 0;
      if persistent { found := CountLive(completed.selected); }
      LivePositions(state, completed);
      if !persistent || found != |completed.selected| || !openOk {
        MergeRejected(state, j, openOk, manifestOk);
        outcome := if persistent && found == |completed.selected| then Error else Stale;
        state := Install(state, j, openOk, manifestOk).0;
        return;
      }
      MergeInstalled(state, j, merged, manifestOk);
      var mergedAll := found == |segmentHandles|;
      var clear := manifestOk && mergedAll && completed.deleteGeneration == deleteGeneration;
      PutInPlace(completed, merged, clear, Install(state, j, openOk, manifestOk).0);
      outcome := if manifestOk then Installed else Error;
    }

    method PutInPlace(completed: Job, merged: Mem, clear: bool, ghost after: Lsm)
      requires Valid() && Positions(state, completed) != {} && HasInstalled(state, after, completed, merged, clear)
      modifies this
      ensures Valid() && state == after
    {
      ReplaceByOutput(completed, completed.selected, completed.output, merged);
      if clear { deleted := {}; }
      state := after;
    }

    // ------------------------------------------------------------------ snapshots

    /** The parts of a snapshot besides the active memtable: generations, pending flushes, segments. */
    method BuildSnapshot() returns (segments: seq<Mem>)
      requires Valid()
      ensures Union(segments) == Union(generations) + PendingDocs(pending) + Union(querySegments)
    {
      segments := generations;
      for k := 0 to |pending|
        invariant Union(segments) == Union(generations) + PendingDocs(pending[..k])
      {
        UnionConcat(segments, pending[k].generations);
        assert pending[..k + 1] == pending[..k] + [pending[k]];
        PendingDocsAppend(pending[..k], pending[k]);
        segments := segments + pending[k].generations;
      }
      assert pending[..|pending|] == pending;
      UnionConcat(segments, querySegments);
      segments := segments + querySegments;
    }

    /** A published snapshot shows exactly the visible documents, and publishing changes none. */
    method PublishSnapshot(size: Mem -> nat, shared: nat -> bool)
      returns (segments: seq<Mem>, hidden: set<nat>, ghost keep: nat)
      requires Valid()
      modifies this
      ensures Valid() && keep <= |old(generations)| && state == LsmState.Seal(old(state), keep)
      ensures Surviving(Union(segments), hidden) == Visible(state) == Visible(old(state))
      ensures old(mem) != {} ==> AbsorbsDownTo(old(generations), old(mem), size, shared, keep)
    {
      keep := Seal(size, shared);
      SealMoves(old(state), keep);
      segments := BuildSnapshot();
      hidden := deleted;
    }
  }
}
