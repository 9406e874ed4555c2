/** Installing a merge: which segments stay, and that every invariant of the index is kept. */
module LsmCompaction {
  import opened Lists
  import opened LsmState
  import opened LsmInvariants

  // ---------------------------------------------------------------------------------------
  // Removal, highest position first, keeps the others in order.
  // ---------------------------------------------------------------------------------------

  /** The positions below `n` that stay, in order. */
  function Kept(n: nat, gone: set<nat>): (r: seq<nat>)
    ensures |r| <= n && forall k :: 0 <= k < |r| ==> r[k] < n
  {
    if n == 0 then [] else Kept(n - 1, gone) + if n - 1 in gone then [] else [n - 1]
  }

  function Pick<T>(xs: seq<T>, at: seq<nat>): (r: seq<T>)
    requires forall k :: 0 <= k < |at| ==> at[k] < |xs|
    ensures |r| == |at| && forall k :: 0 <= k < |r| ==> r[k] == xs[at[k]]
  {
    seq(|at|, k requires 0 <= k < |at| => xs[at[k]])
  }

  lemma PickRemoved<T>(xs: seq<T>, n: nat, gone: set<nat>)
    requires 0 < n <= |xs|
    ensures var ys := if n - 1 in gone then RemoveAt(xs, n - 1) else xs;
            Pick(ys, Kept(n - 1, gone)) + ys[n - 1..] == Pick(xs, Kept(n, gone)) + xs[n..]
  {
    var ys := if n - 1 in gone then RemoveAt(xs, n - 1) else xs;
    var before := Kept(n - 1, gone);
    if n - 1 in gone {
      assert ys[n - 1..] == xs[n..];
    } else {
      assert Pick(xs, before + [n - 1]) == Pick(xs, before) + [xs[n - 1]];
      assert xs[n - 1..] == [xs[n - 1]] + xs[n..];
    }
  }

  lemma {:induction false} RemoveDownPicks(s: Lsm, n: nat, gone: set<nat>)
    requires SameLengths(s) && n <= |s.handles|
    ensures RemoveDown(s, n, gone) ==
            s.(handles := Pick(s.handles, Kept(n, gone)) + s.handles[n..],
               readers := Pick(s.readers, Kept(n, gone)) + s.readers[n..],
               ages := Pick(s.ages, Kept(n, gone)) + s.ages[n..])
    decreases n
  {
    if n > 0 {
      PickRemoved(s.handles, n, gone);
      PickRemoved(s.readers, n, gone);
      PickRemoved(s.ages, n, gone);
      RemoveDownPicks(if n - 1 in gone then RemoveSegment(s, n - 1) else s, n - 1, gone);
    }
  }

  lemma {:induction false} KeptIsExact(n: nat, gone: set<nat>)
    ensures forall k :: 0 <= k < |Kept(n, gone)| ==> Kept(n, gone)[k] !in gone
    ensures forall x: nat :: x < n && x !in gone ==> x in Kept(n, gone)
    ensures forall i, j :: 0 <= i < j < |Kept(n, gone)| ==> Kept(n, gone)[i] < Kept(n, gone)[j]
  {
    if n > 0 { KeptIsExact(n - 1, gone); }
  }

  /** What is below the first removed position does not move. */
  lemma {:induction false} KeptStartsUnmoved(n: nat, gone: set<nat>, first: nat)
    requires first <= n && forall k: nat :: k < first ==> k !in gone
    ensures first <= |Kept(n, gone)| && forall k :: 0 <= k < first ==> Kept(n, gone)[k] == k
    decreases n
  {
    if n > 0 {
      var below := if first < n then first else n - 1;
      KeptStartsUnmoved(n - 1, gone, below);
      assert forall k :: 0 <= k < below ==> Kept(n, gone)[k] == Kept(n - 1, gone)[k];
    }
  }

  // ---------------------------------------------------------------------------------------
  // The list after the inputs were replaced.
  // ---------------------------------------------------------------------------------------

  /** The job's inputs, from the first to the last, and what stays beside them. */
  ghost predicate Replacing(s: Lsm, job: Job, first: nat, last: nat, kept: seq<nat>)
  {
    && SameLengths(s)
    && IsFirst(Positions(s, job), first) && IsLast(Positions(s, job), last) && first <= last < |s.handles|
    && kept == Kept(|s.handles|, Positions(s, job))
    && (forall k :: 0 <= k < |kept| ==> kept[k] !in Positions(s, job))
    && (forall k: nat :: k < |s.handles| && k !in Positions(s, job) ==> k in kept)
    && (forall i, j :: 0 <= i < j < |kept| ==> kept[i] < kept[j])
    && first <= |kept| && (forall k :: 0 <= k < first ==> kept[k] == k)
  }

  lemma PositionsBounded(s: Lsm, job: Job)
    requires Positions(s, job) != {}
    ensures exists k :: 0 <= k < |s.handles| && k in Positions(s, job)
  {
    var k :| k in Positions(s, job);
  }

  function Keeping(s: Lsm, kept: seq<nat>): Lsm
    requires SameLengths(s) && forall k :: 0 <= k < |kept| ==> kept[k] < |s.handles|
  {
    s.(handles := Pick(s.handles, kept), readers := Pick(s.readers, kept), ages := Pick(s.ages, kept))
  }

  lemma RemoveAllPicks(s: Lsm, gone: set<nat>)
    requires SameLengths(s)
    ensures RemoveDown(s, |s.handles|, gone) == Keeping(s, Kept(|s.handles|, gone))
  {
    RemoveDownPicks(s, |s.handles|, gone);
  }

  lemma InputsReplaced(s: Lsm, job: Job) returns (first: nat, last: nat, kept: seq<nat>)
    requires SameLengths(s) && Positions(s, job) != {}
    ensures Replacing(s, job, first, last, kept)
    ensures ReplaceInputs(s, job) ==
            InsertSegment(Keeping(s, kept), first, Disk(job.output), Output(s, job),
                          Span(s.ages[first].first, s.ages[last].last))
  {
    var n, gone := |s.handles|, Positions(s, job);
    PositionsBounded(s, job);
    first, last, kept := LowestFrom(gone, 0, n), HighestBelow(gone, n), Kept(n, gone);
    RemoveAllPicks(s, gone);
    KeptIsExact(n, gone);
    KeptStartsUnmoved(n, gone, first);
  }

  // ---------------------------------------------------------------------------------------
  // Invariants.
  // ---------------------------------------------------------------------------------------

  /** The segments that stay are aligned, and are the live ones the job did not read. */
  lemma KeptSegments(s: Lsm, job: Job, first: nat, last: nat, kept: seq<nat>)
    requires Aligned(s) && DistinctPaths(s.handles) && Replacing(s, job, first, last, kept)
    ensures var t := Keeping(s, kept);
            && Aligned(t) && DistinctPaths(t.handles)
            && LivePaths(t.handles) == LivePaths(s.handles) - (set p | p in job.selected)
  {
    var t := Keeping(s, kept);
    forall k | 0 <= k < |t.handles| ensures Serves(t.handles[k], t.readers[k], t.files) {
      assert Serves(s.handles[kept[k]], s.readers[kept[k]], s.files);
    }
    forall p ensures p in LivePaths(t.handles) <==> p in LivePaths(s.handles) && p !in job.selected {
      if p in LivePaths(s.handles) && p !in job.selected {
        var k :| 0 <= k < |s.handles| && s.handles[k].Disk? && s.handles[k].path == p;
        assert k in kept;
        var i :| 0 <= i < |kept| && kept[i] == k;
        assert t.handles[i].path == p;
      }
    }
  }

  lemma RemovedFrom<T>(xs: seq<T>, at: nat)
    requires at < |xs|
    ensures var r := RemoveAt(xs, at);
            && (forall k :: 0 <= k < |r| ==> r[k] in xs)
            && (forall x :: x in xs && x != xs[at] ==> x in r)
  {
    var r := RemoveAt(xs, at);
    forall k | 0 <= k < |r| ensures r[k] in xs { assert r[k] == xs[if k < at then k else k + 1]; }
    forall x | x in xs && x != xs[at] ensures x in r {
      var k :| 0 <= k < |xs| && xs[k] == x;
      assert r[if k < at then k else k - 1] == x;
    }
  }

  lemma InputsWithout(jobs: seq<Job>, j: nat)
    requires j < |jobs|
    ensures Inputs(RemoveAt(jobs, j)) <= Inputs(jobs)
  {
    RemovedFrom(jobs, j);
    var rest := RemoveAt(jobs, j);
    forall x | x in Inputs(rest) ensures x in Inputs(jobs) {
      var k :| 0 <= k < |rest| && x in rest[k].selected;
      var i :| 0 <= i < |jobs| && jobs[i] == rest[k];
    }
  }

  lemma OutputOfAnother(jobs: seq<Job>, j: nat, x: nat)
    requires j < |jobs| && forall i, k :: 0 <= i < k < |jobs| ==> jobs[i].output != jobs[k].output
    ensures x in Outputs(RemoveAt(jobs, j)) <==> x in Outputs(jobs) && x != jobs[j].output
  {
    var rest := RemoveAt(jobs, j);
    if x in Outputs(rest) {
      var k :| 0 <= k < |rest| && rest[k].output == x;
      var i := if k < j then k else k + 1;
      assert jobs[i].output == x && i != j;
    }
    if x in Outputs(jobs) && x != jobs[j].output {
      var k :| 0 <= k < |jobs| && jobs[k].output == x;
      assert rest[if k < j then k else k - 1].output == x;
    }
  }

  lemma OutputsWithout(jobs: seq<Job>, j: nat)
    requires j < |jobs| && forall i, k :: 0 <= i < k < |jobs| ==> jobs[i].output != jobs[k].output
    ensures var rest := RemoveAt(jobs, j);
            && Outputs(rest) == Outputs(jobs) - {jobs[j].output} && Inputs(rest) <= Inputs(jobs)
            && forall k :: 0 <= k < |rest| ==> rest[k] in jobs
  {
    RemovedFrom(jobs, j);
    InputsWithout(jobs, j);
    forall x ensures x in Outputs(RemoveAt(jobs, j)) <==> x in Outputs(jobs) && x != jobs[j].output {
      OutputOfAnother(jobs, j, x);
    }
  }

  lemma DropJobKeepsInv(s: Lsm, j: nat)
    requires Inv(s) && j < |s.jobs|
    ensures Inv(s.(jobs := RemoveAt(s.jobs, j)))
  {
    var t := s.(jobs := RemoveAt(s.jobs, j));
    OutputsWithout(s.jobs, j);
    assert Reserved(t) <= Reserved(s) && Used(t) <= Used(s);
    JobsKnowLess(s, t);
    assert DiskDocs(t) == DiskDocs(s) && Durable(t) == Durable(s);
  }

  /** What the readers of the job's inputs show. */
  ghost function Shown(s: Lsm, job: Job): Mem
  {
    set k, d | k in Positions(s, job) && k < |s.readers| && d in s.readers[k] :: d
  }

  /** The documents of the job's inputs, read from their files, are those their readers show. */
  lemma InputsShowFiles(s: Lsm, job: Job)
    requires Aligned(s) && AllLive(s, job)
    ensures ReadFiles(s.files, job.selected) == Shown(s, job)
  {
    forall d ensures d in ReadFiles(s.files, job.selected) <==> d in Shown(s, job) {
      if d in Shown(s, job) {
        var k :| k in Positions(s, job) && k < |s.readers| && d in s.readers[k];
        assert Serves(s.handles[k], s.readers[k], s.files);
        var i :| 0 <= i < |job.selected| && job.selected[i] == s.handles[k].path;
        assert d in s.files[job.selected[i]];
      }
      if d in ReadFiles(s.files, job.selected) {
        var i :| 0 <= i < |job.selected| && job.selected[i] in s.files && d in s.files[job.selected[i]];
        assert IsLive(s, job.selected[i]);
        var k :| 0 <= k < |s.handles| && s.handles[k] == Disk(job.selected[i]);
        assert Serves(s.handles[k], s.readers[k], s.files);
        assert k in Positions(s, job);
      }
    }
  }

  /** Inputs and kept segments together are all segments. */
  lemma ReadersSplit(s: Lsm, job: Job, first: nat, last: nat, kept: seq<nat>)
    requires Replacing(s, job, first, last, kept)
    ensures Union(s.readers) == Union(Keeping(s, kept).readers) + Shown(s, job)
  {
    var t := Keeping(s, kept);
    forall d | d in Union(s.readers) ensures d in Union(t.readers) || d in Shown(s, job) {
      var k :| 0 <= k < |s.readers| && d in s.readers[k];
      PositionIsKeptOrInput(s, job, first, last, kept, k);
      if k !in Positions(s, job) {
        var i :| 0 <= i < |kept| && kept[i] == k;
        assert d in t.readers[i];
      }
    }
    forall d | d in Union(t.readers) ensures d in Union(s.readers) {
      var i :| 0 <= i < |t.readers| && d in t.readers[i];
      assert d in s.readers[kept[i]];
    }
  }

  lemma PositionIsKeptOrInput(s: Lsm, job: Job, first: nat, last: nat, kept: seq<nat>, k: nat)
    requires Replacing(s, job, first, last, kept) && k < |s.handles|
    ensures k in Positions(s, job) || k in kept
  {
  }

  lemma DiskDocsSplit(s: Lsm, job: Job, first: nat, last: nat, kept: seq<nat>)
    requires Replacing(s, job, first, last, kept)
    ensures DiskDocs(s) == DiskDocs(Keeping(s, kept)) + Shown(s, job)
  {
    var t := Keeping(s, kept);
    forall d ensures d in DiskDocs(s) <==> d in DiskDocs(t) || d in Shown(s, job) {
      if d in DiskDocs(s) && d !in Shown(s, job) {
        var k :| 0 <= k < |s.readers| && s.handles[k].Disk? && d in s.readers[k];
        var i :| 0 <= i < |kept| && kept[i] == k;
        assert t.handles[i].Disk? && d in t.readers[i];
      }
      if d in Shown(s, job) {
        var k :| k in Positions(s, job) && k < |s.readers| && d in s.readers[k];
        assert s.handles[k].Disk?;
      }
    }
  }

  lemma UnionInsert(parts: seq<Mem>, at: nat, docs: Mem)
    requires at <= |parts|
    ensures Union(InsertAt(parts, at, docs)) == Union(parts) + docs
  {
    var r := InsertAt(parts, at, docs);
    forall d ensures d in Union(r) <==> d in Union(parts) || d in docs {
      if d in Union(parts) {
        var k :| 0 <= k < |parts| && d in parts[k];
        assert r[if k < at then k else k + 1] == parts[k];
      }
      assert r[at] == docs;
    }
  }

  /** The job's inputs replaced by its output, its file written. */
  function Merged(s: Lsm, j: nat): Lsm
    requires SameLengths(s) && j < |s.jobs| && Positions(s, s.jobs[j]) != {}
  {
    var job := s.jobs[j];
    ReplaceInputs(s.(jobs := RemoveAt(s.jobs, j)), job).(files := s.files[job.output := Output(s, job)])
  }

  ghost predicate Installable(s: Lsm, j: nat)
  {
    Inv(s) && j < |s.jobs| && s.persistent && AllLive(s, s.jobs[j]) && Positions(s, s.jobs[j]) != {}
  }

  /** What a merge that is installed shows and which files it leaves live. */
  lemma MergedSegments(s: Lsm, j: nat)
    requires Installable(s, j)
    ensures var job, t := s.jobs[j], Merged(s, j);
            && t == s.(jobs := RemoveAt(s.jobs, j), files := s.files[job.output := Output(s, job)],
                       handles := t.handles, readers := t.readers, ages := t.ages)
            && Aligned(t) && DistinctPaths(t.handles)
            && LivePaths(t.handles) == LivePaths(s.handles) - (set p | p in job.selected) + {job.output}
  {
    var job := s.jobs[j];
    var rest := s.(jobs := RemoveAt(s.jobs, j));
    assert Positions(rest, job) == Positions(s, job);
    var first, last, kept := InputsReplaced(rest, job);
    KeptSegments(rest, job, first, last, kept);
    assert job.output in Outputs(s.jobs);
    var without := Keeping(rest, kept);
    WriteKeepsAligned(without, job.output, Output(s, job));
    InsertKeepsAligned(without.(files := s.files[job.output := Output(s, job)]), first, Disk(job.output),
                       Output(s, job), Span(s.ages[first].first, s.ages[last].last));
    LivePathsInsert(without.handles, first, Disk(job.output));
  }

  /** What an installed merge changes. */
  lemma InstalledFields(s: Lsm, j: nat, manifestOk: bool)
    requires Installable(s, j)
    ensures var job, merged := s.jobs[j], Merged(s, j);
            Install(s, j, true, manifestOk).0 ==
            s.(jobs := RemoveAt(s.jobs, j),
               handles := merged.handles, readers := merged.readers, ages := merged.ages,
               files := if manifestOk then merged.files - (set p | p in job.selected) else merged.files,
               manifest := if manifestOk then LivePaths(merged.handles) else s.manifest,
               deleted := if manifestOk && ClearsTombstones(s, job) then {} else s.deleted)
  {
    MergedSegments(s, j);
  }

  lemma RejectedFields(s: Lsm, j: nat, openOk: bool, manifestOk: bool)
    requires Inv(s) && j < |s.jobs| && !(Installable(s, j) && openOk)
    ensures Install(s, j, openOk, manifestOk).0 == s.(jobs := RemoveAt(s.jobs, j))
  {
  }

  lemma MergedLists(s: Lsm, j: nat) returns (first: nat, last: nat, kept: seq<nat>)
    requires Installable(s, j)
    ensures Replacing(s, s.jobs[j], first, last, kept)
    ensures var job, t, without := s.jobs[j], Merged(s, j), Keeping(s, kept);
            && t.handles == InsertAt(without.handles, first, Disk(job.output))
            && t.readers == InsertAt(without.readers, first, Output(s, job))
            && t.ages == InsertAt(without.ages, first, Span(s.ages[first].first, s.ages[last].last))
  {
    var rest := s.(jobs := RemoveAt(s.jobs, j));
    assert Positions(rest, s.jobs[j]) == Positions(s, s.jobs[j]);
    first, last, kept := InputsReplaced(rest, s.jobs[j]);
  }

  lemma SameDiskDocs(s: Lsm, t: Lsm)
    requires s.handles == t.handles && s.readers == t.readers
    ensures DiskDocs(s) == DiskDocs(t)
  {
  }

  /** A merge loses only documents with tombstones it knew. */
  lemma MergedShows(s: Lsm, j: nat)
    requires Installable(s, j)
    ensures var job, t := s.jobs[j], Merged(s, j);
            && Union(t.readers) + Shown(s, job) == Union(s.readers)
            && Surviving(Shown(s, job), job.deleted) <= Union(t.readers)
  {
    var job, t := s.jobs[j], Merged(s, j);
    var first, last, kept := MergedLists(s, j);
    ReadersSplit(s, job, first, last, kept);
    InputsShowFiles(s, job);
    UnionInsert(Keeping(s, kept).readers, first, Output(s, job));
  }

  lemma MergedHolds(s: Lsm, j: nat)
    requires Installable(s, j)
    ensures var job, t := s.jobs[j], Merged(s, j);
            && DiskDocs(t) + Shown(s, job) == DiskDocs(s)
            && Surviving(Shown(s, job), job.deleted) <= DiskDocs(t)
  {
    var job, t := s.jobs[j], Merged(s, j);
    var first, last, kept := MergedLists(s, j);
    DiskDocsSplit(s, job, first, last, kept);
    InputsShowFiles(s, job);
    var without, age := Keeping(s, kept), Span(s.ages[first].first, s.ages[last].last);
    DiskDocsInsert(without, first, Disk(job.output), Output(s, job), age);
    SameDiskDocs(t, InsertSegment(without, first, Disk(job.output), Output(s, job), age));
  }

  // ---------------------------------------------------------------------------------------
  // A merge of as many segments as there are merges all of them.
  // ---------------------------------------------------------------------------------------

  lemma {:induction false} DistinctCount<T>(xs: seq<T>)
    requires forall i, j :: 0 <= i < j < |xs| ==> xs[i] != xs[j]
    ensures |Elements(xs)| == |xs|
  {
    if xs != [] {
      DistinctCount(xs[1..]);
      assert Elements(xs) == Elements(xs[1..]) + {xs[0]};
    }
  }

  function Below(n: nat): (r: set<nat>)
    ensures |r| == n && forall k: nat :: k in r <==> k < n
  {
    if n == 0 then {} else Below(n - 1) + {n - 1}
  }

  lemma FullSubset(a: set<nat>, b: set<nat>)
    requires a <= b && |a| == |b|
    ensures a == b
  {
    assert |b - a| == 0;
  }

  lemma WholeMergeTakesAll(s: Lsm, job: Job)
    requires AllLive(s, job) && MergedAll(s, job)
    requires forall i, j :: 0 <= i < j < |job.selected| ==> job.selected[i] != job.selected[j]
    ensures Positions(s, job) == Below(|s.handles|)
  {
    var n := |s.handles|;
    var at := seq(n, i requires 0 <= i < n => PositionOf(s.handles, job.selected[i]));
    forall i | 0 <= i < n ensures at[i] < n && s.handles[at[i]] == Disk(job.selected[i]) {
      assert IsLive(s, job.selected[i]);
    }
    DistinctCount(at);
    FullSubset(Elements(at), Below(n));
    forall k | k in Below(n) ensures k in Positions(s, job) {
      assert k in Elements(at);
      var i :| 0 <= i < n && at[i] == k;
      assert job.selected[i] in job.selected;
    }
  }

  function PositionOf(handles: seq<Handle>, path: nat): (k: nat)
    ensures Disk(path) in handles ==> k < |handles| && handles[k] == Disk(path)
  {
    if handles == [] || handles[0] == Disk(path) then 0 else 1 + PositionOf(handles[1..], path)
  }

  lemma AllShown(s: Lsm, job: Job)
    requires SameLengths(s) && Positions(s, job) == Below(|s.handles|)
    ensures Union(s.readers) == Shown(s, job)
  {
    forall d | d in Union(s.readers) ensures d in Shown(s, job) {
      var k :| 0 <= k < |s.readers| && d in s.readers[k];
      assert k in Below(|s.handles|);
    }
  }

  /** A whole merge leaves one segment. */
  lemma WholeMergeLeavesOne(s: Lsm, j: nat)
    requires Installable(s, j) && MergedAll(s, s.jobs[j])
    ensures Merged(s, j).handles == [Disk(s.jobs[j].output)]
    ensures Merged(s, j).readers == [Output(s, s.jobs[j])]
    ensures Union(s.readers) == Shown(s, s.jobs[j])
  {
    var job := s.jobs[j];
    assert JobKnows(s, job);
    WholeMergeTakesAll(s, job);
    AllShown(s, job);
    var first, last, kept := MergedLists(s, j);
    NoneKept(s, job, first, last, kept);
  }

  lemma KeptIsKept(s: Lsm, job: Job, first: nat, last: nat, kept: seq<nat>)
    requires Replacing(s, job, first, last, kept) && kept != []
    ensures Positions(s, job) != Below(|s.handles|)
  {
    assert kept[0] !in Positions(s, job) && kept[0] in Below(|s.handles|);
  }

  lemma NoneKept(s: Lsm, job: Job, first: nat, last: nat, kept: seq<nat>)
    requires Replacing(s, job, first, last, kept) && Positions(s, job) == Below(|s.handles|)
    ensures kept == [] && first == 0
  {
    if kept != [] {
      KeptIsKept(s, job, first, last, kept);
      assert false;
    }
  }

  // ---------------------------------------------------------------------------------------
  // The invariants over a merge.
  // ---------------------------------------------------------------------------------------

  lemma MergedKeepsPaths(s: Lsm, j: nat, t: Lsm)
    requires Installable(s, j)
    requires t.handles == Merged(s, j).handles && t.pending == s.pending && t.jobs == RemoveAt(s.jobs, j)
    requires t.nextSegmentId == s.nextSegmentId
    requires t.manifest == s.manifest || t.manifest == LivePaths(t.handles)
    ensures PathsFresh(t)
  {
    var job := s.jobs[j];
    MergedSegments(s, j);
    OutputsWithout(s.jobs, j);
    assert job.output in Outputs(s.jobs);
    ReservedPathUsed(Reserved(s), Used(s), s.nextSegmentId, job.output, Reserved(t), Used(t));
  }

  /** Other jobs: those that read a replaced segment go stale, and a whole merge makes all stale. */
  lemma MergedKeepsTombstones(s: Lsm, j: nat, t: Lsm)
    requires Installable(s, j)
    requires t.handles == Merged(s, j).handles && t.jobs == RemoveAt(s.jobs, j)
    requires t.everDeleted == s.everDeleted && t.deleteGeneration == s.deleteGeneration
    requires t.deleted == s.deleted || (t.deleted == {} && ClearsTombstones(s, s.jobs[j]))
    ensures Tombstones(t)
  {
    var job := s.jobs[j];
    MergedSegments(s, j);
    OutputsWithout(s.jobs, j);
    assert job.output in Outputs(s.jobs);
    if t.deleted == s.deleted {
      JobsKnowLess(s, t);
    } else {
      WholeMergeLeavesOne(s, j);
      OthersGoStale(s, t, job.output);
    }
  }

  lemma OthersGoStale(s: Lsm, t: Lsm, output: nat)
    requires Tombstones(s) && output !in Inputs(s.jobs) && t.handles == [Disk(output)]
    requires forall k :: 0 <= k < |t.jobs| ==> t.jobs[k] in s.jobs
    requires t.everDeleted == s.everDeleted && t.deleteGeneration == s.deleteGeneration && t.deleted == {}
    ensures Tombstones(t)
  {
    forall k | 0 <= k < |t.jobs| ensures JobKnows(t, t.jobs[k]) {
      var other := t.jobs[k];
      var i :| 0 <= i < |s.jobs| && s.jobs[i] == other;
      assert JobKnows(s, s.jobs[i]);
      assert other.selected[0] in s.jobs[i].selected;
      assert !IsLive(t, other.selected[0]);
    }
  }

  lemma MergedKeepsRecorded(s: Lsm, j: nat)
    requires Installable(s, j)
    ensures Surviving(DiskDocs(Merged(s, j)), s.everDeleted) == Surviving(DiskDocs(s), s.everDeleted)
  {
    MergedHolds(s, j);
    var job, t := s.jobs[j], Merged(s, j);
    assert JobKnows(s, job);
    forall d | d in Surviving(DiskDocs(s), s.everDeleted) ensures d in DiskDocs(t) {
      if d in Shown(s, job) { assert d in Surviving(Shown(s, job), job.deleted); }
    }
  }

  /** After the manifest was rewritten it lists exactly the disk segments. */
  lemma RewrittenManifestRecords(t: Lsm)
    requires Aligned(t) && t.manifest == LivePaths(t.handles)
    ensures Durable(t) == DiskDocs(t)
  {
    forall d ensures d in Durable(t) <==> d in DiskDocs(t) {
      if d in Durable(t) {
        var p :| p in t.manifest && p in t.files && d in t.files[p];
        var k :| 0 <= k < |t.handles| && t.handles[k].Disk? && t.handles[k].path == p;
        assert Serves(t.handles[k], t.readers[k], t.files);
      }
      if d in DiskDocs(t) {
        var k :| 0 <= k < |t.handles| && t.handles[k].Disk? && d in t.readers[k];
        assert Serves(t.handles[k], t.readers[k], t.files);
        assert t.handles[k].path in t.manifest;
      }
    }
  }

  lemma DropFilesKeepsAligned(s: Lsm, t: Lsm, gone: set<nat>)
    requires Aligned(s) && gone !! LivePaths(s.handles)
    requires t.handles == s.handles && t.readers == s.readers && t.ages == s.ages && t.files == s.files - gone
    ensures Aligned(t)
  {
    forall k | 0 <= k < |t.handles| ensures Serves(t.handles[k], t.readers[k], t.files) {
      assert Serves(s.handles[k], s.readers[k], s.files);
      assert s.handles[k].Disk? ==> s.handles[k].path in LivePaths(s.handles);
    }
  }

  lemma InstallKeepsInv(s: Lsm, j: nat, openOk: bool, manifestOk: bool)
    requires Inv(s) && j < |s.jobs|
    ensures Inv(Install(s, j, openOk, manifestOk).0)
  {
    if !Installable(s, j) || !openOk {
      DropJobKeepsInv(s, j);
    } else {
      var t := Install(s, j, openOk, manifestOk).0;
      InstalledFields(s, j, manifestOk);
      MergedKeepsPaths(s, j, t);
      MergedKeepsTombstones(s, j, t);
      InstalledKeepsContents(s, j, manifestOk, t);
      MergedKeepsKinds(s, j, t);
    }
  }

  lemma InstalledKeepsContents(s: Lsm, j: nat, manifestOk: bool, t: Lsm)
    requires Installable(s, j)
    requires var job, merged := s.jobs[j], Merged(s, j);
             && t.handles == merged.handles && t.readers == merged.readers && t.ages == merged.ages
             && t.files == (if manifestOk then merged.files - (set p | p in job.selected) else merged.files)
             && t.manifest == (if manifestOk then LivePaths(merged.handles) else s.manifest)
             && t.everDeleted == s.everDeleted
    ensures Aligned(t) && Recorded(t)
  {
    var job, merged := s.jobs[j], Merged(s, j);
    MergedSegments(s, j);
    MergedKeepsRecorded(s, j);
    SameDiskDocs(t, merged);
    assert job.output in Outputs(s.jobs);
    assert forall p :: p in job.selected ==> p in Inputs(s.jobs);
    if manifestOk {
      DropFilesKeepsAligned(merged, t, set p | p in job.selected);
      RewrittenManifestRecords(t);
    } else {
      DurableGrows(s, job.output, Output(s, job), false);
      assert Durable(t) == Durable(s);
    }
  }

  lemma MergedKeepsKinds(s: Lsm, j: nat, t: Lsm)
    requires Installable(s, j) && t.handles == Merged(s, j).handles && t.jobs == RemoveAt(s.jobs, j)
    requires t.pending == s.pending && t.queued == s.queued && t.nextSeq == s.nextSeq
    requires t.failure == s.failure && t.persistent == s.persistent
    ensures QueueInOrder(t) && KindsAgree(t)
  {
    var first, last, kept := MergedLists(s, j);
    if s.persistent && !s.failure { StillAllDisk(s.handles, kept, first, s.jobs[j].output); }
  }

  lemma StillAllDisk(handles: seq<Handle>, kept: seq<nat>, at: nat, output: nat)
    requires at <= |kept| && forall k :: 0 <= k < |kept| ==> kept[k] < |handles|
    requires forall k :: 0 <= k < |handles| ==> handles[k].Disk?
    ensures forall h :: h in InsertAt(Pick(handles, kept), at, Disk(output)) ==> h.Disk?
  {
  }

  // ---------------------------------------------------------------------------------------
  // Every step, every run.
  // ---------------------------------------------------------------------------------------

  lemma NextKeepsInv(s: Lsm, e: Event)
    requires Inv(s) && Enabled(s, e)
    ensures Inv(Next(s, e))
  {
    match e
    case Merge(docs) => MemtableStepsKeepInv(s, Next(s, e));
    case SealMemtable(keep) => MemtableStepsKeepInv(s, Next(s, e));
    case Queue(keep, syncOk) => QueueKeepsInv(s, keep, syncOk);
    case Take => MemtableStepsKeepInv(s, Next(s, e));
    case Complete(number, writeOk, manifestOk) => CompleteKeepsInv(s, number, writeOk, manifestOk);
    case AddImmutable(docs, writeOk) => AddKeepsInv(s, docs, writeOk);
    case Delete(id) => DeleteKeepsInv(s, id);
    case PlanJob(start, end) => PlanKeepsInv(s, start, end);
    case InstallJob(j, openOk, manifestOk) => InstallKeepsInv(s, j, openOk, manifestOk);
  }

  ghost predicate IsRun(run: seq<Lsm>, events: seq<Event>)
  {
    && |run| == |events| + 1
    && forall k :: 0 <= k < |events| ==> Enabled(run[k], events[k]) && run[k + 1] == Next(run[k], events[k])
  }

  lemma {:induction false} RunKeepsInv(persistent: bool, run: seq<Lsm>, events: seq<Event>, k: nat)
    requires IsRun(run, events) && run[0] == New(persistent) && k < |run|
    ensures Inv(run[k])
  {
    if k > 0 {
      RunKeepsInv(persistent, run, events, k - 1);
      NextKeepsInv(run[k - 1], events[k - 1]);
    }
  }

  lemma JoinRuns(run: seq<Lsm>, events: seq<Event>, more: seq<Lsm>, later: seq<Event>)
    requires IsRun(run, events) && IsRun(more, later) && run[|events|] == more[0]
    ensures IsRun(run + more[1..], events + later)
  {
    var run', events' := run + more[1..], events + later;
    forall k | 0 <= k < |events'| ensures Enabled(run'[k], events'[k]) && run'[k + 1] == Next(run'[k], events'[k]) {
      if k < |events| {
        assert run'[k] == run[k] && run'[k + 1] == run[k + 1];
      } else {
        var i := k - |events|;
        assert run'[k] == more[i] && run'[k + 1] == more[i + 1];
        assert Enabled(more[i], later[i]);
      }
    }
  }
}
