/** A merge from its plan to its installation: a planned window becomes one segment of what survives in it. */
module LsmMerges {
  import opened Lists
  import opened LsmState
  import opened LsmInvariants
  import opened LsmCompaction

  /** The positions in `[start, end)`. */
  function Window(start: nat, end: nat): set<nat> { set k: nat | k < end && Within(start, k) }

  predicate Within(start: nat, k: nat) { start <= k }

  function From(first: nat, last: nat): (r: seq<nat>)
    requires first <= last
    ensures |r| == last - first && forall k :: 0 <= k < |r| ==> r[k] == first + k
  {
    seq(last - first, k requires 0 <= k < last - first => first + k)
  }

  lemma {:induction false} KeptBesideWindow(n: nat, start: nat, end: nat)
    requires start <= end <= n
    ensures Kept(n, Window(start, end)) == From(0, start) + From(end, n)
    decreases n
  {
    if n > end {
      KeptBesideWindow(n - 1, start, end);
      assert From(end, n) == From(end, n - 1) + [n - 1];
    } else {
      KeptOfWindow(n, start, end);
    }
  }

  /** Below the end of the window only what is before it is kept. */
  lemma {:induction false} KeptOfWindow(n: nat, start: nat, end: nat)
    requires start <= n <= end
    ensures Kept(n, Window(start, end)) == From(0, start)
    decreases n
  {
    if n == start {
      KeptStartsUnmoved(n, Window(start, end), start);
    } else {
      KeptOfWindow(n - 1, start, end);
      assert n - 1 in Window(start, end);
    }
  }

  /** The inputs of a plan just made are the planned window. */
  lemma PlannedPositions(s: Lsm, start: nat, end: nat)
    requires Inv(s) && Enabled(s, PlanJob(start, end))
    ensures var t := Plan(s, start, end); var job := t.jobs[|s.jobs|];
            && |job.selected| == end - start && job.deleted == s.deleted && job.output == s.nextSegmentId
            && job.deleteGeneration == s.deleteGeneration
            && Positions(t, job) == Window(start, end) && AllLive(t, job)
  {
    var t := Plan(s, start, end);
    var job := t.jobs[|s.jobs|];
    assert forall k :: 0 <= k < end - start ==> s.handles[start..end][k] == s.handles[start + k];
    assert forall k :: 0 <= k < end - start ==> s.handles[start + k] == Disk(job.selected[k]);
    forall k: nat ensures k in Positions(t, job) <==> k in Window(start, end) {
      if k in Window(start, end) { assert job.selected[k - start] == s.handles[k].path; }
    }
  }

  lemma ShownInWindow(s: Lsm, job: Job, start: nat, end: nat)
    requires SameLengths(s) && start <= end <= |s.handles| && Positions(s, job) == Window(start, end)
    ensures Shown(s, job) == Union(s.readers[start..end])
  {
    var part := s.readers[start..end];
    forall d ensures d in Shown(s, job) <==> d in Union(part) {
      if d in Shown(s, job) {
        var k :| k in Positions(s, job) && k < |s.readers| && d in s.readers[k];
        assert part[k - start] == s.readers[k];
      }
      if d in Union(part) {
        var k :| 0 <= k < |part| && d in part[k];
        assert s.readers[start + k] == part[k] && start + k in Window(start, end);
      }
    }
  }

  lemma PickBeside<T>(xs: seq<T>, start: nat, end: nat, x: T)
    requires start <= end <= |xs|
    ensures InsertAt(Pick(xs, From(0, start) + From(end, |xs|)), start, x) == xs[..start] + [x] + xs[end..]
  {
  }

  /** A merge planned and installed with nothing in between replaces the segments of the window by one with
      their documents that are not deleted, in the same place. It drops the tombstones exactly if the window
      was the whole list. */
  lemma PlannedWindowIsReplaced(s: Lsm, start: nat, end: nat)
    requires Inv(s) && Enabled(s, PlanJob(start, end))
    ensures var (t, outcome) := Install(Plan(s, start, end), |s.jobs|, true, true);
            && outcome == Installed && t.jobs == s.jobs && t.pending == s.pending && t.mem == s.mem
            && t.handles == s.handles[..start] + [Disk(s.nextSegmentId)] + s.handles[end..]
            && t.readers
               == s.readers[..start] + [Surviving(Union(s.readers[start..end]), s.deleted)] + s.readers[end..]
            && t.deleted == (if start == 0 && end == |s.handles| then {} else s.deleted)
            && t.manifest == LivePaths(t.handles)
  {
    var p, j := Plan(s, start, end), |s.jobs|;
    PlanKeepsInv(s, start, end);
    PlannedPositions(s, start, end);
    assert start in Window(start, end);
    PlanIsInstalled(p, j);
    PlannedLists(p, j, start, end);
    assert RemoveAt(p.jobs, j) == s.jobs;
  }

  lemma PlanIsInstalled(p: Lsm, j: nat)
    requires Installable(p, j)
    ensures var (t, outcome) := Install(p, j, true, true);
            && outcome == Installed && t.jobs == RemoveAt(p.jobs, j) && t.pending == p.pending && t.mem == p.mem
            && t.handles == Merged(p, j).handles && t.readers == Merged(p, j).readers
            && t.deleted == (if ClearsTombstones(p, p.jobs[j]) then {} else p.deleted)
            && t.manifest == LivePaths(t.handles)
  {
    InstalledFields(p, j, true);
  }

  lemma PlannedLists(p: Lsm, j: nat, start: nat, end: nat)
    requires Installable(p, j) && start < end <= |p.handles| && Positions(p, p.jobs[j]) == Window(start, end)
    ensures var t, job := Merged(p, j), p.jobs[j];
            && t.handles == p.handles[..start] + [Disk(job.output)] + p.handles[end..]
            && t.readers
               == p.readers[..start] + [Surviving(Union(p.readers[start..end]), job.deleted)] + p.readers[end..]
  {
    var job := p.jobs[j];
    var first, last, kept := MergedLists(p, j);
    assert start in Positions(p, job) && first == start;
    KeptBesideWindow(|p.handles|, start, end);
    PickBeside(p.handles, start, end, Disk(job.output));
    PickBeside(p.readers, start, end, Output(p, job));
    InputsShowFiles(p, job);
    ShownInWindow(p, job, start, end);
  }
}
