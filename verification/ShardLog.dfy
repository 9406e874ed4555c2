/** A shard's write-ahead log and checkpoints, as the smallest steps a crash can fall between:
    append, apply, acknowledge, rotate, start a flush, learn its outcome, delete a log segment. */
module ShardLog {
  import opened Options

  /** Writes are numbered in the order they are logged. */
  datatype Segment = Segment(id: nat, records: seq<nat>)

  /** A flush under way: it closes the log through `through`, and `covers` what the database
      held when it was started. */
  datatype Checkpoint = Checkpoint(through: nat, covers: set<nat>)

  datatype Shard = Shard(
    segments: seq<Segment>,
    checkpoints: seq<Checkpoint>,
    failed: bool,
    reindex: Option<nat>,
    inFlight: Option<nat>,     // logged, not yet applied
    closed: Option<nat>,       // rotated away, its flush not yet started
    clearing: Option<nat>,     // log segments through here are being deleted
    applied: set<nat>,         // writes the running database holds
    durable: set<nat>,         // writes the store and index hold on disk
    acked: set<nat>,           // writes reported as done
    finished: seq<nat>,        // checkpoints finished, in order
    nextRecord: nat)

  datatype Step =
    | Append | Apply | DropInFlight | Ack(record: nat)
    | Rotate | RotateFailed | FlushStarted | FlushRefused
    | FlushDone(ok: bool)
    | RemoveOldest | ClearingDone | ClearingFailed
    | OpenReindex(generation: nat) | CloseReindex
    | Restart

  function Current(s: Shard): Segment
    requires s.segments != []
  {
    s.segments[|s.segments| - 1]
  }

  /** Every write still in the log. */
  function Logged(segments: seq<Segment>): set<nat>
  {
    set k, r | 0 <= k < |segments| && r in segments[k].records :: r
  }

  /** The writes in segments numbered `through` or lower. */
  function LoggedThrough(segments: seq<Segment>, through: nat): set<nat>
  {
    set k, r | 0 <= k < |segments| && segments[k].id <= through && r in segments[k].records :: r
  }

  predicate Idle(s: Shard) { s.closed.None? && s.clearing.None? }

  predicate Enabled(s: Shard, e: Step)
  {
    s.segments != [] &&
    match e
    case Append => !s.failed && Idle(s) && s.inFlight.None?
    case Apply => s.inFlight.Some?
    case DropInFlight => s.inFlight.Some?
    case Ack(r) => r in s.applied
    case Rotate => Idle(s) && s.inFlight.None?
    case RotateFailed => Idle(s) && s.inFlight.None?
    case FlushStarted => s.closed.Some?
    case FlushRefused => s.closed.Some?
    case FlushDone(ok) => Idle(s) && s.checkpoints != []
    case RemoveOldest => s.clearing.Some? && |s.segments| > 1 && s.segments[0].id <= s.clearing.value
    case ClearingDone => s.clearing.Some?
    case ClearingFailed => s.clearing.Some?
    case OpenReindex(_) => Idle(s)
    case CloseReindex => true
    case Restart => true
  }

  function Next(s: Shard, e: Step): Shard
    requires Enabled(s, e)
  {
    match e
    case Append =>
      var last := Current(s);
      s.(segments := s.segments[|s.segments| - 1 := last.(records := last.records + [s.nextRecord])],
         inFlight := Some(s.nextRecord), nextRecord := s.nextRecord + 1)
    case Apply => s.(applied := s.applied + {s.inFlight.value}, inFlight := None)
    case DropInFlight => s.(inFlight := None)
    case Ack(r) => s.(acked := s.acked + {r})
    case Rotate => s.(segments := s.segments + [Segment(Current(s).id + 1, [])], closed := Some(Current(s).id))
    case RotateFailed => s.(failed := true)
    case FlushStarted =>
      s.(checkpoints := s.checkpoints + [Checkpoint(s.closed.value, s.applied)], closed := None)
    case FlushRefused => s.(closed := None, failed := true)
    case FlushDone(ok) =>
      var done := s.checkpoints[0];
      if ok then
        s.(checkpoints := s.checkpoints[1..], durable := s.durable + done.covers,
           finished := s.finished + [done.through],
           clearing := if s.reindex.Some? then None else Some(done.through))
      else s.(checkpoints := [], failed := true)
    case RemoveOldest => s.(segments := s.segments[1..])
    case ClearingDone => s.(clearing := None)
    case ClearingFailed => s.(clearing := None, failed := true, checkpoints := [])
    case OpenReindex(generation) => s.(reindex := Some(generation))
    case CloseReindex => s.(reindex := None)
    case Restart =>
      // everything in memory is lost; the log is replayed onto what is on disk
      s.(applied := Logged(s.segments) + s.durable, checkpoints := [], failed := false, reindex := None,
         inFlight := None, closed := None, clearing := None)
  }

  // ---------------------------------------------------------------------------------------
  // What every step keeps.
  // ---------------------------------------------------------------------------------------

  ghost predicate OrderedLog(segments: seq<Segment>)
  {
    forall i, j :: 0 <= i < j < |segments| ==> segments[i].id < segments[j].id
  }

  ghost predicate FirstInFirstOut(finished: seq<nat>, checkpoints: seq<Checkpoint>)
  {
    && (forall i, j :: 0 <= i < j < |finished| ==> finished[i] < finished[j])
    && (forall i, j :: 0 <= i < j < |checkpoints| ==> checkpoints[i].through < checkpoints[j].through)
    && (forall i, j :: 0 <= i < |finished| && 0 <= j < |checkpoints| ==> finished[i] < checkpoints[j].through)
  }

  /** A flush that succeeds makes the log it closes superfluous. */
  ghost predicate Covered(s: Shard, through: nat, covers: set<nat>)
  {
    s.applied * LoggedThrough(s.segments, through) <= covers + s.durable
  }

  /** A write that was just logged is in the newest segment and nowhere else. */
  ghost predicate OnlyInCurrent(segments: seq<Segment>, r: nat)
    requires segments != []
  {
    && r in segments[|segments| - 1].records
    && forall k :: 0 <= k < |segments| - 1 ==> r !in segments[k].records
  }

  /** The flushes under way close segments older than the current one, and cover them. */
  ghost predicate CheckpointsCover(s: Shard)
    requires s.segments != []
  {
    forall k :: 0 <= k < |s.checkpoints| ==>
      s.checkpoints[k].through < Current(s).id && Covered(s, s.checkpoints[k].through, s.checkpoints[k].covers)
  }

  /** Segments and checkpoints are numbered in order, and only older segments are closed. */
  ghost predicate Ordered(s: Shard)
  {
    && s.segments != [] && OrderedLog(s.segments) && FirstInFirstOut(s.finished, s.checkpoints)
    && (forall k :: 0 <= k < |s.finished| ==> s.finished[k] < Current(s).id)
    && (s.closed.Some? ==>
          && s.inFlight.None? && s.closed.value < Current(s).id
          && (forall k :: 0 <= k < |s.checkpoints| ==> s.checkpoints[k].through < s.closed.value)
          && (forall k :: 0 <= k < |s.finished| ==> s.finished[k] < s.closed.value))
  }

  /** Log segments are deleted only when everything in them is on disk and no reindex is open. */
  ghost predicate ClearingCovered(s: Shard)
    requires s.segments != []
  {
    s.clearing.Some? ==>
      s.clearing.value < Current(s).id && Covered(s, s.clearing.value, {}) && s.reindex.None?
  }

  /** What the database holds is logged or on disk, and only that is acknowledged. */
  ghost predicate Accounted(s: Shard)
  {
    s.acked <= s.applied && s.applied <= Logged(s.segments) + s.durable
  }

  ghost predicate Inv(s: Shard)
  {
    && Ordered(s) && CheckpointsCover(s) && ClearingCovered(s) && Accounted(s)
    && (s.inFlight.Some? ==> OnlyInCurrent(s.segments, s.inFlight.value))
    && (forall r :: r in Logged(s.segments) ==> r < s.nextRecord)
  }

  /** Splitting the log at its last segment. */
  lemma LastSegmentLogged(front: seq<Segment>, last: Segment, through: nat)
    ensures Logged(front + [last]) == Logged(front) + (set r | r in last.records)
    ensures LoggedThrough(front + [last], through)
            == LoggedThrough(front, through) + (if last.id <= through then set r | r in last.records else {})
  {
    var all := front + [last];
    assert forall k :: 0 <= k < |front| ==> all[k] == front[k];
    assert all[|front|] == last;
    forall r ensures r in Logged(all) <==> r in Logged(front) || r in last.records {
      if r in Logged(front) {
        var k :| 0 <= k < |front| && r in front[k].records;
        assert r in all[k].records;
      }
      if r in last.records { assert r in all[|front|].records; }
    }
    forall r ensures r in LoggedThrough(all, through)
                     <==> r in LoggedThrough(front, through) || (last.id <= through && r in last.records)
    {
      if r in LoggedThrough(front, through) {
        var k :| 0 <= k < |front| && front[k].id <= through && r in front[k].records;
        assert all[k].id <= through && r in all[k].records;
      }
      if last.id <= through && r in last.records { assert r in all[|front|].records; }
    }
  }

  lemma FirstSegmentLogged(first: Segment, rest: seq<Segment>, through: nat)
    ensures Logged([first] + rest) == (set r | r in first.records) + Logged(rest)
    ensures LoggedThrough(rest, through) <= LoggedThrough([first] + rest, through)
    ensures first.id <= through ==> (set r | r in first.records) <= LoggedThrough([first] + rest, through)
  {
    var all := [first] + rest;
    assert all[0] == first && forall k :: 0 <= k < |rest| ==> all[k + 1] == rest[k];
    forall r ensures r in Logged(all) <==> r in first.records || r in Logged(rest) {
      if r in first.records { assert r in all[0].records; }
      if r in Logged(rest) {
        var k :| 0 <= k < |rest| && r in rest[k].records;
        assert r in all[k + 1].records;
      }
    }
    forall r | r in LoggedThrough(rest, through) ensures r in LoggedThrough(all, through) {
      var k :| 0 <= k < |rest| && rest[k].id <= through && r in rest[k].records;
      assert all[k + 1].id <= through && r in all[k + 1].records;
    }
    if first.id <= through {
      forall r | r in first.records ensures r in LoggedThrough(all, through) {
        assert r in all[0].records;
      }
    }
  }

  /** Appending to the newest segment adds one write there and leaves the older ones alone. */
  lemma AppendLogs(segments: seq<Segment>, r: nat)
    requires segments != [] && OrderedLog(segments)
    ensures var n := |segments| - 1;
            var after := segments[n := segments[n].(records := segments[n].records + [r])];
            && Logged(after) == Logged(segments) + {r}
            && forall through :: 0 <= through < segments[n].id ==>
                 LoggedThrough(after, through) == LoggedThrough(segments, through)
  {
    var n := |segments| - 1;
    var front, last := segments[..n], segments[n];
    var last' := last.(records := last.records + [r]);
    var after := segments[n := last'];
    assert segments == front + [last] && after == front + [last'];
    LastSegmentLogged(front, last, 0);
    LastSegmentLogged(front, last', 0);
    assert (set x | x in last'.records) == (set x | x in last.records) + {r};
    forall through: nat | through < last.id ensures LoggedThrough(after, through) == LoggedThrough(segments, through) {
      LastSegmentLogged(front, last, through);
      LastSegmentLogged(front, last', through);
    }
  }

  lemma AppendKeepsInv(s: Shard)
    requires Inv(s) && Enabled(s, Append)
    ensures Inv(Next(s, Append))
  {
    var s' := Next(s, Append);
    AppendLogs(s.segments, s.nextRecord);
    forall k | 0 <= k < |s.segments| - 1 ensures s.nextRecord !in s'.segments[k].records {
      assert s'.segments[k] == s.segments[k];
      assert forall r :: r in s.segments[k].records ==> r in Logged(s.segments);
    }
    forall k | 0 <= k < |s.checkpoints|
      ensures Covered(s', s.checkpoints[k].through, s.checkpoints[k].covers)
    {
      assert Covered(s, s.checkpoints[k].through, s.checkpoints[k].covers);
    }
  }

  lemma RotateKeepsInv(s: Shard)
    requires Inv(s) && Enabled(s, Rotate)
    ensures Inv(Next(s, Rotate))
  {
    var s' := Next(s, Rotate);
    EmptySegmentLogsNothing(s.segments, Current(s).id + 1, 0);
    forall k | 0 <= k < |s.checkpoints|
      ensures Covered(s', s.checkpoints[k].through, s.checkpoints[k].covers)
    {
      assert Covered(s, s.checkpoints[k].through, s.checkpoints[k].covers);
      EmptySegmentLogsNothing(s.segments, Current(s).id + 1, s.checkpoints[k].through);
    }
  }

  lemma EmptySegmentLogsNothing(segments: seq<Segment>, id: nat, through: nat)
    ensures Logged(segments + [Segment(id, [])]) == Logged(segments)
    ensures LoggedThrough(segments + [Segment(id, [])], through) == LoggedThrough(segments, through)
  {
    var next := Segment(id, []);
    assert (set r | r in next.records) == {};
    LastSegmentLogged(segments, next, through);
  }

  lemma RemoveOldestKeepsCover(s: Shard, through: nat, covers: set<nat>)
    requires s.segments != [] && Covered(s, through, covers)
    ensures Covered(s.(segments := s.segments[1..]), through, covers)
  {
    assert s.segments == [s.segments[0]] + s.segments[1..];
    FirstSegmentLogged(s.segments[0], s.segments[1..], through);
  }

  lemma RemoveOldestKeepsAccount(s: Shard)
    requires Inv(s) && Enabled(s, RemoveOldest)
    ensures Accounted(Next(s, RemoveOldest))
    ensures forall r :: r in Logged(s.segments[1..]) ==> r in Logged(s.segments)
  {
    assert s.segments == [s.segments[0]] + s.segments[1..];
    FirstSegmentLogged(s.segments[0], s.segments[1..], s.clearing.value);
  }

  lemma RemoveOldestKeepsInv(s: Shard)
    requires Inv(s) && Enabled(s, RemoveOldest)
    ensures Inv(Next(s, RemoveOldest))
  {
    var s' := Next(s, RemoveOldest);
    assert Current(s') == Current(s);
    RemoveOldestKeepsAccount(s);
    RemoveOldestKeepsCover(s, s.clearing.value, {});
    forall k | 0 <= k < |s.checkpoints|
      ensures Covered(s', s.checkpoints[k].through, s.checkpoints[k].covers)
    {
      RemoveOldestKeepsCover(s, s.checkpoints[k].through, s.checkpoints[k].covers);
    }
  }

  lemma ApplyKeepsInv(s: Shard)
    requires Inv(s) && Enabled(s, Apply)
    ensures Inv(Next(s, Apply))
  {
    var s', r := Next(s, Apply), s.inFlight.value;
    forall through: nat | through < Current(s).id ensures r !in LoggedThrough(s.segments, through) {
    }
    assert r in Logged(s.segments);
    forall k | 0 <= k < |s.checkpoints|
      ensures Covered(s', s.checkpoints[k].through, s.checkpoints[k].covers)
    {
      assert Covered(s, s.checkpoints[k].through, s.checkpoints[k].covers);
      assert r !in LoggedThrough(s.segments, s.checkpoints[k].through);
    }
    if s.clearing.Some? { assert r !in LoggedThrough(s.segments, s.clearing.value); }
  }

  lemma FlushDoneKeepsInv(s: Shard, ok: bool)
    requires Inv(s) && Enabled(s, FlushDone(ok))
    ensures Inv(Next(s, FlushDone(ok)))
  {
    var s' := Next(s, FlushDone(ok));
    assert Covered(s, s.checkpoints[0].through, s.checkpoints[0].covers);
    forall k | 0 <= k < |s'.checkpoints|
      ensures s'.checkpoints[k].through < Current(s').id
              && Covered(s', s'.checkpoints[k].through, s'.checkpoints[k].covers)
    {
      assert Covered(s, s.checkpoints[k + 1].through, s.checkpoints[k + 1].covers);
    }
  }

  lemma FlushStartedKeepsInv(s: Shard)
    requires Inv(s) && Enabled(s, FlushStarted)
    ensures Inv(Next(s, FlushStarted))
  {
    var s' := Next(s, FlushStarted);
    forall k | 0 <= k < |s'.checkpoints|
      ensures s'.checkpoints[k].through < Current(s').id
              && Covered(s', s'.checkpoints[k].through, s'.checkpoints[k].covers)
    {
      if k < |s.checkpoints| { assert Covered(s, s.checkpoints[k].through, s.checkpoints[k].covers); }
    }
  }

  lemma RestartKeepsInv(s: Shard)
    requires Inv(s)
    ensures Inv(Next(s, Restart))
  {
  }

  /** A step that leaves log, database and disk alone and drops checkpoints at most. */
  lemma QuietStepKeepsInv(s: Shard, s': Shard)
    requires Inv(s) && s'.segments == s.segments && s'.nextRecord == s.nextRecord && s'.finished == s.finished
    requires s'.closed == s.closed || s'.closed.None?
    requires s'.applied == s.applied && s'.durable == s.durable && s'.acked <= s'.applied
    requires s'.checkpoints == s.checkpoints || s'.checkpoints == []
    requires s'.inFlight == s.inFlight || s'.inFlight.None?
    requires s'.clearing.None? || (s'.clearing == s.clearing && s'.reindex.None?)
    ensures Inv(s')
  {
    assert Ordered(s');
    forall k | 0 <= k < |s'.checkpoints|
      ensures Covered(s', s'.checkpoints[k].through, s'.checkpoints[k].covers)
    {
      assert Covered(s, s.checkpoints[k].through, s.checkpoints[k].covers);
    }
  }

  /** Steps that touch neither the log, the database nor the disk. */
  lemma BookkeepingKeepsInv(s: Shard, e: Step)
    requires Inv(s) && Enabled(s, e)
    requires e.DropInFlight? || e.Ack? || e.RotateFailed? || e.FlushRefused? || e.ClearingDone? || e.ClearingFailed?
             || e.OpenReindex? || e.CloseReindex?
    ensures Inv(Next(s, e))
  {
    match e
    case DropInFlight => QuietStepKeepsInv(s, s.(inFlight := None));
    case Ack(r) => QuietStepKeepsInv(s, s.(acked := s.acked + {r}));
    case RotateFailed => QuietStepKeepsInv(s, s.(failed := true));
    case FlushRefused => QuietStepKeepsInv(s, s.(closed := None, failed := true));
    case ClearingDone => QuietStepKeepsInv(s, s.(clearing := None));
    case ClearingFailed => QuietStepKeepsInv(s, s.(clearing := None, failed := true, checkpoints := []));
    case OpenReindex(generation) => QuietStepKeepsInv(s, s.(reindex := Some(generation)));
    case CloseReindex => QuietStepKeepsInv(s, s.(reindex := None));
  }

  lemma NextKeepsInv(s: Shard, e: Step)
    requires Inv(s) && Enabled(s, e)
    ensures Inv(Next(s, e))
  {
    match e
    case Append => AppendKeepsInv(s);
    case Apply => ApplyKeepsInv(s);
    case Rotate => RotateKeepsInv(s);
    case FlushStarted => FlushStartedKeepsInv(s);
    case FlushDone(ok) => FlushDoneKeepsInv(s, ok);
    case RemoveOldest => RemoveOldestKeepsInv(s);
    case Restart => RestartKeepsInv(s);
    case _ => BookkeepingKeepsInv(s, e);
  }

  // ---------------------------------------------------------------------------------------
  // Whole runs.
  // ---------------------------------------------------------------------------------------

  /** A new shard: one empty log segment. */
  const FRESH: Shard := Shard([Segment(1, [])], [], false, None, None, None, None, {}, {}, {}, [], 0)

  predicate ValidRun(s: Shard, steps: seq<Step>)
    decreases |steps|
  {
    steps == [] || (Enabled(s, steps[0]) && ValidRun(Next(s, steps[0]), steps[1..]))
  }

  function Run(s: Shard, steps: seq<Step>): Shard
    requires ValidRun(s, steps)
    decreases |steps|
  {
    if steps == [] then s else Run(Next(s, steps[0]), steps[1..])
  }

  lemma {:induction false} RunKeepsInv(s: Shard, steps: seq<Step>)
    requires Inv(s) && ValidRun(s, steps)
    ensures Inv(Run(s, steps))
    decreases |steps|
  {
    if steps != [] {
      NextKeepsInv(s, steps[0]);
      RunKeepsInv(Next(s, steps[0]), steps[1..]);
    }
  }

  /** In every run, with restarts anywhere, every acknowledged write is still in the log or on
      disk, and checkpoints finish in the order they were started. */
  lemma AcknowledgedWritesSurvive(steps: seq<Step>)
    requires ValidRun(FRESH, steps)
    ensures var end := Run(FRESH, steps);
            && end.acked <= Logged(end.segments) + end.durable
            && FirstInFirstOut(end.finished, end.checkpoints)
  {
    RunKeepsInv(FRESH, steps);
  }

  /** Every segment of `before` is still there, with all its writes. */
  ghost predicate KeepsSegments(before: seq<Segment>, after: seq<Segment>)
  {
    |before| <= |after|
    && forall k :: 0 <= k < |before| ==> before[k].id == after[k].id && before[k].records <= after[k].records
  }

  ghost predicate ReindexOpenThroughout(s: Shard, steps: seq<Step>)
    requires ValidRun(s, steps)
    decreases |steps|
  {
    s.reindex.Some? && (steps == [] || ReindexOpenThroughout(Next(s, steps[0]), steps[1..]))
  }

  /** While a reindex is open no log segment is removed: its commit replays them. */
  lemma {:induction false} ReindexKeepsTheLog(s: Shard, steps: seq<Step>)
    requires Inv(s) && ValidRun(s, steps) && ReindexOpenThroughout(s, steps)
    ensures KeepsSegments(s.segments, Run(s, steps).segments)
    decreases |steps|
  {
    if steps != [] {
      NextKeepsInv(s, steps[0]);
      StepKeepsSegments(s, steps[0]);
      ReindexKeepsTheLog(Next(s, steps[0]), steps[1..]);
      SegmentsStayKept(s.segments, Next(s, steps[0]).segments, Run(s, steps).segments);
    }
  }

  lemma StepKeepsSegments(s: Shard, e: Step)
    requires Inv(s) && Enabled(s, e) && s.reindex.Some?
    ensures KeepsSegments(s.segments, Next(s, e).segments)
  {
    assert !e.RemoveOldest?;
  }

  lemma SegmentsStayKept(a: seq<Segment>, b: seq<Segment>, c: seq<Segment>)
    requires KeepsSegments(a, b) && KeepsSegments(b, c)
    ensures KeepsSegments(a, c)
  {
  }
}
