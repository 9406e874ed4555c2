/** The shard's methods around the log: writes, double-buffered checkpoints, idle flushes and
    reindexing. Every state a method passes through is a state of a run of module `ShardLog`, so
    what is proved of all runs there holds of any use of this class, cut by a crash anywhere. */
module ShardDb {
  import opened Options
  import opened L = ShardLog

  /** Answers of the disk and the index worker: whether a log append, a rotation and a flush
      start succeed; what a flush ticket says when polled and when waited for; and after how many
      deleted files removing log segments fails, if it does. */
  datatype Outside = Outside(
    appendOk: bool, applyOk: bool, rotateOk: bool, startOk: bool,
    poll: nat -> Option<bool>, wait: nat -> bool, removeFailsAfter: nat -> Option<nat>)

  lemma {:induction false} RunAppend(s: Shard, steps: seq<Step>, e: Step)
    requires ValidRun(s, steps) && Enabled(Run(s, steps), e)
    ensures ValidRun(s, steps + [e]) && Run(s, steps + [e]) == Next(Run(s, steps), e)
    decreases |steps|
  {
    if steps == [] {
      assert [e][1..] == [] && steps + [e] == [e];
    } else {
      assert (steps + [e])[1..] == steps[1..] + [e];
      RunAppend(Next(s, steps[0]), steps[1..], e);
    }
  }

  lemma OnlyTheNewestIsLeft(segments: seq<Segment>, closed: nat)
    requires segments != [] && OrderedLog(segments) && segments[|segments| - 1].id == closed + 1
    requires forall k :: 0 <= k < |segments| - 1 ==> segments[k].id > closed
    ensures |segments| == 1
  {
    if |segments| > 1 {
      OldestBelowNewest(segments);
      assert false;
    }
  }

  lemma OldestBelowNewest(segments: seq<Segment>)
    requires |segments| > 1 && OrderedLog(segments)
    ensures segments[0].id < segments[|segments| - 1].id
  {
  }

  lemma RestartKeepsAcknowledged(s: Shard, steps: seq<Step>)
    requires ValidRun(FRESH, steps) && s == Run(FRESH, steps) && s.segments != []
    ensures s.acked <= Next(s, Step.Restart).applied && Idle(Next(s, Step.Restart))
  {
    RunKeepsInv(FRESH, steps);
  }

  lemma AcknowledgedIsApplied(steps: seq<Step>)
    requires ValidRun(FRESH, steps)
    ensures var s := Run(FRESH, steps); s.acked <= s.applied && OrderedLog(s.segments)
  {
    RunKeepsInv(FRESH, steps);
  }

  lemma OlderAreGone(steps: seq<Step>, segments: seq<Segment>, through: nat)
    requires ValidRun(FRESH, steps) && Run(FRESH, steps).segments == segments
    requires |segments| > 1 ==> segments[0].id > through
    ensures forall k :: 0 <= k < |segments| - 1 ==> segments[k].id > through
  {
    RunKeepsInv(FRESH, steps);
  }

  /** The log segments the pending checkpoints close. */
  function Throughs(checkpoints: seq<Checkpoint>): seq<nat>
  {
    seq(|checkpoints|, k requires 0 <= k < |checkpoints| => checkpoints[k].through)
  }

  // ---------------------------------------------------------------------------------------
  // Whether checkpoints finish and start, by the disk's answers. `ids` numbers the log's segments,
  // oldest first; `closing` the segments that pending checkpoints close.
  // ---------------------------------------------------------------------------------------

  function IdsOf(segments: seq<Segment>): seq<nat>
  {
    seq(|segments|, k requires 0 <= k < |segments| => segments[k].id)
  }

  /** How many of the oldest segments are closed through `through`; never the one written to. */
  function Deletable(ids: seq<nat>, through: nat): (n: nat)
    ensures n <= |ids|
  {
    if |ids| > 1 && ids[0] <= through then 1 + Deletable(ids[1..], through) else 0
  }

  /** What a finished checkpoint leaves of the log; none if its flush failed or removing segments did. */
  function Finished(ids: seq<nat>, through: nat, reindexing: bool, flushed: bool, failsAfter: Option<nat>): Option<seq<nat>>
  {
    var n := Deletable(ids, through);
    if !flushed then None
    else if reindexing then Some(ids)
    else if failsAfter.Some? && failsAfter.value <= n then None
    else Some(ids[n..])
  }

  /** Log and pending checkpoints once those done are finished; none if one cannot be. */
  function Reaped(ids: seq<nat>, closing: seq<nat>, reindexing: bool, out: Outside): Option<(seq<nat>, seq<nat>)>
    decreases |closing|
  {
    if closing == [] || out.poll(closing[0]).None? then Some((ids, closing))
    else
      match Finished(ids, closing[0], reindexing, out.poll(closing[0]).value, out.removeFailsAfter(closing[0]))
      case None => None
      case Some(left) => Reaped(left, closing[1..], reindexing, out)
  }

  /** The same when waiting until at most `most` are pending. */
  function Awaited(ids: seq<nat>, closing: seq<nat>, most: nat, reindexing: bool, out: Outside): Option<(seq<nat>, seq<nat>)>
    decreases |closing|
  {
    if |closing| <= most then Some((ids, closing))
    else
      match Finished(ids, closing[0], reindexing, out.wait(closing[0]), out.removeFailsAfter(closing[0]))
      case None => None
      case Some(left) => Awaited(left, closing[1..], most, reindexing, out)
  }

  function Rotated(ids: seq<nat>, closing: seq<nat>): (seq<nat>, seq<nat>)
  {
    if ids == [] then (ids, closing) else (ids + [ids[|ids| - 1] + 1], closing + [ids[|ids| - 1]])
  }

  /** The same once those done are finished and at most one is left. */
  function Roomed(ids: seq<nat>, closing: seq<nat>, reindexing: bool, out: Outside): Option<(seq<nat>, seq<nat>)>
  {
    match Reaped(ids, closing, reindexing, out)
    case None => None
    case Some((left, pending)) => Awaited(left, pending, 1, reindexing, out)
  }

  /** The same once a new checkpoint is started: room is made for it, the log rotates and the flush starts. */
  function Started(ids: seq<nat>, closing: seq<nat>, reindexing: bool, out: Outside): Option<(seq<nat>, seq<nat>)>
  {
    match Roomed(ids, closing, reindexing, out)
    case None => None
    case Some((left, pending)) => if out.rotateOk && out.startOk then Some(Rotated(left, pending)) else None
  }

  /** A flush succeeds exactly if its checkpoint starts and all that are then pending finish. */
  predicate FlushSucceeds(ids: seq<nat>, closing: seq<nat>, reindexing: bool, out: Outside)
  {
    match Started(ids, closing, reindexing, out)
    case None => false
    case Some((left, pending)) => Awaited(left, pending, 0, reindexing, out).Some?
  }

  class ShardDb {
    var wal: seq<Segment>
    var nextRecord: nat
    /** Checkpoints started but not finished, by the log segment each closes, oldest first. */
    var pendingCheckpoints: seq<nat>
    var failed: bool
    var walReindex: Option<nat>
    var pending: nat
    const batchSize: nat
    /** The shard's past, and the state it leads to. */
    ghost var history: seq<Step>
    ghost var log: Shard

    ghost predicate Past()
      reads `history, `log
    {
      ValidRun(FRESH, history) && log == Run(FRESH, history)
    }

    /** The fields are what the past makes them. Holds between any two steps. */
    ghost predicate Traced()
      reads this
    {
      && Past() && wal != []
      && log.segments == wal && log.nextRecord == nextRecord
      && Throughs(log.checkpoints) == pendingCheckpoints
      && log.failed == failed && log.reindex == walReindex
      && |pendingCheckpoints| <= 2
    }

    /** Holds between method calls. */
    ghost predicate Valid()
      reads this
    {
      Traced() && Idle(log) && log.inFlight.None?
    }

    constructor (batchSize: nat)
      ensures Valid() && wal == [Segment(1, [])] && pending == 0 && !failed && log == FRESH
    {
      wal, nextRecord, pendingCheckpoints, failed := [Segment(1, [])], 0, [], false;
      walReindex, pending := None, 0;
      this.batchSize := batchSize;
      history, log := [], FRESH;
    }

    /** Adds one step to the past. */
    ghost method Advance(e: Step)
      requires Past() && Enabled(log, e)
      modifies `history, `log
      ensures Past() && log == Next(old(log), e) && history == old(history) + [e]
    {
      RunAppend(FRESH, history, e);
      log := Next(log, e);
      history := history + [e];
    }

    // ------------------------------------------------------------------ single steps

    method WalAppend() returns (record: nat)
      requires Valid() && !failed
      modifies `wal, `nextRecord, `history, `log
      ensures Traced() && log == Next(old(log), Append) && log.inFlight == Some(record)
      ensures IdsOf(wal) == old(IdsOf(wal))
    {
      record := nextRecord;
      var n := |wal| - 1;
      wal := wal[n := wal[n].(records := wal[n].records + [record])];
      nextRecord := nextRecord + 1;
      Advance(Append);
    }

    method WalRotate() returns (closed: nat)
      requires Valid()
      modifies `wal, `history, `log
      ensures Traced() && log == Next(old(log), Rotate) && log.closed == Some(closed)
      ensures closed == old(wal[|wal| - 1].id) && IdsOf(wal) == old(IdsOf(wal)) + [closed + 1]
    {
      closed := wal[|wal| - 1].id;
      wal := wal + [Segment(closed + 1, [])];
      Advance(Rotate);
    }

    method PushCheckpoint(closed: nat)
      requires Traced() && log.closed == Some(closed) && log.clearing.None? && log.inFlight.None?
      requires |pendingCheckpoints| < 2
      modifies `pendingCheckpoints, `history, `log
      ensures Valid() && log == Next(old(log), FlushStarted)
      ensures pendingCheckpoints == old(pendingCheckpoints) + [closed]
    {
      pendingCheckpoints := pendingCheckpoints + [closed];
      Advance(FlushStarted);
    }

    /** Records the outcome of the oldest flush. */
    method PopCheckpoint(ok: bool)
      requires Valid() && pendingCheckpoints != []
      modifies `pendingCheckpoints, `failed, `history, `log
      ensures Traced() && log == Next(old(log), FlushDone(ok))
    {
      if ok {
        pendingCheckpoints := pendingCheckpoints[1..];
      } else {
        pendingCheckpoints, failed := [], true;
      }
      Advance(FlushDone(ok));
    }

    /** Deletes the log segments through `through`, oldest first. Listing them, deleting one or syncing the
        directory after the last may fail. */
    method RemoveThrough(through: nat, failsAfter: Option<nat>) returns (ok: bool)
      requires Traced() && log.clearing == Some(through) && log.inFlight.None? && log.closed.None?
      modifies `wal, `pendingCheckpoints, `failed, `history, `log
      ensures Valid() && log.durable == old(log.durable) && log.applied == old(log.applied)
      ensures log.acked == old(log.acked) && walReindex == old(walReindex)
      ensures wal != [] && wal[|wal| - 1] == old(wal[|wal| - 1])
      ensures ok ==> pendingCheckpoints == old(pendingCheckpoints) && failed == old(failed)
      ensures ok ==> log.checkpoints == old(log.checkpoints)
      ensures ok ==> forall k :: 0 <= k < |wal| - 1 ==> wal[k].id > through
      ensures !ok ==> failed && pendingCheckpoints == []
      ensures (if ok then Some(IdsOf(wal)) else None) == Finished(old(IdsOf(wal)), through, false, true, failsAfter)
    {
      var removed, deleted := RemoveClosed(through, failsAfter);
      if !deleted || failsAfter == Some(removed) {
        FailClearing();
        return false;
      }
      OlderAreGone(history, wal, through);
      Advance(ClearingDone);
      return true;
    }

    method RemoveClosed(through: nat, failsAfter: Option<nat>) returns (removed: nat, ok: bool)
      requires Traced() && log.clearing == Some(through)
      modifies `wal, `history, `log
      ensures Traced() && log == old(log).(segments := wal) && wal != [] && wal[|wal| - 1] == old(wal[|wal| - 1])
      ensures removed <= |old(wal)| && IdsOf(wal) == old(IdsOf(wal))[removed..]
      ensures ok ==> removed == Deletable(old(IdsOf(wal)), through) && (|wal| > 1 ==> wal[0].id > through)
      ensures ok <==> failsAfter.None? || Deletable(old(IdsOf(wal)), through) <= failsAfter.value
    {
      removed := 0;
      while |wal| > 1 && wal[0].id <= through
        invariant Traced() && wal != [] && wal[|wal| - 1] == old(wal[|wal| - 1])
        invariant log == old(log).(segments := wal)
        invariant removed <= |old(wal)| && IdsOf(wal) == old(IdsOf(wal))[removed..]
        invariant Deletable(old(IdsOf(wal)), through) == removed + Deletable(IdsOf(wal), through)
        invariant failsAfter.Some? ==> removed <= failsAfter.value
        decreases |wal|
      {
        if failsAfter == Some(removed) { return removed, false; }
        RemoveFirst();
        removed := removed + 1;
      }
      ok := true;
    }

    method FailClearing()
      requires Traced() && log.clearing.Some? && log.inFlight.None? && log.closed.None?
      modifies `pendingCheckpoints, `failed, `history, `log
      ensures Valid() && failed && pendingCheckpoints == [] && log == Next(old(log), ClearingFailed)
    {
      pendingCheckpoints, failed := [], true;
      Advance(ClearingFailed);
    }

    method RemoveFirst()
      requires Traced() && log.clearing.Some? && |wal| > 1 && wal[0].id <= log.clearing.value
      modifies `wal, `history, `log
      ensures Traced() && wal == old(wal)[1..] && log == Next(old(log), RemoveOldest)
      ensures IdsOf(wal) == old(IdsOf(wal))[1..]
    {
      wal := wal[1..];
      Advance(RemoveOldest);
    }

    // ------------------------------------------------------------------ checkpoints

    /** Finishes the oldest checkpoint: on success the log it closes is deleted, unless a reindex
        is open; on failure the shard stops taking writes and keeps every segment. */
    method FinishOldest(ok: bool, failsAfter: Option<nat>) returns (success: bool)
      requires Valid() && pendingCheckpoints != []
      modifies `wal, `pendingCheckpoints, `failed, `history, `log
      ensures Valid() && walReindex == old(walReindex)
      ensures log.applied == old(log.applied) && log.acked == old(log.acked)
      ensures old(log.durable) <= log.durable
      ensures wal != [] && wal[|wal| - 1] == old(wal[|wal| - 1])
      ensures success ==> log.checkpoints == old(log.checkpoints)[1..] && failed == old(failed)
      ensures success ==> old(log.checkpoints)[0].covers <= log.durable
      ensures success && walReindex.None? ==>
                forall k :: 0 <= k < |wal| - 1 ==> wal[k].id > old(pendingCheckpoints)[0]
      ensures !success ==> failed && pendingCheckpoints == []
      ensures walReindex.Some? || !ok ==> wal == old(wal)
      ensures (if success then Some(IdsOf(wal)) else None)
              == Finished(old(IdsOf(wal)), old(pendingCheckpoints)[0], walReindex.Some?, ok, failsAfter)
      ensures success ==> pendingCheckpoints == old(pendingCheckpoints)[1..]
    {
      var through := pendingCheckpoints[0];
      assert log.checkpoints[0].through == through;
      PopCheckpoint(ok);
      if !ok { return false; }
      if walReindex.Some? { return true; }
      success := RemoveThrough(through, failsAfter);
    }

    /** Finishes the checkpoints whose flush is done, without waiting. */
    method ReapCheckpoints(out: Outside) returns (ok: bool)
      requires Valid()
      modifies `wal, `pendingCheckpoints, `failed, `history, `log
      ensures Valid() && walReindex == old(walReindex) && |pendingCheckpoints| <= |old(pendingCheckpoints)|
      ensures log.applied == old(log.applied) && log.acked == old(log.acked)
      ensures wal != [] && wal[|wal| - 1] == old(wal[|wal| - 1])
      ensures ok ==> failed == old(failed)
      ensures ok ==> pendingCheckpoints == [] || out.poll(pendingCheckpoints[0]).None?
      ensures !ok ==> failed
      ensures (if ok then Some((IdsOf(wal), pendingCheckpoints)) else None)
              == Reaped(old(IdsOf(wal)), old(pendingCheckpoints), walReindex.Some?, out)
    {
      while pendingCheckpoints != []
        invariant Valid() && walReindex == old(walReindex) && failed == old(failed)
        invariant |pendingCheckpoints| <= |old(pendingCheckpoints)|
        invariant Reaped(IdsOf(wal), pendingCheckpoints, walReindex.Some?, out)
                  == Reaped(old(IdsOf(wal)), old(pendingCheckpoints), walReindex.Some?, out)
        invariant log.applied == old(log.applied) && log.acked == old(log.acked)
        invariant wal != [] && wal[|wal| - 1] == old(wal[|wal| - 1])
        decreases |pendingCheckpoints|
      {
        var oldest := pendingCheckpoints[0];
        var answer := out.poll(oldest);
        if answer.None? { return true; }
        var finished := FinishOldest(answer.value, out.removeFailsAfter(oldest));
        if !finished { return false; }
      }
      return true;
    }

    /** Waits for every pending checkpoint and finishes it. */
    method WaitCheckpoints(out: Outside) returns (ok: bool)
      requires Valid()
      modifies `wal, `pendingCheckpoints, `failed, `history, `log
      ensures Valid() && walReindex == old(walReindex) && pendingCheckpoints == []
      ensures log.applied == old(log.applied) && log.acked == old(log.acked)
      ensures ok ==> forall k :: 0 <= k < |old(log.checkpoints)| ==> old(log.checkpoints)[k].covers <= log.durable
      ensures ok && walReindex.None? && old(pendingCheckpoints) != [] ==>
                forall k :: 0 <= k < |wal| - 1 ==> wal[k].id > old(pendingCheckpoints)[|old(pendingCheckpoints)| - 1]
      ensures wal != [] && wal[|wal| - 1] == old(wal[|wal| - 1])
      ensures ok ==> failed == old(failed)
      ensures !ok ==> failed
      ensures (if ok then Some((IdsOf(wal), pendingCheckpoints)) else None)
              == Awaited(old(IdsOf(wal)), old(pendingCheckpoints), 0, walReindex.Some?, out)
    {
      ghost var done := 0;
      while pendingCheckpoints != []
        invariant Valid() && walReindex == old(walReindex) && failed == old(failed)
        invariant done <= |old(log.checkpoints)| && log.checkpoints == old(log.checkpoints)[done..]
        invariant Awaited(IdsOf(wal), pendingCheckpoints, 0, walReindex.Some?, out)
                  == Awaited(old(IdsOf(wal)), old(pendingCheckpoints), 0, walReindex.Some?, out)
        invariant forall k :: 0 <= k < done ==> old(log.checkpoints)[k].covers <= log.durable
        invariant log.applied == old(log.applied) && log.acked == old(log.acked)
        invariant wal != [] && wal[|wal| - 1] == old(wal[|wal| - 1])
        invariant done > 0 && walReindex.None? ==>
                    forall k :: 0 <= k < |wal| - 1 ==> wal[k].id > old(pendingCheckpoints)[done - 1]
        decreases |pendingCheckpoints|
      {
        var oldest := pendingCheckpoints[0];
        assert oldest == old(pendingCheckpoints)[done];
        var finished := FinishOldest(out.wait(oldest), out.removeFailsAfter(oldest));
        if !finished { return false; }
        done := done + 1;
      }
      return true;
    }

    /** Waits until at most one checkpoint is under way. */
    method WaitForRoom(out: Outside) returns (ok: bool)
      requires Valid()
      modifies `wal, `pendingCheckpoints, `failed, `history, `log
      ensures Valid() && walReindex == old(walReindex)
      ensures log.applied == old(log.applied) && log.acked == old(log.acked)
      ensures wal != [] && wal[|wal| - 1] == old(wal[|wal| - 1])
      ensures ok ==> failed == old(failed) && |pendingCheckpoints| <= 1
      ensures !ok ==> failed
      ensures (if ok then Some((IdsOf(wal), pendingCheckpoints)) else None)
              == Awaited(old(IdsOf(wal)), old(pendingCheckpoints), 1, walReindex.Some?, out)
    {
      while |pendingCheckpoints| > 1
        invariant Awaited(IdsOf(wal), pendingCheckpoints, 1, walReindex.Some?, out)
                  == Awaited(old(IdsOf(wal)), old(pendingCheckpoints), 1, walReindex.Some?, out)
        invariant Valid() && walReindex == old(walReindex) && failed == old(failed)
        invariant log.applied == old(log.applied) && log.acked == old(log.acked)
        invariant wal != [] && wal[|wal| - 1] == old(wal[|wal| - 1])
        decreases |pendingCheckpoints|
      {
        var oldest := pendingCheckpoints[0];
        ok := FinishOldest(out.wait(oldest), out.removeFailsAfter(oldest));
        if !ok { return; }
      }
      return true;
    }

    method MakeRoom(out: Outside) returns (ok: bool)
      requires Valid()
      modifies `wal, `pendingCheckpoints, `failed, `history, `log
      ensures Valid() && walReindex == old(walReindex)
      ensures log.applied == old(log.applied) && log.acked == old(log.acked)
      ensures wal != [] && wal[|wal| - 1] == old(wal[|wal| - 1])
      ensures ok ==> failed == old(failed) && |pendingCheckpoints| <= 1
      ensures !ok ==> failed
      ensures (if ok then Some((IdsOf(wal), pendingCheckpoints)) else None)
              == Roomed(old(IdsOf(wal)), old(pendingCheckpoints), walReindex.Some?, out)
    {
      ok := ReapCheckpoints(out);
      if ok { ok := WaitForRoom(out); }
    }

    /** Rotates the log and starts the flush of everything before the rotation. */
    method RotateAndFlush(out: Outside) returns (ok: bool)
      requires Valid() && |pendingCheckpoints| <= 1
      modifies `wal, `pendingCheckpoints, `failed, `history, `log
      ensures Valid() && walReindex == old(walReindex)
      ensures log.applied == old(log.applied) && log.acked == old(log.acked)
      ensures ok ==> failed == old(failed)
      ensures ok ==> log.checkpoints == old(log.checkpoints) + [Checkpoint(old(wal[|wal| - 1].id), log.applied)]
      ensures ok ==> wal[|wal| - 1] == Segment(old(wal[|wal| - 1].id) + 1, [])
      ensures !ok ==> failed
      ensures ok == (out.rotateOk && out.startOk)
      ensures ok ==> (IdsOf(wal), pendingCheckpoints) == Rotated(old(IdsOf(wal)), old(pendingCheckpoints))
    {
      if !out.rotateOk {
        failed := true;
        Advance(RotateFailed);
        return false;
      }
      var closed := WalRotate();
      if !out.startOk {
        failed := true;
        Advance(FlushRefused);
        return false;
      }
      PushCheckpoint(closed);
      return true;
    }

    /** Double-buffered: at most one older checkpoint keeps running beside the new one. */
    method StartCheckpoint(out: Outside) returns (ok: bool)
      requires Valid()
      modifies `wal, `pendingCheckpoints, `failed, `pending, `history, `log
      ensures Valid() && walReindex == old(walReindex)
      ensures log.applied == old(log.applied) && log.acked == old(log.acked)
      ensures ok ==> pending == 0 && failed == old(failed) && 1 <= |pendingCheckpoints| <= 2
      ensures ok ==> log.checkpoints[|log.checkpoints| - 1] == Checkpoint(old(wal[|wal| - 1].id), log.applied)
      ensures ok ==> wal[|wal| - 1] == Segment(old(wal[|wal| - 1].id) + 1, [])
      ensures !ok ==> failed && pending == old(pending)
      ensures (if ok then Some((IdsOf(wal), pendingCheckpoints)) else None)
              == Started(old(IdsOf(wal)), old(pendingCheckpoints), walReindex.Some?, out)
    {
      ok := MakeRoom(out);
      if !ok { return; }
      ok := RotateAndFlush(out);
      if ok { pending := 0; }
    }

    // ------------------------------------------------------------------ the shard's commands

    /** Appends a record to the newest segment and applies it to the database. */
    method LogAndApply(out: Outside) returns (record: nat, ok: bool)
      requires Valid() && !failed
      modifies `wal, `nextRecord, `history, `log
      ensures Valid() && record == old(nextRecord) && ok == (out.appendOk && out.applyOk)
      ensures IdsOf(wal) == old(IdsOf(wal)) && wal[|wal| - 1].id == old(wal[|wal| - 1].id)
      ensures log.checkpoints == old(log.checkpoints) && log.acked == old(log.acked)
      ensures log.applied == if ok then old(log.applied) + {record} else old(log.applied)
      ensures !out.appendOk ==> wal == old(wal) && log == old(log)
    {
      record := nextRecord;
      if !out.appendOk { return record, false; }
      var _ := WalAppend();
      if out.applyOk { Advance(Apply); } else { Advance(DropInFlight); }
      ok := out.applyOk;
    }

    /** A write of `count` documents: logged, applied, perhaps checkpointed, then acknowledged. */
    method Write(count: nat, out: Outside) returns (acked: bool)
      requires Valid()
      modifies `wal, `nextRecord, `pendingCheckpoints, `failed, `pending, `history, `log
      ensures Valid() && walReindex == old(walReindex)
      ensures log.acked == if acked then old(log.acked) + {old(nextRecord)} else old(log.acked)
      ensures old(failed) ==> unchanged(this)
      ensures var due := old(pending) + count >= batchSize;
              acked <==> && !old(failed) && out.appendOk && out.applyOk
                         && (due ==> Started(old(IdsOf(wal)), old(pendingCheckpoints), walReindex.Some?, out).Some?)
      ensures acked && old(pending) + count >= batchSize ==>
                && pending == 0 && wal[|wal| - 1] == Segment(old(wal[|wal| - 1].id) + 1, [])
                && log.checkpoints != []
                && log.checkpoints[|log.checkpoints| - 1] == Checkpoint(old(wal[|wal| - 1].id), log.applied)
      ensures acked && old(pending) + count < batchSize ==>
                && pending == old(pending) + count && log.checkpoints == old(log.checkpoints)
                && IdsOf(wal) == old(IdsOf(wal)) && pendingCheckpoints == old(pendingCheckpoints) && !failed
      ensures !acked && !old(failed) ==> pending == old(pending) + count
      ensures !out.appendOk ==> wal == old(wal) && log == old(log)
      ensures !old(failed) && out.appendOk && !out.applyOk ==> failed == old(failed) && log.applied == old(log.applied)
    {
      if failed { return false; }
      pending := pending + count;
      var shouldCheckpoint := pending >= batchSize;
      var record, applied := LogAndApply(out);
      if !applied { return false; }
      if shouldCheckpoint {
        var started := StartCheckpoint(out);
        if !started { return false; }
      }
      Advance(Ack(record));
      return true;
    }

    /** Explicit flush: when it succeeds every write so far is on disk, and unless a reindex is
        open the log holds none of them any more. */
    method Flush(out: Outside) returns (ok: bool)
      requires Valid()
      modifies `wal, `pendingCheckpoints, `failed, `pending, `history, `log
      ensures Valid() && walReindex == old(walReindex)
      ensures log.acked == old(log.acked) && log.applied == old(log.applied)
      ensures ok ==> log.acked <= log.applied <= log.durable && pendingCheckpoints == []
      ensures ok && walReindex.None? ==> |wal| == 1 && wal[0].records == []
      ensures ok ==> !failed && pending == 0
      ensures ok <==> !old(failed) && FlushSucceeds(old(IdsOf(wal)), old(pendingCheckpoints), walReindex.Some?, out)
    {
      if failed { return false; }
      ok := StartCheckpoint(out);
      if !ok { return; }
      ghost var started := log.checkpoints;
      ok := WaitCheckpoints(out);
      assert ok ==> started[|started| - 1].covers <= log.durable;
      AcknowledgedIsApplied(history);
      if ok && walReindex.None? { OnlyTheNewestIsLeft(wal, old(wal[|wal| - 1].id)); }
    }

    /** Runs while the shard is idle; `quiet` is whether it has been for long enough. */
    method MaybeIdleFlush(quiet: bool, out: Outside) returns (ok: bool)
      requires Valid()
      modifies `wal, `pendingCheckpoints, `failed, `pending, `history, `log
      ensures Valid() && walReindex == old(walReindex) && log.acked == old(log.acked)
      ensures var reaped := Reaped(old(IdsOf(wal)), old(pendingCheckpoints), walReindex.Some?, out);
              var due := reaped.Some? && old(pending) > 0 && reaped.value.1 == [] && quiet;
              && ok == (reaped.Some? && (due ==> out.rotateOk && out.startOk))
              && (ok ==> (IdsOf(wal), pendingCheckpoints)
                         == if due then Rotated(reaped.value.0, []) else reaped.value)
              && pending == (if ok && due then 0 else old(pending))
    {
      ok := ReapCheckpoints(out);
      if !ok || pending == 0 || pendingCheckpoints != [] || !quiet { return; }
      ok := StartCheckpoint(out);
    }

    /** Flushes, then keeps the log from being deleted until the reindex is closed. */
    method PrepareReindex(generation: nat, out: Outside) returns (ok: bool)
      requires Valid()
      modifies `wal, `pendingCheckpoints, `failed, `pending, `walReindex, `history, `log
      ensures Valid() && log.acked == old(log.acked)
      ensures ok ==> walReindex == Some(generation) && log.acked <= log.durable
      ensures !ok ==> walReindex == old(walReindex)
      ensures ok <==> && !old(failed)
                      && FlushSucceeds(old(IdsOf(wal)), old(pendingCheckpoints), old(walReindex).Some?, out)
    {
      ok := Flush(out);
      if ok {
        walReindex := Some(generation);
        Advance(OpenReindex(generation));
      }
    }

    method AbandonReindex()
      requires Valid()
      modifies `walReindex, `history, `log
      ensures Valid() && walReindex.None? && log.acked == old(log.acked)
    {
      walReindex := None;
      Advance(CloseReindex);
    }

    /** A crash in any state, even in the middle of a method, and the start after it. */
    method Restart()
      requires Traced()
      modifies `pendingCheckpoints, `failed, `walReindex, `pending, `history, `log
      ensures Valid() && !failed && pendingCheckpoints == []
      ensures log.acked == old(log.acked) <= log.applied
    {
      pendingCheckpoints, failed, walReindex := [], false, None;
      pending := if exists k :: 0 <= k < |wal| && wal[k].records != [] then 1 else 0;
      RestartKeepsAcknowledged(log, history);
      Advance(Step.Restart);
    }
  }
}
