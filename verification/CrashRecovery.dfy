/** Log and replay together: after any run and a crash, starting the shard gives the documents of every
    acknowledged write, applied once and in order. */
module CrashRecovery {
  import L = ShardLog
  import W = WalReplay

  /** The records of the log, oldest first. */
  function LogOrder(segments: seq<L.Segment>): seq<nat>
  {
    if segments == [] then [] else LogOrder(segments[..|segments| - 1]) + segments[|segments| - 1].records
  }

  /** The numbers from `from` up to `to`. */
  function Numbers(from: nat, to: nat): (r: seq<nat>)
    requires from <= to
    ensures |r| == to - from && forall k :: 0 <= k < |r| ==> r[k] == from + k
  {
    seq(to - from, k requires 0 <= k < to - from => from + k)
  }

  /** The log holds every record from `floor` on, in order. */
  ghost predicate LogIsSuffix(s: L.Shard, floor: nat)
  {
    s.segments != [] && floor <= s.nextRecord && LogOrder(s.segments) == Numbers(floor, s.nextRecord)
  }

  ghost predicate Below(records: set<nat>, next: nat) { forall r :: r in records ==> r < next }

  /** Whatever was applied, acknowledged or flushed was logged before. */
  ghost predicate OnlyLogged(s: L.Shard)
  {
    && Below(s.applied, s.nextRecord) && Below(s.durable, s.nextRecord) && Below(s.acked, s.nextRecord)
    && (forall k :: 0 <= k < |s.checkpoints| ==> Below(s.checkpoints[k].covers, s.nextRecord))
    && (s.inFlight.Some? ==> s.inFlight.value < s.nextRecord)
  }

  lemma StepKeepsOnlyLogged(s: L.Shard, e: L.Step)
    requires OnlyLogged(s) && L.Enabled(s, e) && L.Inv(s)
    ensures OnlyLogged(L.Next(s, e))
  {
    var t := L.Next(s, e);
    assert forall k :: 0 <= k < |s.checkpoints| ==> Below(s.checkpoints[k].covers, s.nextRecord);
    forall k | 0 <= k < |t.checkpoints| ensures Below(t.checkpoints[k].covers, t.nextRecord) {
      if e.FlushDone? {
        assert t.checkpoints[k] == s.checkpoints[k + 1];
      } else if k < |s.checkpoints| {
        assert t.checkpoints[k] == s.checkpoints[k];
      }
    }
  }

  lemma ConcatFirst(first: seq<nat>, middle: seq<nat>, last: seq<nat>)
    ensures first + middle + last == first + (middle + last)
  {
  }

  lemma {:induction false} LogOrderFirst(segments: seq<L.Segment>)
    requires segments != []
    ensures LogOrder(segments) == segments[0].records + LogOrder(segments[1..])
    decreases |segments|
  {
    var n := |segments| - 1;
    if n == 0 {
      assert segments[..0] == [] && segments[1..] == [];
      assert LogOrder([]) == [];
    } else {
      LogOrderFirst(segments[..n]);
      var rest := segments[1..];
      assert segments[..n][1..] == rest[..n - 1] && rest[n - 1] == segments[n] && segments[..n][0] == segments[0];
      ConcatFirst(segments[0].records, LogOrder(rest[..n - 1]), segments[n].records);
    }
  }

  lemma {:induction false} LoggedIsOrdered(segments: seq<L.Segment>, r: nat)
    ensures r in L.Logged(segments) <==> r in LogOrder(segments)
    decreases |segments|
  {
    if segments != [] {
      var n := |segments| - 1;
      LoggedIsOrdered(segments[..n], r);
      L.LastSegmentLogged(segments[..n], segments[n], 0);
      assert segments == segments[..n] + [segments[n]];
    }
  }

  lemma AppendKeepsSuffix(s: L.Shard, floor: nat)
    requires LogIsSuffix(s, floor) && L.Enabled(s, L.Append)
    ensures LogIsSuffix(L.Next(s, L.Append), floor)
  {
    var t, n := L.Next(s, L.Append), |s.segments| - 1;
    assert t.segments[..n] == s.segments[..n];
    assert Numbers(floor, t.nextRecord) == Numbers(floor, s.nextRecord) + [s.nextRecord];
  }

  lemma RotateKeepsSuffix(s: L.Shard, floor: nat)
    requires LogIsSuffix(s, floor) && L.Enabled(s, L.Rotate)
    ensures LogIsSuffix(L.Next(s, L.Rotate), floor)
  {
    var t := L.Next(s, L.Rotate);
    assert t.segments[..|s.segments|] == s.segments;
  }

  lemma RemoveKeepsSuffix(s: L.Shard, floor: nat) returns (higher: nat)
    requires LogIsSuffix(s, floor) && L.Enabled(s, L.RemoveOldest)
    ensures LogIsSuffix(L.Next(s, L.RemoveOldest), higher)
  {
    LogOrderFirst(s.segments);
    var gone, rest := s.segments[0].records, LogOrder(s.segments[1..]);
    assert |gone| + |rest| == s.nextRecord - floor;
    higher := floor + |gone|;
    forall k | 0 <= k < |rest| ensures rest[k] == higher + k {
      assert rest[k] == (gone + rest)[|gone| + k] == Numbers(floor, s.nextRecord)[|gone| + k];
    }
    assert rest == Numbers(higher, s.nextRecord);
  }

  lemma NextKeepsSuffix(s: L.Shard, e: L.Step, floor: nat) returns (higher: nat)
    requires LogIsSuffix(s, floor) && L.Enabled(s, e)
    ensures LogIsSuffix(L.Next(s, e), higher)
  {
    higher := floor;
    match e
    case Append => AppendKeepsSuffix(s, floor);
    case Rotate => RotateKeepsSuffix(s, floor);
    case RemoveOldest => higher := RemoveKeepsSuffix(s, floor);
    case _ => assert L.Next(s, e).segments == s.segments && L.Next(s, e).nextRecord == s.nextRecord;
  }

  lemma {:induction false} RunKeepsSuffix(s: L.Shard, steps: seq<L.Step>, floor: nat) returns (higher: nat)
    requires LogIsSuffix(s, floor) && OnlyLogged(s) && L.Inv(s) && L.ValidRun(s, steps)
    ensures LogIsSuffix(L.Run(s, steps), higher) && OnlyLogged(L.Run(s, steps))
    decreases |steps|
  {
    if steps == [] {
      higher := floor;
    } else {
      higher := NextKeepsSuffix(s, steps[0], floor);
      L.NextKeepsInv(s, steps[0]);
      StepKeepsOnlyLogged(s, steps[0]);
      higher := RunKeepsSuffix(L.Next(s, steps[0]), steps[1..], higher);
    }
  }

  /** The records below `floor` that are on disk, in order. */
  function OnDiskBelow(durable: set<nat>, floor: nat): (r: seq<nat>)
    ensures forall x :: x in r <==> x in durable && x < floor
  {
    if floor == 0 then []
    else OnDiskBelow(durable, floor - 1) + if floor - 1 in durable then [floor - 1] else []
  }

  ghost predicate Ascending(records: seq<nat>) { forall i, j :: 0 <= i < j < |records| ==> records[i] < records[j] }

  lemma {:induction false} OnDiskAscends(durable: set<nat>, floor: nat)
    ensures Ascending(OnDiskBelow(durable, floor))
  {
    if floor > 0 {
      OnDiskAscends(durable, floor - 1);
      var before := OnDiskBelow(durable, floor - 1);
      assert forall k :: 0 <= k < |before| ==> before[k] in before;
    }
  }

  function Contents(records: seq<nat>, content: nat -> W.Record): seq<W.Record>
  {
    seq(|records|, k requires 0 <= k < |records| => content(records[k]))
  }

  lemma ContentsConcat(a: seq<nat>, b: seq<nat>, content: nat -> W.Record)
    ensures Contents(a + b, content) == Contents(a, content) + Contents(b, content)
  {
  }

  /** Removed from the log but on disk, and logged: in order, with every acknowledged write among them. */
  ghost predicate KeepsWrites(s: L.Shard, removed: seq<nat>, logged: seq<nat>)
  {
    && logged == LogOrder(s.segments) && Ascending(removed + logged)
    && (forall r :: r in removed ==> r in s.durable)
    && (forall r :: r in s.acked ==> r in removed + logged)
  }

  lemma NotLogged(s: L.Shard, floor: nat, r: nat)
    requires LogIsSuffix(s, floor) && r < floor
    ensures r !in L.Logged(s.segments)
  {
    LoggedIsOrdered(s.segments, r);
  }

  lemma SuffixKeepsWrites(s: L.Shard, floor: nat)
    requires LogIsSuffix(s, floor) && OnlyLogged(s) && L.Accounted(s)
    ensures KeepsWrites(s, OnDiskBelow(s.durable, floor), LogOrder(s.segments))
  {
    var removed, logged := OnDiskBelow(s.durable, floor), LogOrder(s.segments);
    OnDiskAscends(s.durable, floor);
    OrderedWhole(removed, logged, floor, s.nextRecord);
    forall r | r in s.acked ensures r in removed + logged {
      LoggedIsOrdered(s.segments, r);
      assert r < s.nextRecord;
      if r >= floor {
        assert Numbers(floor, s.nextRecord)[r - floor] == r;
        assert r in logged;
      } else {
        NotLogged(s, floor, r);
        assert r in removed;
      }
    }
  }

  lemma EveryWriteIsKept(steps: seq<L.Step>) returns (removed: seq<nat>, logged: seq<nat>)
    requires L.ValidRun(L.FRESH, steps)
    ensures KeepsWrites(L.Run(L.FRESH, steps), removed, logged)
  {
    var end := L.Run(L.FRESH, steps);
    assert L.FRESH.segments[..0] == [] && LogOrder(L.FRESH.segments) == [] == Numbers(0, 0);
    L.RunKeepsInv(L.FRESH, steps);
    var floor := RunKeepsSuffix(L.FRESH, steps, 0);
    removed, logged := OnDiskBelow(end.durable, floor), LogOrder(end.segments);
    SuffixKeepsWrites(end, floor);
  }

  lemma ReplayRestores(removed: seq<nat>, logged: seq<nat>, content: nat -> W.Record, stored: W.Docs)
    requires W.StoreRecoverable(stored, W.ApplyAll(map[], Contents(removed, content)), Contents(logged, content))
    ensures W.Recovered(stored, Contents(logged, content)) == W.ApplyAll(map[], Contents(removed + logged, content))
  {
    var before, after := Contents(removed, content), Contents(logged, content);
    ContentsConcat(removed, logged, content);
    W.ApplyAllConcat(map[], before, after);
    W.ReplayIsIdempotent(stored, W.ApplyAll(map[], before), after);
  }

  /** After any run of writes, checkpoints, failures and restarts, cut by a crash: `content` says what
      each record holds, and `stored` is any store that per document got from what the removed records
      made to some point of the log. Starting the shard then ends with every record on disk or in the
      log applied once, in order, and every acknowledged write is among them. */
  lemma StartRestoresEveryWrite(steps: seq<L.Step>, content: nat -> W.Record) returns (removed: seq<nat>, logged: seq<nat>)
    requires L.ValidRun(L.FRESH, steps)
    ensures KeepsWrites(L.Run(L.FRESH, steps), removed, logged)
    ensures forall stored ::
              W.StoreRecoverable(stored, W.ApplyAll(map[], Contents(removed, content)), Contents(logged, content)) ==>
                W.Recovered(stored, Contents(logged, content)) == W.ApplyAll(map[], Contents(removed + logged, content))
  {
    removed, logged := EveryWriteIsKept(steps);
    forall stored | W.StoreRecoverable(stored, W.ApplyAll(map[], Contents(removed, content)), Contents(logged, content))
      ensures W.Recovered(stored, Contents(logged, content)) == W.ApplyAll(map[], Contents(removed + logged, content))
    {
      ReplayRestores(removed, logged, content, stored);
    }
  }

  lemma OrderedWhole(removed: seq<nat>, logged: seq<nat>, floor: nat, next: nat)
    requires Ascending(removed) && floor <= next && logged == Numbers(floor, next)
    requires forall x :: x in removed ==> x < floor
    ensures Ascending(removed + logged)
  {
    var all := removed + logged;
    forall i, j | 0 <= i < j < |all| ensures all[i] < all[j] {
      assert i < |removed| ==> all[i] == removed[i] && removed[i] in removed;
      assert j >= |removed| ==> all[j] == logged[j - |removed|];
    }
  }
}
