/** How often whole-shard merges rewrite a byte, over any run of flushes and compactions. Several
    compaction jobs may run at once, since a replaced background worker finishes its cycle beside the
    new one. A job writes its output before it is installed, so a job that fails or goes stale has
    written too. */
module WriteAmplification {
  import opened Options
  import opened Numbers
  import opened Lists
  import C = CompactionWindows

  datatype Segment = Segment(id: nat, size: nat)

  /** A running job: the segments it reads, their bytes, and how many bytes had been flushed when it was
      planned. */
  datatype Job = Job(selected: set<nat>, whole: bool, plannedAt: nat, read: nat)

  datatype Shard = Shard(
    segments: seq<Segment>,
    jobs: seq<Job>,            // in the order planned
    flushed: nat,              // bytes ever flushed
    installedWhole: nat,       // bytes of installed whole merges
    lostWhole: nat,            // bytes written by whole merges that failed or went stale
    abandonedWhole: nat)       // how many those are

  datatype Event =
    | Flush(at: nat, segment: Segment)
    | Plan(selected: set<nat>, whole: bool)
    | Install(job: nat, at: nat, output: Segment)
    | Abandon(job: nat, written: nat)

  function Ids(segments: seq<Segment>): set<nat> { set s | s in segments :: s.id }

  function Sizes(segments: seq<Segment>): seq<nat>
  {
    seq(|segments|, k requires 0 <= k < |segments| => segments[k].size)
  }

  /** The segments not in `ids`. */
  function Without(segments: seq<Segment>, ids: set<nat>): (r: seq<Segment>)
    ensures forall s :: s in r <==> s in segments && s.id !in ids
  {
    if segments == [] then []
    else (if segments[0].id in ids then [] else [segments[0]]) + Without(segments[1..], ids)
  }

  function Bytes(segments: seq<Segment>): nat
  {
    if segments == [] then 0 else segments[0].size + Bytes(segments[1..])
  }

  /** Bytes of the segments in `ids`. */
  function BytesIn(segments: seq<Segment>, ids: set<nat>): nat
  {
    if segments == [] then 0
    else (if segments[0].id in ids then segments[0].size else 0) + BytesIn(segments[1..], ids)
  }

  /** All inputs of the job are still there. */
  predicate Live(sh: Shard, job: Job) { job.selected <= Ids(sh.segments) }

  /** No segment and no input of a job ever had this id. */
  predicate IsNew(sh: Shard, id: nat)
  {
    id !in Ids(sh.segments) && forall j :: 0 <= j < |sh.jobs| ==> id !in sh.jobs[j].selected
  }

  /** What may happen next. A merge's output is no larger than its inputs together, and neither is what
      a failing or stale one has written. */
  predicate Enabled(sh: Shard, e: Event, ratio: nat)
  {
    match e
    case Flush(at, s) => at <= |sh.segments| && IsNew(sh, s.id)
    case Plan(selected, whole) =>
      && selected != {} && selected <= Ids(sh.segments)
      && (whole ==> selected == Ids(sh.segments) && C.MergeAllDue(Sizes(sh.segments), ratio))
    case Install(j, at, out) =>
      && j < |sh.jobs| && Live(sh, sh.jobs[j]) && IsNew(sh, out.id)
      && at <= |Without(sh.segments, sh.jobs[j].selected)|
      && out.size <= BytesIn(sh.segments, sh.jobs[j].selected)
    case Abandon(j, written) => j < |sh.jobs| && written <= sh.jobs[j].read
  }

  function Drop(jobs: seq<Job>, j: nat): seq<Job>
    requires j < |jobs|
  {
    jobs[..j] + jobs[j + 1..]
  }

  function Next(sh: Shard, e: Event, ratio: nat): Shard
    requires Enabled(sh, e, ratio)
  {
    match e
    case Flush(at, s) => sh.(segments := InsertAt(sh.segments, at, s), flushed := sh.flushed + s.size)
    case Plan(selected, whole) =>
      sh.(jobs := sh.jobs + [Job(selected, whole, sh.flushed, BytesIn(sh.segments, selected))])
    case Install(j, at, out) =>
      var job := sh.jobs[j];
      sh.(segments := InsertAt(Without(sh.segments, job.selected), at, out), jobs := Drop(sh.jobs, j),
          installedWhole := sh.installedWhole + if job.whole then out.size else 0)
    case Abandon(j, written) =>
      if sh.jobs[j].whole then
        sh.(jobs := Drop(sh.jobs, j), lostWhole := sh.lostWhole + written, abandonedWhole := sh.abandonedWhole + 1)
      else sh.(jobs := Drop(sh.jobs, j))
  }

  predicate ValidRun(sh: Shard, events: seq<Event>, ratio: nat)
    decreases |events|
  {
    events == [] || (Enabled(sh, events[0], ratio) && ValidRun(Next(sh, events[0], ratio), events[1..], ratio))
  }

  function Run(sh: Shard, events: seq<Event>, ratio: nat): Shard
    requires ValidRun(sh, events, ratio)
    decreases |events|
  {
    if events == [] then sh else Run(Next(sh, events[0], ratio), events[1..], ratio)
  }

  const EMPTY: Shard := Shard([], [], 0, 0, 0, 0)

  /** All bytes whole merges wrote. */
  function WrittenWhole(sh: Shard): nat { sh.installedWhole + sh.lostWhole }

  // ---------------------------------------------------------------------------------------
  // Sums over the segment list.
  // ---------------------------------------------------------------------------------------

  lemma {:induction false} BytesConcat(a: seq<Segment>, b: seq<Segment>)
    ensures Bytes(a + b) == Bytes(a) + Bytes(b)
  {
    if a == [] { assert a + b == b; }
    else { assert (a + b)[1..] == a[1..] + b; BytesConcat(a[1..], b); }
  }

  lemma {:induction false} BytesInConcat(a: seq<Segment>, b: seq<Segment>, ids: set<nat>)
    ensures BytesIn(a + b, ids) == BytesIn(a, ids) + BytesIn(b, ids)
  {
    if a == [] { assert a + b == b; }
    else { assert (a + b)[1..] == a[1..] + b; BytesInConcat(a[1..], b, ids); }
  }

  lemma InsertAddsBytes(segments: seq<Segment>, at: nat, s: Segment, ids: set<nat>)
    requires at <= |segments|
    ensures Bytes(InsertAt(segments, at, s)) == Bytes(segments) + s.size
    ensures BytesIn(InsertAt(segments, at, s), ids) == BytesIn(segments, ids) + if s.id in ids then s.size else 0
  {
    assert segments == segments[..at] + segments[at..];
    BytesConcat(segments[..at], segments[at..]);
    BytesConcat(segments[..at] + [s], segments[at..]);
    BytesConcat(segments[..at], [s]);
    BytesInConcat(segments[..at], segments[at..], ids);
    BytesInConcat(segments[..at] + [s], segments[at..], ids);
    BytesInConcat(segments[..at], [s], ids);
  }

  /** Removing `ids` takes exactly their bytes, from any other group too. */
  lemma {:induction false} WithoutRemovesBytes(segments: seq<Segment>, ids: set<nat>, others: set<nat>)
    ensures Bytes(segments) == Bytes(Without(segments, ids)) + BytesIn(segments, ids)
    ensures BytesIn(Without(segments, ids), others) == BytesIn(segments, others - ids)
  {
    if segments != [] {
      WithoutRemovesBytes(segments[1..], ids, others);
      var first := if segments[0].id in ids then [] else [segments[0]];
      BytesConcat(first, Without(segments[1..], ids));
      BytesInConcat(first, Without(segments[1..], ids), others);
    }
  }

  lemma {:induction false} BytesInAll(segments: seq<Segment>, ids: set<nat>)
    requires Ids(segments) <= ids
    ensures BytesIn(segments, ids) == Bytes(segments)
  {
    if segments != [] {
      assert segments[0] in segments && segments[0].id in Ids(segments);
      assert forall s :: s in segments[1..] ==> s in segments;
      BytesInAll(segments[1..], ids);
    }
  }

  lemma {:induction false} SizesSum(segments: seq<Segment>)
    ensures C.Sum(Sizes(segments)) == Bytes(segments)
  {
    if segments != [] {
      assert Sizes(segments)[1..] == Sizes(segments[1..]);
      SizesSum(segments[1..]);
    }
  }

  /** Bytes outside one segment: everything, or everything but that segment. */
  function BytesBut(segments: seq<Segment>, base: Option<nat>): int
  {
    Bytes(segments) - if base.Some? then BytesIn(segments, {base.value}) else 0
  }

  lemma {:induction false} BytesInOne(segments: seq<Segment>, s: Segment, id: nat)
    requires s in segments
    ensures s.id == id ==> s.size <= BytesIn(segments, {id})
    ensures s.id != id ==> s.size <= BytesBut(segments, Some(id))
    ensures BytesIn(segments, {id}) <= Bytes(segments)
  {
    if s in segments[1..] {
      BytesInOne(segments[1..], s, id);
    } else {
      assert s == segments[0];
      InBytes(segments[1..], {id});
    }
  }

  lemma {:induction false} InBytes(segments: seq<Segment>, ids: set<nat>)
    ensures BytesIn(segments, ids) <= Bytes(segments)
  {
    if segments != [] { InBytes(segments[1..], ids); }
  }

  // ---------------------------------------------------------------------------------------
  // The charging argument.
  // ---------------------------------------------------------------------------------------

  predicate DistinctIds(segments: seq<Segment>)
  {
    forall i, j :: 0 <= i < j < |segments| ==> segments[i].id != segments[j].id
  }

  function Factor(ratio: nat): nat { Max(ratio, 1) + 1 }

  /** What was planned is paid for by the bytes flushed before, and stays so while the inputs are there. */
  ghost predicate JobCharged(sh: Shard, k: nat, job: Job)
  {
    && job.selected != {} && job.plannedAt <= sh.flushed
    && (job.whole ==> job.read <= k * job.plannedAt)
    && (Live(sh, job) ==> job.read == BytesIn(sh.segments, job.selected))
    && (job.whole && Live(sh, job) ==>
          && sh.installedWhole + job.read <= k * job.plannedAt
          && Bytes(sh.segments) - job.read <= sh.flushed - job.plannedAt)
  }

  ghost predicate JobsCharged(sh: Shard, k: nat) { forall j :: 0 <= j < |sh.jobs| ==> JobCharged(sh, k, sh.jobs[j]) }

  /** A whole merge reads every input of the jobs planned before it that are still live. */
  ghost predicate Nested(sh: Shard)
  {
    forall i, j :: 0 <= i < j < |sh.jobs| && sh.jobs[j].whole && Live(sh, sh.jobs[i]) ==>
                   sh.jobs[i].selected <= sh.jobs[j].selected
  }

  /** Everything installed so far is paid for by the first `mark` flushed bytes; outside `base`, the
      segment that holds them, lie only bytes flushed since. */
  ghost predicate Charged(sh: Shard, ratio: nat, base: Option<nat>, mark: nat)
  {
    && DistinctIds(sh.segments)
    && mark <= sh.flushed
    && sh.installedWhole <= Factor(ratio) * mark
    && BytesBut(sh.segments, base) <= sh.flushed - mark
    && JobsCharged(sh, Factor(ratio)) && Nested(sh)
  }

  /** What failed or went stale cost at most the full price each time. */
  ghost predicate LossCharged(sh: Shard, k: nat) { sh.lostWhole <= sh.abandonedWhole * (k * sh.flushed) }

  lemma {:induction false} OneSegmentPerId(segments: seq<Segment>, id: nat)
    requires DistinctIds(segments)
    ensures BytesIn(segments, {id}) == 0 || exists s :: s in segments && s.id == id && s.size == BytesIn(segments, {id})
  {
    if segments != [] {
      OneSegmentPerId(segments[1..], id);
      if segments[0].id == id {
        forall s | s in segments[1..] ensures s.id != id {
          var k :| 0 <= k < |segments[1..]| && segments[1..][k] == s;
          assert s == segments[k + 1];
        }
        NoBytesElsewhere(segments[1..], {id});
        assert segments[0] in segments && segments[0].size == BytesIn(segments, {id});
      }
    }
  }

  lemma BytesInOneAtMostLargest(segments: seq<Segment>, id: nat)
    requires DistinctIds(segments)
    ensures BytesIn(segments, {id}) <= C.Largest(Sizes(segments))
  {
    OneSegmentPerId(segments, id);
    if BytesIn(segments, {id}) > 0 {
      var k :| 0 <= k < |segments| && segments[k].id == id && segments[k].size == BytesIn(segments, {id});
      assert Sizes(segments)[k] == segments[k].size;
    }
  }

  /** Either the largest segment is the base, and what is left pays for it, or everything else
      is at least half of all there is. */
  lemma OutsidePays(total: nat, largest: nat, inBase: nat, outside: nat, r: nat)
    requires r >= 1 && total == inBase + outside && (total - largest) * r >= largest
    requires inBase == largest || inBase <= largest <= outside
    ensures total <= (r + 1) * outside
  {
    if inBase == largest {
      assert (r + 1) * outside == outside * r + outside;
    } else {
      Scale(outside, 2, r + 1);
    }
  }

  /** A due whole merge reads at most `max(ratio, 1) + 1` times the bytes outside `base`. */
  lemma DueMergeIsPaidFor(segments: seq<Segment>, ratio: nat, base: Option<nat>)
    requires DistinctIds(segments) && C.MergeAllDue(Sizes(segments), ratio)
    ensures Bytes(segments) <= Factor(ratio) * BytesBut(segments, base)
  {
    var r := Max(ratio, 1);
    SizesSum(segments);
    var largest := C.Largest(Sizes(segments));
    if base.None? {
      Scale(Bytes(segments), 1, r + 1);
    } else {
      var at :| 0 <= at < |segments| && Sizes(segments)[at] == largest;
      BytesInOne(segments, segments[at], base.value);
      BytesInOneAtMostLargest(segments, base.value);
      OutsidePays(Bytes(segments), largest, BytesIn(segments, {base.value}), BytesBut(segments, base), r);
    }
  }

  lemma Scale(x: nat, y: nat, z: nat)
    requires y <= z
    ensures x * y <= x * z && y * x <= z * x
  {
  }

  lemma InsertAddsId(segments: seq<Segment>, at: nat, s: Segment)
    requires at <= |segments|
    ensures Ids(InsertAt(segments, at, s)) == Ids(segments) + {s.id}
  {
    assert segments == segments[..at] + segments[at..];
    assert forall x :: x in InsertAt(segments, at, s) <==> x in segments || x == s;
  }

  lemma InsertKeepsDistinct(segments: seq<Segment>, at: nat, s: Segment)
    requires at <= |segments| && DistinctIds(segments) && s.id !in Ids(segments)
    ensures DistinctIds(InsertAt(segments, at, s))
  {
    var r := InsertAt(segments, at, s);
    assert forall k :: 0 <= k < |segments| ==> segments[k].id in Ids(segments);
    forall i, j | 0 <= i < j < |r| ensures r[i].id != r[j].id {
      assert i != at ==> r[i] == segments[if i < at then i else i - 1];
      assert j != at ==> r[j] == segments[if j < at then j else j - 1];
    }
  }

  lemma {:induction false} WithoutKeepsDistinct(segments: seq<Segment>, ids: set<nat>)
    requires DistinctIds(segments)
    ensures DistinctIds(Without(segments, ids))
  {
    if segments != [] {
      WithoutKeepsDistinct(segments[1..], ids);
      var rest := Without(segments[1..], ids);
      forall k | 0 <= k < |rest| ensures rest[k].id != segments[0].id {
        assert rest[k] in segments[1..];
      }
    }
  }

  lemma FlushKeepsCharge(sh: Shard, at: nat, s: Segment, ratio: nat, base: Option<nat>, mark: nat)
    requires Enabled(sh, Flush(at, s), ratio) && Charged(sh, ratio, base, mark)
    ensures Charged(Next(sh, Flush(at, s), ratio), ratio, base, mark)
  {
    var sh' := Next(sh, Flush(at, s), ratio);
    InsertKeepsDistinct(sh.segments, at, s);
    InsertAddsId(sh.segments, at, s);
    InsertAddsBytes(sh.segments, at, s, if base.Some? then {base.value} else {});
    forall j | 0 <= j < |sh.jobs| ensures Live(sh', sh.jobs[j]) <==> Live(sh, sh.jobs[j]) { }
    forall j | 0 <= j < |sh.jobs| ensures JobCharged(sh', Factor(ratio), sh.jobs[j]) {
      assert JobCharged(sh, Factor(ratio), sh.jobs[j]);
      InsertAddsBytes(sh.segments, at, s, sh.jobs[j].selected);
    }
  }

  lemma PlanKeepsCharge(sh: Shard, selected: set<nat>, whole: bool, ratio: nat, base: Option<nat>, mark: nat)
    requires Enabled(sh, Plan(selected, whole), ratio) && Charged(sh, ratio, base, mark)
    ensures Charged(Next(sh, Plan(selected, whole), ratio), ratio, base, mark)
  {
    var sh', k := Next(sh, Plan(selected, whole), ratio), Factor(ratio);
    if whole {
      BytesInAll(sh.segments, selected);
      DueMergeIsPaidFor(sh.segments, ratio, base);
      StaysInBudget(k, mark, sh.flushed - mark, sh.installedWhole, BytesBut(sh.segments, base), Bytes(sh.segments));
    }
    forall j | 0 <= j < |sh'.jobs| ensures JobCharged(sh', k, sh'.jobs[j]) {
      if j < |sh.jobs| { assert JobCharged(sh, k, sh.jobs[j]); }
    }
  }

  lemma StaysInBudget(k: nat, before: nat, since: nat, merged: nat, outside: int, read: nat)
    requires merged <= k * before && outside <= since && read <= k * outside
    ensures merged + read <= k * (before + since)
  {
    assert k * outside <= k * since;
    assert k * (before + since) == k * before + k * since;
  }

  /** Replacing the selected segments by `out` changes the bytes outside `base'` by at most
      what the output adds there. */
  lemma InstallMovesBytes(segments: seq<Segment>, selected: set<nat>, at: nat, out: Segment, base: Option<nat>)
    requires DistinctIds(segments) && out.id !in Ids(segments) && at <= |Without(segments, selected)|
    requires out.size <= BytesIn(segments, selected)
    ensures var after := InsertAt(Without(segments, selected), at, out);
            && DistinctIds(after)
            && BytesBut(after, Some(out.id)) == Bytes(segments) - BytesIn(segments, selected)
            && (base.Some? && base.value in selected ==> BytesBut(after, Some(out.id)) <= BytesBut(segments, base))
            && (base.Some? && base.value !in selected && base.value != out.id ==>
                  BytesBut(after, base) <= BytesBut(segments, base))
            && (base.None? ==> BytesBut(after, base) <= BytesBut(segments, base))
  {
    var kept := Without(segments, selected);
    WithoutKeepsDistinct(segments, selected);
    assert forall s :: s in kept ==> s.id in Ids(segments);
    InsertKeepsDistinct(kept, at, out);
    InsertAddsBytes(kept, at, out, {out.id});
    NoBytesElsewhere(kept, {out.id});
    WithoutRemovesBytes(segments, selected, {out.id});
    if base.Some? {
      if base.value in selected {
        BaseIsSelected(segments, base.value, selected);
      } else {
        InsertAddsBytes(kept, at, out, {base.value});
        WithoutRemovesBytes(segments, selected, {base.value});
        assert {base.value} - selected == {base.value};
      }
    }
  }

  lemma DropKeeps(jobs: seq<Job>, j: nat)
    requires j < |jobs|
    ensures |Drop(jobs, j)| == |jobs| - 1
    ensures forall i :: 0 <= i < |jobs| - 1 ==> Drop(jobs, j)[i] == jobs[if i < j then i else i + 1]
  {
  }

  lemma InstalledIds(segments: seq<Segment>, selected: set<nat>, at: nat, out: Segment)
    requires at <= |Without(segments, selected)|
    ensures Ids(InsertAt(Without(segments, selected), at, out)) == Ids(segments) - selected + {out.id}
  {
    var kept := Without(segments, selected);
    InsertAddsId(kept, at, out);
    forall x ensures x in Ids(kept) <==> x in Ids(segments) && x !in selected {
      if x in Ids(segments) && x !in selected {
        var t :| t in segments && t.id == x;
        assert t in kept;
      }
    }
  }

  /** A job that is live after an installation read none of the replaced segments. */
  lemma OtherJobStaysCharged(sh: Shard, j: nat, at: nat, out: Segment, ratio: nat, other: Job)
    requires Enabled(sh, Install(j, at, out), ratio) && JobCharged(sh, Factor(ratio), other)
    requires DistinctIds(sh.segments) && out.id !in other.selected
    requires sh.jobs[j].whole && other.whole && Live(sh, other) ==> other.selected * sh.jobs[j].selected != {}
    ensures Live(Next(sh, Install(j, at, out), ratio), other) ==>
              Live(sh, other) && other.selected !! sh.jobs[j].selected
    ensures JobCharged(Next(sh, Install(j, at, out), ratio), Factor(ratio), other)
  {
    var sh', selected := Next(sh, Install(j, at, out), ratio), sh.jobs[j].selected;
    InstalledIds(sh.segments, selected, at, out);
    if Live(sh', other) {
      forall x | x in other.selected ensures x in Ids(sh.segments) && x !in selected { assert x in Ids(sh'.segments); }
      var kept := Without(sh.segments, selected);
      WithoutRemovesBytes(sh.segments, selected, other.selected);
      InsertAddsBytes(kept, at, out, other.selected);
      assert other.selected - selected == other.selected;
    }
  }

  /** Two live whole merges share an input: the later one reads everything there was. */
  lemma WholeJobsOverlap(sh: Shard, i: nat, j: nat)
    requires Nested(sh) && i < |sh.jobs| && j < |sh.jobs| && i != j
    requires sh.jobs[i].whole && sh.jobs[j].whole && Live(sh, sh.jobs[i]) && Live(sh, sh.jobs[j])
    requires sh.jobs[i].selected != {} && sh.jobs[j].selected != {}
    ensures sh.jobs[i].selected * sh.jobs[j].selected != {}
  {
    var x :| x in sh.jobs[i].selected;
    var y :| y in sh.jobs[j].selected;
    if i < j {
      assert x in sh.jobs[i].selected * sh.jobs[j].selected;
    } else {
      assert y in sh.jobs[i].selected * sh.jobs[j].selected;
    }
  }

  lemma InstallKeepsJobs(sh: Shard, j: nat, at: nat, out: Segment, ratio: nat)
    requires Enabled(sh, Install(j, at, out), ratio)
    requires DistinctIds(sh.segments) && JobsCharged(sh, Factor(ratio)) && Nested(sh)
    ensures var sh' := Next(sh, Install(j, at, out), ratio); JobsCharged(sh', Factor(ratio)) && Nested(sh')
  {
    var sh', k := Next(sh, Install(j, at, out), ratio), Factor(ratio);
    DropKeeps(sh.jobs, j);
    assert JobCharged(sh, k, sh.jobs[j]);
    forall i | 0 <= i < |sh'.jobs|
      ensures JobCharged(sh', k, sh'.jobs[i]) && (Live(sh', sh'.jobs[i]) ==> Live(sh, sh'.jobs[i]))
    {
      var was := if i < j then i else i + 1;
      assert JobCharged(sh, k, sh.jobs[was]);
      if sh.jobs[j].whole && sh.jobs[was].whole && Live(sh, sh.jobs[was]) { WholeJobsOverlap(sh, was, j); }
      OtherJobStaysCharged(sh, j, at, out, ratio, sh.jobs[was]);
    }
  }

  lemma InstallKeepsCharge(sh: Shard, j: nat, at: nat, out: Segment, ratio: nat, base: Option<nat>, mark: nat)
    returns (base': Option<nat>, mark': nat)
    requires Enabled(sh, Install(j, at, out), ratio) && Charged(sh, ratio, base, mark)
    ensures Charged(Next(sh, Install(j, at, out), ratio), ratio, base', mark')
  {
    var job := sh.jobs[j];
    assert JobCharged(sh, Factor(ratio), job);
    InstallMovesBytes(sh.segments, job.selected, at, out, base);
    InstallKeepsJobs(sh, j, at, out, ratio);
    if job.whole {
      base', mark' := Some(out.id), job.plannedAt;
    } else if base.Some? && (base.value in job.selected || base.value == out.id) {
      base', mark' := Some(out.id), mark;
      if base.value == out.id { NoBytesElsewhere(sh.segments, {out.id}); }
    } else {
      base', mark' := base, mark;
    }
  }

  lemma AbandonKeepsCharge(sh: Shard, j: nat, written: nat, ratio: nat, base: Option<nat>, mark: nat)
    requires Enabled(sh, Abandon(j, written), ratio) && Charged(sh, ratio, base, mark)
    ensures Charged(Next(sh, Abandon(j, written), ratio), ratio, base, mark)
  {
    var sh', k := Next(sh, Abandon(j, written), ratio), Factor(ratio);
    DropKeeps(sh.jobs, j);
    forall i | 0 <= i < |sh'.jobs| ensures JobCharged(sh', k, sh'.jobs[i]) {
      assert JobCharged(sh, k, sh.jobs[if i < j then i else i + 1]);
    }
  }

  /** Every event keeps the account, moving the mark forward at whole merges. */
  lemma EventKeepsCharge(sh: Shard, e: Event, ratio: nat, base: Option<nat>, mark: nat)
    returns (base': Option<nat>, mark': nat)
    requires Enabled(sh, e, ratio) && Charged(sh, ratio, base, mark)
    ensures Charged(Next(sh, e, ratio), ratio, base', mark')
  {
    base', mark' := base, mark;
    match e
    case Flush(at, s) => FlushKeepsCharge(sh, at, s, ratio, base, mark);
    case Plan(selected, whole) => PlanKeepsCharge(sh, selected, whole, ratio, base, mark);
    case Install(j, at, out) => base', mark' := InstallKeepsCharge(sh, j, at, out, ratio, base, mark);
    case Abandon(j, written) => AbandonKeepsCharge(sh, j, written, ratio, base, mark);
  }

  /** And the account of what was lost. */
  lemma EventKeepsLoss(sh: Shard, e: Event, ratio: nat)
    requires Enabled(sh, e, ratio) && JobsCharged(sh, Factor(ratio)) && LossCharged(sh, Factor(ratio))
    ensures LossCharged(Next(sh, e, ratio), Factor(ratio))
  {
    var k, sh' := Factor(ratio), Next(sh, e, ratio);
    Scale(k, sh.flushed, sh'.flushed);
    Scale(sh.abandonedWhole, k * sh.flushed, k * sh'.flushed);
    if e.Abandon? && sh.jobs[e.job].whole {
      var job := sh.jobs[e.job];
      assert JobCharged(sh, k, job);
      Scale(k, job.plannedAt, sh.flushed);
      OneMore(sh.abandonedWhole, k * sh.flushed);
    }
  }

  lemma OneMore(n: nat, x: nat)
    ensures (n + 1) * x == n * x + x
  {
  }

  lemma {:induction false} NoBytesElsewhere(segments: seq<Segment>, ids: set<nat>)
    requires forall s :: s in segments ==> s.id !in ids
    ensures BytesIn(segments, ids) == 0
  {
    if segments != [] { NoBytesElsewhere(segments[1..], ids); }
  }

  lemma {:induction false} BaseIsSelected(segments: seq<Segment>, id: nat, selected: set<nat>)
    requires id in selected
    ensures BytesIn(segments, {id}) <= BytesIn(segments, selected)
  {
    if segments != [] { BaseIsSelected(segments[1..], id, selected); }
  }

  /** What holds at the end of every run: installed bytes, all bytes written, and what each running
      whole merge may still write. */
  ghost predicate Bounded(sh: Shard, ratio: nat)
  {
    var price := Factor(ratio) * sh.flushed;
    && sh.installedWhole <= price
    && WrittenWhole(sh) <= price * (1 + sh.abandonedWhole)
    && forall j :: 0 <= j < |sh.jobs| && sh.jobs[j].whole ==> sh.jobs[j].read <= price
  }

  lemma ChargedIsBounded(sh: Shard, ratio: nat, base: Option<nat>, mark: nat)
    requires Charged(sh, ratio, base, mark) && LossCharged(sh, Factor(ratio))
    ensures Bounded(sh, ratio)
  {
    var k := Factor(ratio);
    Scale(k, mark, sh.flushed);
    OneMore(sh.abandonedWhole, k * sh.flushed);
    forall j | 0 <= j < |sh.jobs| && sh.jobs[j].whole ensures sh.jobs[j].read <= k * sh.flushed {
      assert JobCharged(sh, k, sh.jobs[j]);
      Scale(k, sh.jobs[j].plannedAt, sh.flushed);
    }
  }

  lemma {:induction false} RunKeepsCharge(sh: Shard, events: seq<Event>, ratio: nat, base: Option<nat>, mark: nat)
    requires ValidRun(sh, events, ratio) && Charged(sh, ratio, base, mark) && LossCharged(sh, Factor(ratio))
    ensures Bounded(Run(sh, events, ratio), ratio)
    decreases |events|
  {
    if events == [] {
      ChargedIsBounded(sh, ratio, base, mark);
    } else {
      var base', mark' := EventKeepsCharge(sh, events[0], ratio, base, mark);
      EventKeepsLoss(sh, events[0], ratio);
      RunKeepsCharge(Next(sh, events[0], ratio), events[1..], ratio, base', mark');
    }
  }

  /** Over any run, with k = max(ratio, 1) + 1: installed whole merges wrote at most k bytes per flushed
      byte, and all whole merges together at most that once more for each that failed or went stale. */
  lemma WholeMergesAreBounded(events: seq<Event>, ratio: nat)
    requires ValidRun(EMPTY, events, ratio)
    ensures Bounded(Run(EMPTY, events, ratio), ratio)
  {
    RunKeepsCharge(EMPTY, events, ratio, None, 0);
  }

  // ---------------------------------------------------------------------------------------
  // Retries without limit write without limit.
  // ---------------------------------------------------------------------------------------

  /** Two flushed segments of one byte each, after `n` whole merges that failed when they were written. */
  function AfterRetries(n: nat): Shard { Shard([Segment(0, 1), Segment(1, 1)], [], 2, 0, 2 * n, n) }

  function Retries(n: nat): seq<Event>
  {
    if n == 0 then [] else [Plan({0, 1}, true), Abandon(0, 2)] + Retries(n - 1)
  }

  lemma RetryIsDue(n: nat, ratio: nat)
    ensures Enabled(AfterRetries(n), Plan({0, 1}, true), ratio)
    ensures var planned := Next(AfterRetries(n), Plan({0, 1}, true), ratio);
            Enabled(planned, Abandon(0, 2), ratio) && Next(planned, Abandon(0, 2), ratio) == AfterRetries(n + 1)
  {
    var sh := AfterRetries(n);
    assert sh.segments[0] in sh.segments && sh.segments[1] in sh.segments;
    assert Ids(sh.segments) == {0, 1};
    assert Sizes(sh.segments) == [1, 1];
    assert [1, 1][1..] == [1] && [1][1..] == [];
    assert C.Sum([1, 1]) == 2 && C.Largest([1, 1]) == 1;
    assert sh.segments[1..] == [Segment(1, 1)] && sh.segments[1..][1..] == [];
    assert BytesIn(sh.segments, {0, 1}) == 2;
  }

  lemma {:induction false} RetriesRun(done: nat, n: nat, ratio: nat)
    ensures ValidRun(AfterRetries(done), Retries(n), ratio)
    ensures Run(AfterRetries(done), Retries(n), ratio) == AfterRetries(done + n)
    decreases n
  {
    if n > 0 {
      RetryIsDue(done, ratio);
      RetriesRun(done + 1, n - 1, ratio);
      var events := Retries(n);
      assert events[1..] == [Abandon(0, 2)] + Retries(n - 1) && events[1..][1..] == Retries(n - 1);
      var planned := Next(AfterRetries(done), events[0], ratio);
      assert ValidRun(planned, events[1..], ratio) && Run(planned, events[1..], ratio) == AfterRetries(done + n);
    }
  }

  /** No multiple of the flushed bytes bounds all bytes written: failing merges are retried. */
  lemma RetriesExceedEveryBound(bound: nat, ratio: nat) returns (events: seq<Event>)
    ensures ValidRun(EMPTY, events, ratio)
    ensures var end := Run(EMPTY, events, ratio); WrittenWhole(end) > bound * end.flushed
  {
    var flushes := [Flush(0, Segment(0, 1)), Flush(1, Segment(1, 1))];
    var n := bound + 1;
    events := flushes + Retries(n);
    RetriesRun(0, n, ratio);
    assert events[1..][1..] == Retries(n);
    var one := Next(EMPTY, events[0], ratio);
    assert one.segments == [Segment(0, 1)];
    assert Next(one, events[1], ratio) == AfterRetries(0);
    assert ValidRun(one, events[1..], ratio);
    assert Run(one, events[1..], ratio) == AfterRetries(n);
  }
}
