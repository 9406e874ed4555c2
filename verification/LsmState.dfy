/** The LSM index as a value: memtable, sealed generations, queued flushes, segments, tombstones
    and compaction jobs, with one function per operation. */
module LsmState {
  import opened Lists

  datatype Doc = Doc(id: nat, body: int)

  type Mem = set<Doc>

  /** A segment file by the number in its name, or a segment kept in memory. */
  datatype Handle = Disk(path: nat) | Memory(segment: Mem)

  /** When the data of a segment was queued or added: first and last time. */
  datatype Span = Span(first: nat, last: nat)

  datatype PendingFlush = PendingFlush(
    number: nat, path: nat, generations: seq<Mem>, addedAfter: nat, queuedAt: nat)

  /** A planned merge, with the tombstones known when it was planned. */
  datatype Job = Job(selected: seq<nat>, deleted: set<nat>, deleteGeneration: nat, output: nat)

  datatype Lsm = Lsm(
    persistent: bool,
    mem: Mem,
    generations: seq<Mem>,
    handles: seq<Handle>,
    readers: seq<Mem>,
    queued: seq<nat>,          // flushes not yet handed to the writer
    pending: seq<PendingFlush>,
    nextSeq: nat,
    failure: bool,
    deleted: set<nat>,
    deleteGeneration: nat,
    nextSegmentId: nat,
    jobs: seq<Job>,
    files: map<nat, Mem>,      // segment files
    manifest: set<nat>,        // files the manifest lists
    ages: seq<Span>,           // one per segment
    everDeleted: set<nat>,
    clock: nat)

  function New(persistent: bool): Lsm
  {
    Lsm(persistent, {}, [], [], [], [], [], 0, false, {}, 0, 0, [], map[], {}, [], {}, 0)
  }

  function Union(parts: seq<Mem>): Mem { set k, d | 0 <= k < |parts| && d in parts[k] :: d }

  // ---------------------------------------------------------------------------------------
  // Documents in, sealing and flushing.
  // ---------------------------------------------------------------------------------------

  function MergeIntoMemtable(s: Lsm, docs: Mem): Lsm { s.(mem := s.mem + docs) }

  /** Seals the memtable onto the generations, merging it with those from `keep` on. */
  function Seal(s: Lsm, keep: nat): Lsm
    requires keep <= |s.generations|
  {
    if s.mem == {} then s
    else s.(mem := {}, generations := s.generations[..keep] + [Union(s.generations[keep..]) + s.mem])
  }

  function PushSegment(s: Lsm, h: Handle, docs: Mem): Lsm
  {
    s.(handles := s.handles + [h], readers := s.readers + [docs],
       ages := s.ages + [Span(s.clock, s.clock)], clock := s.clock + 1)
  }

  /** Queues the sealed generations, or freezes them on an index without files. */
  function Enqueue(s: Lsm): Lsm
  {
    if s.persistent then
      s.(generations := [],
         pending := s.pending + [PendingFlush(s.nextSeq, s.nextSegmentId, s.generations, 0, s.clock)],
         queued := s.queued + [s.nextSeq],
         nextSeq := s.nextSeq + 1, nextSegmentId := s.nextSegmentId + 1, clock := s.clock + 1)
    else PushSegment(s.(generations := []), Memory(Union(s.generations)), Union(s.generations))
  }

  /** `queue_flush`: refused after a failed write; otherwise seals, syncs the tombstones and queues
      whatever is sealed. */
  function QueueFlush(s: Lsm, keep: nat, syncOk: bool): (Lsm, bool)
    requires keep <= |s.generations|
  {
    if s.failure then (s, false)
    else
      var sealed := Seal(s, keep);
      if s.persistent && !syncOk then (sealed, false)
      else (if sealed.generations == [] then sealed else Enqueue(sealed), true)
  }

  function TakeJobs(s: Lsm): Lsm { s.(queued := []) }

  /** Every flush numbered below this has finished. */
  function FlushedThrough(s: Lsm): int { s.nextSeq - |s.pending| }

  function FlushPosition(s: Lsm, p: PendingFlush): nat
  {
    if p.addedAfter <= |s.handles| then |s.handles| - p.addedAfter else 0
  }

  function InsertSegment(s: Lsm, at: nat, h: Handle, docs: Mem, age: Span): Lsm
    requires at <= |s.handles| && |s.handles| == |s.readers| == |s.ages|
  {
    s.(handles := InsertAt(s.handles, at, h), readers := InsertAt(s.readers, at, docs),
       ages := InsertAt(s.ages, at, age))
  }

  predicate SameLengths(s: Lsm) { |s.handles| == |s.readers| == |s.ages| }

  /** Installs a written flush, or keeps it in memory when the write or the manifest failed. */
  function CompleteFlush(s: Lsm, number: nat, writeOk: bool, manifestOk: bool): (Lsm, bool)
    requires SameLengths(s)
  {
    if s.pending == [] || s.pending[0].number != number then (s.(failure := true), false)
    else
      var p := s.pending[0];
      var rest := s.(pending := s.pending[1..]);
      var docs, at, age := Union(p.generations), FlushPosition(rest, p), Span(p.queuedAt, p.queuedAt);
      if writeOk && manifestOk then
        (InsertSegment(rest, at, Disk(p.path), docs, age)
           .(files := s.files[p.path := docs], manifest := s.manifest + {p.path}), true)
      else (InsertSegment(rest, at, Memory(docs), docs, age).(failure := true), false)
  }

  function SegmentAdded(pending: seq<PendingFlush>): (r: seq<PendingFlush>)
    ensures |r| == |pending|
    ensures forall k :: 0 <= k < |r| ==> r[k] == pending[k].(addedAfter := pending[k].addedAfter + 1)
  {
    if pending == [] then []
    else [pending[0].(addedAfter := pending[0].addedAfter + 1)] + SegmentAdded(pending[1..])
  }

  /** One segment of `add_immutable_segment`. */
  function AddSegment(s: Lsm, docs: Mem, writeOk: bool): (Lsm, bool)
  {
    if !s.persistent then
      (PushSegment(s, Memory(docs), docs).(pending := SegmentAdded(s.pending)), true)
    else
      var named := s.(nextSegmentId := s.nextSegmentId + 1);
      if !writeOk then (named, false)
      else
        (PushSegment(named, Disk(s.nextSegmentId), docs)
           .(files := s.files[s.nextSegmentId := docs], manifest := s.manifest + {s.nextSegmentId},
             pending := SegmentAdded(s.pending)), true)
  }

  function DeleteDocument(s: Lsm, id: nat): Lsm
  {
    s.(deleted := s.deleted + {id}, deleteGeneration := s.deleteGeneration + 1,
       everDeleted := s.everDeleted + {id})
  }

  // ---------------------------------------------------------------------------------------
  // Compaction.
  // ---------------------------------------------------------------------------------------

  function Paths(handles: seq<Handle>): seq<nat>
    requires forall k :: 0 <= k < |handles| ==> handles[k].Disk?
  {
    seq(|handles|, k requires 0 <= k < |handles| => handles[k].path)
  }

  /** Plans the merge of the disk segments `[start, end)`. */
  function Plan(s: Lsm, start: nat, end: nat): Lsm
    requires start < end <= |s.handles|
    requires forall k :: start <= k < end ==> s.handles[k].Disk?
  {
    s.(jobs := s.jobs + [Job(Paths(s.handles[start..end]), s.deleted, s.deleteGeneration, s.nextSegmentId)],
       nextSegmentId := s.nextSegmentId + 1)
  }

  function Surviving(docs: Mem, deleted: set<nat>): Mem { set d | d in docs && d.id !in deleted }

  function ReadFiles(files: map<nat, Mem>, paths: seq<nat>): Mem
  {
    set k, d | 0 <= k < |paths| && paths[k] in files && d in files[paths[k]] :: d
  }

  /** What the merge writes: its inputs without the tombstones it knew. */
  function Output(s: Lsm, job: Job): Mem { Surviving(ReadFiles(s.files, job.selected), job.deleted) }

  predicate IsLive(s: Lsm, path: nat) { Disk(path) in s.handles }

  predicate AllLive(s: Lsm, job: Job) { forall k :: 0 <= k < |job.selected| ==> IsLive(s, job.selected[k]) }

  /** Positions of the job's inputs in the live list. */
  function Positions(s: Lsm, job: Job): set<nat>
  {
    set k | 0 <= k < |s.handles| && s.handles[k].Disk? && s.handles[k].path in job.selected
  }

  /** Removes the positions in `gone` below `n`, highest first. */
  function RemoveDown(s: Lsm, n: nat, gone: set<nat>): (r: Lsm)
    requires SameLengths(s) && n <= |s.handles|
    ensures SameLengths(r)
    decreases n
  {
    if n == 0 then s
    else RemoveDown(if n - 1 in gone then RemoveSegment(s, n - 1) else s, n - 1, gone)
  }

  function RemoveSegment(s: Lsm, at: nat): Lsm
    requires SameLengths(s) && at < |s.handles|
  {
    s.(handles := RemoveAt(s.handles, at), readers := RemoveAt(s.readers, at), ages := RemoveAt(s.ages, at))
  }

  ghost predicate IsFirst(positions: set<nat>, p: nat) { p in positions && forall k :: k in positions ==> p <= k }
  ghost predicate IsLast(positions: set<nat>, p: nat) { p in positions && forall k :: k in positions ==> k <= p }

  function LowestFrom(positions: set<nat>, from: nat, limit: nat): (p: nat)
    requires from <= limit && exists k :: from <= k < limit && k in positions
    ensures from <= p < limit && p in positions && forall k :: from <= k < p ==> k !in positions
    decreases limit - from
  {
    if from in positions then from else LowestFrom(positions, from + 1, limit)
  }

  function HighestBelow(positions: set<nat>, limit: nat): (p: nat)
    requires exists k :: 0 <= k < limit && k in positions
    ensures p < limit && p in positions && forall k :: p < k < limit ==> k !in positions
  {
    if limit - 1 in positions then limit - 1 else HighestBelow(positions, limit - 1)
  }

  datatype Outcome = Installed | Stale | Error

  function LivePaths(handles: seq<Handle>): set<nat>
  {
    set k | 0 <= k < |handles| && handles[k].Disk? :: handles[k].path
  }

  predicate MergedAll(s: Lsm, job: Job) { |job.selected| == |s.handles| }

  /** Whether the installation drops the tombstones. */
  predicate ClearsTombstones(s: Lsm, job: Job)
  {
    MergedAll(s, job) && job.deleteGeneration == s.deleteGeneration
  }

  /** The segment list with the job's inputs replaced by its output. */
  function ReplaceInputs(s: Lsm, job: Job): (r: Lsm)
    requires SameLengths(s) && Positions(s, job) != {}
    requires forall k :: k in Positions(s, job) ==> k < |s.handles|
    ensures SameLengths(r)
  {
    var gone := Positions(s, job);
    var n := |s.handles|;
    assert exists k :: 0 <= k < n && k in gone by { var k :| k in gone; }
    var first, last := LowestFrom(gone, 0, n), HighestBelow(gone, n);
    var fewer := RemoveDown(s, n, gone);
    var at := if first <= |fewer.handles| then first else |fewer.handles|;
    InsertSegment(fewer, at, Disk(job.output), Output(s, job), Span(s.ages[first].first, s.ages[last].last))
  }

  /** `install_compaction` of job `j`. */
  function Install(s: Lsm, j: nat, openOk: bool, manifestOk: bool): (Lsm, Outcome)
    requires SameLengths(s) && j < |s.jobs|
  {
    var job := s.jobs[j];
    var rest := s.(jobs := RemoveAt(s.jobs, j));
    if !s.persistent || !AllLive(s, job) || Positions(s, job) == {} then (rest, Stale)
    else if !openOk then (rest, Error)
    else
      var replaced := ReplaceInputs(rest, job).(files := s.files[job.output := Output(s, job)]);
      if !manifestOk then (replaced, Error)
      else
        (replaced.(manifest := LivePaths(replaced.handles),
                   files := replaced.files - (set p | p in job.selected),
                   deleted := if ClearsTombstones(s, job) then {} else s.deleted), Installed)
  }

  // ---------------------------------------------------------------------------------------
  // What a search sees.
  // ---------------------------------------------------------------------------------------

  function PendingDocs(pending: seq<PendingFlush>): Mem
  {
    set k, d | 0 <= k < |pending| && d in Union(pending[k].generations) :: d
  }

  /** Documents not yet in a segment. */
  function InMemory(s: Lsm): Mem { s.mem + Union(s.generations) + PendingDocs(s.pending) }

  /** What a snapshot shows. */
  function Visible(s: Lsm): Mem { Surviving(InMemory(s) + Union(s.readers), s.deleted) }
}
