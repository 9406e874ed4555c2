/** Embedding in bounded rounds: what is left to embed, and that every round leaves less. */
module EmbedRounds {
  import opened Options
  import opened Numbers
  import opened Sorting
  import opened VectorRows

  datatype Config = Config(maxDocsPerRound: nat, embedBatch: nat)

  function Distance(x: nat, y: nat): nat { if x < y then y - x else x - y }

  /** Replaces settings that would stop embedding from making progress. */
  function Sanitized(c: Config): (r: Config)
    ensures 1 <= r.embedBatch <= r.maxDocsPerRound
    ensures r.maxDocsPerRound == if c.maxDocsPerRound > 0 then c.maxDocsPerRound else 10_000
    ensures forall b: nat :: 1 <= b <= r.maxDocsPerRound ==>
              Distance(r.embedBatch, c.embedBatch) <= Distance(b, c.embedBatch)
  {
    var most := if c.maxDocsPerRound == 0 then 10000 else c.maxDocsPerRound;
    Config(most, if c.embedBatch < 1 then 1 else if c.embedBatch > most then most else c.embedBatch)
  }

  datatype Segment = Segment(id: nat, lengths: seq<(nat, nat)>, bytes: U64)

  datatype VectorFile<V> = VectorFile(model: nat, rows: seq<Row<V>>)

  type Files<V> = map<(nat, nat), VectorFile<V>>

  /** What a round reads: live segments, vector files by segment and field, tombstones, documents that
      cannot be embedded; and the loaded model. */
  datatype Shard<V> = Shard(segments: seq<Segment>, files: Files<V>, deleted: set<nat>, skipped: set<nat>, model: nat)

  /** The segment's vector file for the field, unless another model made it. */
  function ExistingFile<V>(s: Shard<V>, segment: nat, xpath: nat): Option<seq<Row<V>>>
  {
    if (segment, xpath) in s.files && s.files[(segment, xpath)].model == s.model then Some(s.files[(segment, xpath)].rows)
    else None
  }

  function Have<V(!new)>(s: Shard<V>, segment: nat, xpath: nat): set<nat>
  {
    var file := ExistingFile(s, segment, xpath);
    s.skipped + if file.Some? then Docs(file.value) else {}
  }

  /** Documents of the segment with text in the field that are not deleted. */
  function Wanted(lengths: seq<(nat, nat)>, xpath: nat, deleted: set<nat>): (r: seq<nat>)
  {
    if lengths == [] then []
    else
      var last := lengths[|lengths| - 1];
      Wanted(lengths[..|lengths| - 1], xpath, deleted) + if last.1 == xpath && last.0 !in deleted then [last.0] else []
  }

  /** Those of the documents that are not in `have`. */
  function Lacking(docs: seq<nat>, have: set<nat>): (r: seq<nat>)
    ensures |r| <= |docs| && forall d :: d in r <==> d in docs && d !in have
  {
    if docs == [] then []
    else
      var last := docs[|docs| - 1];
      assert docs == docs[..|docs| - 1] + [last];
      Lacking(docs[..|docs| - 1], have) + if last in have then [] else [last]
  }

  function Missing<V(!new)>(s: Shard<V>, segment: Segment, xpath: nat): seq<nat>
  {
    Lacking(Wanted(segment.lengths, xpath, s.deleted), Have(s, segment.id, xpath))
  }

  function TotalIn<V(!new)>(s: Shard<V>, segment: Segment, fields: seq<nat>): nat
  {
    if fields == [] then 0
    else TotalIn(s, segment, fields[..|fields| - 1]) + |Wanted(segment.lengths, fields[|fields| - 1], s.deleted)|
  }

  function LeftIn<V(!new)>(s: Shard<V>, segment: Segment, fields: seq<nat>): nat
  {
    if fields == [] then 0
    else LeftIn(s, segment, fields[..|fields| - 1]) + |Missing(s, segment, fields[|fields| - 1])|
  }

  function Total<V(!new)>(s: Shard<V>, segments: seq<Segment>, fields: seq<nat>): nat
  {
    if segments == [] then 0
    else Total(s, segments[..|segments| - 1], fields) + TotalIn(s, segments[|segments| - 1], fields)
  }

  /** How many vectors are missing, over all segments and fields. */
  function Left<V(!new)>(s: Shard<V>, segments: seq<Segment>, fields: seq<nat>): nat
  {
    if segments == [] then 0
    else Left(s, segments[..|segments| - 1], fields) + LeftIn(s, segments[|segments| - 1], fields)
  }

  // ---------------------------------------------------------------------------------------
  // Measuring.
  // ---------------------------------------------------------------------------------------

  lemma OneMoreLength(lengths: seq<(nat, nat)>, k: nat, xpath: nat, deleted: set<nat>, have: set<nat>)
    requires k < |lengths|
    ensures var (doc, field) := lengths[k];
            var wanted := if field == xpath && doc !in deleted then 1 else 0;
            && |Wanted(lengths[..k + 1], xpath, deleted)| == |Wanted(lengths[..k], xpath, deleted)| + wanted
            && |Lacking(Wanted(lengths[..k + 1], xpath, deleted), have)| ==
               |Lacking(Wanted(lengths[..k], xpath, deleted), have)| + if doc in have then 0 else wanted
  {
    assert lengths[..k + 1][..k] == lengths[..k];
    var before := Wanted(lengths[..k], xpath, deleted);
    assert (before + [lengths[k].0])[..|before|] == before;
    assert before + [] == before;
  }

  method MeasureField<V(!new)>(s: Shard<V>, segment: Segment, xpath: nat) returns (total: nat, done: nat)
    ensures total == |Wanted(segment.lengths, xpath, s.deleted)| && done == total - |Missing(s, segment, xpath)|
  {
    var existing := ExistingFile(s, segment.id, xpath);
    total, done := 0, 0;
    for k := 0 to |segment.lengths|
      invariant total == |Wanted(segment.lengths[..k], xpath, s.deleted)|
      invariant done == total - |Lacking(Wanted(segment.lengths[..k], xpath, s.deleted), Have(s, segment.id, xpath))|
    {
      var (doc, field) := segment.lengths[k];
      OneMoreLength(segment.lengths, k, xpath, s.deleted, Have(s, segment.id, xpath));
      if field != xpath || doc in s.deleted { continue; }
      total := total + 1;
      if doc in s.skipped || (existing.Some? && doc in Docs(existing.value)) { done := done + 1; }
    }
    assert segment.lengths[..|segment.lengths|] == segment.lengths;
  }

  /** `measure`: done is short of total by exactly what is left. */
  method Measure<V(!new)>(s: Shard<V>, fields: seq<nat>) returns (total: nat, done: nat)
    ensures total == Total(s, s.segments, fields) && done == total - Left(s, s.segments, fields)
  {
    total, done := 0, 0;
    for i := 0 to |s.segments|
      invariant total == Total(s, s.segments[..i], fields) && done == total - Left(s, s.segments[..i], fields)
    {
      var t, d := MeasureSegment(s, s.segments[i], fields);
      assert s.segments[..i + 1][..i] == s.segments[..i];
      total, done := total + t, done + d;
    }
    assert s.segments[..|s.segments|] == s.segments;
  }

  method MeasureSegment<V(!new)>(s: Shard<V>, segment: Segment, fields: seq<nat>) returns (total: nat, done: nat)
    ensures total == TotalIn(s, segment, fields) && done == total - LeftIn(s, segment, fields)
  {
    total, done := 0, 0;
    for k := 0 to |fields|
      invariant total == TotalIn(s, segment, fields[..k]) && done == total - LeftIn(s, segment, fields[..k])
    {
      var t, d := MeasureField(s, segment, fields[k]);
      assert fields[..k + 1][..k] == fields[..k];
      total, done := total + t, done + d;
    }
    assert fields[..|fields|] == fields;
  }

  // ---------------------------------------------------------------------------------------
  // The next task.
  // ---------------------------------------------------------------------------------------

  lemma {:induction false} LeftInZeroIff<V(!new)>(s: Shard<V>, segment: Segment, fields: seq<nat>)
    ensures LeftIn(s, segment, fields) == 0 <==> forall x :: x in fields ==> Missing(s, segment, x) == []
  {
    if fields != [] {
      var last := fields[|fields| - 1];
      LeftInZeroIff(s, segment, fields[..|fields| - 1]);
      assert fields == fields[..|fields| - 1] + [last];
    }
  }

  lemma {:induction false} LeftZeroIff<V(!new)>(s: Shard<V>, segments: seq<Segment>, fields: seq<nat>)
    ensures Left(s, segments, fields) == 0 <==> forall g :: g in segments ==> LeftIn(s, g, fields) == 0
  {
    if segments != [] {
      var last := segments[|segments| - 1];
      LeftZeroIff(s, segments[..|segments| - 1], fields);
      assert segments == segments[..|segments| - 1] + [last];
      assert last in segments;
      forall g | g in segments ensures g == last || g in segments[..|segments| - 1] {
      }
      assert forall g :: g in segments[..|segments| - 1] ==> g in segments;
    }
  }

  datatype Task = Task(segment: Segment, xpath: nat, missing: seq<nat>)

  function FirstFew(docs: seq<nat>, most: nat): seq<nat> { if |docs| <= most then docs else docs[..most] }

  /** `x` is the first field of the segment with documents missing a vector. */
  ghost predicate IsFirstMissing<V(!new)>(s: Shard<V>, segment: Segment, fields: seq<nat>, x: nat)
  {
    exists k :: 0 <= k < |fields| && fields[k] == x && NoneMissingBelow(s, segment, fields, k)
  }

  /** Documents of the first field of a live segment that need a vector: all of them, or the first `maxDocs`. */
  ghost predicate IsTask<V(!new)>(s: Shard<V>, fields: seq<nat>, maxDocs: nat, task: Task)
  {
    && task.segment in s.segments && task.xpath in fields
    && 0 < |task.missing| <= maxDocs && Ascending(task.missing)
    && (forall d :: d in task.missing ==> d in Missing(s, task.segment, task.xpath))
    && IsFirstMissing(s, task.segment, fields, task.xpath)
    && forall d :: d in FirstFew(Missing(s, task.segment, task.xpath), maxDocs) <==> d in task.missing
  }

  lemma SomeLeft<V(!new)>(s: Shard<V>, segments: seq<Segment>, fields: seq<nat>, segment: Segment)
    requires segment in segments && LeftIn(s, segment, fields) > 0
    ensures Left(s, segments, fields) > 0
  {
    LeftZeroIff(s, segments, fields);
  }

  lemma NoneLeft<V(!new)>(s: Shard<V>, segments: seq<Segment>, fields: seq<nat>, sorted: seq<Segment>)
    requires multiset(sorted) == multiset(segments)
    requires forall j :: 0 <= j < |sorted| ==> LeftCount(s, fields, sorted[j]) == 0
    ensures Left(s, segments, fields) == 0
  {
    SameElements(sorted, segments);
    forall g | g in segments ensures LeftIn(s, g, fields) == 0 {
      var j :| 0 <= j < |sorted| && sorted[j] == g;
      assert LeftCount(s, fields, sorted[j]) == 0;
    }
    LeftZeroIff(s, segments, fields);
  }

  /** Largest segment first; no task exactly if nothing is left. */
  method NextTask<V(!new)>(s: Shard<V>, fields: seq<nat>, maxDocs: nat) returns (task: Option<Task>)
    requires maxDocs > 0
    ensures task.None? <==> Left(s, s.segments, fields) == 0
    ensures task.Some? ==> IsTask(s, fields, maxDocs, task.value)
    ensures task.Some? ==> forall g :: g in s.segments && LeftCount(s, fields, g) > 0 ==> g.bytes <= task.value.segment.bytes
  {
    var segments := LargestFirst(s.segments);
    SameElements(segments, s.segments);
    for i := 0 to |segments|
      invariant forall j :: 0 <= j < i ==> LeftCount(s, fields, segments[j]) == 0
    {
      assert segments[i] in segments;
      task := TaskIn(s, segments[i], fields, maxDocs);
      if task.Some? {
        SomeLeft(s, s.segments, fields, segments[i]);
        forall g | g in s.segments && LeftCount(s, fields, g) > 0 ensures g.bytes <= segments[i].bytes {
          var j :| 0 <= j < |segments| && segments[j] == g;
        }
        return;
      }
    }
    NoneLeft(s, s.segments, fields, segments);
    task := None;
  }

  function LargestFirst(segments: seq<Segment>): (r: seq<Segment>)
    ensures multiset(r) == multiset(segments)
    ensures forall i, j :: 0 <= i < j < |r| ==> r[i].bytes >= r[j].bytes
  {
    SortBy(segments, (segment: Segment) => TWO64 - segment.bytes)
  }

  /** The first documents missing a vector, sorted. */
  function TaskOf<V(!new)>(s: Shard<V>, segment: Segment, x: nat, maxDocs: nat): Task
  {
    Task(segment, x, SortDedup(FirstFew(Missing(s, segment, x), maxDocs)))
  }

  lemma TaskOfIsTask<V(!new)>(s: Shard<V>, segment: Segment, fields: seq<nat>, x: nat, maxDocs: nat)
    requires x in fields && segment in s.segments && maxDocs > 0 && MissingCount(s, segment, x) > 0
    requires IsFirstMissing(s, segment, fields, x)
    ensures IsTask(s, fields, maxDocs, TaskOf(s, segment, x, maxDocs))
  {
    var missing := Missing(s, segment, x);
    var taken := FirstFew(missing, maxDocs);
    assert taken[0] in taken && taken[0] in SortDedup(taken);
    assert forall d :: d in taken ==> d in missing;
  }

  /** The first field with documents missing a vector, or the number of fields. */
  method FirstMissing<V(!new)>(s: Shard<V>, segment: Segment, fields: seq<nat>) returns (k: nat)
    ensures k <= |fields| && NoneMissingBelow(s, segment, fields, k)
    ensures k < |fields| ==> MissingCount(s, segment, fields[k]) > 0
  {
    k := 0;
    while k < |fields| && MissingCount(s, segment, fields[k]) == 0
      invariant k <= |fields| && NoneMissingBelow(s, segment, fields, k)
    {
      k := k + 1;
    }
  }

  /** A task of the first field of the segment with documents missing a vector. */
  method TaskIn<V(!new)>(s: Shard<V>, segment: Segment, fields: seq<nat>, maxDocs: nat) returns (task: Option<Task>)
    requires maxDocs > 0 && segment in s.segments
    ensures task.None? <==> LeftIn(s, segment, fields) == 0
    ensures task.Some? ==> IsTask(s, fields, maxDocs, task.value) && task.value.segment == segment
  {
    var k := FirstMissing(s, segment, fields);
    if k < |fields| {
      SomeMissing(s, segment, fields, k);
      TaskOfIsTask(s, segment, fields, fields[k], maxDocs);
      return Some(TaskOf(s, segment, fields[k], maxDocs));
    }
    NoneMissing(s, segment, fields);
    task := None;
  }

  ghost predicate NoneMissingBelow<V(!new)>(s: Shard<V>, segment: Segment, fields: seq<nat>, n: nat)
    requires n <= |fields|
  {
    forall j :: 0 <= j < n ==> MissingCount(s, segment, fields[j]) == 0
  }

  lemma SomeMissing<V(!new)>(s: Shard<V>, segment: Segment, fields: seq<nat>, k: nat)
    requires k < |fields| && MissingCount(s, segment, fields[k]) > 0
    ensures LeftIn(s, segment, fields) > 0
  {
    LeftInZeroIff(s, segment, fields);
    assert fields[k] in fields;
  }

  lemma NoneMissing<V(!new)>(s: Shard<V>, segment: Segment, fields: seq<nat>)
    requires NoneMissingBelow(s, segment, fields, |fields|)
    ensures LeftIn(s, segment, fields) == 0
  {
    LeftInZeroIff(s, segment, fields);
    forall x | x in fields ensures Missing(s, segment, x) == [] {
      var j :| 0 <= j < |fields| && fields[j] == x;
      assert MissingCount(s, segment, fields[j]) == 0;
    }
  }

  // ---------------------------------------------------------------------------------------
  // Progress.
  // ---------------------------------------------------------------------------------------

  /** Nothing that has a vector or is skipped loses it. */
  ghost predicate Advances<V(!new)>(s: Shard<V>, t: Shard<V>)
  {
    && t.segments == s.segments && t.deleted == s.deleted && t.model == s.model
    && forall segment: nat, x: nat :: Have(s, segment, x) <= Have(t, segment, x)
  }

  lemma {:induction false} LackingShrinks(docs: seq<nat>, have: set<nat>, more: set<nat>)
    requires have <= more
    ensures |Lacking(docs, more)| <= |Lacking(docs, have)|
    ensures (exists d :: d in docs && d !in have && d in more) ==> |Lacking(docs, more)| < |Lacking(docs, have)|
  {
    if docs != [] {
      var rest, last := docs[..|docs| - 1], docs[|docs| - 1];
      LackingShrinks(rest, have, more);
      assert docs == rest + [last];
    }
  }

  lemma MissingShrinks<V(!new)>(s: Shard<V>, t: Shard<V>, segment: Segment, x: nat, d: nat)
    requires Advances(s, t)
    ensures |Missing(t, segment, x)| <= |Missing(s, segment, x)|
    ensures d in Missing(s, segment, x) && d in Have(t, segment.id, x) ==>
              |Missing(t, segment, x)| < |Missing(s, segment, x)|
  {
    LackingShrinks(Wanted(segment.lengths, x, s.deleted), Have(s, segment.id, x), Have(t, segment.id, x));
  }

  function MissingCount<V(!new)>(s: Shard<V>, segment: Segment, x: nat): nat { |Missing(s, segment, x)| }

  lemma {:induction false} SumShrinks<V(!new)>(s: Shard<V>, t: Shard<V>, segment: Segment, fields: seq<nat>, x: nat)
    requires forall y :: MissingCount(t, segment, y) <= MissingCount(s, segment, y)
    ensures LeftIn(t, segment, fields) <= LeftIn(s, segment, fields)
    ensures x in fields && MissingCount(t, segment, x) < MissingCount(s, segment, x) ==>
              LeftIn(t, segment, fields) < LeftIn(s, segment, fields)
  {
    if fields != [] {
      var rest, last := fields[..|fields| - 1], fields[|fields| - 1];
      SumShrinks(s, t, segment, rest, x);
      assert MissingCount(t, segment, last) <= MissingCount(s, segment, last);
      assert x in fields ==> x in rest || x == last;
    }
  }

  lemma LeftInShrinks<V(!new)>(s: Shard<V>, t: Shard<V>, segment: Segment, fields: seq<nat>, x: nat, d: nat)
    requires Advances(s, t)
    ensures LeftIn(t, segment, fields) <= LeftIn(s, segment, fields)
    ensures x in fields && d in Missing(s, segment, x) && d in Have(t, segment.id, x) ==>
              LeftIn(t, segment, fields) < LeftIn(s, segment, fields)
  {
    forall y ensures MissingCount(t, segment, y) <= MissingCount(s, segment, y) { MissingShrinks(s, t, segment, y, d); }
    MissingShrinks(s, t, segment, x, d);
    SumShrinks(s, t, segment, fields, x);
  }

  function LeftCount<V(!new)>(s: Shard<V>, fields: seq<nat>, segment: Segment): nat { LeftIn(s, segment, fields) }

  lemma {:induction false} SegmentsShrink<V(!new)>(
    s: Shard<V>, t: Shard<V>, segments: seq<Segment>, fields: seq<nat>, segment: Segment)
    requires forall g :: LeftCount(t, fields, g) <= LeftCount(s, fields, g)
    ensures Left(t, segments, fields) <= Left(s, segments, fields)
    ensures segment in segments && LeftCount(t, fields, segment) < LeftCount(s, fields, segment) ==>
              Left(t, segments, fields) < Left(s, segments, fields)
  {
    if segments != [] {
      var rest, last := segments[..|segments| - 1], segments[|segments| - 1];
      SegmentsShrink(s, t, rest, fields, segment);
      assert LeftCount(t, fields, last) <= LeftCount(s, fields, last);
      assert segment in segments ==> segment in rest || segment == last;
    }
  }

  lemma LeftShrinks<V(!new)>(
    s: Shard<V>, t: Shard<V>, segments: seq<Segment>, fields: seq<nat>, segment: Segment, x: nat, d: nat)
    requires Advances(s, t)
    ensures Left(t, segments, fields) <= Left(s, segments, fields)
    ensures segment in segments && x in fields && d in Missing(s, segment, x) && d in Have(t, segment.id, x) ==>
              Left(t, segments, fields) < Left(s, segments, fields)
  {
    forall g ensures LeftCount(t, fields, g) <= LeftCount(s, fields, g) { LeftInShrinks(s, t, g, fields, x, d); }
    LeftInShrinks(s, t, segment, fields, x, d);
    SegmentsShrink(s, t, segments, fields, segment);
  }

  /** The shard after a round: more documents skipped, and the task's file rewritten if there are new rows. */
  ghost predicate Rewrites<V(!new)>(s: Shard<V>, t: Shard<V>, task: Task, newRows: seq<Row<V>>)
  {
    && s.skipped <= t.skipped
    && (newRows == [] ==> t == s.(skipped := t.skipped))
    && (newRows != [] ==>
          var key := (task.segment.id, task.xpath);
          && key in t.files && t.files[key].model == s.model
          && t == s.(skipped := t.skipped, files := s.files[key := t.files[key]])
          && var existing := ExistingFile(s, task.segment.id, task.xpath);
             && RowsAscend(t.files[key].rows)
             && Overrides(if existing.Some? then existing.value else [], newRows, t.files[key].rows))
  }

  lemma OverrideKeepsDocs<V(!new)>(existing: seq<Row<V>>, newer: seq<Row<V>>, rows: seq<Row<V>>)
    requires Overrides(existing, newer, rows)
    ensures Docs(existing) + Docs(newer) <= Docs(rows)
  {
    forall d | d in Docs(newer) ensures d in Docs(rows) {
      var k :| 0 <= k < |newer| && newer[k].doc == d;
      assert newer[k] in rows;
      DocOfRow(rows, newer[k]);
    }
    forall d | d in Docs(existing) ensures d in Docs(rows) {
      if d !in Docs(newer) {
        var k :| 0 <= k < |existing| && existing[k].doc == d;
        assert existing[k] in rows;
        DocOfRow(rows, existing[k]);
      }
    }
  }

  lemma RewriteAdvances<V(!new)>(s: Shard<V>, t: Shard<V>, task: Task, newRows: seq<Row<V>>)
    requires Rewrites(s, t, task, newRows)
    ensures Advances(s, t) && Docs(newRows) + t.skipped <= Have(t, task.segment.id, task.xpath)
  {
    if newRows != [] {
      var existing := ExistingFile(s, task.segment.id, task.xpath);
      OverrideKeepsDocs(if existing.Some? then existing.value else [], newRows, t.files[(task.segment.id, task.xpath)].rows);
      assert Docs<V>([]) == {};
      forall segment: nat, x: nat ensures Have(s, segment, x) <= Have(t, segment, x) {
        if (segment, x) != (task.segment.id, task.xpath) {
          assert ExistingFile(t, segment, x) == ExistingFile(s, segment, x);
        }
      }
    } else {
      assert Docs(newRows) == {};
      assert forall segment: nat, x: nat :: ExistingFile(t, segment, x) == ExistingFile(s, segment, x);
    }
  }

  /** A round that finishes a batch leaves strictly less to embed. */
  lemma RoundMakesProgress<V(!new)>(
    s: Shard<V>, t: Shard<V>, fields: seq<nat>, maxDocs: nat, task: Task, newRows: seq<Row<V>>)
    requires IsTask(s, fields, maxDocs, task) && Rewrites(s, t, task, newRows)
    ensures Left(t, t.segments, fields) <= Left(s, s.segments, fields)
    ensures task.missing[0] in Docs(newRows) + t.skipped ==> Left(t, t.segments, fields) < Left(s, s.segments, fields)
  {
    RewriteAdvances(s, t, task, newRows);
    LeftShrinks(s, t, s.segments, fields, task.segment, task.xpath, task.missing[0]);
  }

  /** One round: a task, its file rewritten with the new rows, and its first document settled. Segments,
      tombstones and the model are as they were. */
  ghost predicate IsRound<V(!new)>(s: Shard<V>, t: Shard<V>, fields: seq<nat>, maxDocs: nat, task: Task, newRows: seq<Row<V>>)
  {
    && IsTask(s, fields, maxDocs, task) && Rewrites(s, t, task, newRows)
    && task.missing[0] in Docs(newRows) + t.skipped
  }

  ghost predicate IsRunOfRounds<V(!new)>(
    shards: seq<Shard<V>>, tasks: seq<Task>, rows: seq<seq<Row<V>>>, fields: seq<nat>, maxDocs: nat)
  {
    && |shards| == |tasks| + 1 && |rows| == |tasks|
    && forall k :: 0 <= k < |tasks| ==> IsRound(shards[k], shards[k + 1], fields, maxDocs, tasks[k], rows[k])
  }

  /** The first field from `k` on with documents missing a vector, if field `some` has any. */
  lemma {:induction false} FirstField<V(!new)>(s: Shard<V>, segment: Segment, fields: seq<nat>, k: nat, some: nat)
    returns (f: nat)
    requires k <= some < |fields| && NoneMissingBelow(s, segment, fields, k) && MissingCount(s, segment, fields[some]) > 0
    ensures f < |fields| && NoneMissingBelow(s, segment, fields, f) && MissingCount(s, segment, fields[f]) > 0
    decreases some - k
  {
    if MissingCount(s, segment, fields[k]) > 0 { f := k; } else { f := FirstField(s, segment, fields, k + 1, some); }
  }

  lemma SegmentHasTask<V(!new)>(s: Shard<V>, segment: Segment, fields: seq<nat>, maxDocs: nat) returns (task: Task)
    requires maxDocs > 0 && segment in s.segments && LeftIn(s, segment, fields) > 0
    ensures IsTask(s, fields, maxDocs, task)
  {
    LeftInZeroIff(s, segment, fields);
    var x :| x in fields && Missing(s, segment, x) != [];
    var some :| 0 <= some < |fields| && fields[some] == x;
    var f := FirstField(s, segment, fields, 0, some);
    assert IsFirstMissing(s, segment, fields, fields[f]);
    TaskOfIsTask(s, segment, fields, fields[f], maxDocs);
    task := TaskOf(s, segment, fields[f], maxDocs);
  }

  /** While a vector is missing there is a task. */
  lemma TaskWhileLeft<V(!new)>(s: Shard<V>, fields: seq<nat>, maxDocs: nat) returns (task: Task)
    requires maxDocs > 0 && Left(s, s.segments, fields) > 0
    ensures IsTask(s, fields, maxDocs, task)
  {
    LeftZeroIff(s, s.segments, fields);
    var segment :| segment in s.segments && LeftIn(s, segment, fields) != 0;
    task := SegmentHasTask(s, segment, fields, maxDocs);
  }

  /** There is a task exactly while a vector is missing. */
  lemma TaskExistsIff<V(!new)>(s: Shard<V>, fields: seq<nat>, maxDocs: nat)
    requires maxDocs > 0
    ensures (exists task :: IsTask(s, fields, maxDocs, task)) <==> Remaining(s, fields) > 0
  {
    if Remaining(s, fields) > 0 {
      var task := TaskWhileLeft(s, fields, maxDocs);
    } else {
      NoTaskWhenDone(s, fields, maxDocs);
    }
  }

  function Remaining<V(!new)>(s: Shard<V>, fields: seq<nat>): nat { Left(s, s.segments, fields) }

  lemma RoundLowers<V(!new)>(s: Shard<V>, t: Shard<V>, fields: seq<nat>, maxDocs: nat, task: Task, newRows: seq<Row<V>>)
    requires IsRound(s, t, fields, maxDocs, task, newRows)
    ensures Remaining(t, fields) < Remaining(s, fields)
  {
    RoundMakesProgress(s, t, fields, maxDocs, task, newRows);
  }

  /** A run of rounds is no longer than the number of vectors missing at its start, and one of that length
      has left none. */
  lemma {:induction false} RoundsAreBounded<V(!new)>(
    shards: seq<Shard<V>>, tasks: seq<Task>, rows: seq<seq<Row<V>>>, fields: seq<nat>, maxDocs: nat)
    requires IsRunOfRounds(shards, tasks, rows, fields, maxDocs)
    ensures |tasks| + Remaining(shards[|tasks|], fields) <= Remaining(shards[0], fields)
    ensures |tasks| == Remaining(shards[0], fields) ==> Remaining(shards[|tasks|], fields) == 0
    decreases |tasks|
  {
    var n := |tasks|;
    if n > 0 {
      var m := n - 1;
      assert IsRound(shards[m], shards[m + 1], fields, maxDocs, tasks[m], rows[m]);
      RoundLowers(shards[m], shards[n], fields, maxDocs, tasks[m], rows[m]);
      ShorterRun(shards, tasks, rows, fields, maxDocs);
      RoundsAreBounded(shards[..n], tasks[..m], rows[..m], fields, maxDocs);
    }
  }

  lemma ShorterRun<V(!new)>(
    shards: seq<Shard<V>>, tasks: seq<Task>, rows: seq<seq<Row<V>>>, fields: seq<nat>, maxDocs: nat)
    requires IsRunOfRounds(shards, tasks, rows, fields, maxDocs) && tasks != []
    ensures IsRunOfRounds(shards[..|tasks|], tasks[..|tasks| - 1], rows[..|tasks| - 1], fields, maxDocs)
  {
    var n := |tasks| - 1;
    forall k | 0 <= k < n
      ensures IsRound(shards[..n + 1][k], shards[..n + 1][k + 1], fields, maxDocs, tasks[..n][k], rows[..n][k])
    {
      assert IsRound(shards[k], shards[k + 1], fields, maxDocs, tasks[k], rows[k]);
    }
  }

  lemma NoTaskWhenDone<V(!new)>(s: Shard<V>, fields: seq<nat>, maxDocs: nat)
    requires Left(s, s.segments, fields) == 0
    ensures forall task :: !IsTask(s, fields, maxDocs, task)
  {
    LeftZeroIff(s, s.segments, fields);
    forall task ensures !IsTask(s, fields, maxDocs, task) {
      if task.segment in s.segments && task.xpath in fields {
        LeftInZeroIff(s, task.segment, fields);
        assert Missing(s, task.segment, task.xpath) == [];
        assert task.missing != [] ==> task.missing[0] in task.missing;
      }
    }
  }
}
