/** One embedding round of a shard: load texts, embed them isolating bad ones, rewrite the vector file. */
module EmbeddingJob {
  import opened Options
  import opened Numbers
  import opened Lists
  import opened Sorting
  import opened VectorRows
  import opened EmbedRounds

  /** The model's reply to a group of texts. */
  datatype Reply = Embedded | WrongCount | ModelFailed

  // ---------------------------------------------------------------------------------------
  // The calls of the model: `asked` has the ids of each group asked so far, none for the probe text.
  // ---------------------------------------------------------------------------------------

  /** Call `n` ends the round: the model fails on the probe, or returns a wrong number of vectors. */
  predicate Breaks(asked: seq<seq<nat>>, reply: nat -> Reply, n: nat)
  {
    n < |asked| && reply(n) == if asked[n] == [] then ModelFailed else WrongCount
  }

  /** Call `n` asks for one text, on which the model fails, and right after it does not fail on the probe. */
  predicate Isolates(asked: seq<seq<nat>>, reply: nat -> Reply, n: nat)
  {
    n + 1 < |asked| && |asked[n]| == 1 && reply(n) == ModelFailed && asked[n + 1] == [] && reply(n + 1) != ModelFailed
  }

  ghost predicate NoneBreaks(asked: seq<seq<nat>>, reply: nat -> Reply, first: nat, last: nat)
  {
    forall n :: first <= n < last ==> !Breaks(asked, reply, n)
  }

  /** The ids isolated by the calls in `[first, last)`. */
  ghost function Isolated(asked: seq<seq<nat>>, reply: nat -> Reply, first: nat, last: nat): set<nat>
  {
    set n | first <= n < last && Isolates(asked, reply, n) :: asked[n][0]
  }

  /** From `before` to `asked` the model was asked for a group: `ok` unless a call broke, and `failed` are the
      ids isolated. */
  ghost predicate Went(before: seq<seq<nat>>, asked: seq<seq<nat>>, reply: nat -> Reply, failed: set<nat>, ok: bool)
  {
    && before <= asked && (|before| < |asked| ==> asked[|before|] != [])
    && (ok <==> NoneBreaks(asked, reply, |before|, |asked|))
    && failed == Isolated(asked, reply, |before|, |asked|)
  }

  lemma WentNowhere(before: seq<seq<nat>>, reply: nat -> Reply)
    ensures Went(before, before, reply, {}, true)
  {
  }

  lemma WentOnce(before: seq<seq<nat>>, ids: seq<nat>, reply: nat -> Reply)
    requires ids != []
    ensures Went(before, before + [ids], reply, {}, reply(|before|) != WrongCount)
  {
    var asked, n := before + [ids], |before|;
    assert Breaks(asked, reply, n) <==> reply(n) == WrongCount;
    assert !Isolates(asked, reply, n);
  }

  lemma WentProbing(before: seq<seq<nat>>, id: nat, reply: nat -> Reply)
    requires reply(|before|) == ModelFailed
    ensures var ok := reply(|before| + 1) != ModelFailed;
            Went(before, before + [[id]] + [[]], reply, if ok then {id} else {}, ok)
  {
    var asked, n := before + [[id]] + [[]], |before|;
    var ok := reply(n + 1) != ModelFailed;
    assert asked[n] == [id] && asked[n + 1] == [] && |asked| == n + 2;
    assert !Breaks(asked, reply, n) && (Breaks(asked, reply, n + 1) <==> !ok);
    assert (Isolates(asked, reply, n) <==> ok) && !Isolates(asked, reply, n + 1);
    assert NoneBreaks(asked, reply, n, n + 2) <==> ok;
    assert Isolated(asked, reply, n, n + 2) == if ok then {id} else {};
  }

  lemma WentOn(
      before: seq<seq<nat>>, middle: seq<seq<nat>>, asked: seq<seq<nat>>, reply: nat -> Reply,
      failed: set<nat>, more: set<nat>, ok: bool)
    requires Went(before, middle, reply, failed, true) && Went(middle, asked, reply, more, ok)
    ensures Went(before, asked, reply, failed + more, ok)
  {
    var m := |middle|;
    assert forall n :: 0 <= n < m ==> (Breaks(middle, reply, n) <==> Breaks(asked, reply, n));
    assert forall n :: 0 <= n < m ==> (Isolates(middle, reply, n) <==> Isolates(asked, reply, n));
    assert NoneBreaks(asked, reply, |before|, |asked|) <==> NoneBreaks(asked, reply, m, |asked|);
    forall d ensures d in Isolated(asked, reply, |before|, |asked|) <==> d in failed + more {
      if d in failed {
        var n :| |before| <= n < m && Isolates(middle, reply, n) && middle[n][0] == d;
        assert Isolates(asked, reply, n) && asked[n][0] == d;
      }
    }
  }

  /** One row per id that did not fail, in order. */
  function RowsOf<T, V>(ids: seq<nat>, texts: seq<T>, failed: set<nat>, vector: T -> V): seq<Row<V>>
    requires |ids| == |texts|
  {
    if ids == [] then []
    else (if ids[0] in failed then [] else [Row(ids[0], vector(texts[0]))]) + RowsOf(ids[1..], texts[1..], failed, vector)
  }

  lemma {:induction false} RowsOfParts<T, V>(
    ids: seq<nat>, texts: seq<T>, more: seq<nat>, moreTexts: seq<T>, failed: set<nat>, vector: T -> V)
    requires |ids| == |texts| && |more| == |moreTexts|
    ensures RowsOf(ids + more, texts + moreTexts, failed, vector) ==
            RowsOf(ids, texts, failed, vector) + RowsOf(more, moreTexts, failed, vector)
  {
    if ids == [] {
      assert ids + more == more && texts + moreTexts == moreTexts;
    } else {
      var first := if ids[0] in failed then [] else [Row(ids[0], vector(texts[0]))];
      var rest, moreRows := RowsOf(ids[1..], texts[1..], failed, vector), RowsOf(more, moreTexts, failed, vector);
      RowsOfParts(ids[1..], texts[1..], more, moreTexts, failed, vector);
      assert (ids + more)[1..] == ids[1..] + more && (texts + moreTexts)[1..] == texts[1..] + moreTexts;
      assert first + (rest + moreRows) == first + rest + moreRows;
    }
  }

  /** Only failures among the ids matter. */
  lemma {:induction false} RowsOfSame<T, V>(ids: seq<nat>, texts: seq<T>, failed: set<nat>, other: set<nat>, vector: T -> V)
    requires |ids| == |texts| && forall d :: d in ids ==> (d in failed <==> d in other)
    ensures RowsOf(ids, texts, failed, vector) == RowsOf(ids, texts, other, vector)
  {
    if ids != [] {
      assert ids[0] in ids;
      assert forall d :: d in ids[1..] ==> d in ids;
      RowsOfSame(ids[1..], texts[1..], failed, other, vector);
    }
  }

  lemma HalvesAreDistinct(ids: seq<nat>, middle: nat)
    requires Distinct(ids) && middle <= |ids|
    ensures Distinct(ids[..middle]) && Distinct(ids[middle..])
    ensures forall d :: (d in ids[..middle] ==> d in ids && d !in ids[middle..]) && (d in ids[middle..] ==> d in ids)
  {
    var left, right := ids[..middle], ids[middle..];
    forall d | d in left ensures d in ids && d !in right {
      var i :| 0 <= i < |left| && left[i] == d;
      assert ids[i] == d && forall k :: 0 <= k < |right| ==> right[k] == ids[middle + k];
    }
  }

  /** The rows of two parts together, each without its failures. */
  lemma PartsJoin<T, V>(
    left: seq<nat>, leftTexts: seq<T>, leftFailed: seq<nat>, right: seq<nat>, rightTexts: seq<T>, rightFailed: seq<nat>,
    vector: T -> V)
    requires |left| == |leftTexts| && |right| == |rightTexts| && forall d :: d in left ==> d !in right
    requires forall d :: d in leftFailed ==> d in left
    requires forall d :: d in rightFailed ==> d in right
    ensures RowsOf(left + right, leftTexts + rightTexts, Elements(leftFailed + rightFailed), vector) ==
            RowsOf(left, leftTexts, Elements(leftFailed), vector) + RowsOf(right, rightTexts, Elements(rightFailed), vector)
  {
    var failed := Elements(leftFailed + rightFailed);
    RowsOfSame(left, leftTexts, Elements(leftFailed), failed, vector);
    RowsOfSame(right, rightTexts, Elements(rightFailed), failed, vector);
    RowsOfParts(left, leftTexts, right, rightTexts, failed, vector);
  }

  /** Every id ends in a row or among the failed, not both. */
  lemma {:induction false} RowsAndFailures<T, V(!new)>(ids: seq<nat>, texts: seq<T>, failed: set<nat>, vector: T -> V)
    requires |ids| == |texts| && Distinct(ids)
    ensures var rows := RowsOf(ids, texts, failed, vector);
            Docs(rows) == Elements(ids) - failed && OneRowPerDoc(rows)
  {
    var rows := RowsOf(ids, texts, failed, vector);
    if ids == [] {
      assert Docs(rows) == {};
    } else {
      var rest := RowsOf(ids[1..], texts[1..], failed, vector);
      RowsAndFailures(ids[1..], texts[1..], failed, vector);
      assert Elements(ids) == Elements(ids[1..]) + {ids[0]};
      assert ids[0] !in ids[1..];
      if ids[0] in failed {
        assert rows == rest;
      } else {
        FirstRow(Row(ids[0], vector(texts[0])), rest);
      }
    }
  }

  lemma FirstRow<V(!new)>(first: Row<V>, rest: seq<Row<V>>)
    requires OneRowPerDoc(rest) && first.doc !in Docs(rest)
    ensures OneRowPerDoc([first] + rest) && Docs([first] + rest) == {first.doc} + Docs(rest)
  {
    var rows := [first] + rest;
    forall i, j | 0 <= i < j < |rows| ensures rows[i].doc != rows[j].doc {
      assert rows[j] == rest[j - 1] && rest[j - 1].doc in Docs(rest);
      if i > 0 { assert rows[i] == rest[i - 1]; }
    }
    forall d ensures d in Docs(rows) <==> d == first.doc || d in Docs(rest) {
      assert rows[0] == first;
      if d in Docs(rest) {
        var k :| 0 <= k < |rest| && rest[k].doc == d;
        assert rows[k + 1].doc == d;
      }
      if d in Docs(rows) && d != first.doc {
        var k :| 0 <= k < |rows| && rows[k].doc == d;
        assert rest[k - 1].doc == d;
      }
    }
  }

  /** The documents of a list, each in a row or skipped, not both; nothing else is touched. */
  ghost predicate Settled<V(!new)>(docs: seq<nat>, rows: seq<Row<V>>, before: set<nat>, after: set<nat>)
  {
    && OneRowPerDoc(rows) && Docs(rows) <= Elements(docs) && Docs(rows) !! after
    && before <= after <= before + Elements(docs)
    && Elements(docs) <= Docs(rows) + after
  }

  lemma ConcatRows<V(!new)>(a: seq<Row<V>>, b: seq<Row<V>>)
    requires OneRowPerDoc(a) && OneRowPerDoc(b) && Docs(a) !! Docs(b)
    ensures OneRowPerDoc(a + b) && Docs(a + b) == Docs(a) + Docs(b)
  {
    var all := a + b;
    forall k | 0 <= k < |all| ensures if k < |a| then all[k].doc in Docs(a) else all[k].doc in Docs(b) {
      assert k < |a| ==> all[k] == a[k];
      assert k >= |a| ==> all[k] == b[k - |a|];
    }
    forall d ensures d in Docs(all) <==> d in Docs(a) || d in Docs(b) {
      if d in Docs(a) {
        var k :| 0 <= k < |a| && a[k].doc == d;
        assert all[k].doc == d;
      }
      if d in Docs(b) {
        var k :| 0 <= k < |b| && b[k].doc == d;
        assert all[|a| + k].doc == d;
      }
    }
  }

  lemma ElementsConcat(a: seq<nat>, b: seq<nat>)
    ensures Elements(a + b) == Elements(a) + Elements(b)
  {
  }

  /** A batch settled after the documents before it. */
  lemma SettleMore<V(!new)>(
    docs: seq<nat>, rows: seq<Row<V>>, more: seq<nat>, moreRows: seq<Row<V>>, before: set<nat>, middle: set<nat>, after: set<nat>)
    requires Settled(docs, rows, before, middle) && Settled(more, moreRows, middle, after)
    requires Elements(docs) !! Elements(more)
    ensures Settled(docs + more, rows + moreRows, before, after)
  {
    ConcatRows(rows, moreRows);
    ElementsConcat(docs, more);
  }

  /** The documents without a text. */
  ghost function Textless<T(!new)>(docs: seq<nat>, text: nat -> Option<T>): set<nat>
  {
    set d | d in docs && text(d).None?
  }

  lemma TextlessConcat<T(!new)>(a: seq<nat>, b: seq<nat>, text: nat -> Option<T>)
    ensures Textless(a + b, text) == Textless(a, text) + Textless(b, text)
  {
  }

  /** What is skipped after one batch more. */
  lemma BatchSkips<T(!new)>(
      missing: seq<nat>, at: nat, end: nat, text: nat -> Option<T>, start: set<nat>, before: set<nat>, now: set<nat>,
      begun: seq<seq<nat>>, sofar: seq<seq<nat>>, asked: seq<seq<nat>>, reply: nat -> Reply, ok: bool)
    requires at <= end <= |missing|
    requires Went(begun, sofar, reply, Isolated(sofar, reply, |begun|, |sofar|), true)
    requires Went(sofar, asked, reply, Isolated(asked, reply, |sofar|, |asked|), ok)
    requires before == start + Textless(missing[..at], text) + Isolated(sofar, reply, |begun|, |sofar|)
    requires now == before + Textless(missing[at..end], text) + Isolated(asked, reply, |sofar|, |asked|)
    ensures Went(begun, asked, reply, Isolated(asked, reply, |begun|, |asked|), ok)
    ensures now == start + Textless(missing[..end], text) + Isolated(asked, reply, |begun|, |asked|)
  {
    assert missing[..at] + missing[at..end] == missing[..end];
    TextlessConcat(missing[..at], missing[at..end], text);
    WentOn(begun, sofar, asked, reply, Isolated(sofar, reply, |begun|, |sofar|),
           Isolated(asked, reply, |sofar|, |asked|), ok);
  }

  /** Each row has the vector of its document's text. */
  ghost predicate CarriesVectors<T, V(!new)>(rows: seq<Row<V>>, text: nat -> Option<T>, vector: T -> V)
  {
    forall r :: r in rows ==> text(r.doc).Some? && r.vector == vector(text(r.doc).value)
  }

  class EmbeddingJob<T(0,!new), V(!new)> {
    var skipped: set<nat>
    /** Calls of the model so far, and the ids of each. */
    var calls: nat
    ghost var asked: seq<seq<nat>>

    ghost predicate Valid()
      reads this
    {
      |asked| == calls
    }

    constructor ()
      ensures Valid() && skipped == {} && calls == 0
    {
      skipped, calls, asked := {}, 0, [];
    }

    /** Embeds the texts, splitting a group the model fails on until the bad texts are alone. Such a text
        is left out if the model still works on the probe text; otherwise the round fails. */
    method EmbedIsolating(ids: seq<nat>, texts: seq<T>, vector: T -> V, reply: nat -> Reply)
      returns (rows: Option<seq<Row<V>>>, failed: seq<nat>)
      requires Valid() && |ids| == |texts| > 0 && Distinct(ids)
      modifies `calls, `asked
      ensures Valid() && Went(old(asked), asked, reply, Elements(failed), rows.Some?)
      ensures forall d :: d in failed ==> d in ids
      ensures rows.Some? ==> rows.value == RowsOf(ids, texts, Elements(failed), vector)
      decreases |ids|
    {
      failed := [];
      var answer := reply(calls);
      WentOnce(asked, ids, reply);
      calls, asked := calls + 1, asked + [ids];
      ghost var first := asked;
      match answer {
        case Embedded =>
          var made: seq<Row<V>> := [];
          for k := 0 to |ids|
            invariant Valid() && asked == first
            invariant made == RowsOf(ids[..k], texts[..k], {}, vector)
          {
            RowsOfParts(ids[..k], texts[..k], [ids[k]], [texts[k]], {}, vector);
            assert ids[..k + 1] == ids[..k] + [ids[k]] && texts[..k + 1] == texts[..k] + [texts[k]];
            assert [ids[k]][1..] == [] && [texts[k]][1..] == [];
            made := made + [Row(ids[k], vector(texts[k]))];
          }
          assert ids[..|ids|] == ids && texts[..|texts|] == texts && Elements<nat>([]) == {};
          rows := Some(made);
        case WrongCount =>
          rows := None;
          assert Elements<nat>([]) == {};
        case ModelFailed =>
          if |texts| == 1 {
            assert ids == [ids[0]];
            WentProbing(old(asked), ids[0], reply);
            var probe := reply(calls);
            calls, asked := calls + 1, asked + [[]];
            assert Elements<nat>([]) == {} && Elements([ids[0]]) == {ids[0]};
            if probe == ModelFailed { return None, []; }
            failed := [ids[0]];
            assert ids[1..] == [] && texts[1..] == [];
            assert ids[0] in Elements(failed);
            rows := Some([]);
          } else {
            rows, failed := EmbedHalves(ids, texts, vector, reply);
            WentOn(old(asked), first, asked, reply, {}, Elements(failed), rows.Some?);
            assert {} + Elements(failed) == Elements(failed);
          }
      }
    }

    method EmbedHalves(ids: seq<nat>, texts: seq<T>, vector: T -> V, reply: nat -> Reply)
      returns (rows: Option<seq<Row<V>>>, failed: seq<nat>)
      requires Valid() && |ids| == |texts| > 1 && Distinct(ids)
      modifies `calls, `asked
      ensures Valid() && Went(old(asked), asked, reply, Elements(failed), rows.Some?)
      ensures forall d :: d in failed ==> d in ids
      ensures rows.Some? ==> rows.value == RowsOf(ids, texts, Elements(failed), vector)
      decreases |ids|, 0
    {
      var middle := |texts| / 2;
      var left, right;
      ghost var leftIds, rightIds := ids[..middle], ids[middle..];
      HalvesAreDistinct(ids, middle);
      left, failed := EmbedIsolating(ids[..middle], texts[..middle], vector, reply);
      if left.None? { return None, failed; }
      ghost var leftFailed, leftAsked := failed, asked;
      var rightFailed;
      right, rightFailed := EmbedIsolating(ids[middle..], texts[middle..], vector, reply);
      WentOn(old(asked), leftAsked, asked, reply, Elements(failed), Elements(rightFailed), right.Some?);
      ElementsConcat(failed, rightFailed);
      failed := failed + rightFailed;
      if right.None? { return None, failed; }
      rows := Some(left.value + right.value);
      PartsJoin(leftIds, texts[..middle], leftFailed, rightIds, texts[middle..], rightFailed, vector);
      assert leftIds + rightIds == ids && texts[..middle] + texts[middle..] == texts;
    }

    /** The texts of a batch; documents without one are skipped. */
    method LoadTexts(batch: seq<nat>, text: nat -> Option<T>) returns (ids: seq<nat>, texts: seq<T>)
      requires Distinct(batch)
      modifies `skipped
      ensures |ids| == |texts| && Distinct(ids)
      ensures forall k :: 0 <= k < |ids| ==> text(ids[k]) == Some(texts[k])
      ensures Elements(ids) == Elements(batch) - Textless(batch, text)
      ensures skipped == old(skipped) + Textless(batch, text)
    {
      ids, texts := [], [];
      for k := 0 to |batch|
        invariant |ids| == |texts| && Distinct(ids)
        invariant Elements(ids) == Elements(batch[..k]) - Textless(batch[..k], text)
        invariant forall j :: 0 <= j < |ids| ==> text(ids[j]) == Some(texts[j])
        invariant skipped == old(skipped) + Textless(batch[..k], text)
      {
        var doc := batch[k];
        assert batch[..k + 1] == batch[..k] + [doc];
        ElementsConcat(batch[..k], [doc]);
        TextlessConcat(batch[..k], [doc], text);
        assert Textless([doc], text) == if text(doc).None? then {doc} else {};
        assert doc !in batch[..k];
        assert doc !in Elements(batch[..k]);
        match text(doc) {
          case Some(t) =>
            assert forall j :: 0 <= j < |ids| ==> ids[j] in Elements(ids);
            ElementsConcat(ids, [doc]);
            ids, texts := ids + [doc], texts + [t];
          case None =>
            skipped := skipped + {doc};
        }
      }
      assert batch[..|batch|] == batch;
    }

    /** One batch: every document gets a row or is skipped, unless the model itself fails. */
    method EmbedBatch(batch: seq<nat>, text: nat -> Option<T>, vector: T -> V, reply: nat -> Reply)
      returns (rows: Option<seq<Row<V>>>)
      requires Valid() && Distinct(batch) && Elements(batch) !! skipped
      modifies this
      ensures Valid() && Went(old(asked), asked, reply, Isolated(asked, reply, |old(asked)|, |asked|), rows.Some?)
      ensures skipped == old(skipped) + Textless(batch, text) + Isolated(asked, reply, |old(asked)|, |asked|)
      ensures rows.Some? ==> Settled(batch, rows.value, old(skipped), skipped)
      ensures rows.Some? ==> CarriesVectors(rows.value, text, vector)
      ensures old(skipped) <= skipped <= old(skipped) + Elements(batch)
    {
      var ids, texts := LoadTexts(batch, text);
      if texts == [] {
        WentNowhere(asked, reply);
        assert Docs<V>([]) == {} && Elements(ids) == {};
        return Some([]);
      }
      var failed;
      rows, failed := EmbedIsolating(ids, texts, vector, reply);
      assert Elements(failed) <= Elements(ids);
      skipped := skipped + Elements(failed);
      if rows.Some? {
        RowsAndFailures(ids, texts, Elements(failed), vector);
        RowsCarryTexts(ids, texts, Elements(failed), text, vector);
      }
    }

    /** The batches of a task, until all are done, time is up or the model fails. Every document of a
        finished batch has a row or is skipped: the latter if it has no text or was isolated. */
    method EmbedBatches(
      missing: seq<nat>, batchSize: nat, stop: nat -> bool, text: nat -> Option<T>, vector: T -> V, reply: nat -> Reply)
      returns (newRows: seq<Row<V>>, finished: nat, failed: bool)
      requires Valid() && Ascending(missing) && batchSize > 0 && Elements(missing) !! skipped
      modifies this
      ensures Valid() && finished <= |missing| && OneRowPerDoc(newRows) && CarriesVectors(newRows, text, vector)
      ensures Docs(newRows) <= Elements(missing[..finished]) <= Docs(newRows) + skipped && Docs(newRows) !! skipped
      ensures old(skipped) <= skipped <= old(skipped) + Elements(missing)
      ensures !failed ==> finished == |missing| || stop(finished)
      ensures Went(old(asked), asked, reply, Isolated(asked, reply, |old(asked)|, |asked|), !failed)
      ensures var tried := if failed then Min(finished + batchSize, |missing|) else finished;
              skipped == old(skipped) + Textless(missing[..tried], text) + Isolated(asked, reply, |old(asked)|, |asked|)
    {
      newRows, finished, failed := [], 0, false;
      assert Docs(newRows) == {} && Elements(missing[..0]) == {} && Textless(missing[..0], text) == {};
      WentNowhere(asked, reply);
      while finished < |missing|
        invariant Valid() && finished <= |missing| && !failed && CarriesVectors(newRows, text, vector)
        invariant Settled(missing[..finished], newRows, old(skipped), skipped)
        invariant Went(old(asked), asked, reply, Isolated(asked, reply, |old(asked)|, |asked|), true)
        invariant skipped == old(skipped) + Textless(missing[..finished], text)
                             + Isolated(asked, reply, |old(asked)|, |asked|)
      {
        if stop(finished) { break; }
        var end := Min(finished + batchSize, |missing|);
        var batch := missing[finished..end];
        PartsAreApart(missing, finished, end);
        ghost var before, sofar := skipped, asked;
        var rows := EmbedBatch(batch, text, vector, reply);
        assert missing[..finished] + batch == missing[..end];
        BatchSkips(missing, finished, end, text, old(skipped), before, skipped, old(asked), sofar, asked, reply, rows.Some?);
        if rows.None? {
          failed := true;
          break;
        }
        SettleMore(missing[..finished], newRows, batch, rows.value, old(skipped), before, skipped);
        newRows, finished := newRows + rows.value, end;
      }
    }

    /** Rewrites the task's vector file with the new rows and installs it, if the segment is still live. */
    method Install(s: Shard<V>, task: Task, newRows: seq<Row<V>>, live: bool) returns (t: Shard<V>)
      requires OneRowPerDoc(newRows) && FilesAscend(s.files) && s.skipped <= skipped
      ensures FilesAscend(t.files) && t.skipped == skipped
      ensures live ==> Rewrites(s, t, task, newRows)
      ensures !live ==> t == s.(skipped := skipped)
    {
      t := s.(skipped := skipped);
      if newRows != [] && live {
        var key := (task.segment.id, task.xpath);
        var rows := WriteVectors(ExistingFile(s, task.segment.id, task.xpath), newRows);
        t := t.(files := s.files[key := VectorFile(s.model, rows)]);
      }
    }

    /** One round: `outcome` is how many documents it embedded, or none for an error. `None` for the task means
        nothing is left. Every document tried has its vector in the segment's file or is skipped; the round ends
        before all of the task is tried only if time is up or the model fails. A round that finishes a batch on
        a live segment leaves strictly less, and no round leaves more. */
    method Step(
      s: Shard<V>, fields: seq<nat>, config: Config, live: bool,
      stop: nat -> bool, text: nat -> Option<T>, vector: T -> V, reply: nat -> Reply)
      returns (t: Shard<V>, task: Option<Task>, finished: nat, outcome: Option<nat>, ghost newRows: seq<Row<V>>)
      requires Valid() && FilesAscend(s.files) && s.skipped == skipped
      modifies this
      ensures Valid() && FilesAscend(t.files) && t.skipped == skipped && old(asked) <= asked
      ensures task.None? <==> Left(s, s.segments, fields) == 0
      ensures task.None? ==> t == s && finished == 0
      ensures task.Some? ==> IsTask(s, fields, Sanitized(config).maxDocsPerRound, task.value)
      ensures task.Some? ==> IsRoundOf(task.value, newRows, finished, text, vector)
      ensures task.Some? && live ==> Rewrites(s, t, task.value, newRows)
      ensures task.Some? && !live ==> t == s.(skipped := skipped)
      ensures var failed := !NoneBreaks(asked, reply, |old(asked)|, |asked|);
              && (task.Some? && finished < |task.value.missing| ==> failed || stop(finished))
              && (task.Some? ==> outcome == if newRows != [] && !live then Some(0)
                                            else if failed && newRows == [] then None else Some(|newRows|))
      ensures Left(t, t.segments, fields) <= Left(s, s.segments, fields)
      ensures live && finished > 0 ==> Left(t, t.segments, fields) < Left(s, s.segments, fields)
    {
      newRows, outcome := [], Some(0);
      var Config(maxDocs, batchSize) := Sanitized(config);
      task := NextTask(s, fields, maxDocs);
      if task.None? { return s, None, 0, Some(0), []; }
      var missing := task.value.missing;
      NoneSkipped(s, fields, maxDocs, task.value);
      var rows, failed;
      rows, finished, failed := EmbedBatches(missing, batchSize, stop, text, vector, reply);
      newRows := rows;
      t := Install(s, task.value, rows, live);
      outcome := if rows != [] && !live then Some(0) else if failed && rows == [] then None else Some(|rows|);
      RoundLeavesLess(s, t, fields, maxDocs, task.value, rows, finished, live);
    }

    /** The rows of a round are the vectors of the documents tried that were not skipped. */
    ghost predicate IsRoundOf(task: Task, newRows: seq<Row<V>>, finished: nat, text: nat -> Option<T>, vector: T -> V)
      reads this
    {
      && finished <= |task.missing| && OneRowPerDoc(newRows) && CarriesVectors(newRows, text, vector)
      && Docs(newRows) == Elements(task.missing[..finished]) - skipped
    }

    /** Rounds until nothing is left or a round finishes no batch: at most as many as vectors are missing. It
        stalls only if a segment is gone, time is up or the model fails. */
    method EmbedAll(
      s: Shard<V>, fields: seq<nat>, config: Config, live: nat -> bool,
      stop: nat -> bool, text: nat -> Option<T>, vector: T -> V, reply: nat -> Reply)
      returns (t: Shard<V>, rounds: nat, stalled: bool)
      requires Valid() && FilesAscend(s.files) && s.skipped == skipped
      modifies this
      ensures Valid() && rounds + Left(t, t.segments, fields) <= Left(s, s.segments, fields)
      ensures !stalled ==> Left(t, t.segments, fields) == 0
      ensures stalled ==> !live(rounds) || stop(0) || !NoneBreaks(asked, reply, |old(asked)|, |asked|)
    {
      t, rounds, stalled := s, 0, false;
      while true
        invariant Valid() && FilesAscend(t.files) && t.skipped == skipped && old(asked) <= asked
        invariant rounds + Left(t, t.segments, fields) <= Left(s, s.segments, fields)
        decreases Left(t, t.segments, fields)
      {
        ghost var before, rows := asked, [];
        var task, finished, outcome;
        t, task, finished, outcome, rows := Step(t, fields, config, live(rounds), stop, text, vector, reply);
        if task.None? { return; }
        if finished == 0 || !live(rounds) {
          stalled := true;
          BreaksSince(asked, reply, |old(asked)|, |before|);
          return;
        }
        rounds := rounds + 1;
      }
    }
  }

  lemma BreaksSince(asked: seq<seq<nat>>, reply: nat -> Reply, first: nat, later: nat)
    requires first <= later
    ensures NoneBreaks(asked, reply, first, |asked|) ==> NoneBreaks(asked, reply, later, |asked|)
  {
  }

  lemma RoundLeavesLess<V(!new)>(
      s: Shard<V>, t: Shard<V>, fields: seq<nat>, maxDocs: nat, task: Task, newRows: seq<Row<V>>, finished: nat, live: bool)
    requires IsTask(s, fields, maxDocs, task) && finished <= |task.missing|
    requires OneRowPerDoc(newRows) && Elements(task.missing[..finished]) <= Docs(newRows) + t.skipped
    requires s.skipped <= t.skipped && if live then Rewrites(s, t, task, newRows) else t == s.(skipped := t.skipped)
    ensures Left(t, t.segments, fields) <= Left(s, s.segments, fields)
    ensures live && finished > 0 ==> Left(t, t.segments, fields) < Left(s, s.segments, fields)
  {
    assert finished > 0 ==> task.missing[..finished][0] == task.missing[0];
    if live {
      RoundMakesProgress(s, t, fields, maxDocs, task, newRows);
    } else {
      SkippingAdvances(s, t, fields);
    }
  }

  ghost predicate FilesAscend<V(!new)>(files: Files<V>) { forall key :: key in files ==> RowsAscend(files[key].rows) }

  lemma NoneSkipped<V(!new)>(s: Shard<V>, fields: seq<nat>, maxDocs: nat, task: Task)
    requires IsTask(s, fields, maxDocs, task)
    ensures Elements(task.missing) !! s.skipped
  {
    forall d | d in task.missing ensures d !in s.skipped { assert d in Missing(s, task.segment, task.xpath); }
  }

  lemma SkippingAdvances<V(!new)>(s: Shard<V>, t: Shard<V>, fields: seq<nat>)
    requires t == s.(skipped := t.skipped) && s.skipped <= t.skipped
    ensures Left(t, t.segments, fields) <= Left(s, s.segments, fields)
  {
    assert forall segment: nat, x: nat :: ExistingFile(t, segment, x) == ExistingFile(s, segment, x);
    LeftShrinks(s, t, s.segments, fields, Segment(0, [], 0), 0, 0);
  }

  lemma PartsAreApart(docs: seq<nat>, at: nat, end: nat)
    requires Ascending(docs) && at <= end <= |docs|
    ensures Distinct(docs[at..end]) && Elements(docs[..at]) !! Elements(docs[at..end])
    ensures Elements(docs[at..end]) <= Elements(docs) && Elements(docs[..at]) <= Elements(docs)
  {
    var part := docs[at..end];
    assert forall k :: 0 <= k < |part| ==> part[k] == docs[at + k];
    forall d | d in docs[..at] ensures d !in part {
      var i :| 0 <= i < at && docs[i] == d;
      assert forall k :: 0 <= k < |part| ==> d < part[k];
    }
  }

  lemma {:induction false} RowsCarryTexts<T, V(!new)>(
    ids: seq<nat>, texts: seq<T>, failed: set<nat>, text: nat -> Option<T>, vector: T -> V)
    requires |ids| == |texts| && forall k :: 0 <= k < |ids| ==> text(ids[k]) == Some(texts[k])
    ensures CarriesVectors(RowsOf(ids, texts, failed, vector), text, vector)
  {
    if ids != [] { RowsCarryTexts(ids[1..], texts[1..], failed, text, vector); }
  }
}
