/** The segment list is ordered by when its data was queued or added. */
module LsmOrder {
  import opened Lists
  import opened LsmState
  import opened LsmInvariants
  import opened LsmCompaction

  ghost predicate Sorted(ages: seq<Span>)
  {
    && (forall k :: 0 <= k < |ages| ==> ages[k].first <= ages[k].last)
    && forall i, j :: 0 <= i < j < |ages| ==> ages[i].last < ages[j].first
  }

  /** `addedAfter` counts the live segments newer than the flush: they are the last ones. */
  ghost predicate Placed(ages: seq<Span>, p: PendingFlush)
  {
    && p.addedAfter <= |ages|
    && (forall k :: 0 <= k < |ages| - p.addedAfter ==> ages[k].last < p.queuedAt)
    && (forall k :: |ages| - p.addedAfter <= k < |ages| ==> p.queuedAt < ages[k].first)
  }

  ghost predicate AllPlaced(ages: seq<Span>, pending: seq<PendingFlush>)
  {
    forall k :: 0 <= k < |pending| ==> Placed(ages, pending[k])
  }

  ghost predicate InQueueOrder(pending: seq<PendingFlush>)
  {
    forall i, j :: 0 <= i < j < |pending| ==> pending[i].queuedAt < pending[j].queuedAt
  }

  ghost predicate BeforeClock(s: Lsm)
  {
    && (forall k :: 0 <= k < |s.ages| ==> s.ages[k].last < s.clock)
    && (forall k :: 0 <= k < |s.pending| ==> s.pending[k].queuedAt < s.clock)
  }

  ghost predicate Ordered(s: Lsm)
  {
    SameLengths(s) && Sorted(s.ages) && AllPlaced(s.ages, s.pending) && InQueueOrder(s.pending) && BeforeClock(s)
  }

  // ---------------------------------------------------------------------------------------
  // Flushes and added segments.
  // ---------------------------------------------------------------------------------------

  lemma InsertKeepsSorted(ages: seq<Span>, at: nat, age: Span)
    requires Sorted(ages) && at <= |ages| && age.first <= age.last
    requires forall k :: 0 <= k < at ==> ages[k].last < age.first
    requires forall k :: at <= k < |ages| ==> age.last < ages[k].first
    ensures Sorted(InsertAt(ages, at, age))
  {
    var r := InsertAt(ages, at, age);
    forall i, j | 0 <= i < j < |r| ensures r[i].last < r[j].first {
      assert i != at ==> r[i] == ages[if i < at then i else i - 1];
      assert j != at ==> r[j] == ages[if j < at then j else j - 1];
    }
  }

  /** An older flush that completes goes before the newer ones still pending. */
  lemma InsertKeepsPlaced(ages: seq<Span>, at: nat, age: Span, p: PendingFlush)
    requires Placed(ages, p) && at <= |ages| - p.addedAfter && age.last < p.queuedAt
    ensures Placed(InsertAt(ages, at, age), p)
  {
    var r := InsertAt(ages, at, age);
    forall k | 0 <= k < |r| - p.addedAfter ensures r[k].last < p.queuedAt {
      assert k != at ==> r[k] == ages[if k < at then k else k - 1];
    }
  }

  lemma CompleteKeepsOrder(s: Lsm, t: Lsm, ok: bool)
    requires Ordered(s) && Completes(s, t, ok)
    ensures Ordered(t)
  {
    var p := s.pending[0];
    var at, age := FlushPosition(s, p), Span(p.queuedAt, p.queuedAt);
    assert Placed(s.ages, p);
    InsertKeepsSorted(s.ages, at, age);
    forall k | 0 <= k < |t.pending| ensures Placed(t.ages, t.pending[k]) {
      var q := s.pending[k + 1];
      assert Placed(s.ages, q) && p.queuedAt < q.queuedAt;
      OlderFlushGoesFirst(s.ages, p, q);
      InsertKeepsPlaced(s.ages, at, age, q);
    }
  }

  lemma OlderFlushGoesFirst(ages: seq<Span>, p: PendingFlush, q: PendingFlush)
    requires Sorted(ages) && Placed(ages, p) && Placed(ages, q) && p.queuedAt < q.queuedAt
    ensures q.addedAfter <= p.addedAfter
  {
    var k := |ages| - q.addedAfter;
    assert q.addedAfter > 0 ==> q.queuedAt < ages[k].first <= ages[k].last;
  }

  lemma PushKeepsOrder(s: Lsm, t: Lsm, docs: Mem)
    requires Ordered(s) && Pushes(s, t, docs)
    ensures Ordered(t)
  {
    var age := Span(s.clock, s.clock);
    assert t.ages == InsertAt(s.ages, |s.ages|, age);
    InsertKeepsSorted(s.ages, |s.ages|, age);
    forall k | 0 <= k < |t.pending| ensures Placed(t.ages, t.pending[k]) {
      assert Placed(s.ages, s.pending[k]);
    }
  }

  lemma EnqueueKeepsOrder(s: Lsm)
    requires Ordered(s) && s.persistent
    ensures Ordered(Enqueue(s))
  {
    var t := Enqueue(s);
    forall k | 0 <= k < |t.pending| ensures Placed(t.ages, t.pending[k]) {
      if k < |s.pending| { assert Placed(s.ages, s.pending[k]); }
    }
  }

  // ---------------------------------------------------------------------------------------
  // Merges.
  // ---------------------------------------------------------------------------------------

  /** The inputs of a merge stand next to each other. */
  ghost predicate Contiguous(positions: set<nat>)
  {
    forall i, k, j :: i in positions && j in positions && i < k < j ==> k in positions
  }

  /** No input of a merge is newer than a pending flush. */
  ghost predicate OlderThanPending(s: Lsm, positions: set<nat>)
  {
    forall n, k :: 0 <= n < |s.pending| && k in positions ==> k < |s.handles| - s.pending[n].addedAfter
  }

  lemma {:induction false} KeptBesideWindow(n: nat, gone: set<nat>, first: nat, last: nat)
    requires first <= last && forall k: nat :: k < n ==> (k in gone <==> first <= k <= last)
    ensures var kept := Kept(n, gone);
            && |kept| == (if n <= first then n else if n <= last then first else n - (last - first + 1))
            && forall k :: 0 <= k < |kept| ==> kept[k] == if k < first then k else k + (last - first + 1)
    decreases n
  {
    if n > 0 { KeptBesideWindow(n - 1, gone, first, last); }
  }

  /** `window` of the list replaced by one. */
  ghost predicate Collapsed<T>(xs: seq<T>, ys: seq<T>, first: nat, last: nat, y: T)
  {
    && first <= last < |xs| && |ys| == |xs| - (last - first)
    && (forall k :: 0 <= k < first ==> ys[k] == xs[k])
    && ys[first] == y
    && (forall k :: first < k < |ys| ==> ys[k] == xs[k + (last - first)])
  }

  lemma PickBesideWindow<T>(xs: seq<T>, gone: set<nat>, first: nat, last: nat, y: T)
    requires first <= last < |xs| && forall k: nat :: k < |xs| ==> (k in gone <==> first <= k <= last)
    ensures first <= |Kept(|xs|, gone)|
    ensures Collapsed(xs, InsertAt(Pick(xs, Kept(|xs|, gone)), first, y), first, last, y)
  {
    KeptBesideWindow(|xs|, gone, first, last);
  }

  ghost predicate IsWindow(positions: set<nat>, first: nat, last: nat)
  {
    first <= last && forall k: nat :: k in positions <==> first <= k <= last
  }

  lemma ContiguousIsWindow(positions: set<nat>, first: nat, last: nat)
    requires IsFirst(positions, first) && IsLast(positions, last) && Contiguous(positions)
    ensures IsWindow(positions, first, last)
  {
    forall k: nat ensures k in positions <==> first <= k <= last {
      if first < k < last { assert k in positions; }
    }
  }

  /** A merge of neighbours leaves the list with the neighbours collapsed. */
  lemma MergeOfNeighbours(s: Lsm, j: nat) returns (first: nat, last: nat)
    requires Installable(s, j) && Contiguous(Positions(s, s.jobs[j]))
    ensures IsWindow(Positions(s, s.jobs[j]), first, last) && last < |s.handles|
    ensures Collapsed(s.ages, Merged(s, j).ages, first, last, Span(s.ages[first].first, s.ages[last].last))
    ensures Collapsed(s.handles, Merged(s, j).handles, first, last, Disk(s.jobs[j].output))
  {
    var positions := Positions(s, s.jobs[j]);
    var kept;
    first, last, kept := MergedLists(s, j);
    ContiguousIsWindow(positions, first, last);
    PickBesideWindow(s.ages, positions, first, last, Span(s.ages[first].first, s.ages[last].last));
    PickBesideWindow(s.handles, positions, first, last, Disk(s.jobs[j].output));
  }

  lemma CollapseKeepsSorted(ages: seq<Span>, after: seq<Span>, first: nat, last: nat)
    requires first <= last < |ages| && Sorted(ages)
    requires Collapsed(ages, after, first, last, Span(ages[first].first, ages[last].last))
    ensures Sorted(after)
  {
    var w := last - first;
    assert ages[first].first <= ages[last].last;
    forall i, j | 0 <= i < j < |after| ensures after[i].last < after[j].first {
      assert after[i].last == ages[if i < first then i else i + w].last;
      assert after[j].first == ages[if j <= first then j else j + w].first;
    }
  }

  lemma CollapseKeepsPlaced(ages: seq<Span>, after: seq<Span>, first: nat, last: nat, p: PendingFlush)
    requires first <= last < |ages| && Placed(ages, p) && last < |ages| - p.addedAfter
    requires Collapsed(ages, after, first, last, Span(ages[first].first, ages[last].last))
    ensures Placed(after, p)
  {
    var w := last - first;
    forall k | 0 <= k < |after| - p.addedAfter ensures after[k].last < p.queuedAt {
      assert after[k].last == ages[if k < first then k else k + w].last;
    }
    forall k | |after| - p.addedAfter <= k < |after| ensures p.queuedAt < after[k].first {
      assert after[k] == ages[k + w];
    }
  }

  /** Collapsing segments newer than a pending flush makes its count wrong. */
  lemma CollapseMisplaces(ages: seq<Span>, after: seq<Span>, first: nat, last: nat, p: PendingFlush)
    requires first < last < |ages| && Sorted(ages) && Placed(ages, p) && |ages| - p.addedAfter <= last
    requires Collapsed(ages, after, first, last, Span(ages[first].first, ages[last].last))
    ensures !Placed(after, p)
  {
    var cut := |after| - p.addedAfter;
    assert p.queuedAt < ages[last].first <= ages[last].last;
    if first < |ages| - p.addedAfter {
      assert ages[first].first <= ages[first].last < p.queuedAt;
      assert after[first] == Span(ages[first].first, ages[last].last);
    } else if cut >= 0 {
      assert after[cut] == ages[cut] && ages[cut].first <= ages[cut].last;
    }
  }

  /** A segment between the inputs ends up after data newer than its own. */
  lemma GapBreaksOrder(s: Lsm, j: nat)
    requires Installable(s, j) && Sorted(s.ages) && !Contiguous(Positions(s, s.jobs[j]))
    ensures !Sorted(Merged(s, j).ages)
  {
    var positions, after := Positions(s, s.jobs[j]), Merged(s, j).ages;
    var first, last, kept := MergedLists(s, j);
    GapBreaksSpan(s.ages, positions, first, last, kept, after);
  }

  lemma GapBreaksSpan(
    ages: seq<Span>, positions: set<nat>, first: nat, last: nat, kept: seq<nat>, after: seq<Span>)
    requires Sorted(ages) && IsFirst(positions, first) && IsLast(positions, last) && last < |ages|
    requires first <= |kept| && (forall k :: 0 <= k < |kept| ==> kept[k] < |ages|)
    requires forall k :: 0 <= k < first ==> kept[k] == k
    requires forall k: nat :: k < |ages| && k !in positions ==> k in kept
    requires after == InsertAt(Pick(ages, kept), first, Span(ages[first].first, ages[last].last))
    requires !Contiguous(positions)
    ensures !Sorted(after)
  {
    var i, k, l :| i in positions && l in positions && i < k < l && k !in positions;
    var x :| 0 <= x < |kept| && kept[x] == k;
    assert first <= x;
    assert after[x + 1] == ages[k] && after[first].last == ages[last].last;
    assert ages[k].first <= ages[k].last < ages[last].first <= ages[last].last;
    assert first < x + 1;
  }

  /** A merge keeps the order exactly if its inputs are neighbours and, unless there is only one, none
      is newer than a pending flush. */
  lemma MergeKeepsOrderIff(s: Lsm, j: nat)
    requires Installable(s, j) && Ordered(s)
    ensures var positions := Positions(s, s.jobs[j]);
            Ordered(Merged(s, j)) <==> Contiguous(positions) && (|positions| == 1 || OlderThanPending(s, positions))
  {
    if Contiguous(Positions(s, s.jobs[j])) {
      NeighboursKeepOrderIff(s, j);
    } else {
      GapBreaksOrder(s, j);
    }
  }

  lemma NeighboursKeepOrderIff(s: Lsm, j: nat)
    requires Installable(s, j) && Ordered(s) && Contiguous(Positions(s, s.jobs[j]))
    ensures var positions := Positions(s, s.jobs[j]);
            Ordered(Merged(s, j)) <==> |positions| == 1 || OlderThanPending(s, positions)
  {
    var first, last := MergeOfNeighbours(s, j);
    MergedSegments(s, j);
    WindowSize(Positions(s, s.jobs[j]), first, last);
    WindowIsOlder(s, Positions(s, s.jobs[j]), first, last);
    CollapsedOrderedIff(s, Merged(s, j), first, last);
  }

  /** The last segment of the window is older than every pending flush. */
  ghost predicate LastIsOlder(s: Lsm, last: nat)
  {
    forall n :: 0 <= n < |s.pending| ==> last < |s.handles| - s.pending[n].addedAfter
  }

  lemma WindowIsOlder(s: Lsm, positions: set<nat>, first: nat, last: nat)
    requires IsWindow(positions, first, last)
    ensures OlderThanPending(s, positions) <==> LastIsOlder(s, last)
  {
    assert last in positions;
  }

  lemma CollapsedOrderedIff(s: Lsm, t: Lsm, first: nat, last: nat)
    requires Ordered(s) && SameLengths(t) && t.pending == s.pending && t.clock == s.clock && first <= last < |s.ages|
    requires Collapsed(s.ages, t.ages, first, last, Span(s.ages[first].first, s.ages[last].last))
    ensures Ordered(t) <==> first == last || LastIsOlder(s, last)
  {
    CollapseKeepsSorted(s.ages, t.ages, first, last);
    if first == last {
      assert t.ages == s.ages;
    } else if LastIsOlder(s, last) {
      CollapsedStaysOrdered(s, t, first, last);
    } else {
      var n :| 0 <= n < |s.pending| && last >= |s.handles| - s.pending[n].addedAfter;
      assert Placed(s.ages, s.pending[n]);
      CollapseMisplaces(s.ages, t.ages, first, last, s.pending[n]);
    }
  }

  lemma CollapsedStaysOrdered(s: Lsm, t: Lsm, first: nat, last: nat)
    requires Ordered(s) && SameLengths(t) && t.pending == s.pending && t.clock == s.clock && last < |s.ages|
    requires Sorted(t.ages) && first <= last
    requires Collapsed(s.ages, t.ages, first, last, Span(s.ages[first].first, s.ages[last].last))
    requires LastIsOlder(s, last)
    ensures Ordered(t)
  {
    forall n | 0 <= n < |t.pending| ensures Placed(t.ages, t.pending[n]) {
      assert Placed(s.ages, s.pending[n]);
      CollapseKeepsPlaced(s.ages, t.ages, first, last, s.pending[n]);
    }
    forall k | 0 <= k < |t.ages| ensures t.ages[k].last < t.clock {
      assert t.ages[k].last == s.ages[if k < first then k else k + (last - first)].last;
    }
  }

  lemma WindowSize(positions: set<nat>, first: nat, last: nat)
    requires IsWindow(positions, first, last)
    ensures |positions| == 1 <==> first == last
  {
    if first == last {
      assert positions == {first};
    } else {
      assert {first, last} <= positions;
      assert |positions| == |positions - {first, last}| + |{first, last}|;
    }
  }

  // ---------------------------------------------------------------------------------------
  // What a merge does to the order the list has once the pending flushes are in it.
  // ---------------------------------------------------------------------------------------

  /** Where a flush goes in a list of this length. */
  function PositionIn(length: nat, p: PendingFlush): (at: nat)
    ensures at <= length
  {
    if p.addedAfter <= length then length - p.addedAfter else 0
  }

  /** The list after all pending flushes completed, oldest first. */
  function Drained(ages: seq<Span>, pending: seq<PendingFlush>): seq<Span>
    decreases |pending|
  {
    if pending == [] then ages
    else
      var p := pending[0];
      Drained(InsertAt(ages, PositionIn(|ages|, p), Span(p.queuedAt, p.queuedAt)), pending[1..])
  }

  /** Completes every pending flush; `ok` says how each write ends. */
  function CompleteAll(s: Lsm, ok: nat -> bool): (t: Lsm)
    requires SameLengths(s)
    ensures SameLengths(t)
    decreases |s.pending|
  {
    if s.pending == [] then s
    else CompleteAll(CompleteFlush(s, s.pending[0].number, ok(s.pending[0].number), true).0, ok)
  }

  lemma {:induction false} CompleteAllDrains(s: Lsm, ok: nat -> bool)
    requires SameLengths(s)
    ensures CompleteAll(s, ok).ages == Drained(s.ages, s.pending)
    decreases |s.pending|
  {
    if s.pending != [] {
      CompleteAllDrains(CompleteFlush(s, s.pending[0].number, ok(s.pending[0].number), true).0, ok);
    }
  }

  /** The first `c` elements are older than the flush, the others newer. */
  ghost predicate Cut(ages: seq<Span>, p: PendingFlush, c: nat)
  {
    && c <= |ages|
    && (forall k :: 0 <= k < c ==> ages[k].last < p.queuedAt)
    && (forall k :: c <= k < |ages| ==> p.queuedAt < ages[k].first)
  }

  lemma InsertSortedIff(ages: seq<Span>, p: PendingFlush, c: nat, at: nat)
    requires Sorted(ages) && Cut(ages, p, c) && at <= |ages|
    ensures Sorted(InsertAt(ages, at, Span(p.queuedAt, p.queuedAt))) <==> at == c
  {
    var age := Span(p.queuedAt, p.queuedAt);
    var r := InsertAt(ages, at, age);
    if at == c {
      InsertKeepsSorted(ages, at, age);
    } else if at < c {
      assert r[at] == age && r[at + 1] == ages[at] && ages[at].first <= ages[at].last < p.queuedAt;
    } else {
      assert r[c] == ages[c] && r[at] == age && p.queuedAt < ages[c].first <= ages[c].last;
    }
  }

  /** An older flush inserted before the cut moves it by one. */
  lemma InsertMovesCut(ages: seq<Span>, at: nat, age: Span, p: PendingFlush, c: nat)
    requires Cut(ages, p, c) && at <= c && age.last < p.queuedAt
    ensures Cut(InsertAt(ages, at, age), p, c + 1)
  {
    var r := InsertAt(ages, at, age);
    assert forall k :: 0 <= k < |r| ==> r[k] == if k < at then ages[k] else if k == at then age else ages[k - 1];
  }

  lemma OlderCutsFirst(ages: seq<Span>, p: PendingFlush, c: nat, q: PendingFlush, d: nat)
    requires Sorted(ages) && Cut(ages, p, c) && Cut(ages, q, d) && p.queuedAt < q.queuedAt
    ensures c <= d
  {
    assert d < |ages| ==> q.queuedAt < ages[d].first <= ages[d].last;
  }

  /** Two elements that overlap in time keep a list unsorted, wherever they stand. */
  ghost predicate Clash(ages: seq<Span>, i: nat, j: nat)
  {
    i < j < |ages| && ages[i].last >= ages[j].first
  }

  lemma ClashIsUnsorted(ages: seq<Span>)
    ensures !Sorted(ages) <==> (exists i, j :: Clash(ages, i, j)) || exists k :: 0 <= k < |ages| && ages[k].first > ages[k].last
  {
    if !Sorted(ages) && !(exists k :: 0 <= k < |ages| && ages[k].first > ages[k].last) {
      var i, j :| 0 <= i < j < |ages| && ages[i].last >= ages[j].first;
      assert Clash(ages, i, j);
    }
  }

  lemma InsertStaysUnsorted(ages: seq<Span>, at: nat, age: Span)
    requires !Sorted(ages) && at <= |ages|
    ensures !Sorted(InsertAt(ages, at, age))
  {
    var r := InsertAt(ages, at, age);
    ClashIsUnsorted(ages);
    if i: nat, j: nat :| Clash(ages, i, j) {
      var i', j' := if i < at then i else i + 1, if j < at then j else j + 1;
      assert r[i'] == ages[i] && r[j'] == ages[j] && i' < j';
    } else {
      var k :| 0 <= k < |ages| && ages[k].first > ages[k].last;
      assert r[if k < at then k else k + 1] == ages[k];
    }
  }

  lemma {:induction false} DrainStaysUnsorted(ages: seq<Span>, pending: seq<PendingFlush>)
    requires !Sorted(ages)
    ensures !Sorted(Drained(ages, pending))
    decreases |pending|
  {
    if pending != [] {
      var p := pending[0];
      InsertStaysUnsorted(ages, PositionIn(|ages|, p), Span(p.queuedAt, p.queuedAt));
      DrainStaysUnsorted(InsertAt(ages, PositionIn(|ages|, p), Span(p.queuedAt, p.queuedAt)), pending[1..]);
    }
  }

  ghost predicate Cuts(ages: seq<Span>, pending: seq<PendingFlush>, cuts: seq<nat>)
  {
    |cuts| == |pending| && forall k :: 0 <= k < |pending| ==> Cut(ages, pending[k], cuts[k])
  }

  /** Each flush lands where it belongs, counting the older ones that landed before it. */
  ghost predicate LandRight(length: nat, pending: seq<PendingFlush>, cuts: seq<nat>)
    requires |cuts| == |pending|
  {
    forall k :: 0 <= k < |pending| ==> PositionIn(length + k, pending[k]) == cuts[k] + k
  }

  function Moved(cuts: seq<nat>): (r: seq<nat>)
    requires cuts != []
    ensures |r| == |cuts| - 1 && forall k :: 0 <= k < |r| ==> r[k] == cuts[k + 1] + 1
  {
    seq(|cuts| - 1, k requires 0 <= k < |cuts| - 1 => cuts[k + 1] + 1)
  }

  lemma LandRightFromSecond(length: nat, pending: seq<PendingFlush>, cuts: seq<nat>)
    requires pending != [] && |cuts| == |pending|
    ensures LandRight(length, pending, cuts) <==>
            PositionIn(length, pending[0]) == cuts[0] && LandRight(length + 1, pending[1..], Moved(cuts))
  {
    var rest, moved := pending[1..], Moved(cuts);
    if PositionIn(length, pending[0]) == cuts[0] && LandRight(length + 1, rest, moved) {
      forall k | 0 <= k < |pending| ensures PositionIn(length + k, pending[k]) == cuts[k] + k {
        if k > 0 {
          var i := k - 1;
          assert PositionIn(length + 1 + i, rest[i]) == moved[i] + i;
        }
      }
    }
    if LandRight(length, pending, cuts) {
      assert PositionIn(length + 0, pending[0]) == cuts[0] + 0;
      forall i | 0 <= i < |rest| ensures PositionIn(length + 1 + i, rest[i]) == moved[i] + i {
        var k := i + 1;
        assert PositionIn(length + k, pending[k]) == cuts[k] + k;
      }
    }
  }

  lemma FirstMovesCuts(ages: seq<Span>, pending: seq<PendingFlush>, cuts: seq<nat>)
    requires Sorted(ages) && pending != [] && InQueueOrder(pending) && Cuts(ages, pending, cuts)
    ensures cuts[0] <= |ages|
    ensures Cuts(InsertAt(ages, cuts[0], Span(pending[0].queuedAt, pending[0].queuedAt)), pending[1..], Moved(cuts))
  {
    var p, rest := pending[0], pending[1..];
    var age := Span(p.queuedAt, p.queuedAt);
    assert Cut(ages, p, cuts[0]);
    forall k | 0 <= k < |rest| ensures Cut(InsertAt(ages, cuts[0], age), rest[k], Moved(cuts)[k]) {
      var i := k + 1;
      assert Cut(ages, pending[i], cuts[i]) && p.queuedAt < pending[i].queuedAt;
      OlderCutsFirst(ages, p, cuts[0], pending[i], cuts[i]);
      InsertMovesCut(ages, cuts[0], age, pending[i], cuts[i]);
    }
  }

  lemma {:induction false} DrainSortedIff(ages: seq<Span>, pending: seq<PendingFlush>, cuts: seq<nat>)
    requires Sorted(ages) && InQueueOrder(pending) && Cuts(ages, pending, cuts)
    ensures Sorted(Drained(ages, pending)) <==> LandRight(|ages|, pending, cuts)
    decreases |pending|
  {
    if pending != [] {
      var next := FirstLanded(ages, pending);
      LandRightFromSecond(|ages|, pending, cuts);
      FirstLandsIff(ages, pending, cuts);
      if PositionIn(|ages|, pending[0]) == cuts[0] {
        DrainSortedIff(next, pending[1..], Moved(cuts));
      } else {
        DrainStaysUnsorted(next, pending[1..]);
      }
    }
  }

  function FirstLanded(ages: seq<Span>, pending: seq<PendingFlush>): (r: seq<Span>)
    requires pending != []
    ensures |r| == |ages| + 1 && Drained(ages, pending) == Drained(r, pending[1..])
  {
    InsertAt(ages, PositionIn(|ages|, pending[0]), Span(pending[0].queuedAt, pending[0].queuedAt))
  }

  lemma FirstLandsIff(ages: seq<Span>, pending: seq<PendingFlush>, cuts: seq<nat>)
    requires Sorted(ages) && pending != [] && InQueueOrder(pending) && Cuts(ages, pending, cuts)
    ensures Sorted(FirstLanded(ages, pending)) <==> PositionIn(|ages|, pending[0]) == cuts[0]
    ensures PositionIn(|ages|, pending[0]) == cuts[0] ==>
              Cuts(FirstLanded(ages, pending), pending[1..], Moved(cuts)) && InQueueOrder(pending[1..])
  {
    assert Cut(ages, pending[0], cuts[0]);
    InsertSortedIff(ages, pending[0], cuts[0], PositionIn(|ages|, pending[0]));
    FirstMovesCuts(ages, pending, cuts);
  }

  /** The merged segments are all older than the flush, or all newer; or the merge spans it. */
  lemma CollapseCuts(ages: seq<Span>, after: seq<Span>, first: nat, last: nat, p: PendingFlush)
    requires first <= last < |ages| && Placed(ages, p)
    requires Collapsed(ages, after, first, last, Span(ages[first].first, ages[last].last))
    ensures var cut := |ages| - p.addedAfter;
            && (last < cut ==> Cut(after, p, cut - (last - first)))
            && (cut <= first ==> Cut(after, p, cut))
  {
    var w, cut := last - first, |ages| - p.addedAfter;
    assert forall k :: 0 <= k < |after| ==>
        && after[k].last == ages[if k < first then k else k + w].last
        && after[k].first == ages[if k <= first then k else k + w].first;
  }

  lemma {:induction false} DrainKeepsElements(ages: seq<Span>, pending: seq<PendingFlush>, x: Span)
    requires x in ages || exists k :: 0 <= k < |pending| && x == Span(pending[k].queuedAt, pending[k].queuedAt)
    ensures x in Drained(ages, pending)
    decreases |pending|
  {
    if pending != [] {
      var p := pending[0];
      var at, age := PositionIn(|ages|, p), Span(p.queuedAt, p.queuedAt);
      var next := InsertAt(ages, at, age);
      assert next[at] == age;
      if x in ages {
        var i :| 0 <= i < |ages| && ages[i] == x;
        assert next[if i < at then i else i + 1] == x;
      } else if x != age {
        var k :| 0 <= k < |pending| && x == Span(pending[k].queuedAt, pending[k].queuedAt);
        assert pending[1..][k - 1] == pending[k];
      }
      DrainKeepsElements(next, pending[1..], x);
    }
  }

  /** A segment merged from data older and newer than a flush has no place beside it. */
  lemma SpanningMergeUnsorts(ages: seq<Span>, after: seq<Span>, first: nat, last: nat, pending: seq<PendingFlush>, k: nat)
    requires first < last < |ages| && Sorted(ages) && k < |pending| && Placed(ages, pending[k])
    requires Collapsed(ages, after, first, last, Span(ages[first].first, ages[last].last))
    requires Spans(|ages|, first, last, pending[k])
    ensures !Sorted(Drained(after, pending))
  {
    var p, span := pending[k], Span(ages[first].first, ages[last].last);
    var age, all := Span(p.queuedAt, p.queuedAt), Drained(after, pending);
    assert ages[first].first <= ages[first].last < p.queuedAt < ages[last].first <= ages[last].last;
    assert after[first] == span;
    DrainKeepsElements(after, pending, span);
    DrainKeepsElements(after, pending, age);
    var i :| 0 <= i < |all| && all[i] == span;
    var j :| 0 <= j < |all| && all[j] == age;
    assert Clash(all, if i < j then i else j, if i < j then j else i);
    ClashIsUnsorted(all);
  }

  /** The merge read nothing newer than the flush, or the flush is the oldest and older than every
      segment: it then goes to the front whatever it counted. */
  ghost predicate Unharmed(length: nat, last: nat, pending: seq<PendingFlush>, k: nat)
    requires k < |pending|
  {
    last < length - pending[k].addedAfter || (k == 0 && pending[k].addedAfter == length)
  }

  ghost predicate AllUnharmed(length: nat, last: nat, pending: seq<PendingFlush>)
  {
    forall k :: 0 <= k < |pending| ==> Unharmed(length, last, pending, k)
  }

  lemma CollapsedDrainsSortedIff(ages: seq<Span>, after: seq<Span>, first: nat, last: nat, pending: seq<PendingFlush>)
    requires first < last < |ages| && Sorted(ages) && AllPlaced(ages, pending) && InQueueOrder(pending)
    requires Collapsed(ages, after, first, last, Span(ages[first].first, ages[last].last))
    ensures Sorted(Drained(after, pending)) <==> AllUnharmed(|ages|, last, pending)
  {
    if k: nat :| k < |pending| && Spans(|ages|, first, last, pending[k]) {
      assert Placed(ages, pending[k]);
      SpanningMergeUnsorts(ages, after, first, last, pending, k);
      assert !Unharmed(|ages|, last, pending, k);
    } else {
      ApartDrainsSortedIff(ages, after, first, last, pending);
    }
  }

  /** The merged segments lie on both sides of the flush. */
  predicate Spans(length: nat, first: nat, last: nat, p: PendingFlush) { first < length - p.addedAfter <= last }

  ghost predicate NoneSpanned(length: nat, first: nat, last: nat, pending: seq<PendingFlush>)
  {
    forall k :: 0 <= k < |pending| ==> !Spans(length, first, last, pending[k])
  }

  lemma ApartDrainsSortedIff(ages: seq<Span>, after: seq<Span>, first: nat, last: nat, pending: seq<PendingFlush>)
    requires first < last < |ages| && Sorted(ages) && AllPlaced(ages, pending) && InQueueOrder(pending)
    requires Collapsed(ages, after, first, last, Span(ages[first].first, ages[last].last))
    requires NoneSpanned(|ages|, first, last, pending)
    ensures Sorted(Drained(after, pending)) <==> AllUnharmed(|ages|, last, pending)
  {
    CollapseKeepsSorted(ages, after, first, last);
    var cuts := CutsAfterCollapse(ages, after, first, last, pending);
    DrainSortedIff(after, pending, cuts);
    LandRightIffUnharmed(|ages|, first, last, pending, cuts);
  }

  /** Where a flush belongs after the collapse. */
  function CutAfter(length: nat, first: nat, last: nat, p: PendingFlush): nat
    requires first <= last && p.addedAfter <= length
  {
    var cut := length - p.addedAfter;
    if last < cut then cut - (last - first) else cut
  }

  lemma CutsAfterCollapse(ages: seq<Span>, after: seq<Span>, first: nat, last: nat, pending: seq<PendingFlush>)
    returns (cuts: seq<nat>)
    requires first < last < |ages| && AllPlaced(ages, pending)
    requires Collapsed(ages, after, first, last, Span(ages[first].first, ages[last].last))
    requires NoneSpanned(|ages|, first, last, pending)
    ensures Cuts(after, pending, cuts) && AreCutsAfter(|ages|, first, last, pending, cuts)
  {
    assert forall k :: 0 <= k < |pending| ==> Placed(ages, pending[k]);
    cuts := seq(|pending|, k requires 0 <= k < |pending| => CutAfter(|ages|, first, last, pending[k]));
    forall k | 0 <= k < |pending| ensures Cut(after, pending[k], cuts[k]) {
      assert Placed(ages, pending[k]);
      assert !Spans(|ages|, first, last, pending[k]);
      CollapseCuts(ages, after, first, last, pending[k]);
    }
  }

  ghost predicate AreCutsAfter(length: nat, first: nat, last: nat, pending: seq<PendingFlush>, cuts: seq<nat>)
    requires first <= last
  {
    |cuts| == |pending| && forall k :: 0 <= k < |pending| ==>
      pending[k].addedAfter <= length && cuts[k] == CutAfter(length, first, last, pending[k])
  }

  lemma LandRightIffUnharmed(length: nat, first: nat, last: nat, pending: seq<PendingFlush>, cuts: seq<nat>)
    requires first < last < length && AreCutsAfter(length, first, last, pending, cuts)
    requires NoneSpanned(length, first, last, pending)
    ensures LandRight(length - (last - first), pending, cuts) <==> AllUnharmed(length, last, pending)
  {
    var shorter := length - (last - first);
    forall k | 0 <= k < |pending|
      ensures PositionIn(shorter + k, pending[k]) == cuts[k] + k <==> Unharmed(length, last, pending, k)
    {
      assert !Spans(length, first, last, pending[k]);
    }
  }

  lemma {:induction false} PlacedDrainsSorted(ages: seq<Span>, pending: seq<PendingFlush>)
    requires Sorted(ages) && AllPlaced(ages, pending) && InQueueOrder(pending)
    ensures Sorted(Drained(ages, pending))
  {
    assert forall k :: 0 <= k < |pending| ==> Placed(ages, pending[k]);
    var cuts := seq(|pending|, k requires 0 <= k < |pending| => |ages| - pending[k].addedAfter);
    forall k | 0 <= k < |pending| ensures Cut(ages, pending[k], cuts[k]) { assert Placed(ages, pending[k]); }
    DrainSortedIff(ages, pending, cuts);
  }

  /** Every pending flush keeps its place although these segments become one. */
  ghost predicate FlushesUnharmed(s: Lsm, positions: set<nat>)
  {
    forall n, k :: 0 <= n < |s.pending| && k in positions ==> Unharmed(|s.handles|, k, s.pending, n)
  }

  lemma LastDecides(s: Lsm, positions: set<nat>, first: nat, last: nat)
    requires IsWindow(positions, first, last)
    ensures AllUnharmed(|s.handles|, last, s.pending) <==> FlushesUnharmed(s, positions)
  {
    assert last in positions;
    if AllUnharmed(|s.handles|, last, s.pending) {
      forall n, k | 0 <= n < |s.pending| && k in positions ensures Unharmed(|s.handles|, k, s.pending, n) {
        assert Unharmed(|s.handles|, last, s.pending, n);
      }
    }
  }

  lemma NeighboursDrainSortedIff(s: Lsm, j: nat)
    requires Installable(s, j) && Ordered(s) && Contiguous(Positions(s, s.jobs[j]))
    ensures var positions := Positions(s, s.jobs[j]);
            Sorted(Drained(Merged(s, j).ages, s.pending)) <==> |positions| == 1 || FlushesUnharmed(s, positions)
  {
    var positions, t := Positions(s, s.jobs[j]), Merged(s, j);
    var first, last := MergeOfNeighbours(s, j);
    WindowSize(positions, first, last);
    if first == last {
      assert t.ages == s.ages;
      PlacedDrainsSorted(s.ages, s.pending);
    } else {
      CollapsedDrainsSortedIff(s.ages, t.ages, first, last, s.pending);
      LastDecides(s, positions, first, last);
    }
  }

  /** The order a reader of the list sees: after a merge is installed and the pending flushes complete, the
      list is sorted exactly if the inputs were neighbours and, unless there was one input, every pending
      flush is newer than all of them, or is the oldest flush and older than every segment. */
  lemma MergeKeepsListOrderIff(s: Lsm, j: nat, ok: nat -> bool)
    requires Installable(s, j) && Ordered(s)
    ensures SameLengths(Merged(s, j))
    ensures var positions := Positions(s, s.jobs[j]);
            Sorted(CompleteAll(Merged(s, j), ok).ages) <==>
            Contiguous(positions) && (|positions| == 1 || FlushesUnharmed(s, positions))
  {
    var t := Merged(s, j);
    MergedSegments(s, j);
    CompleteAllDrains(t, ok);
    if Contiguous(Positions(s, s.jobs[j])) {
      NeighboursDrainSortedIff(s, j);
    } else {
      GapBreaksOrder(s, j);
      DrainStaysUnsorted(t.ages, s.pending);
    }
  }

  // ---------------------------------------------------------------------------------------
  // Jobs planned while no flush was pending.
  // ---------------------------------------------------------------------------------------

  /** If it can still be installed, it keeps the order. */
  ghost predicate JobPlaced(s: Lsm, job: Job)
  {
    AllLive(s, job) ==> Contiguous(Positions(s, job)) && OlderThanPending(s, Positions(s, job))
  }

  ghost predicate JobsPlaced(s: Lsm) { forall k :: 0 <= k < |s.jobs| ==> JobPlaced(s, s.jobs[k]) }

  lemma StaysLive(s: Lsm, t: Lsm, job: Job)
    requires forall p :: p in job.selected && p in LivePaths(t.handles) ==> p in LivePaths(s.handles)
    requires AllLive(t, job)
    ensures AllLive(s, job)
  {
    forall n | 0 <= n < |job.selected| ensures IsLive(s, job.selected[n]) {
      assert IsLive(t, job.selected[n]);
      LiveIffListed(t.handles, job.selected[n]);
      LiveIffListed(s.handles, job.selected[n]);
    }
  }

  /** A new segment behind the inputs of a job does not come between them. */
  lemma InsertBehind(s: Lsm, t: Lsm, job: Job, at: nat, h: Handle)
    requires at <= |s.handles| && t.handles == InsertAt(s.handles, at, h)
    requires h.Disk? ==> h.path !in job.selected
    requires forall k :: k in Positions(s, job) ==> k < at
    ensures Positions(t, job) == Positions(s, job)
  {
    forall k ensures k in Positions(t, job) <==> k in Positions(s, job) {
      if at < k < |t.handles| {
        var i: nat := k - 1;
        assert t.handles[k] == s.handles[i] && i !in Positions(s, job);
      }
      if 0 <= k < at { assert t.handles[k] == s.handles[k]; }
    }
  }

  lemma CompleteKeepsJobs(s: Lsm, t: Lsm, ok: bool)
    requires Inv(s) && Ordered(s) && JobsPlaced(s) && Completes(s, t, ok)
    ensures JobsPlaced(t)
  {
    var p := s.pending[0];
    var at, h := FlushPosition(s, p), if ok then Disk(p.path) else Memory(Union(p.generations));
    assert Placed(s.ages, p) && p.path in PendingPaths(s.pending);
    LivePathsInsert(s.handles, at, h);
    forall k | 0 <= k < |t.jobs| && AllLive(t, t.jobs[k])
      ensures Contiguous(Positions(t, t.jobs[k])) && OlderThanPending(t, Positions(t, t.jobs[k]))
    {
      var job := s.jobs[k];
      assert forall x :: x in job.selected ==> x in Inputs(s.jobs);
      StaysLive(s, t, job);
      assert JobPlaced(s, job);
      InsertBehind(s, t, job, at, h);
      assert forall n :: 0 <= n < |t.pending| ==> t.pending[n] == s.pending[n + 1];
    }
  }

  lemma PushKeepsJobs(s: Lsm, t: Lsm, docs: Mem)
    requires Inv(s) && JobsPlaced(s) && Pushes(s, t, docs)
    ensures JobsPlaced(t)
  {
    var n, h := |s.handles|, if s.persistent then Disk(s.nextSegmentId) else Memory(docs);
    assert t.handles == InsertAt(s.handles, n, h);
    LivePathsInsert(s.handles, n, h);
    forall k | 0 <= k < |t.jobs| && AllLive(t, t.jobs[k])
      ensures Contiguous(Positions(t, t.jobs[k])) && OlderThanPending(t, Positions(t, t.jobs[k]))
    {
      var job := s.jobs[k];
      assert forall x :: x in job.selected ==> x in Inputs(s.jobs);
      StaysLive(s, t, job);
      assert JobPlaced(s, job);
      InsertBehind(s, t, job, n, h);
    }
  }

  lemma SameListKeepsJobs(s: Lsm, t: Lsm)
    requires JobsPlaced(s) && t.handles == s.handles && t.jobs == s.jobs
    requires |s.pending| <= |t.pending|
    requires forall n :: 0 <= n < |t.pending| ==>
               if n < |s.pending| then t.pending[n] == s.pending[n] else t.pending[n].addedAfter == 0
    ensures JobsPlaced(t)
  {
    forall k | 0 <= k < |t.jobs| ensures JobPlaced(t, t.jobs[k]) {
      assert JobPlaced(s, s.jobs[k]);
      assert Positions(t, t.jobs[k]) == Positions(s, s.jobs[k]);
      assert AllLive(t, t.jobs[k]) == AllLive(s, s.jobs[k]);
    }
  }

  lemma PlanPositions(s: Lsm, start: nat, end: nat, job: Job)
    requires DistinctPaths(s.handles) && Enabled(s, PlanJob(start, end)) && job.selected == Paths(s.handles[start..end])
    ensures forall k :: k in Positions(s, job) <==> start <= k < end
  {
    PlanSelectsLive(s, start, end);
    forall k ensures k in Positions(s, job) <==> start <= k < end {
      if start <= k < end { assert job.selected[k - start] == s.handles[k].path; }
      if k in Positions(s, job) {
        var n :| 0 <= n < |job.selected| && job.selected[n] == s.handles[k].path;
        assert s.handles[start + n] == s.handles[k];
      }
    }
  }

  lemma PlanKeepsJobs(s: Lsm, start: nat, end: nat)
    requires Inv(s) && JobsPlaced(s) && Enabled(s, PlanJob(start, end)) && s.pending == []
    ensures JobsPlaced(Plan(s, start, end))
  {
    var t := Plan(s, start, end);
    forall k | 0 <= k < |t.jobs| ensures JobPlaced(t, t.jobs[k]) {
      assert Positions(t, t.jobs[k]) == Positions(s, t.jobs[k]);
      if k < |s.jobs| {
        assert JobPlaced(s, s.jobs[k]);
        assert AllLive(t, t.jobs[k]) == AllLive(s, s.jobs[k]);
      } else {
        PlanPositions(s, start, end, t.jobs[k]);
      }
    }
  }

  /** Collapsing other segments moves the inputs of a job but leaves them neighbours. */
  lemma CollapseKeepsJob(s: Lsm, t: Lsm, job: Job, gone: set<nat>, first: nat, last: nat, output: nat)
    requires IsWindow(gone, first, last) && Collapsed(s.handles, t.handles, first, last, Disk(output))
    requires output !in job.selected && t.pending == s.pending && gone !! Positions(s, job)
    requires Contiguous(Positions(s, job)) && OlderThanPending(s, Positions(s, job)) && OlderThanPending(s, gone)
    ensures Contiguous(Positions(t, job)) && OlderThanPending(t, Positions(t, job))
  {
    var w := last - first;
    assert last in gone && first in gone;
    forall k ensures k in Positions(t, job) <==>
                     (0 <= k < first && k in Positions(s, job)) || (first < k && k + w in Positions(s, job))
    {
      if first < k < |t.handles| { assert t.handles[k] == s.handles[k + w]; }
      if 0 <= k < first { assert t.handles[k] == s.handles[k]; }
    }
    forall i, k, j | i in Positions(t, job) && j in Positions(t, job) && i < k < j ensures k in Positions(t, job) {
      var i', j' := if i < first then i else i + w, if j < first then j else j + w;
      assert i' in Positions(s, job) && j' in Positions(s, job);
      var k' := if k <= first then k else k + w;
      assert k' in Positions(s, job);
    }
    forall n, k | 0 <= n < |t.pending| && k in Positions(t, job)
      ensures k < |t.handles| - t.pending[n].addedAfter
    {
      assert last < |s.handles| - s.pending[n].addedAfter;
      var was := if k < first then k else k + w;
      assert was in Positions(s, job);
    }
  }

  lemma MergeKeepsJobs(s: Lsm, j: nat, t: Lsm)
    requires Installable(s, j) && JobsPlaced(s)
    requires t.handles == Merged(s, j).handles && t.jobs == RemoveAt(s.jobs, j) && t.pending == s.pending
    ensures JobsPlaced(t)
  {
    var job := s.jobs[j];
    assert JobPlaced(s, job);
    var first, last := MergeOfNeighbours(s, j);
    MergedSegments(s, j);
    assert job.output in Outputs(s.jobs);
    forall k | 0 <= k < |t.jobs| && AllLive(t, t.jobs[k])
      ensures Contiguous(Positions(t, t.jobs[k])) && OlderThanPending(t, Positions(t, t.jobs[k]))
    {
      var i := if k < j then k else k + 1;
      var other := t.jobs[k];
      assert other == s.jobs[i] && JobPlaced(s, s.jobs[i]);
      assert forall x :: x in other.selected ==> x in Inputs(s.jobs);
      OtherStaysPlaced(s, t, job, other, first, last);
    }
  }

  lemma OtherStaysPlaced(s: Lsm, t: Lsm, job: Job, other: Job, first: nat, last: nat)
    requires IsWindow(Positions(s, job), first, last) && Collapsed(s.handles, t.handles, first, last, Disk(job.output))
    requires LivePaths(t.handles) == LivePaths(s.handles) - (set p | p in job.selected) + {job.output}
    requires t.pending == s.pending && JobPlaced(s, other) && OlderThanPending(s, Positions(s, job))
    requires job.output !in other.selected && AllLive(t, other)
    ensures Contiguous(Positions(t, other)) && OlderThanPending(t, Positions(t, other))
  {
    StaysLive(s, t, other);
    LiveJobsAreApart(s, t, job, other);
    CollapseKeepsJob(s, t, other, Positions(s, job), first, last, job.output);
  }

  /** A job that stays live read none of the replaced segments. */
  lemma LiveJobsAreApart(s: Lsm, t: Lsm, job: Job, other: Job)
    requires LivePaths(t.handles) == LivePaths(s.handles) - (set p | p in job.selected) + {job.output}
    requires AllLive(t, other) && job.output !in other.selected
    ensures Positions(s, job) !! Positions(s, other)
  {
    forall k | k in Positions(s, other) ensures k !in Positions(s, job) {
      var n :| 0 <= n < |other.selected| && other.selected[n] == s.handles[k].path;
      assert IsLive(t, other.selected[n]);
      LiveIffListed(t.handles, other.selected[n]);
    }
  }

  // ---------------------------------------------------------------------------------------
  // Every run.
  // ---------------------------------------------------------------------------------------

  ghost predicate InPlace(s: Lsm) { Inv(s) && Ordered(s) && JobsPlaced(s) }

  lemma InstallKeepsPlace(s: Lsm, j: nat, openOk: bool, manifestOk: bool)
    requires InPlace(s) && j < |s.jobs|
    ensures InPlace(Install(s, j, openOk, manifestOk).0)
  {
    var t := Install(s, j, openOk, manifestOk).0;
    InstallKeepsInv(s, j, openOk, manifestOk);
    if Installable(s, j) && openOk {
      InstalledFields(s, j, manifestOk);
      MergedSegments(s, j);
      assert JobPlaced(s, s.jobs[j]);
      MergeKeepsOrderIff(s, j);
      assert Ordered(Merged(s, j));
      MergeKeepsJobs(s, j, t);
    } else {
      RejectedFields(s, j, openOk, manifestOk);
      RemovedFrom(s.jobs, j);
      DroppedJobKeepsJobs(s, t);
    }
  }

  lemma DroppedJobKeepsJobs(s: Lsm, t: Lsm)
    requires JobsPlaced(s) && t.handles == s.handles && t.pending == s.pending
    requires forall k :: 0 <= k < |t.jobs| ==> t.jobs[k] in s.jobs
    ensures JobsPlaced(t)
  {
    forall k | 0 <= k < |t.jobs| ensures JobPlaced(t, t.jobs[k]) {
      var i :| 0 <= i < |s.jobs| && s.jobs[i] == t.jobs[k];
      assert JobPlaced(s, s.jobs[i]);
      assert Positions(t, t.jobs[k]) == Positions(s, s.jobs[i]);
      assert AllLive(t, t.jobs[k]) == AllLive(s, s.jobs[i]);
    }
  }

  lemma QueueKeepsPlace(s: Lsm, keep: nat, syncOk: bool)
    requires InPlace(s) && keep <= |s.generations|
    ensures InPlace(QueueFlush(s, keep, syncOk).0)
  {
    var t, sealed := QueueFlush(s, keep, syncOk).0, Seal(s, keep);
    QueueKeepsInv(s, keep, syncOk);
    SealKeepsPlace(s, keep);
    if !s.failure && (s.persistent ==> syncOk) && sealed.generations != [] { EnqueueKeepsPlace(sealed); }
  }

  lemma SealKeepsPlace(s: Lsm, keep: nat)
    requires InPlace(s) && keep <= |s.generations|
    ensures InPlace(Seal(s, keep))
  {
    MemtableStepsKeepInv(s, Seal(s, keep));
    SameListKeepsJobs(s, Seal(s, keep));
  }

  lemma EnqueueKeepsPlace(s: Lsm)
    requires InPlace(s)
    ensures Ordered(Enqueue(s)) && JobsPlaced(Enqueue(s))
  {
    if s.persistent {
      EnqueueKeepsOrder(s);
      SameListKeepsJobs(s, Enqueue(s));
    } else {
      FreezeKeepsPlace(s);
    }
  }

  lemma FreezeKeepsPlace(s: Lsm)
    requires InPlace(s) && !s.persistent
    ensures Ordered(Enqueue(s)) && JobsPlaced(Enqueue(s))
  {
    var emptied := s.(generations := []);
    assert SegmentAdded(emptied.pending) == emptied.pending;
    MemtableStepsKeepInv(s, emptied);
    SameListKeepsJobs(s, emptied);
    PushKeepsOrder(emptied, Enqueue(s), Union(s.generations));
    PushKeepsJobs(emptied, Enqueue(s), Union(s.generations));
  }

  lemma CompleteKeepsPlace(s: Lsm, number: nat, writeOk: bool, manifestOk: bool)
    requires InPlace(s) && Enabled(s, Complete(number, writeOk, manifestOk))
    ensures InPlace(CompleteFlush(s, number, writeOk, manifestOk).0)
  {
    var t := CompleteFlush(s, number, writeOk, manifestOk).0;
    CompleteKeepsInv(s, number, writeOk, manifestOk);
    if s.pending == [] || s.pending[0].number != number {
      SameListKeepsJobs(s, t);
    } else {
      FrontCompletes(s, number, writeOk, manifestOk);
      CompleteKeepsOrder(s, t, writeOk && manifestOk);
      CompleteKeepsJobs(s, t, writeOk && manifestOk);
    }
  }

  lemma FrontCompletes(s: Lsm, number: nat, writeOk: bool, manifestOk: bool)
    requires SameLengths(s) && s.pending != [] && s.pending[0].number == number
    ensures Completes(s, CompleteFlush(s, number, writeOk, manifestOk).0, writeOk && manifestOk)
  {
  }

  lemma AddKeepsPlace(s: Lsm, docs: Mem, writeOk: bool)
    requires InPlace(s)
    ensures InPlace(AddSegment(s, docs, writeOk).0)
  {
    var t := AddSegment(s, docs, writeOk).0;
    AddKeepsInv(s, docs, writeOk);
    if s.persistent && !writeOk {
      SameListKeepsJobs(s, t);
    } else {
      PushKeepsOrder(s, t, docs);
      PushKeepsJobs(s, t, docs);
    }
  }

  lemma NextKeepsPlace(s: Lsm, e: Event)
    requires InPlace(s) && Enabled(s, e) && (e.PlanJob? ==> s.pending == [])
    ensures InPlace(Next(s, e))
  {
    var t := Next(s, e);
    NextKeepsInv(s, e);
    match e
    case Queue(keep, syncOk) => QueueKeepsPlace(s, keep, syncOk);
    case Complete(number, writeOk, manifestOk) => CompleteKeepsPlace(s, number, writeOk, manifestOk);
    case AddImmutable(docs, writeOk) => AddKeepsPlace(s, docs, writeOk);
    case PlanJob(start, end) => PlanKeepsJobs(s, start, end);
    case InstallJob(j, openOk, manifestOk) => InstallKeepsPlace(s, j, openOk, manifestOk);
    case _ => SameListKeepsJobs(s, t);
  }

  /** In every interleaving with merges planned only while no flush is pending, the list stays ordered
      and each pending flush knows how many segments are newer. */
  lemma {:induction false} SegmentsStayOrdered(persistent: bool, run: seq<Lsm>, events: seq<Event>, k: nat)
    requires IsRun(run, events) && run[0] == New(persistent) && k < |run|
    requires forall i :: 0 <= i < |events| && events[i].PlanJob? ==> run[i].pending == []
    ensures InPlace(run[k])
  {
    if k > 0 {
      SegmentsStayOrdered(persistent, run, events, k - 1);
      NextKeepsPlace(run[k - 1], events[k - 1]);
    }
  }

  /** One segment, a flush queued behind it, two segments added behind the flush, and a merge of those
      two planned although the flush is pending. */
  function BeforeEarlyMerge(): Lsm
  {
    Lsm(true, {}, [], [Disk(0), Disk(2), Disk(3)], [{Doc(1, 0)}, {Doc(3, 0)}, {Doc(4, 0)}], [],
        [PendingFlush(0, 1, [{Doc(2, 0)}], 2, 1)], 1, false, {}, 0, 5, [Job([2, 3], {}, 0, 4)],
        map[0 := {Doc(1, 0)}, 2 := {Doc(3, 0)}, 3 := {Doc(4, 0)}], {0, 2, 3},
        [Span(0, 0), Span(2, 2), Span(3, 3)], {}, 4)
  }

  function WithFlushPending(): Lsm
  {
    Lsm(true, {}, [], [Disk(0)], [{Doc(1, 0)}], [], [PendingFlush(0, 1, [{Doc(2, 0)}], 0, 1)], 1, false, {}, 0, 2, [],
        map[0 := {Doc(1, 0)}], {0}, [Span(0, 0)], {}, 2)
  }

  lemma FlushQueuedBehindFirst() returns (run: seq<Lsm>, events: seq<Event>)
    ensures IsRun(run, events) && run[0] == New(true) && |events| == 4 && run[4] == WithFlushPending()
  {
    events := [AddImmutable({Doc(1, 0)}, true), Merge({Doc(2, 0)}), Queue(0, true), Take];
    var s1 := Next(New(true), events[0]);
    var s2 := Next(s1, events[1]);
    assert s2.generations[..0] == [] && Union(s2.generations[0..]) + s2.mem == {Doc(2, 0)};
    assert Seal(s2, 0).generations == [{Doc(2, 0)}];
    var s3 := Next(s2, events[2]);
    assert Next(s3, events[3]) == WithFlushPending();
    run := [New(true), s1, s2, s3, WithFlushPending()];
  }

  lemma MergePlannedEarly() returns (run: seq<Lsm>, events: seq<Event>)
    ensures IsRun(run, events) && run[0] == WithFlushPending() && |events| == 3 && run[3] == BeforeEarlyMerge()
  {
    events := [AddImmutable({Doc(3, 0)}, true), AddImmutable({Doc(4, 0)}, true), PlanJob(1, 3)];
    var s5 := Next(WithFlushPending(), events[0]);
    var s6 := Next(s5, events[1]);
    assert s6 == BeforeEarlyMerge().(jobs := [], nextSegmentId := 4);
    assert Paths(s6.handles[1..3]) == [2, 3];
    assert Next(s6, events[2]) == BeforeEarlyMerge();
    run := [WithFlushPending(), s5, s6, BeforeEarlyMerge()];
  }

  /** A live merge of the second and third segment, both newer than the flush that completes next. */
  ghost predicate MergesNewer(s: Lsm)
  {
    && |s.jobs| == 1 && s.persistent && AllLive(s, s.jobs[0]) && IsWindow(Positions(s, s.jobs[0]), 1, 2)
    && s.ages == [Span(0, 0), Span(2, 2), Span(3, 3)]
    && |s.pending| == 1 && s.pending[0].number == 0 && s.pending[0].addedAfter == 2 && s.pending[0].queuedAt == 1
    && s.queued == []
  }

  lemma EarlyMergeMergesNewer()
    ensures MergesNewer(BeforeEarlyMerge())
  {
    var s := BeforeEarlyMerge();
    assert IsLive(s, 2) && IsLive(s, 3);
    assert Positions(s, s.jobs[0]) == {1, 2};
  }

  lemma NewerMergeInstalled(s: Lsm)
    requires Inv(s) && MergesNewer(s)
    ensures var t := Install(s, 0, true, true).0;
            && t.ages == [Span(0, 0), Span(2, 3)] && SameLengths(t) && t.pending == s.pending && t.queued == []
  {
    assert 1 in Positions(s, s.jobs[0]);
    InstalledFields(s, 0, true);
    MergedSegments(s, 0);
    var first, last := MergeOfNeighbours(s, 0);
    WindowIs(Positions(s, s.jobs[0]), first, last, 1, 2);
  }

  lemma EarlyMergeIsReachable() returns (run: seq<Lsm>, events: seq<Event>)
    ensures IsRun(run, events) && run[0] == New(true) && |events| == 7 && run[7] == BeforeEarlyMerge() && Inv(run[7])
  {
    run, events := FlushQueuedBehindFirst();
    var more, later := MergePlannedEarly();
    JoinRuns(run, events, more, later);
    run, events := run + more[1..], events + later;
    RunKeepsInv(true, run, events, 7);
  }

  lemma FlushLandsFirst(t: Lsm)
    requires t.ages == [Span(0, 0), Span(2, 3)] && SameLengths(t) && |t.pending| == 1
    requires t.pending[0].number == 0 && t.pending[0].addedAfter == 2 && t.pending[0].queuedAt == 1
    ensures !Sorted(CompleteFlush(t, 0, true, true).0.ages)
  {
    var u := CompleteFlush(t, 0, true, true).0;
    assert FlushPosition(t, t.pending[0]) == 0;
    assert u.ages[0] == Span(1, 1) && u.ages[1] == Span(0, 0);
  }

  lemma MisplacedByNewerMerge(s: Lsm) returns (t: Lsm)
    requires Inv(s) && MergesNewer(s)
    ensures t == Install(s, 0, true, true).0 && SameLengths(t) && |t.queued| < |t.pending|
    ensures !Sorted(CompleteFlush(t, 0, true, true).0.ages)
  {
    NewerMergeInstalled(s);
    t := Install(s, 0, true, true).0;
    FlushLandsFirst(t);
  }

  lemma NewerMergeIsReachable() returns (run: seq<Lsm>, events: seq<Event>, s: Lsm)
    ensures IsRun(run, events) && run[0] == New(true) && |events| == 7 && run[7] == s
    ensures Inv(s) && MergesNewer(s) && SameLengths(s) && Sorted(s.ages) && |s.jobs| == 1
  {
    run, events := EarlyMergeIsReachable();
    s := run[7];
    EarlyMergeMergesNewer();
  }

  /** Planning while a flush is pending can break the order: after the merge is installed the flush
      completes in front of older data. */
  lemma EarlyMergeBreaksOrder() returns (run: seq<Lsm>, events: seq<Event>, s: Lsm, t: Lsm)
    ensures IsRun(run, events) && run[0] == New(true) && |events| == 7 && run[7] == s
    ensures SameLengths(s) && Sorted(s.ages) && |s.jobs| == 1
    ensures t == Install(s, 0, true, true).0 && SameLengths(t) && |t.queued| < |t.pending|
    ensures !Sorted(CompleteFlush(t, 0, true, true).0.ages)
  {
    run, events, s := NewerMergeIsReachable();
    t := MisplacedByNewerMerge(s);
  }

  lemma WindowIs(positions: set<nat>, first: nat, last: nat, from: nat, to: nat)
    requires IsWindow(positions, first, last) && IsWindow(positions, from, to)
    ensures first == from && last == to
  {
    assert first in positions && last in positions && from in positions && to in positions;
  }
}
