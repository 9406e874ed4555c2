/** Which segments a compaction merges: the cheapest run of similar-sized neighbours, or the
    whole shard once the small segments are worth rewriting the large one for. */
module CompactionWindows {
  import opened Options
  import opened Numbers

  /** Segment sizes in order; `None` for a segment that is still in memory. */
  type Sizes = seq<Option<U64>>

  function SaturatingMul(x: U64, y: U64): U64 { if x * y > U64_MAX then U64_MAX else x * y }

  predicate OnDisk(sizes: Sizes, start: nat, end: nat)
    requires start <= end <= |sizes|
  {
    forall k :: start <= k < end ==> sizes[k].Some?
  }

  /** A run of disk segments of which none is more than `ratio` times another. */
  ghost predicate WithinRatio(sizes: Sizes, ratio: nat, start: nat, end: nat)
  {
    start <= end <= |sizes| && OnDisk(sizes, start, end)
    && forall i, j :: start <= i < end && start <= j < end ==> sizes[i].value <= sizes[j].value * ratio
  }

  ghost function Total(sizes: Sizes, start: nat, end: nat): nat
    requires start <= end <= |sizes| && OnDisk(sizes, start, end)
    decreases end - start
  {
    if start == end then 0 else Total(sizes, start, end - 1) + sizes[end - 1].value
  }

  /** A run that starts at `start` and cannot be extended to the right. */
  ghost predicate GreedyRun(sizes: Sizes, ratio: nat, maxWidth: nat, start: nat, end: nat)
  {
    && start < end <= |sizes| && OnDisk(sizes, start, end)
    && (end - start == 1 || (end - start <= maxWidth && WithinRatio(sizes, ratio, start, end)))
    && (end == |sizes| || end - start >= maxWidth || !WithinRatio(sizes, ratio, start, end + 1))
  }

  /** `smallest` and `largest` are the extremes of the run. */
  ghost predicate Extremes(sizes: Sizes, start: nat, end: nat, smallest: nat, largest: nat)
    requires start < end <= |sizes| && OnDisk(sizes, start, end)
  {
    && (forall k :: start <= k < end ==> smallest <= sizes[k].value <= largest)
    && (exists k :: start <= k < end && sizes[k].value == smallest)
    && (exists k :: start <= k < end && sizes[k].value == largest)
  }

  lemma MulMonotone(x: nat, y: nat, z: nat)
    requires x <= y
    ensures x * z <= y * z
  {
  }

  /** Comparing the extremes, even with a saturating product, decides the whole run. */
  lemma ExtremesDecideRatio(sizes: Sizes, start: nat, end: nat, ratio: U64, smallest: U64, largest: U64)
    requires start < end <= |sizes| && OnDisk(sizes, start, end)
    requires Extremes(sizes, start, end, smallest, largest)
    ensures WithinRatio(sizes, ratio, start, end) <==> largest <= SaturatingMul(smallest, ratio)
  {
    if largest <= smallest * ratio {
      forall i, j | start <= i < end && start <= j < end
        ensures sizes[i].value <= sizes[j].value * ratio
      {
        MulMonotone(smallest, sizes[j].value, ratio);
      }
    }
  }

  lemma PrefixesStayWithinRatio(sizes: Sizes, ratio: nat, start: nat, end: nat, shorter: nat)
    requires WithinRatio(sizes, ratio, start, end) && start <= shorter <= end
    ensures WithinRatio(sizes, ratio, start, shorter)
  {
  }

  /** The greedy run from a start is the longest allowed one, hence unique. */
  lemma GreedyRunIsLongest(sizes: Sizes, ratio: nat, maxWidth: nat, start: nat, end: nat, other: nat)
    requires GreedyRun(sizes, ratio, maxWidth, start, end)
    requires start < other && other - start <= maxWidth && WithinRatio(sizes, ratio, start, other)
    ensures other <= end
  {
    if other > end { PrefixesStayWithinRatio(sizes, ratio, start, other, end + 1); }
  }

  /** The inner loop: extends the run that starts at `start` as far as it goes. */
  method ExtendRun(sizes: Sizes, ratio: U64, maxWidth: nat, start: nat) returns (end: nat, total: nat)
    requires start < |sizes| && sizes[start].Some?
    ensures GreedyRun(sizes, ratio, maxWidth, start, end) && total == Total(sizes, start, end)
  {
    var first := sizes[start].value;
    var smallest, largest := first, first;
    total, end := first, start + 1;
    while end < |sizes| && end - start < maxWidth
      invariant start < end <= |sizes| && OnDisk(sizes, start, end)
      invariant end - start == 1 || (end - start <= maxWidth && WithinRatio(sizes, ratio, start, end))
      invariant Extremes(sizes, start, end, smallest, largest)
      invariant total == Total(sizes, start, end)
    {
      if sizes[end].None? { break; }
      var size := sizes[end].value;
      var nextSmallest: U64, nextLargest: U64 := Min(smallest, size), Max(largest, size);
      NextSizeDecides(sizes, start, end, ratio, smallest, largest);
      if nextLargest > SaturatingMul(nextSmallest, ratio) { break; }
      smallest, largest := nextSmallest, nextLargest;
      total := total + size;
      end := end + 1;
    }
  }

  /** Whether the run stays within the ratio with one segment more. */
  lemma NextSizeDecides(sizes: Sizes, start: nat, end: nat, ratio: U64, smallest: U64, largest: U64)
    requires start < end < |sizes| && OnDisk(sizes, start, end) && sizes[end].Some?
    requires Extremes(sizes, start, end, smallest, largest)
    ensures OnDisk(sizes, start, end + 1)
    ensures Extremes(sizes, start, end + 1, Min(smallest, sizes[end].value), Max(largest, sizes[end].value))
    ensures WithinRatio(sizes, ratio, start, end + 1) <==>
            Max(largest, sizes[end].value) <= SaturatingMul(Min(smallest, sizes[end].value), ratio)
  {
    ExtendExtremes(sizes, start, end, smallest, largest);
    ExtremesDecideRatio(sizes, start, end + 1, ratio, Min(smallest, sizes[end].value), Max(largest, sizes[end].value));
  }

  lemma ExtendExtremes(sizes: Sizes, start: nat, end: nat, smallest: nat, largest: nat)
    requires start < end < |sizes| && OnDisk(sizes, start, end) && sizes[end].Some?
    requires Extremes(sizes, start, end, smallest, largest)
    ensures Extremes(sizes, start, end + 1, Min(smallest, sizes[end].value), Max(largest, sizes[end].value))
  {
    assert sizes[end].value >= 0;
  }

  /** Whether some allowed run is worth merging at all. */
  ghost predicate SomeRunQualifies(sizes: Sizes, ratio: nat, minWidth: nat, maxWidth: nat)
  {
    exists start: nat, end: nat :: minWidth <= end - start <= maxWidth && WithinRatio(sizes, ratio, start, end)
  }

  /** `(start, end)` is the first cheapest greedy run among the starts below `limit`. */
  ghost predicate Cheapest(sizes: Sizes, ratio: nat, minWidth: nat, maxWidth: nat, limit: nat, start: nat, end: nat)
  {
    && start < limit && GreedyRun(sizes, ratio, maxWidth, start, end) && end - start >= minWidth
    && forall s: nat, e: nat :: s < limit && GreedyRun(sizes, ratio, maxWidth, s, e) && e - s >= minWidth ==>
         Total(sizes, start, end) < Total(sizes, s, e)
         || (Total(sizes, start, end) == Total(sizes, s, e) && start <= s)
  }

  /** No greedy run that starts below `limit` is long enough. */
  ghost predicate NoneBelow(sizes: Sizes, ratio: nat, minWidth: nat, maxWidth: nat, limit: nat)
  {
    forall s: nat, e: nat :: s < limit && GreedyRun(sizes, ratio, maxWidth, s, e) ==> e - s < minWidth
  }

  lemma GreedyRunIsUnique(sizes: Sizes, ratio: nat, maxWidth: nat, start: nat, end: nat, other: nat)
    requires GreedyRun(sizes, ratio, maxWidth, start, end) && GreedyRun(sizes, ratio, maxWidth, start, other)
    ensures end == other
  {
    if end - start > 1 { GreedyRunIsLongest(sizes, ratio, maxWidth, start, other, end); }
    if other - start > 1 { GreedyRunIsLongest(sizes, ratio, maxWidth, start, end, other); }
  }

  method TieredWindow(sizes: Sizes, ratio: U64, minWidth: nat, maxWidth: nat) returns (window: Option<(nat, nat)>)
    ensures window.Some? ==> Cheapest(sizes, ratio, minWidth, maxWidth, |sizes|, window.value.0, window.value.1)
    ensures window.None? ==> NoneBelow(sizes, ratio, minWidth, maxWidth, |sizes|)
    ensures minWidth >= 2 ==> (window.Some? <==> SomeRunQualifies(sizes, ratio, minWidth, maxWidth))
  {
    window := None;
    var bestTotal: nat := 0;
    for start := 0 to |sizes|
      invariant BestBelow(sizes, ratio, minWidth, maxWidth, start, window)
      invariant window.Some? ==> bestTotal == Total(sizes, window.value.0, window.value.1)
    {
      if sizes[start].Some? {
        var end, total := ExtendRun(sizes, ratio, maxWidth, start);
        OneMoreStart(sizes, ratio, minWidth, maxWidth, start, window, end);
        if end - start >= minWidth && (window.None? || total < bestTotal) {
          window, bestTotal := Some((start, end)), total;
        }
      } else {
        NoRunFromMemory(sizes, ratio, minWidth, maxWidth, start, window);
      }
    }
    if minWidth >= 2 { QualifyingRunIsFound(sizes, ratio, minWidth, maxWidth, window); }
  }

  /** The best window among the starts below `limit`. */
  ghost predicate BestBelow(
    sizes: Sizes, ratio: nat, minWidth: nat, maxWidth: nat, limit: nat, window: Option<(nat, nat)>)
  {
    if window.Some? then Cheapest(sizes, ratio, minWidth, maxWidth, limit, window.value.0, window.value.1)
    else NoneBelow(sizes, ratio, minWidth, maxWidth, limit)
  }

  /** The one greedy run from the next start is taken if it is long enough and cheaper. */
  lemma OneMoreStart(
    sizes: Sizes, ratio: nat, minWidth: nat, maxWidth: nat, start: nat, window: Option<(nat, nat)>, end: nat)
    requires BestBelow(sizes, ratio, minWidth, maxWidth, start, window) && GreedyRun(sizes, ratio, maxWidth, start, end)
    ensures var better := end - start >= minWidth
                          && (window.None? || Total(sizes, start, end) < Total(sizes, window.value.0, window.value.1));
            BestBelow(sizes, ratio, minWidth, maxWidth, start + 1, if better then Some((start, end)) else window)
  {
    forall e: nat | GreedyRun(sizes, ratio, maxWidth, start, e) ensures e == end {
      GreedyRunIsUnique(sizes, ratio, maxWidth, start, end, e);
    }
  }

  lemma NoRunFromMemory(sizes: Sizes, ratio: nat, minWidth: nat, maxWidth: nat, start: nat, window: Option<(nat, nat)>)
    requires BestBelow(sizes, ratio, minWidth, maxWidth, start, window) && start < |sizes| && sizes[start].None?
    ensures BestBelow(sizes, ratio, minWidth, maxWidth, start + 1, window)
  {
    assert forall e: nat :: !GreedyRun(sizes, ratio, maxWidth, start, e);
  }

  lemma QualifyingRunIsFound(sizes: Sizes, ratio: nat, minWidth: nat, maxWidth: nat, window: Option<(nat, nat)>)
    requires minWidth >= 2
    requires window.Some? ==> Cheapest(sizes, ratio, minWidth, maxWidth, |sizes|, window.value.0, window.value.1)
    requires window.None? ==> NoneBelow(sizes, ratio, minWidth, maxWidth, |sizes|)
    ensures window.Some? <==> SomeRunQualifies(sizes, ratio, minWidth, maxWidth)
  {
    if SomeRunQualifies(sizes, ratio, minWidth, maxWidth) {
      var start: nat, end: nat :|
        minWidth <= end - start <= maxWidth && WithinRatio(sizes, ratio, start, end);
      var longest := LongestRun(sizes, ratio, maxWidth, start, end);
    }
  }

  /** Any allowed run extends to a greedy one from the same start. */
  lemma {:induction false} LongestRun(sizes: Sizes, ratio: nat, maxWidth: nat, start: nat, end: nat) returns (longest: nat)
    requires start < end && end - start <= maxWidth && WithinRatio(sizes, ratio, start, end)
    ensures longest >= end && GreedyRun(sizes, ratio, maxWidth, start, longest)
    decreases |sizes| - end
  {
    if end == |sizes| || end - start >= maxWidth || !WithinRatio(sizes, ratio, start, end + 1) {
      longest := end;
    } else {
      longest := LongestRun(sizes, ratio, maxWidth, start, end + 1);
    }
  }

  // ---------------------------------------------------------------------------------------
  // The cheapest run, whatever the sizes.
  // ---------------------------------------------------------------------------------------

  /** A run of disk segments from `start` that ends only at the width, the list's end or a segment in memory. */
  ghost predicate DiskRun(sizes: Sizes, width: nat, start: nat, end: nat)
  {
    && start <= end <= |sizes| && OnDisk(sizes, start, end) && end - start <= width
    && (end == |sizes| || end - start == width || sizes[end].None?)
  }

  ghost predicate CheapestDiskRun(sizes: Sizes, width: nat, limit: nat, start: nat, end: nat)
  {
    && start < limit && DiskRun(sizes, width, start, end) && end - start >= 2
    && forall s: nat, e: nat :: s < limit && DiskRun(sizes, width, s, e) && e - s >= 2 ==>
         Total(sizes, start, end) <= Total(sizes, s, e)
  }

  method CheapestWindow(sizes: Sizes, width: nat) returns (window: Option<(nat, nat)>)
    ensures window.Some? ==> CheapestDiskRun(sizes, width, |sizes|, window.value.0, window.value.1)
    ensures window.None? ==> forall s: nat, e: nat :: s < |sizes| && DiskRun(sizes, width, s, e) ==> e - s < 2
  {
    window := None;
    var bestTotal := 0;
    for start := 0 to |sizes|
      invariant window.None? ==> forall s: nat, e: nat :: s < start && DiskRun(sizes, width, s, e) ==> e - s < 2
      invariant window.Some? ==> CheapestDiskRun(sizes, width, start, window.value.0, window.value.1)
                                 && bestTotal == Total(sizes, window.value.0, window.value.1)
    {
      var total: nat, end := 0, start;
      while end < |sizes| && end - start < width && sizes[end].Some?
        invariant start <= end <= |sizes| && OnDisk(sizes, start, end) && end - start <= width
        invariant total == Total(sizes, start, end)
      {
        total := total + sizes[end].value;
        end := end + 1;
      }
      assert forall e: nat :: DiskRun(sizes, width, start, e) ==> e == end;
      if end - start >= 2 && (window.None? || total < bestTotal) {
        window, bestTotal := Some((start, end)), total;
      }
    }
  }

  // ---------------------------------------------------------------------------------------
  // Merging everything.
  // ---------------------------------------------------------------------------------------

  function Sum(sizes: seq<nat>): nat
  {
    if sizes == [] then 0 else sizes[0] + Sum(sizes[1..])
  }

  function Largest(sizes: seq<nat>): (r: nat)
    ensures forall k :: 0 <= k < |sizes| ==> sizes[k] <= r
    ensures sizes != [] ==> r in sizes
  {
    if sizes == [] then 0 else Max(sizes[0], Largest(sizes[1..]))
  }

  /** Whether merging every disk segment is worth it: besides the largest, the segments hold at
      least 1/`ratio` of what it holds. */
  predicate MergeAllDue(disk: seq<nat>, ratio: nat)
  {
    |disk| >= 2 && (Sum(disk) - Largest(disk)) * Max(ratio, 1) >= Largest(disk)
  }

  function DiskSizes(sizes: Sizes): seq<nat>
  {
    if sizes == [] then []
    else (if sizes[0].Some? then [sizes[0].value] else []) + DiskSizes(sizes[1..])
  }

  /** `merge_all_due`, whose product saturates. */
  method IsMergeAllDue(sizes: Sizes, ratio: U64) returns (due: bool)
    requires Sum(DiskSizes(sizes)) <= U64_MAX
    ensures due == MergeAllDue(DiskSizes(sizes), ratio)
  {
    var disk := DiskSizes(sizes);
    if |disk| < 2 { return false; }
    var largest, total := LargestAndTotal(disk);
    MemberAtMostSum(disk, largest);
    var rest: U64, factor: U64, bound: U64 := total - largest, if ratio < 1 then 1 else ratio, largest;
    SaturationKeepsComparison(rest, factor, bound);
    due := SaturatingMul(rest, factor) >= bound;
  }

  method LargestAndTotal(disk: seq<nat>) returns (largest: nat, total: nat)
    ensures largest == Largest(disk) && total == Sum(disk)
  {
    largest, total := 0, 0;
    for k := 0 to |disk|
      invariant Max(largest, Largest(disk[k..])) == Largest(disk)
      invariant total + Sum(disk[k..]) == Sum(disk)
    {
      assert disk[k..][1..] == disk[k + 1..];
      largest := Max(largest, disk[k]);
      total := total + disk[k];
    }
    assert disk[|disk|..] == [];
  }

  lemma SaturationKeepsComparison(x: U64, y: U64, bound: U64)
    ensures SaturatingMul(x, y) >= bound <==> x * y >= bound
  {
  }

  lemma {:induction false} MemberAtMostSum(sizes: seq<nat>, x: nat)
    requires x in sizes
    ensures x <= Sum(sizes)
  {
    if x != sizes[0] { MemberAtMostSum(sizes[1..], x); }
  }
}
