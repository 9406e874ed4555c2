/** Embedding texts in runs that fit the device's memory. */
module PooledRuns {
  import opened Options
  import opened Numbers
  import opened Sorting

  const U32_MAX: nat := 0xFFFF_FFFF

  function Pow2(n: nat): (r: nat)
    ensures r > 0
  {
    if n == 0 then 1 else 2 * Pow2(n - 1)
  }

  function ShiftRight(x: nat, n: nat): (r: nat)
    ensures r * Pow2(n) <= x < (r + 1) * Pow2(n)
  {
    if n == 0 then x
    else
      var r := ShiftRight(x / 2, n - 1);
      HalfBetween(x, r, Pow2(n - 1));
      r
  }

  lemma HalfBetween(x: nat, r: nat, unit: nat)
    requires r * unit <= x / 2 < (r + 1) * unit
    ensures r * (2 * unit) <= x < (r + 1) * (2 * unit)
  {
    Doubled(r, unit);
    Doubled(r + 1, unit);
  }

  lemma Doubled(r: nat, unit: nat)
    ensures r * (2 * unit) == 2 * (r * unit)
  {
  }

  function Product(x: nat, y: nat): nat { x * y }

  /** What a run may need, in token states and in attention scores, after `halvings` halvings. */
  function TokenBudget(batch: nat, max: nat, halvings: nat): nat
  {
    ShiftRight(Product(Max(batch, 1), Max(max, 1)), Min(halvings, 64))
  }

  function ScoreBudget(batch: nat, max: nat, halvings: nat): nat
  {
    ShiftRight(Product(Product(Max(batch, 1), Max(max, 1)), Max(max, 1)), Min(halvings, 64))
  }

  /** `n` texts padded to `len` tokens stay within the budget. */
  predicate Fits(n: nat, len: nat, batch: nat, max: nat, halvings: nat)
  {
    n * Max(len, 1) <= TokenBudget(batch, max, halvings)
    && n * Max(len, 1) * Max(len, 1) <= ScoreBudget(batch, max, halvings)
  }

  ghost predicate ShortestFirst(lengths: seq<nat>) { forall i, j :: 0 <= i < j < |lengths| ==> lengths[i] <= lengths[j] }

  /** A run of the first `n` lengths: one text, or as many as fit, and one more would not. */
  ghost predicate FullestRun(lengths: seq<nat>, n: nat, batch: nat, max: nat, halvings: nat)
  {
    && 1 <= n <= |lengths|
    && (n > 1 ==> Fits(n, lengths[n - 1], batch, max, halvings))
    && (n < |lengths| ==> !Fits(n + 1, lengths[n], batch, max, halvings))
  }

  method NextRun(lengths: seq<nat>, batchSize: nat, maxTokens: nat, halvings: nat) returns (count: nat)
    ensures lengths == [] ==> count == 0
    ensures lengths != [] ==> FullestRun(lengths, count, batchSize, maxTokens, halvings)
  {
    count := 1;
    var tokens, scores := TokenBudget(batchSize, maxTokens, halvings), ScoreBudget(batchSize, maxTokens, halvings);
    while count < |lengths|
      invariant 1 <= count && (lengths != [] ==> count <= |lengths|)
      invariant count > 1 ==> count <= |lengths| && Fits(count, lengths[count - 1], batchSize, maxTokens, halvings)
    {
      var len := Max(lengths[count], 1);
      if (count + 1) * len > tokens || (count + 1) * len * len > scores { break; }
      count := count + 1;
    }
    if count > |lengths| { count := |lengths|; }
  }

  lemma MulMonotone(a: nat, b: nat, c: nat, d: nat)
    requires a <= c && b <= d
    ensures a * b <= c * d
  {
    assert a * b <= c * b <= c * d;
  }

  /** No longer run fits either: the greedy run is the largest. */
  lemma FullestRunIsLargest(lengths: seq<nat>, n: nat, m: nat, batch: nat, max: nat, halvings: nat)
    requires ShortestFirst(lengths) && FullestRun(lengths, n, batch, max, halvings) && n < m <= |lengths|
    ensures !Fits(m, lengths[m - 1], batch, max, halvings)
  {
    var short, long := Max(lengths[n], 1), Max(lengths[m - 1], 1);
    assert short <= long by { if n < m - 1 { assert lengths[n] <= lengths[m - 1]; } }
    MulMonotone(n + 1, short, m, long);
    MulMonotone((n + 1) * short, short, m * long, long);
  }

  lemma FloorBudget(x: nat, budget: nat, shift: nat)
    requires x <= ShiftRight(budget, shift)
    ensures x * Pow2(shift) <= budget
  {
    MulMonotone(x, Pow2(shift), ShiftRight(budget, shift), Pow2(shift));
  }

  /** The full budget halved `halvings` times suffices for `n` texts padded to `len` tokens. */
  predicate InBudget(n: nat, len: nat, batch: nat, max: nat, halvings: nat)
  {
    var b, m, l := Max(batch, 1), Max(max, 1), Max(len, 1);
    n * l * Pow2(halvings) <= b * m && n * l * l * Pow2(halvings) <= b * m * m
  }

  /** At most 64 halvings happened, or the budget is below 2^65 token states. */
  predicate HalvingsCount(batch: nat, max: nat, halvings: nat)
  {
    halvings <= 64 || Product(Max(batch, 1), Max(max, 1)) < 2 * Pow2(64)
  }

  /** Then a planned run of several texts stays in the budget halved as often. */
  lemma RunStaysInBudget(lengths: seq<nat>, n: nat, batch: nat, max: nat, halvings: nat)
    requires FullestRun(lengths, n, batch, max, halvings) && n > 1 && HalvingsCount(batch, max, halvings)
    ensures InBudget(n, lengths[n - 1], batch, max, halvings)
  {
    var len, b, m := Max(lengths[n - 1], 1), Max(batch, 1), Max(max, 1);
    var shift := Min(halvings, 64);
    FloorBudget(n * len, b * m, shift);
    FloorBudget(n * len * len, b * m * m, shift);
    if halvings > 64 {
      TooSmallForTwo(n, len, b * m);
      assert false;
    }
  }

  lemma TooSmallForTwo(n: nat, len: nat, budget: nat)
    requires n > 1 && len >= 1 && budget < 2 * Pow2(64)
    ensures n * len > ShiftRight(budget, 64)
  {
    MulMonotone(2, 1, n, len);
    var r := ShiftRight(budget, 64);
    if r >= 2 {
      MulMonotone(2, Pow2(64), r, Pow2(64));
      assert false;
    }
  }

  lemma {:induction false} ShiftMonotone(x: nat, y: nat, n: nat)
    requires x <= y
    ensures ShiftRight(x, n) <= ShiftRight(y, n)
  {
    if n > 0 { ShiftMonotone(x / 2, y / 2, n - 1); }
  }

  lemma {:induction false} Pow2Grows(m: nat, n: nat)
    requires m <= n
    ensures Pow2(m) <= Pow2(n)
  {
    if m < n { Pow2Grows(m, n - 1); }
  }

  /** Otherwise a run of one-token texts is planned beyond it. */
  lemma RunLeavesBudget(batch: nat, max: nat, halvings: nat) returns (lengths: seq<nat>, n: nat)
    requires !HalvingsCount(batch, max, halvings)
    ensures ShortestFirst(lengths) && FullestRun(lengths, n, batch, max, halvings) && n > 1
    ensures !InBudget(n, lengths[n - 1], batch, max, halvings)
  {
    var budget := Product(Max(batch, 1), Max(max, 1));
    n := ShiftRight(budget, 64);
    AtLeastTwo(n, budget, Pow2(64));
    lengths := seq(n, _ => 1);
    MulMonotone(budget, 1, budget, Max(max, 1));
    ShiftMonotone(budget, Product(budget, Max(max, 1)), 64);
    BeyondBudget(n, budget, halvings);
  }

  lemma AtLeastTwo(n: nat, budget: nat, unit: nat)
    requires 2 * unit <= budget < (n + 1) * unit
    ensures n >= 2
  {
    if n <= 1 {
      MulMonotone(n + 1, unit, 2, unit);
      assert false;
    }
  }

  lemma BeyondBudget(n: nat, budget: nat, halvings: nat)
    requires n == ShiftRight(budget, 64) && n >= 2 && halvings > 64
    ensures n * Pow2(halvings) > budget
  {
    var shift: nat := 64;
    assert Pow2(shift + 1) == 2 * Pow2(shift);
    Pow2Grows(shift + 1, halvings);
    BeyondUnits(n, budget, Pow2(shift), Pow2(halvings));
  }

  lemma BeyondUnits(n: nat, budget: nat, unit: nat, large: nat)
    requires n >= 2 && budget < (n + 1) * unit && 2 * unit <= large
    ensures n * large > budget
  {
    MulMonotone(n, 2 * unit, n, large);
    MulMonotone(n + 1, unit, 2 * n, unit);
    Regroup(n, unit);
  }

  lemma Regroup(n: nat, unit: nat)
    ensures n * (2 * unit) == 2 * n * unit
  {
  }

  /** Every planned run of several texts stays in the budget exactly under that condition. */
  lemma RunsStayInBudgetIff(batch: nat, max: nat, halvings: nat)
    ensures (forall lengths, n {:trigger FullestRun(lengths, n, batch, max, halvings)} ::
               ShortestFirst(lengths) && FullestRun(lengths, n, batch, max, halvings) && n > 1 ==>
                 InBudget(n, lengths[n - 1], batch, max, halvings))
            <==> HalvingsCount(batch, max, halvings)
  {
    if HalvingsCount(batch, max, halvings) {
      forall lengths, n | ShortestFirst(lengths) && FullestRun(lengths, n, batch, max, halvings) && n > 1
        ensures InBudget(n, lengths[n - 1], batch, max, halvings)
      {
        RunStaysInBudget(lengths, n, batch, max, halvings);
      }
    } else {
      var lengths, n := RunLeavesBudget(batch, max, halvings);
      assert FullestRun(lengths, n, batch, max, halvings);
    }
  }

  // ---------------------------------------------------------------------------------------
  // The model.
  // ---------------------------------------------------------------------------------------

  /** How a run ends: the device may run out of memory, or fail for good. */
  datatype Answer = Done | OutOfMemory | Failed

  /** Run `n` fails for good: by itself, or for want of memory with nothing left to split. */
  predicate Breaks(answer: (nat, seq<nat>) -> Answer, asked: seq<seq<nat>>, n: nat)
  {
    n < |asked| && (answer(n, asked[n]) == Failed || (answer(n, asked[n]) == OutOfMemory && |asked[n]| == 1))
  }

  ghost predicate NoneBreaks(answer: (nat, seq<nat>) -> Answer, asked: seq<seq<nat>>, first: nat, last: nat)
  {
    forall n :: first <= n < last ==> !Breaks(answer, asked, n)
  }

  /** How many of the runs in `[first, last)` did not fit and were split. */
  function Misfits(answer: (nat, seq<nat>) -> Answer, asked: seq<seq<nat>>, first: nat, last: nat): nat
    requires last <= |asked|
    decreases last
  {
    if last <= first then 0
    else
      Misfits(answer, asked, first, last - 1)
      + if answer(last - 1, asked[last - 1]) == OutOfMemory && |asked[last - 1]| > 1 then 1 else 0
  }

  /** One halving more each, up to the largest 32-bit number. */
  function Halved(halvings: nat, misfits: nat): nat
  {
    if halvings + misfits <= U32_MAX then halvings + misfits else if halvings <= U32_MAX then U32_MAX else halvings
  }

  lemma {:induction false} MisfitsAdd(
      answer: (nat, seq<nat>) -> Answer, before: seq<seq<nat>>, asked: seq<seq<nat>>, first: nat, middle: nat, last: nat)
    requires before <= asked && first <= middle <= |before| && middle <= last <= |asked|
    ensures Misfits(answer, asked, first, last) == Misfits(answer, before, first, middle) + Misfits(answer, asked, middle, last)
    decreases last - first
  {
    if last > middle {
      MisfitsAdd(answer, before, asked, first, middle, last - 1);
    } else if first < last {
      MisfitsAdd(answer, before[..last - 1], before, first, last - 1, last - 1);
      MisfitsAdd(answer, before[..last - 1], asked, first, last - 1, last - 1);
      assert asked[last - 1] == before[last - 1];
    }
  }

  lemma BreaksAdd(
      answer: (nat, seq<nat>) -> Answer, before: seq<seq<nat>>, asked: seq<seq<nat>>, first: nat, middle: nat, last: nat)
    requires before <= asked && first <= middle <= |before| && middle <= last
    ensures NoneBreaks(answer, asked, first, last)
            <==> NoneBreaks(answer, before, first, middle) && NoneBreaks(answer, asked, middle, last)
  {
    assert forall n :: 0 <= n < middle ==> (Breaks(answer, before, n) <==> Breaks(answer, asked, n));
  }

  /** From `before` to `asked` one call of the model asked for these runs: `ok` exactly if none broke, with one
      halving for each that was split. */
  ghost predicate Ran(
      answer: (nat, seq<nat>) -> Answer, before: seq<seq<nat>>, asked: seq<seq<nat>>, halvings: nat, now: nat, ok: bool)
  {
    && before <= asked && (ok <==> NoneBreaks(answer, asked, |before|, |asked|))
    && now == Halved(halvings, Misfits(answer, asked, |before|, |asked|))
  }

  lemma RanOnce(answer: (nat, seq<nat>) -> Answer, before: seq<seq<nat>>, rows: seq<nat>, halvings: nat)
    ensures var reply, asked := answer(|before|, rows), before + [rows];
            var split := reply == OutOfMemory && |rows| > 1;
            Ran(answer, before, asked, halvings, Halved(halvings, if split then 1 else 0), !Breaks(answer, asked, |before|))
  {
    var asked := before + [rows];
    assert Misfits(answer, asked, |before|, |before|) == 0;
    assert NoneBreaks(answer, asked, |before|, |asked|) <==> !Breaks(answer, asked, |before|);
  }

  lemma RanMore(
      answer: (nat, seq<nat>) -> Answer, before: seq<seq<nat>>, middle: seq<seq<nat>>, asked: seq<seq<nat>>,
      first: nat, second: nat, third: nat, ok: bool)
    requires Ran(answer, before, middle, first, second, true) && Ran(answer, middle, asked, second, third, ok)
    ensures Ran(answer, before, asked, first, third, ok)
  {
    BreaksAdd(answer, middle, asked, |before|, |middle|, |asked|);
    MisfitsAdd(answer, middle, asked, |before|, |middle|, |asked|);
  }

  /** A planned run: the texts at these places of the length order, with the halvings in force. */
  datatype Planned = Planned(start: nat, count: nat, halvings: nat)

  /** The runs cover the length order without gap or overlap up to `end`, each greedy for its budget. */
  ghost predicate Plans(plan: seq<Planned>, lengths: seq<nat>, end: nat, batch: nat, max: nat)
  {
    && (if plan == [] then end == 0 else plan[|plan| - 1].start + plan[|plan| - 1].count == end)
    && (forall k :: 0 <= k < |plan| ==>
          plan[k].start == if k == 0 then 0 else plan[k - 1].start + plan[k - 1].count)
    && (forall k :: 0 <= k < |plan| ==>
          plan[k].start <= |lengths| && FullestRun(lengths[plan[k].start..], plan[k].count, batch, max, plan[k].halvings))
  }

  /** Halvings are in force from the run after the one that did not fit. */
  ghost predicate HalvingsGrow(plan: seq<Planned>, first: nat, last: nat)
  {
    && first <= last && (forall k :: 0 <= k < |plan| ==> first <= plan[k].halvings <= last)
    && (plan != [] ==> plan[0].halvings == first)
    && forall i, j :: 0 <= i < j < |plan| ==> plan[i].halvings <= plan[j].halvings
  }

  /** The rows of texts, shortest first. */
  function LengthOrder(lengths: seq<nat>): (r: seq<nat>)
    ensures |r| == |lengths| && (forall i :: 0 <= i < |lengths| ==> i in r)
    ensures forall k :: 0 <= k < |r| ==> r[k] < |lengths|
    ensures forall i, j :: 0 <= i < j < |r| ==> lengths[r[i]] <= lengths[r[j]] && r[i] != r[j]
  {
    var rows: seq<nat> := seq(|lengths|, i => i);
    var sorted := SortBy(rows, (i: nat) => if i < |lengths| then lengths[i] else 0);
    OrderIsPermutation(rows, sorted);
    sorted
  }

  lemma OrderIsPermutation(rows: seq<nat>, sorted: seq<nat>)
    requires (forall i :: 0 <= i < |rows| ==> rows[i] == i) && multiset(sorted) == multiset(rows)
    ensures |sorted| == |rows| && (forall i :: 0 <= i < |rows| ==> i in sorted)
    ensures forall k :: 0 <= k < |sorted| ==> sorted[k] < |rows|
    ensures forall i, j :: 0 <= i < j < |sorted| ==> sorted[i] != sorted[j]
  {
    SameElements(rows, sorted);
    PermutationStaysDistinct(rows, sorted);
    forall i: nat | i < |rows| ensures i in sorted { assert rows[i] in sorted; }
    forall k | 0 <= k < |sorted| ensures sorted[k] < |rows| { assert sorted[k] in rows; }
  }

  lemma HalvingsAfter(plan: seq<Planned>, first: nat, now: nat, later: nat, start: nat, count: nat)
    requires HalvingsGrow(plan, first, now) && (plan == [] ==> now == first) && now <= later
    ensures HalvingsGrow(plan + [Planned(start, count, now)], first, later)
  {
    var all := plan + [Planned(start, count, now)];
    assert forall k :: 0 <= k < |plan| ==> all[k] == plan[k];
  }

  lemma PlanOneMore(plan: seq<Planned>, lengths: seq<nat>, start: nat, count: nat, batch: nat, max: nat, halvings: nat)
    requires Plans(plan, lengths, start, batch, max) && start <= |lengths|
    requires FullestRun(lengths[start..], count, batch, max, halvings)
    ensures Plans(plan + [Planned(start, count, halvings)], lengths, start + count, batch, max)
  {
    var all := plan + [Planned(start, count, halvings)];
    assert forall k :: 0 <= k < |plan| ==> all[k] == plan[k];
  }

  /** Every planned run of several texts stays within the budget halved as often as was in force. */
  lemma PlannedRunsStayInBudget(plan: seq<Planned>, lengths: seq<nat>, end: nat, batch: nat, max: nat, k: nat)
    requires Plans(plan, lengths, end, batch, max) && k < |plan| && plan[k].count > 1
    requires HalvingsCount(batch, max, plan[k].halvings)
    ensures plan[k].start + plan[k].count <= |lengths|
    ensures InBudget(plan[k].count, lengths[plan[k].start + plan[k].count - 1], batch, max, plan[k].halvings)
  {
    var rest := lengths[plan[k].start..];
    assert FullestRun(rest, plan[k].count, batch, max, plan[k].halvings);
    RunStaysInBudget(rest, plan[k].count, batch, max, plan[k].halvings);
    assert rest[plan[k].count - 1] == lengths[plan[k].start + plan[k].count - 1];
  }

  class PooledModel<Vector(0)> {
    const maxTokens: nat
    /** Halvings of the memory budget, one per run that did not fit. */
    var halvings: nat
    /** Model runs so far, and the rows of each. */
    var calls: nat
    ghost var asked: seq<seq<nat>>

    ghost predicate Valid()
      reads this
    {
      |asked| == calls
    }

    constructor (maxTokens: nat)
      ensures Valid() && halvings == 0 && calls == 0 && this.maxTokens == maxTokens
    {
      this.maxTokens, halvings, calls, asked := maxTokens, 0, 0, [];
    }

    /** Runs `rows` and stores their vectors; a run that does not fit is split in two. `vector` is what
        the model makes of a row, `answer` how the n-th run ends. */
    method RunSplitting(rows: seq<nat>, vector: nat -> Vector, answer: (nat, seq<nat>) -> Answer, out: array<Vector>)
      returns (ok: bool)
      requires Valid() && rows != [] && forall k :: 0 <= k < |rows| ==> rows[k] < out.Length
      modifies this, out
      ensures Valid() && Ran(answer, old(asked), asked, old(halvings), halvings, ok)
      ensures old(asked) + [rows] <= asked
      ensures ok ==> forall k :: 0 <= k < |rows| ==> out[rows[k]] == vector(rows[k])
      ensures forall i :: 0 <= i < out.Length && i !in rows ==> out[i] == old(out[i])
      ensures forall i :: 0 <= i < out.Length && old(out[i]) == vector(i) ==> out[i] == vector(i)
      decreases |rows|
    {
      var reply := answer(calls, rows);
      RanOnce(answer, asked, rows, halvings);
      calls, asked := calls + 1, asked + [rows];
      ghost var first := asked;
      match reply {
        case Done =>
          for k := 0 to |rows|
            invariant halvings == old(halvings) && asked == first && Valid()
            invariant forall j :: 0 <= j < k ==> out[rows[j]] == vector(rows[j])
            invariant forall i :: 0 <= i < out.Length && i !in rows ==> out[i] == old(out[i])
            invariant forall i :: 0 <= i < out.Length && old(out[i]) == vector(i) ==> out[i] == vector(i)
          {
            out[rows[k]] := vector(rows[k]);
          }
          ok := true;
        case OutOfMemory =>
          if |rows| == 1 { return false; }
          halvings := if halvings < U32_MAX then halvings + 1 else halvings;
          var half := |rows| / 2;
          var left, right := rows[..half], rows[half..];
          assert rows == left + right;
          assert forall i :: i in rows <==> i in left || i in right;
          ghost var h := halvings;
          ok := RunSplitting(left, vector, answer, out);
          RanMore(answer, old(asked), first, asked, old(halvings), h, halvings, ok);
          if !ok { return; }
          ghost var second, h' := asked, halvings;
          ok := RunSplitting(right, vector, answer, out);
          RanMore(answer, old(asked), second, asked, old(halvings), h', halvings, ok);
          assert forall k :: 0 <= k < |rows| ==> rows[k] == if k < half then left[k] else right[k - half];
        case Failed =>
          ok := false;
      }
    }

    method RunPart(
      order: seq<nat>, start: nat, count: nat, vector: nat -> Vector, answer: (nat, seq<nat>) -> Answer, out: array<Vector>)
      returns (ok: bool)
      requires Valid() && 0 < count && start + count <= |order| && forall k :: 0 <= k < |order| ==> order[k] < out.Length
      requires forall k :: 0 <= k < start ==> out[order[k]] == vector(order[k])
      modifies this, out
      ensures Valid() && Ran(answer, old(asked), asked, old(halvings), halvings, ok)
      ensures ok ==> forall k :: 0 <= k < start + count ==> out[order[k]] == vector(order[k])
    {
      var rows := order[start..start + count];
      ok := RunSplitting(rows, vector, answer, out);
      assert forall k :: start <= k < start + count ==> order[k] == rows[k - start];
    }

    /** Plans and runs one run after the other: a run that did not fit lowers the budget of the next. */
    method RunAll(
      order: seq<nat>, sorted: seq<nat>, batchSize: nat, vector: nat -> Vector, answer: (nat, seq<nat>) -> Answer,
      out: array<Vector>)
      returns (ok: bool, ghost plan: seq<Planned>)
      requires Valid() && |order| == |sorted| && forall k :: 0 <= k < |order| ==> order[k] < out.Length
      modifies this, out
      ensures Valid() && Ran(answer, old(asked), asked, old(halvings), halvings, ok)
      ensures ok ==> forall k :: 0 <= k < |order| ==> out[order[k]] == vector(order[k])
      ensures ok ==> Plans(plan, sorted, |order|, batchSize, maxTokens)
      ensures HalvingsGrow(plan, old(halvings), halvings)
    {
      var start := 0;
      plan := [];
      while start < |order|
        invariant 0 <= start <= |order| && Valid() && Ran(answer, old(asked), asked, old(halvings), halvings, true)
        invariant forall k :: 0 <= k < start ==> out[order[k]] == vector(order[k])
        invariant Plans(plan, sorted, start, batchSize, maxTokens)
        invariant HalvingsGrow(plan, old(halvings), halvings) && (plan == [] ==> halvings == old(halvings))
      {
        var count := NextRun(sorted[start..], batchSize, maxTokens, halvings);
        PlanOneMore(plan, sorted, start, count, batchSize, maxTokens, halvings);
        ghost var before, inForce, ran := plan, halvings, asked;
        plan := plan + [Planned(start, count, halvings)];
        ok := RunPart(order, start, count, vector, answer, out);
        RanMore(answer, old(asked), ran, asked, old(halvings), inForce, halvings, ok);
        HalvingsAfter(before, old(halvings), inForce, halvings, start, count);
        if !ok { return; }
        start := start + count;
      }
      ok := true;
    }

    /** The vectors of the texts in input order, unless the device fails for good. */
    method Embed(lengths: seq<nat>, batchSize: nat, vector: nat -> Vector, answer: (nat, seq<nat>) -> Answer)
      returns (vectors: Option<array<Vector>>, ghost plan: seq<Planned>)
      requires Valid()
      modifies this
      ensures Valid() && Ran(answer, old(asked), asked, old(halvings), halvings, vectors.Some?)
      ensures vectors.Some? ==> fresh(vectors.value) && vectors.value.Length == |lengths|
                                && forall i :: 0 <= i < |lengths| ==> vectors.value[i] == vector(i)
      ensures vectors.Some? ==> Plans(plan, SortedLengths(lengths), |lengths|, batchSize, maxTokens)
      ensures HalvingsGrow(plan, old(halvings), halvings)
    {
      var order := LengthOrder(lengths);
      var out := new Vector[|lengths|];
      var ok;
      ok, plan := RunAll(order, SortedLengths(lengths), batchSize, vector, answer, out);
      if !ok { return None, plan; }
      forall i | 0 <= i < |lengths| ensures out[i] == vector(i) {
        assert i in order;
        var k :| 0 <= k < |order| && order[k] == i;
      }
      vectors := Some(out);
    }
  }

  function SortedLengths(lengths: seq<nat>): (r: seq<nat>)
    ensures |r| == |lengths| && ShortestFirst(r)
  {
    var order := LengthOrder(lengths);
    seq(|order|, k requires 0 <= k < |order| => lengths[order[k]])
  }
}
