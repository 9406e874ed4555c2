/** Which shard owns a document: a jump consistent hash. The floating-point step that picks the
    next candidate bucket is a parameter, of which only `next > bucket` is used. */
module ShardRouter {

  const TWO_64: nat := 0x1_0000_0000_0000_0000
  const TWO_31: nat := 0x8000_0000
  const TWO_33: nat := 0x2_0000_0000

  type Key = k: nat | k < TWO_64

  /** The wrapping 64-bit generator that draws the next random key. */
  function NextKey(key: Key): Key
  {
    (key * 2_862_933_555_777_941_757 + 1) % TWO_64
  }

  /** The next candidate, from the current bucket and the key drawn for it. */
  type JumpStep = (nat, Key) -> nat

  ghost predicate Advances(step: JumpStep)
  {
    forall bucket, key :: step(bucket, key) > bucket
  }

  /** The step in exact arithmetic: scale `bucket + 1` by 2^31 / (top 31 bits + 1). */
  function ExactStep(bucket: nat, key: Key): nat
  {
    (bucket + 1) * TWO_31 / (key / TWO_33 + 1)
  }

  lemma ExactStepAdvances()
    ensures Advances(ExactStep)
  {
    forall bucket: nat, key: Key ensures ExactStep(bucket, key) > bucket {
      var divisor := key / TWO_33 + 1;
      assert divisor <= TWO_31;
      ScaledUp(bucket + 1, TWO_31, divisor);
    }
  }

  lemma ScaledUp(x: nat, m: nat, d: nat)
    requires 0 < d <= m
    ensures x * m / d >= x
  {
    var q := x * m / d;
    MulGrows(x, d, m);
    if q < x {
      MulGrows(d, q + 1, x);
      assert false;
    }
  }

  lemma MulGrows(x: nat, y: nat, z: nat)
    requires y <= z
    ensures x * y <= x * z && y * x <= z * x
  {
  }

  /** The last candidate below `buckets`, `next` being the candidate after `bucket`. */
  function JumpFrom(step: JumpStep, key: Key, bucket: int, next: nat, buckets: nat): (r: int)
    requires Advances(step)
    ensures r == bucket || next <= r < buckets
    decreases buckets - next
  {
    if next >= buckets then bucket
    else
      var drawn := NextKey(key);
      JumpFrom(step, drawn, next, step(next, drawn), buckets)
  }

  method JumpConsistentHash(step: JumpStep, seed: Key, buckets: nat) returns (bucket: int)
    requires Advances(step)
    ensures bucket == JumpFrom(step, seed, -1, 0, buckets)
  {
    var key, next := seed, 0;
    bucket := -1;
    while next < buckets
      invariant next >= 0
      invariant JumpFrom(step, key, bucket, next, buckets) == JumpFrom(step, seed, -1, 0, buckets)
      decreases buckets - next
    {
      bucket := next;
      key := NextKey(key);
      next := step(bucket, key);
    }
  }

  // ---------------------------------------------------------------------------------------
  // The bucket is the last candidate below the bucket count.
  // ---------------------------------------------------------------------------------------

  /** The generator after `n` draws, without ever wrapping. */
  function Drawn(seed: nat, n: nat): nat { if n == 0 then seed else Drawn(seed, n - 1) * 2_862_933_555_777_941_757 + 1 }

  function DrawnKey(seed: nat, n: nat): Key { Drawn(seed, n) % 0x1_0000_0000_0000_0000 }

  /** Candidate `n`: 0 at first, then a step from the last one with the next key drawn. */
  function Candidate(step: JumpStep, seed: nat, n: nat): nat
  {
    if n == 0 then 0 else step(Candidate(step, seed, n - 1), DrawnKey(seed, n))
  }

  lemma WrapsLater(x: nat)
    ensures ((x % TWO_64) * 2_862_933_555_777_941_757 + 1) % TWO_64 == (x * 2_862_933_555_777_941_757 + 1) % TWO_64
  {
    var k, r := x / TWO_64, x % TWO_64;
    assert x * 2_862_933_555_777_941_757 + 1
           == (r * 2_862_933_555_777_941_757 + 1) + TWO_64 * (k * 2_862_933_555_777_941_757);
    AddsMultiple(r * 2_862_933_555_777_941_757 + 1, k * 2_862_933_555_777_941_757);
  }

  lemma AddsMultiple(x: nat, k: nat)
    ensures (x + TWO_64 * k) % TWO_64 == x % TWO_64
  {
  }

  /** Wrapping at every draw and wrapping once at the end give the same key. */
  lemma NextKeyIsDrawn(seed: nat, n: nat)
    ensures NextKey(DrawnKey(seed, n)) == DrawnKey(seed, n + 1)
  {
    WrapsLater(Drawn(seed, n));
  }

  lemma {:induction false} CandidatesAscend(step: JumpStep, seed: nat, few: nat, many: nat)
    requires Advances(step) && few < many
    ensures Candidate(step, seed, few) < Candidate(step, seed, many)
    decreases many
  {
    if few < many - 1 { CandidatesAscend(step, seed, few, many - 1); }
  }

  /** Jumping on from candidate `n`. */
  lemma {:induction false} JumpsFromCandidate(step: JumpStep, seed: nat, n: nat, bucket: int, buckets: nat) returns (last: nat)
    requires Advances(step) && Candidate(step, seed, n) < buckets
    ensures JumpFrom(step, DrawnKey(seed, n), bucket, Candidate(step, seed, n), buckets) == Candidate(step, seed, last)
    ensures Candidate(step, seed, last) < buckets <= Candidate(step, seed, last + 1)
    decreases buckets - Candidate(step, seed, n)
  {
    var next := Candidate(step, seed, n);
    NextKeyIsDrawn(seed, n);
    if Candidate(step, seed, n + 1) < buckets {
      last := JumpsFromCandidate(step, seed, n + 1, next, buckets);
    } else {
      last := n;
    }
  }

  /** The bucket of a document is the last of the ascending candidates that is below the bucket count. */
  lemma BucketIsLastCandidate(step: JumpStep, seed: Key, buckets: nat)
    requires Advances(step) && buckets > 0
    ensures exists last :: && JumpFrom(step, seed, -1, 0, buckets) == Candidate(step, seed, last)
                           && (forall n: nat :: Candidate(step, seed, n) < buckets <==> n <= last)
  {
    var last := JumpsFromCandidate(step, seed, 0, -1, buckets);
    forall n: nat ensures Candidate(step, seed, n) < buckets <==> n <= last {
      if n < last { CandidatesAscend(step, seed, n, last); }
      if n > last + 1 { CandidatesAscend(step, seed, last + 1, n); }
    }
  }

  function ShardFor(step: JumpStep, hash: Key, shards: nat): int
    requires Advances(step)
  {
    if shards <= 1 then 0 else JumpFrom(step, hash, -1, 0, shards)
  }

  /** The candidates do not depend on the bucket count, so a larger count only goes on further. */
  lemma {:induction false} JumpsGoFurther(step: JumpStep, key: Key, bucket: int, next: nat, few: nat, many: nat)
    requires Advances(step) && few <= many
    ensures var kept, moved := JumpFrom(step, key, bucket, next, few), JumpFrom(step, key, bucket, next, many);
            moved == kept || few <= moved < many
    decreases many - next
  {
    if next < few {
      var drawn := NextKey(key);
      JumpsGoFurther(step, drawn, next, step(next, drawn), few, many);
    }
  }

  /** Every document has a shard, and growing the shard count moves it only to a new shard. */
  lemma RoutingIsConsistent(step: JumpStep, hash: Key, few: nat, many: nat)
    requires Advances(step) && 1 <= few <= many
    ensures 0 <= ShardFor(step, hash, few) < few
    ensures ShardFor(step, hash, many) == ShardFor(step, hash, few)
            || few <= ShardFor(step, hash, many) < many
  {
    assert 0 <= JumpFrom(step, hash, -1, 0, few) < few;
    JumpsGoFurther(step, hash, -1, 0, few, many);
  }
}
