/** The numeric index on disk: points sorted by packed value for ranges, entries sorted by document
    with a block table for lookups. */
module NumericFields {
  import opened Options
  import opened Numbers
  import opened NumericValues
  import opened Sorting

  datatype Point = Point(doc: nat, value: Value)

  // ---------------------------------------------------------------------------------------
  // Searching.
  // ---------------------------------------------------------------------------------------

  ghost predicate SplitAt<T(!new)>(xs: seq<T>, holds: T -> bool, k: nat)
  {
    && k <= |xs| && (forall i :: 0 <= i < k ==> holds(xs[i]))
    && (forall i :: k <= i < |xs| ==> !holds(xs[i]))
  }

  /** Binary search for the first element that does not satisfy `holds`, between `lo` and `hi`. */
  function PartitionPoint<T(!new)>(xs: seq<T>, holds: T -> bool, lo: nat, hi: nat): (k: nat)
    requires lo <= hi <= |xs|
    requires forall i, j :: 0 <= i < j < |xs| && holds(xs[j]) ==> holds(xs[i])
    requires forall i :: 0 <= i < lo ==> holds(xs[i])
    requires forall i :: hi <= i < |xs| ==> !holds(xs[i])
    ensures SplitAt(xs, holds, k)
    decreases hi - lo
  {
    if lo == hi then lo
    else
      var mid := (lo + hi) / 2;
      if holds(xs[mid]) then PartitionPoint(xs, holds, mid + 1, hi) else PartitionPoint(xs, holds, lo, mid)
  }

  // ---------------------------------------------------------------------------------------
  // Points sorted by packed value.
  // ---------------------------------------------------------------------------------------

  datatype Packed = Packed(key: U64, doc: nat)

  datatype Bkd = Bkd(kind: Kind, points: seq<Packed>)

  ghost predicate KeySorted(points: seq<Packed>) { forall i, j :: 0 <= i < j < |points| ==> points[i].key <= points[j].key }

  /** The first point not below the lower bound. */
  function StartOf(points: seq<Packed>, lo: Option<Bound>): (k: nat)
    requires KeySorted(points)
    ensures k <= |points| && forall i :: 0 <= i < |points| ==> (KeyInBounds(points[i].key, lo, None) <==> k <= i)
  {
    if lo.None? then 0
    else
      var bound := Pack(lo.value.value);
      if lo.value.inclusive then PartitionPoint(points, (p: Packed) => p.key < bound, 0, |points|)
      else PartitionPoint(points, (p: Packed) => p.key <= bound, 0, |points|)
  }

  /** The first point past the upper bound. */
  function EndOf(points: seq<Packed>, hi: Option<Bound>): (k: nat)
    requires KeySorted(points)
    ensures k <= |points| && forall i :: 0 <= i < |points| ==> (KeyInBounds(points[i].key, None, hi) <==> i < k)
  {
    if hi.None? then |points|
    else
      var bound := Pack(hi.value.value);
      if hi.value.inclusive then PartitionPoint(points, (p: Packed) => p.key <= bound, 0, |points|)
      else PartitionPoint(points, (p: Packed) => p.key < bound, 0, |points|)
  }

  /** Docs whose value lies inside the bounds, by two partition points. */
  function BkdRange(b: Bkd, lo: Option<Bound>, hi: Option<Bound>): seq<nat>
    requires KeySorted(b.points)
  {
    var start, end := StartOf(b.points, lo), EndOf(b.points, hi);
    if start >= end then [] else SortDedup(Docs(b.points[start..end]))
  }

  function Docs(points: seq<Packed>): (r: seq<nat>)
    ensures |r| == |points| && forall k :: 0 <= k < |r| ==> r[k] == points[k].doc
  {
    seq(|points|, k requires 0 <= k < |points| => points[k].doc)
  }

  function BkdMin(b: Bkd): Option<Value>
  {
    if b.points == [] then None else Some(Unpack(b.points[0].key, b.kind))
  }

  function BkdMax(b: Bkd): Option<Value>
  {
    if b.points == [] then None else Some(Unpack(b.points[|b.points| - 1].key, b.kind))
  }

  /** The key lies inside the packed bounds. */
  predicate KeyInBounds(key: U64, lo: Option<Bound>, hi: Option<Bound>)
  {
    && (lo.Some? ==> if lo.value.inclusive then Pack(lo.value.value) <= key else Pack(lo.value.value) < key)
    && (hi.Some? ==> if hi.value.inclusive then key <= Pack(hi.value.value) else key < Pack(hi.value.value))
  }

  lemma KeyInSlice(points: seq<Packed>, lo: Option<Bound>, hi: Option<Bound>, i: nat)
    requires KeySorted(points) && i < |points|
    ensures KeyInBounds(points[i].key, lo, hi) <==> StartOf(points, lo) <= i < EndOf(points, hi)
  {
    assert KeyInBounds(points[i].key, lo, hi) <==>
           KeyInBounds(points[i].key, lo, None) && KeyInBounds(points[i].key, None, hi);
  }

  ghost predicate HasKey(b: Bkd, d: nat, lo: Option<Bound>, hi: Option<Bound>)
  {
    exists i :: 0 <= i < |b.points| && b.points[i].doc == d && KeyInBounds(b.points[i].key, lo, hi)
  }

  lemma SliceDocs(points: seq<Packed>, start: nat, end: nat, d: nat)
    requires start <= end <= |points|
    ensures d in Docs(points[start..end]) <==> exists i :: start <= i < end && points[i].doc == d
  {
    var slice := points[start..end];
    if d in Docs(slice) {
      var k :| 0 <= k < |slice| && Docs(slice)[k] == d;
      assert points[start + k].doc == d;
    }
    if i :| start <= i < end && points[i].doc == d { assert Docs(slice)[i - start] == d; }
  }

  lemma DocInRange(b: Bkd, lo: Option<Bound>, hi: Option<Bound>, d: nat)
    requires KeySorted(b.points)
    ensures d in BkdRange(b, lo, hi) <==> HasKey(b, d, lo, hi)
  {
    var start, end := StartOf(b.points, lo), EndOf(b.points, hi);
    if start < end { SliceDocs(b.points, start, end, d); }
    if d in BkdRange(b, lo, hi) {
      var i :| start <= i < end && b.points[i].doc == d;
      KeyInSlice(b.points, lo, hi, i);
    }
    if HasKey(b, d, lo, hi) {
      var i :| 0 <= i < |b.points| && b.points[i].doc == d && KeyInBounds(b.points[i].key, lo, hi);
      KeyInSlice(b.points, lo, hi, i);
    }
  }

  /** A range lists exactly the documents with a key inside the packed bounds, in order, once. */
  lemma BkdRangeIsExact(b: Bkd, lo: Option<Bound>, hi: Option<Bound>)
    requires KeySorted(b.points)
    ensures Ascending(BkdRange(b, lo, hi)) && forall d :: d in BkdRange(b, lo, hi) <==> HasKey(b, d, lo, hi)
  {
    forall d ensures d in BkdRange(b, lo, hi) <==> HasKey(b, d, lo, hi) { DocInRange(b, lo, hi, d); }
  }

  // ---------------------------------------------------------------------------------------
  // Entries sorted by document, with the first document of every block.
  // ---------------------------------------------------------------------------------------

  const BLOCK_SIZE: nat := 256

  datatype Entry = Entry(doc: nat, key: U64)

  datatype DocValues = DocValues(kind: Kind, entries: seq<Entry>, blockFirstDoc: seq<nat>)

  ghost predicate DocSorted(entries: seq<Entry>) { forall i, j :: 0 <= i < j < |entries| ==> entries[i].doc <= entries[j].doc }

  ghost predicate DistinctDocs(entries: seq<Entry>)
  {
    forall i, j :: 0 <= i < j < |entries| ==> entries[i].doc != entries[j].doc
  }

  function Blocks(n: nat): nat { (n + BLOCK_SIZE - 1) / BLOCK_SIZE }

  /** The first document of each block of 256. */
  function BlockFirsts(entries: seq<Entry>): (r: seq<nat>)
    ensures |r| == Blocks(|entries|)
    ensures forall b :: 0 <= b < |r| ==> b * BLOCK_SIZE < |entries| && r[b] == entries[b * BLOCK_SIZE].doc
  {
    seq(Blocks(|entries|), b requires 0 <= b < Blocks(|entries|) => entries[b * BLOCK_SIZE].doc)
  }

  /** Binary search of a document in `[lo, hi)`. */
  function Find(entries: seq<Entry>, doc: nat, lo: nat, hi: nat): (r: Option<nat>)
    requires lo <= hi <= |entries| && DocSorted(entries)
    ensures r.Some? ==> lo <= r.value < hi && entries[r.value].doc == doc
    ensures r.None? ==> forall i :: lo <= i < hi ==> entries[i].doc != doc
    decreases hi - lo
  {
    if lo == hi then None
    else
      var mid := (lo + hi) / 2;
      if entries[mid].doc == doc then Some(mid)
      else if entries[mid].doc < doc then Find(entries, doc, mid + 1, hi)
      else Find(entries, doc, lo, mid)
  }

  function DocValue(v: DocValues, doc: nat): Option<Value>
    requires DocSorted(v.entries) && v.blockFirstDoc == BlockFirsts(v.entries)
  {
    var n := |v.entries|;
    if n == 0 || doc < v.entries[0].doc || doc > v.entries[n - 1].doc then None
    else
      var found := FindInBlock(v.entries, v.blockFirstDoc, doc);
      if found.None? then None else Some(Unpack(v.entries[found.value].key, v.kind))
  }

  /** How many blocks start at or before the document. */
  function BlocksUpTo(firsts: seq<nat>, doc: nat): (k: nat)
    requires forall i, j :: 0 <= i < j < |firsts| ==> firsts[i] <= firsts[j]
    ensures k <= |firsts| && (forall i :: 0 <= i < k ==> firsts[i] <= doc)
    ensures forall i :: k <= i < |firsts| ==> doc < firsts[i]
  {
    PartitionPoint(firsts, (first: nat) => first <= doc, 0, |firsts|)
  }

  /** Binary search within the only block that can hold the document. */
  function FindInBlock(entries: seq<Entry>, firsts: seq<nat>, doc: nat): (r: Option<nat>)
    requires DocSorted(entries) && firsts == BlockFirsts(entries) && entries != []
    ensures r.Some? ==> r.value < |entries| && entries[r.value].doc == doc
  {
    var after := BlocksUpTo(firsts, doc);
    var block := if after == 0 then 0 else after - 1;
    var start := block * BLOCK_SIZE;
    var end := if start + BLOCK_SIZE <= |entries| then start + BLOCK_SIZE else |entries|;
    Find(entries, doc, start, end)
  }

  /** The block the table leads to is the one that holds the document. */
  lemma BlockHoldsDoc(entries: seq<Entry>, doc: nat, i: nat)
    requires DocSorted(entries) && DistinctDocs(entries) && i < |entries| && entries[i].doc == doc
    ensures BlocksUpTo(BlockFirsts(entries), doc) == i / BLOCK_SIZE + 1
  {
    var firsts, b := BlockFirsts(entries), i / BLOCK_SIZE;
    assert firsts[b] == entries[b * BLOCK_SIZE].doc <= doc;
    if b + 1 < |firsts| {
      var j := (b + 1) * BLOCK_SIZE;
      assert firsts[b + 1] == entries[j].doc;
      assert i < j && doc < entries[j].doc;
    }
  }

  lemma FoundInBlock(entries: seq<Entry>, doc: nat, i: nat)
    requires DocSorted(entries) && DistinctDocs(entries) && i < |entries| && entries[i].doc == doc
    ensures FindInBlock(entries, BlockFirsts(entries), doc) == Some(i)
  {
    BlockHoldsDoc(entries, doc, i);
    var found := FindInBlock(entries, BlockFirsts(entries), doc);
  }

  /** A lookup finds a document's value exactly if there is an entry of it. */
  lemma DocValueIsExact(v: DocValues, doc: nat)
    requires DocSorted(v.entries) && DistinctDocs(v.entries) && v.blockFirstDoc == BlockFirsts(v.entries)
    ensures forall i :: 0 <= i < |v.entries| && v.entries[i].doc == doc ==>
                        DocValue(v, doc) == Some(Unpack(v.entries[i].key, v.kind))
    ensures DocValue(v, doc).Some? ==> exists i :: 0 <= i < |v.entries| && v.entries[i].doc == doc
  {
    forall i | 0 <= i < |v.entries| && v.entries[i].doc == doc
      ensures DocValue(v, doc) == Some(Unpack(v.entries[i].key, v.kind))
    {
      FoundInBlock(v.entries, doc, i);
    }
  }
}
