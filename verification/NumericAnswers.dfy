/** The numeric values of the memtable, and that flushing them keeps every answer. */
module NumericAnswers {
  import opened Options
  import opened Numbers
  import opened NumericValues
  import opened NumericFields
  import opened Sorting

  ghost predicate InDocOrder(points: seq<Point>) { forall i, j :: 0 <= i < j < |points| ==> points[i].doc <= points[j].doc }

  ghost predicate OneValuePerDoc(points: seq<Point>)
  {
    forall i, j :: 0 <= i < j < |points| ==> points[i].doc != points[j].doc
  }

  ghost predicate AllOfKind(points: seq<Point>, kind: Kind)
  {
    forall i :: 0 <= i < |points| ==> points[i].value.Kind() == kind
  }

  // ---------------------------------------------------------------------------------------
  // Answers from memory.
  // ---------------------------------------------------------------------------------------

  /** How many points precede the documents after `doc`, or `doc` itself. */
  function UpTo(points: seq<Point>, doc: nat, including: bool): (k: nat)
    requires InDocOrder(points)
    ensures k <= |points|
    ensures forall i :: 0 <= i < |points| ==> (i < k <==> points[i].doc < doc || (including && points[i].doc == doc))
  {
    if including then PartitionPoint(points, (p: Point) => p.doc <= doc, 0, |points|)
    else PartitionPoint(points, (p: Point) => p.doc < doc, 0, |points|)
  }

  function ValueOf(points: seq<Point>, doc: nat): Option<Value>
    requires InDocOrder(points)
  {
    var at := UpTo(points, doc, false);
    if at < |points| && points[at].doc == doc then Some(points[at].value) else None
  }

  function DocsInBounds(points: seq<Point>, lo: Option<Bound>, hi: Option<Bound>): (r: seq<nat>)
    ensures forall d :: d in r <==> exists i :: 0 <= i < |points| && points[i].doc == d && InBounds(points[i].value, lo, hi)
  {
    if points == [] then []
    else
      var rest := DocsInBounds(points[1..], lo, hi);
      assert forall i :: 0 < i < |points| ==> points[i] == points[1..][i - 1];
      if InBounds(points[0].value, lo, hi) then [points[0].doc] + rest else rest
  }

  function RangeOf(points: seq<Point>, lo: Option<Bound>, hi: Option<Bound>): seq<nat>
  {
    SortDedup(DocsInBounds(points, lo, hi))
  }

  /** The least value by the order of values, and the greatest. */
  function MinOf(points: seq<Point>): (r: Option<Value>)
    ensures r.None? <==> points == []
    ensures r.Some? ==> exists i :: 0 <= i < |points| && points[i].value == r.value
    ensures r.Some? ==> forall i :: 0 <= i < |points| ==> !Less(points[i].value, r.value)
  {
    if points == [] then None
    else
      var rest := MinOf(points[1..]);
      assert forall i :: 0 < i < |points| ==> points[i] == points[1..][i - 1];
      if rest.None? || !Less(rest.value, points[0].value) then Some(points[0].value) else rest
  }

  function MaxOf(points: seq<Point>): (r: Option<Value>)
    ensures r.None? <==> points == []
    ensures r.Some? ==> exists i :: 0 <= i < |points| && points[i].value == r.value
    ensures r.Some? ==> forall i :: 0 <= i < |points| ==> !Less(r.value, points[i].value)
  {
    if points == [] then None
    else
      var rest := MaxOf(points[1..]);
      assert forall i :: 0 < i < |points| ==> points[i] == points[1..][i - 1];
      if rest.None? || Less(rest.value, points[0].value) then Some(points[0].value) else rest
  }

  // ---------------------------------------------------------------------------------------
  // Building.
  // ---------------------------------------------------------------------------------------

  function KindOf(points: seq<Point>): Kind { if points == [] then IntKind else points[0].value.Kind() }

  function Pack1(p: Point): Packed { Packed(Pack(p.value), p.doc) }
  function Entry1(p: Point): Entry { Entry(p.doc, Pack(p.value)) }

  function Map<A, B>(xs: seq<A>, f: A -> B): (r: seq<B>)
    ensures |r| == |xs| && forall i :: 0 <= i < |r| ==> r[i] == f(xs[i])
  {
    seq(|xs|, i requires 0 <= i < |xs| => f(xs[i]))
  }

  /** Whatever the unstable sort returns: the packed points in key order. */
  ghost predicate BuildsBkd(points: seq<Point>, b: Bkd)
  {
    && b.kind == KindOf(points) && KeySorted(b.points)
    && multiset(b.points) == multiset(Map(points, Pack1))
  }

  ghost predicate BuildsDocValues(points: seq<Point>, v: DocValues)
  {
    && v.kind == KindOf(points) && DocSorted(v.entries) && v.blockFirstDoc == BlockFirsts(v.entries)
    && multiset(v.entries) == multiset(Map(points, Entry1))
  }

  /** Inside the bounds by value exactly if inside by key. */
  lemma PackingKeepsBounds(v: Value, lo: Option<Bound>, hi: Option<Bound>)
    requires OfKind(lo, v.Kind()) && OfKind(hi, v.Kind())
    ensures InBounds(v, lo, hi) <==> KeyInBounds(Pack(v), lo, hi)
  {
    if lo.Some? {
      PackingIsOrderIsomorphism(v, lo.value.value, 0, IntKind);
      PackingIsOrderIsomorphism(lo.value.value, v, 0, IntKind);
      LessIsTotalOrder(v, lo.value.value, v);
    }
    if hi.Some? {
      PackingIsOrderIsomorphism(v, hi.value.value, 0, IntKind);
      PackingIsOrderIsomorphism(hi.value.value, v, 0, IntKind);
      LessIsTotalOrder(v, hi.value.value, v);
    }
  }

  /** For values of the kind, the packed bounds decide as the bounds do. */
  ghost predicate BoundsPack(kind: Kind, lo: Option<Bound>, hi: Option<Bound>)
  {
    forall v: Value :: v.Kind() == kind ==> (InBounds(v, lo, hi) <==> KeyInBounds(Pack(v), lo, hi))
  }

  lemma BoundsOfKindPack(kind: Kind, lo: Option<Bound>, hi: Option<Bound>)
    requires OfKind(lo, kind) && OfKind(hi, kind)
    ensures BoundsPack(kind, lo, hi)
  {
    forall v: Value | v.Kind() == kind ensures InBounds(v, lo, hi) <==> KeyInBounds(Pack(v), lo, hi) {
      PackingKeepsBounds(v, lo, hi);
    }
  }

  lemma PackedBoundsKeepRanges(points: seq<Point>, b: Bkd, lo: Option<Bound>, hi: Option<Bound>)
    requires BuildsBkd(points, b) && AllOfKind(points, b.kind) && BoundsPack(b.kind, lo, hi)
    ensures BkdRange(b, lo, hi) == RangeOf(points, lo, hi)
  {
    BkdRangeIsExact(b, lo, hi);
    SameElements(b.points, Map(points, Pack1));
    forall d ensures HasKey(b, d, lo, hi) <==> d in RangeOf(points, lo, hi) {
      if HasKey(b, d, lo, hi) {
        var i :| 0 <= i < |b.points| && b.points[i].doc == d && KeyInBounds(b.points[i].key, lo, hi);
        assert b.points[i] in Map(points, Pack1);
        var j :| 0 <= j < |points| && Pack1(points[j]) == b.points[i];
        assert InBounds(points[j].value, lo, hi);
      }
      if d in RangeOf(points, lo, hi) {
        var j :| 0 <= j < |points| && points[j].doc == d && InBounds(points[j].value, lo, hi);
        assert Map(points, Pack1)[j] in b.points;
        var i :| 0 <= i < |b.points| && b.points[i] == Pack1(points[j]);
        assert KeyInBounds(b.points[i].key, lo, hi);
      }
    }
    AscendingIsUnique(BkdRange(b, lo, hi), RangeOf(points, lo, hi));
  }

  /** Ranges from disk are ranges from memory, for all bounds of the field's kind. */
  lemma FlushKeepsRanges(points: seq<Point>, b: Bkd, lo: Option<Bound>, hi: Option<Bound>)
    requires BuildsBkd(points, b) && AllOfKind(points, b.kind) && OfKind(lo, b.kind) && OfKind(hi, b.kind)
    ensures BkdRange(b, lo, hi) == RangeOf(points, lo, hi)
  {
    BoundsOfKindPack(b.kind, lo, hi);
    PackedBoundsKeepRanges(points, b, lo, hi);
  }

  /** Bounds of a field from disk are those from memory. */
  lemma FlushKeepsBounds(points: seq<Point>, b: Bkd)
    requires BuildsBkd(points, b) && AllOfKind(points, b.kind)
    ensures BkdMin(b) == MinOf(points) && BkdMax(b) == MaxOf(points)
  {
    SameElements(b.points, Map(points, Pack1));
    if points != [] {
      LeastKeyIsMin(points, b);
      GreatestKeyIsMax(points, b);
    }
  }

  /** The value of the packed point at `i` is in memory; memory's extreme is packed somewhere. */
  lemma ExtremeIsFound(points: seq<Point>, b: Bkd, i: nat, v: Value)
    requires BuildsBkd(points, b) && AllOfKind(points, b.kind) && i < |b.points|
    requires exists j :: 0 <= j < |points| && points[j].value == v
    ensures exists j :: 0 <= j < |points| && points[j].value == Unpack(b.points[i].key, b.kind)
    ensures exists k :: 0 <= k < |b.points| && b.points[k].key == Pack(v)
  {
    SameElements(b.points, Map(points, Pack1));
    assert b.points[i] in Map(points, Pack1);
    var j :| 0 <= j < |points| && Pack1(points[j]) == b.points[i];
    PackingIsOrderIsomorphism(points[j].value, points[j].value, 0, IntKind);
    var m :| 0 <= m < |points| && points[m].value == v;
    assert Map(points, Pack1)[m] in b.points;
    var k :| 0 <= k < |b.points| && b.points[k] == Pack1(points[m]);
  }

  lemma LeastKeyIsMin(points: seq<Point>, b: Bkd)
    requires BuildsBkd(points, b) && AllOfKind(points, b.kind) && points != [] && b.points != []
    ensures Unpack(b.points[0].key, b.kind) == MinOf(points).value
  {
    var v, w := MinOf(points).value, Unpack(b.points[0].key, b.kind);
    ExtremeIsFound(points, b, 0, v);
    var j :| 0 <= j < |points| && points[j].value == w;
    var k :| 0 <= k < |b.points| && b.points[k].key == Pack(v);
    assert b.points[0].key <= b.points[k].key;
    PackingIsOrderIsomorphism(v, w, b.points[0].key, b.kind);
    LessIsTotalOrder(v, w, w);
  }

  lemma GreatestKeyIsMax(points: seq<Point>, b: Bkd)
    requires BuildsBkd(points, b) && AllOfKind(points, b.kind) && points != [] && b.points != []
    ensures Unpack(b.points[|b.points| - 1].key, b.kind) == MaxOf(points).value
  {
    var last := |b.points| - 1;
    var v, w := MaxOf(points).value, Unpack(b.points[last].key, b.kind);
    ExtremeIsFound(points, b, last, v);
    var j :| 0 <= j < |points| && points[j].value == w;
    var k :| 0 <= k < |b.points| && b.points[k].key == Pack(v);
    assert b.points[k].key <= b.points[last].key;
    PackingIsOrderIsomorphism(w, v, b.points[last].key, b.kind);
    LessIsTotalOrder(w, v, v);
  }

  lemma ValueOfIsExact(points: seq<Point>, doc: nat)
    requires InDocOrder(points) && OneValuePerDoc(points)
    ensures forall i :: 0 <= i < |points| && points[i].doc == doc ==> ValueOf(points, doc) == Some(points[i].value)
    ensures ValueOf(points, doc).Some? ==> exists i :: 0 <= i < |points| && points[i].doc == doc
  {
    var at := UpTo(points, doc, false);
    forall i | 0 <= i < |points| && points[i].doc == doc ensures i == at {
      assert at <= i && points[at].doc == doc;
    }
  }

  lemma EntriesAreDistinct(points: seq<Point>, entries: seq<Entry>)
    requires multiset(entries) == multiset(Map(points, Entry1)) && OneValuePerDoc(points)
    ensures DistinctDocs(entries)
  {
    var packed := Map(points, Entry1);
    SameElements(entries, packed);
    PermutationStaysDistinct(packed, entries);
    forall i, j | 0 <= i < j < |entries| ensures entries[i].doc != entries[j].doc {
      assert entries[i] in packed && entries[j] in packed;
      var m :| 0 <= m < |packed| && packed[m] == entries[i];
      var n :| 0 <= n < |packed| && packed[n] == entries[j];
      assert entries[i] != entries[j] && m != n;
    }
  }

  /** Lookups from disk are lookups from memory. */
  lemma FlushKeepsValues(points: seq<Point>, v: DocValues, doc: nat)
    requires InDocOrder(points) && OneValuePerDoc(points) && BuildsDocValues(points, v) && AllOfKind(points, v.kind)
    ensures DocValue(v, doc) == ValueOf(points, doc)
  {
    EntriesAreDistinct(points, v.entries);
    DocValueIsExact(v, doc);
    ValueOfIsExact(points, doc);
    if m :| 0 <= m < |points| && points[m].doc == doc {
      var i := EntryOfPoint(points, v, m);
      PackingIsOrderIsomorphism(points[m].value, points[m].value, 0, IntKind);
    } else {
      NoEntryWithoutPoint(points, v, doc);
    }
  }

  lemma EntryOfPoint(points: seq<Point>, v: DocValues, m: nat) returns (i: nat)
    requires BuildsDocValues(points, v) && m < |points|
    ensures i < |v.entries| && v.entries[i] == Entry1(points[m])
  {
    SameElements(v.entries, Map(points, Entry1));
    assert Map(points, Entry1)[m] in v.entries;
    i :| 0 <= i < |v.entries| && v.entries[i] == Entry1(points[m]);
  }

  lemma NoEntryWithoutPoint(points: seq<Point>, v: DocValues, doc: nat)
    requires BuildsDocValues(points, v) && forall m :: 0 <= m < |points| ==> points[m].doc != doc
    ensures forall i :: 0 <= i < |v.entries| ==> v.entries[i].doc != doc
  {
    SameElements(v.entries, Map(points, Entry1));
    forall i | 0 <= i < |v.entries| ensures v.entries[i].doc != doc {
      assert v.entries[i] in Map(points, Entry1);
      var m :| 0 <= m < |points| && Entry1(points[m]) == v.entries[i];
    }
  }

  // ---------------------------------------------------------------------------------------
  // Bounds of the other kind.
  // ---------------------------------------------------------------------------------------

  /** Disk and memory agree on every field of the kind. */
  ghost predicate RangesAgree(kind: Kind, lo: Option<Bound>, hi: Option<Bound>)
  {
    forall points: seq<Point>, b: Bkd {:trigger BuildsBkd(points, b)} ::
      BuildsBkd(points, b) && b.kind == kind && AllOfKind(points, kind) ==>
        BkdRange(b, lo, hi) == RangeOf(points, lo, hi)
  }

  /** One document whose value the packed bounds misjudge tells disk and memory apart. */
  lemma MisjudgedValue(kind: Kind, lo: Option<Bound>, hi: Option<Bound>, v: Value)
    requires v.Kind() == kind && (InBounds(v, lo, hi) <==> !KeyInBounds(Pack(v), lo, hi))
    ensures !RangesAgree(kind, lo, hi)
  {
    var points, b := [Point(0, v)], Bkd(kind, [Packed(Pack(v), 0)]);
    assert Map(points, Pack1) == b.points;
    assert BuildsBkd(points, b);
    BkdRangeIsExact(b, lo, hi);
    assert HasKey(b, 0, lo, hi) <==> KeyInBounds(b.points[0].key, lo, hi);
    assert 0 in RangeOf(points, lo, hi) <==> InBounds(points[0].value, lo, hi);
  }

  lemma RangesAgreeIffBoundsPack(kind: Kind, lo: Option<Bound>, hi: Option<Bound>)
    ensures RangesAgree(kind, lo, hi) <==> BoundsPack(kind, lo, hi)
  {
    if BoundsPack(kind, lo, hi) {
      forall points: seq<Point>, b: Bkd | BuildsBkd(points, b) && b.kind == kind && AllOfKind(points, kind)
        ensures BkdRange(b, lo, hi) == RangeOf(points, lo, hi)
      {
        PackedBoundsKeepRanges(points, b, lo, hi);
      }
    } else {
      var v: Value :| v.Kind() == kind && !(InBounds(v, lo, hi) <==> KeyInBounds(Pack(v), lo, hi));
      MisjudgedValue(kind, lo, hi, v);
    }
  }

  /** The least and the greatest key between packed bounds; past the ends when there is none. */
  function LeastKey(lo: Option<Bound>): nat
  {
    if lo.None? then 0 else Pack(lo.value.value) + if lo.value.inclusive then 0 else 1
  }

  function GreatestKey(hi: Option<Bound>): int
  {
    if hi.None? then TWO64 - 1 else Pack(hi.value.value) - if hi.value.inclusive then 0 else 1
  }

  lemma KeyInBoundsByEnds(key: U64, lo: Option<Bound>, hi: Option<Bound>)
    ensures KeyInBounds(key, lo, hi) <==> LeastKey(lo) <= key <= GreatestKey(hi)
  {
  }

  /** When packed bounds of any kinds decide as the bounds do. An integer is below every float: a float as
      lower bound of an integer field must leave no key, as upper bound every key the lower bound leaves;
      for a float field the other way round. */
  predicate KindsFit(kind: Kind, lo: Option<Bound>, hi: Option<Bound>)
  {
    var least, greatest := LeastKey(lo), GreatestKey(hi);
    if OfKind(lo, kind) && OfKind(hi, kind) then true
    else if kind == IntKind then
      if !OfKind(lo, kind) then least > greatest else greatest == TWO64 - 1 || least == TWO64
    else
      if !OfKind(hi, kind) then least > greatest else least == 0 || greatest == -1
  }

  /** Every key is some value of the kind. */
  lemma ValueOfKey(key: U64, kind: Kind) returns (v: Value)
    ensures v.Kind() == kind && Pack(v) == key
  {
    v := Unpack(key, kind);
    PackingIsOrderIsomorphism(v, v, key, kind);
  }

  lemma IntegersAgreeIff(lo: Option<Bound>, hi: Option<Bound>)
    requires !(OfKind(lo, IntKind) && OfKind(hi, IntKind))
    ensures BoundsPack(IntKind, lo, hi) <==> KindsFit(IntKind, lo, hi)
  {
    forall v: Value | v.Kind() == IntKind
      ensures InBounds(v, lo, hi) <==> OfKind(lo, IntKind) && LeastKey(lo) <= Pack(v)
    {
      if OfKind(lo, IntKind) {
        PackingKeepsBounds(v, lo, None);
        KeyInBoundsByEnds(Pack(v), lo, None);
        if hi.Some? && hi.value.value.Kind() == IntKind { assert false; }
      }
    }
    forall v: Value | v.Kind() == IntKind
      ensures KeyInBounds(Pack(v), lo, hi) <==> LeastKey(lo) <= Pack(v) <= GreatestKey(hi)
    {
      KeyInBoundsByEnds(Pack(v), lo, hi);
    }
    if !KindsFit(IntKind, lo, hi) {
      var v := ValueOfKey(if OfKind(lo, IntKind) then TWO64 - 1 else LeastKey(lo), IntKind);
      assert !(InBounds(v, lo, hi) <==> KeyInBounds(Pack(v), lo, hi));
    }
  }

  lemma FloatsAgreeIff(lo: Option<Bound>, hi: Option<Bound>)
    requires !(OfKind(lo, FloatKind) && OfKind(hi, FloatKind))
    ensures BoundsPack(FloatKind, lo, hi) <==> KindsFit(FloatKind, lo, hi)
  {
    forall v: Value | v.Kind() == FloatKind
      ensures InBounds(v, lo, hi) <==> OfKind(hi, FloatKind) && Pack(v) <= GreatestKey(hi)
    {
      if OfKind(hi, FloatKind) {
        PackingKeepsBounds(v, None, hi);
        KeyInBoundsByEnds(Pack(v), None, hi);
        if lo.Some? && lo.value.value.Kind() == FloatKind { assert false; }
      }
    }
    forall v: Value | v.Kind() == FloatKind
      ensures KeyInBounds(Pack(v), lo, hi) <==> LeastKey(lo) <= Pack(v) <= GreatestKey(hi)
    {
      KeyInBoundsByEnds(Pack(v), lo, hi);
    }
    if !KindsFit(FloatKind, lo, hi) {
      var v := ValueOfKey(if OfKind(hi, FloatKind) then 0 else LeastKey(lo), FloatKind);
      assert !(InBounds(v, lo, hi) <==> KeyInBounds(Pack(v), lo, hi));
    }
  }

  /** For any pair of bounds, disk and memory agree on every field of a kind exactly if the kinds fit. */
  lemma RangesAgreeIff(kind: Kind, lo: Option<Bound>, hi: Option<Bound>)
    ensures RangesAgree(kind, lo, hi) <==> KindsFit(kind, lo, hi)
  {
    RangesAgreeIffBoundsPack(kind, lo, hi);
    if OfKind(lo, kind) && OfKind(hi, kind) {
      BoundsOfKindPack(kind, lo, hi);
    } else if kind == IntKind {
      IntegersAgreeIff(lo, hi);
    } else {
      FloatsAgreeIff(lo, hi);
    }
  }

  /** Document 7 holds the integer 5; asked for at least +0.0, memory finds nothing and disk document 7. */
  lemma FloatBoundOnIntegersDisagrees()
    ensures var points, lo := [Point(7, Int(5))], Some(Bound(Float(0), true));
            var b := Bkd(IntKind, [Packed(0x8000_0000_0000_0005, 7)]);
            BuildsBkd(points, b) && RangeOf(points, lo, None) == [] && BkdRange(b, lo, None) == [7]
  {
    var points, lo := [Point(7, Int(5))], Some(Bound(Float(0), true));
    var b := Bkd(IntKind, [Packed(0x8000_0000_0000_0005, 7)]);
    assert Map(points, Pack1) == b.points;
    assert !InBounds(points[0].value, lo, None);
    AscendingIsUnique(RangeOf(points, lo, None), []);
    BkdRangeIsExact(b, lo, None);
    assert KeyInBounds(b.points[0].key, lo, None);
    assert HasKey(b, 7, lo, None);
    AscendingIsUnique(BkdRange(b, lo, None), [7]);
  }
}
