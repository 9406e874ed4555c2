/** The memtable's numeric values as they are inserted, merged and built into fields. */
module NumericIndex {
  import opened NumericValues
  import opened NumericFields
  import opened NumericAnswers
  import opened Sorting

  datatype Field = Field(bkd: Bkd, docValues: DocValues)

  function BuildField(points: seq<Point>): (f: Field)
    ensures BuildsBkd(points, f.bkd) && BuildsDocValues(points, f.docValues)
  {
    var kind := KindOf(points);
    var entries := SortBy(Map(points, Entry1), (e: Entry) => e.doc);
    Field(Bkd(kind, SortBy(Map(points, Pack1), (p: Packed) => p.key)), DocValues(kind, entries, BlockFirsts(entries)))
  }

  /** With one kind and one value per document, the built field answers as the memtable did. */
  lemma FlushedFieldAnswersAlike(points: seq<Point>, f: Field)
    requires BuildsBkd(points, f.bkd) && BuildsDocValues(points, f.docValues)
    requires InDocOrder(points) && OneValuePerDoc(points) && AllOfKind(points, KindOf(points))
    ensures forall doc :: DocValue(f.docValues, doc) == ValueOf(points, doc)
    ensures BkdMin(f.bkd) == MinOf(points) && BkdMax(f.bkd) == MaxOf(points)
    ensures forall lo, hi :: OfKind(lo, KindOf(points)) && OfKind(hi, KindOf(points)) ==>
                             BkdRange(f.bkd, lo, hi) == RangeOf(points, lo, hi)
  {
    forall doc ensures DocValue(f.docValues, doc) == ValueOf(points, doc) {
      FlushKeepsValues(points, f.docValues, doc);
    }
    FlushKeepsBounds(points, f.bkd);
    forall lo, hi | OfKind(lo, KindOf(points)) && OfKind(hi, KindOf(points))
      ensures BkdRange(f.bkd, lo, hi) == RangeOf(points, lo, hi)
    {
      FlushKeepsRanges(points, f.bkd, lo, hi);
    }
  }

  function At(points: map<nat, seq<Point>>, xpath: nat): seq<Point> { if xpath in points then points[xpath] else [] }

  /** The list with one point more: at the end, or behind the documents up to its own. */
  function WithPoint(mine: seq<Point>, p: Point): (r: seq<Point>)
    requires InDocOrder(mine)
    ensures InDocOrder(r) && Joined(mine, [p], r)
  {
    if mine != [] && mine[|mine| - 1].doc > p.doc then
      InsertedInOrder(mine, UpTo(mine, p.doc, true), p);
      var at := UpTo(mine, p.doc, true);
      mine[..at] + [p] + mine[at..]
    else
      InsertedInOrder(mine, |mine|, p);
      assert mine[..|mine|] + [p] + mine[|mine|..] == mine + [p];
      mine + [p]
  }

  lemma InsertedInOrder(mine: seq<Point>, at: nat, p: Point)
    requires InDocOrder(mine) && at <= |mine|
    requires forall i :: 0 <= i < at ==> mine[i].doc <= p.doc
    requires forall i :: at <= i < |mine| ==> p.doc <= mine[i].doc
    ensures InDocOrder(mine[..at] + [p] + mine[at..]) && Joined(mine, [p], mine[..at] + [p] + mine[at..])
  {
    assert mine == mine[..at] + mine[at..];
    var r := mine[..at] + [p] + mine[at..];
    forall i, j | 0 <= i < j < |r| ensures r[i].doc <= r[j].doc {
      assert i != at ==> r[i] == mine[if i < at then i else i - 1];
      assert j != at ==> r[j] == mine[if j < at then j else j - 1];
    }
  }

  ghost predicate AllInOrder(points: map<nat, seq<Point>>) { forall x :: x in points ==> InDocOrder(points[x]) }

  /** `now` is `was` with the points of `other` at the xpaths `done`. */
  ghost predicate MergedAt(was: map<nat, seq<Point>>, other: map<nat, seq<Point>>, now: map<nat, seq<Point>>, done: set<nat>)
  {
    && done <= other.Keys && now.Keys == was.Keys + done
    && (forall x :: x in done ==> Joined(At(was, x), other[x], now[x]))
    && (forall x :: x in now && x !in done ==> now[x] == was[x])
  }

  lemma MergeStep(
    was: map<nat, seq<Point>>, other: map<nat, seq<Point>>, now: map<nat, seq<Point>>, done: set<nat>, xpath: nat)
    requires MergedAt(was, other, now, done) && AllInOrder(now) && xpath in other && xpath !in done
    ensures var after := now[xpath := JoinInOrder(At(now, xpath), other[xpath])];
            MergedAt(was, other, after, done + {xpath}) && AllInOrder(after)
  {
    assert At(now, xpath) == At(was, xpath);
  }

  /** The points of both lists. */
  ghost predicate Joined(a: seq<Point>, b: seq<Point>, both: seq<Point>) { multiset(both) == multiset(a) + multiset(b) }

  class NumericPoints {
    var points: map<nat, seq<Point>>

    ghost predicate Valid()
      reads this
    {
      AllInOrder(points)
    }

    constructor ()
      ensures Valid() && points == map[]
    {
      points := map[];
    }

    /** One more point, the others as they were, still in document order. */
    method Insert(xpath: nat, value: Value, doc: nat)
      requires Valid()
      modifies this
      ensures Valid() && points.Keys == old(points).Keys + {xpath}
      ensures Joined(At(old(points), xpath), [Point(doc, value)], points[xpath])
      ensures forall x :: x in points && x != xpath ==> points[x] == old(points)[x]
    {
      points := points[xpath := WithPoint(At(points, xpath), Point(doc, value))];
    }

    /** The points of both, still in document order. */
    method Merge(other: map<nat, seq<Point>>)
      requires Valid()
      modifies this
      ensures Valid() && MergedAt(old(points), other, points, other.Keys)
    {
      var rest := other.Keys;
      ghost var done: set<nat> := {};
      while rest != {}
        invariant Valid() && MergedAt(old(points), other, points, done) && done + rest == other.Keys && done !! rest
        decreases rest
      {
        var xpath :| xpath in rest;
        rest := rest - {xpath};
        MergeOne(xpath, other[xpath], old(points), other, done);
        done := done + {xpath};
      }
    }

    method MergeOne(
      xpath: nat, more: seq<Point>, ghost was: map<nat, seq<Point>>, ghost other: map<nat, seq<Point>>, ghost done: set<nat>)
      requires Valid() && MergedAt(was, other, points, done) && xpath in other && other[xpath] == more && xpath !in done
      modifies this
      ensures Valid() && MergedAt(was, other, points, done + {xpath})
    {
      MergeStep(was, other, points, done, xpath);
      points := points[xpath := JoinInOrder(At(points, xpath), more)];
    }

    method Build() returns (fields: map<nat, Field>)
      requires Valid()
      ensures fields.Keys == points.Keys
      ensures forall x :: x in points ==> BuildsBkd(points[x], fields[x].bkd) && BuildsDocValues(points[x], fields[x].docValues)
    {
      fields := map x | x in points :: BuildField(points[x]);
    }
  }

  function JoinInOrder(mine: seq<Point>, more: seq<Point>): (r: seq<Point>)
    ensures InDocOrder(r) && Joined(mine, more, r)
  {
    InOrder(mine + more)
  }

  /** Sorts by document unless sorted already. */
  function InOrder(points: seq<Point>): (r: seq<Point>)
    ensures InDocOrder(r) && multiset(r) == multiset(points)
  {
    if forall i :: 0 < i < |points| ==> points[i - 1].doc <= points[i].doc then
      NeighboursSort(points);
      points
    else SortBy(points, (p: Point) => p.doc)
  }

  lemma {:induction false} NeighboursSort(points: seq<Point>)
    requires forall i :: 0 < i < |points| ==> points[i - 1].doc <= points[i].doc
    ensures InDocOrder(points)
  {
    forall i, j | 0 <= i < j < |points| ensures points[i].doc <= points[j].doc { NeighboursReach(points, i, j); }
  }

  lemma {:induction false} NeighboursReach(points: seq<Point>, i: nat, j: nat)
    requires forall k :: 0 < k < |points| ==> points[k - 1].doc <= points[k].doc
    requires i < j < |points|
    ensures points[i].doc <= points[j].doc
    decreases j
  {
    if i + 1 < j { NeighboursReach(points, i, j - 1); }
    assert points[j - 1].doc <= points[j].doc;
  }
}
