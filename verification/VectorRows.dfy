/** Rewriting a vector file: the old rows overridden by the new ones. */
module VectorRows {
  import opened Options
  import opened Sorting

  datatype Row<V> = Row(doc: nat, vector: V)

  ghost predicate RowsAscend<V(!new)>(rows: seq<Row<V>>) { forall i, j :: 0 <= i < j < |rows| ==> rows[i].doc < rows[j].doc }

  ghost predicate OneRowPerDoc<V(!new)>(rows: seq<Row<V>>) { forall i, j :: 0 <= i < j < |rows| ==> rows[i].doc != rows[j].doc }

  function Docs<V(!new)>(rows: seq<Row<V>>): set<nat> { set k | 0 <= k < |rows| :: rows[k].doc }

  /** Two ascending lists merged; where both have a document the second wins. */
  function Override<V>(existing: seq<Row<V>>, newer: seq<Row<V>>): seq<Row<V>>
    decreases |existing| + |newer|
  {
    if newer == [] then existing
    else if existing == [] then newer
    else if newer[0].doc < existing[0].doc then [newer[0]] + Override(existing, newer[1..])
    else if newer[0].doc == existing[0].doc then Override(existing[1..], newer)
    else [existing[0]] + Override(existing[1..], newer)
  }

  /** A row is kept exactly if it is new, or old and not replaced. */
  ghost predicate Overrides<V(!new)>(existing: seq<Row<V>>, newer: seq<Row<V>>, rows: seq<Row<V>>)
  {
    forall r :: r in rows <==> r in newer || (r in existing && r.doc !in Docs(newer))
  }

  lemma RowsAfterFirst<V(!new)>(rows: seq<Row<V>>)
    requires RowsAscend(rows) && rows != []
    ensures RowsAscend(rows[1..]) && rows == [rows[0]] + rows[1..]
    ensures forall r :: r in rows[1..] ==> rows[0].doc < r.doc
    ensures Docs(rows) == Docs(rows[1..]) + {rows[0].doc}
  {
    var rest := rows[1..];
    assert forall k :: 0 <= k < |rest| ==> rest[k] == rows[k + 1];
    forall d ensures d in Docs(rows) <==> d in Docs(rest) || d == rows[0].doc {
      if d in Docs(rest) {
        var k :| 0 <= k < |rest| && rest[k].doc == d;
        assert rows[k + 1].doc == d;
      }
      if d in Docs(rows) && d != rows[0].doc {
        var k :| 0 <= k < |rows| && rows[k].doc == d;
        assert rest[k - 1].doc == d;
      }
    }
  }

  lemma ConsRowAscends<V(!new)>(first: Row<V>, rest: seq<Row<V>>)
    requires RowsAscend(rest) && forall r :: r in rest ==> first.doc < r.doc
    ensures RowsAscend([first] + rest)
  {
    var rows := [first] + rest;
    forall i, j | 0 <= i < j < |rows| ensures rows[i].doc < rows[j].doc {
      assert rows[j] == rest[j - 1] && rest[j - 1] in rest;
      if i > 0 { assert rows[i] == rest[i - 1]; }
    }
  }

  lemma DocOfRow<V(!new)>(rows: seq<Row<V>>, r: Row<V>)
    requires r in rows
    ensures r.doc in Docs(rows)
  {
    var k :| 0 <= k < |rows| && rows[k] == r;
    assert rows[k].doc == r.doc;
  }

  lemma {:induction false} OverrideIsExact<V(!new)>(existing: seq<Row<V>>, newer: seq<Row<V>>)
    requires RowsAscend(existing) && RowsAscend(newer)
    ensures RowsAscend(Override(existing, newer)) && Overrides(existing, newer, Override(existing, newer))
    decreases |existing| + |newer|
  {
    if newer == [] {
      assert Docs(newer) == {};
    } else if existing != [] {
      RowsAfterFirst(newer);
      RowsAfterFirst(existing);
      forall r | r in newer ensures r.doc in Docs(newer) { DocOfRow(newer, r); }
      forall r | r in newer[1..] ensures r.doc in Docs(newer[1..]) { DocOfRow(newer[1..], r); }
      if newer[0].doc < existing[0].doc {
        OverrideIsExact(existing, newer[1..]);
        ConsRowAscends(newer[0], Override(existing, newer[1..]));
      } else if newer[0].doc == existing[0].doc {
        OverrideIsExact(existing[1..], newer);
      } else {
        OverrideIsExact(existing[1..], newer);
        ConsRowAscends(existing[0], Override(existing[1..], newer));
        NotAfter(newer, existing[0].doc);
      }
    } else {
      assert forall r :: r !in existing;
    }
  }

  lemma NotAfter<V(!new)>(rows: seq<Row<V>>, doc: nat)
    requires RowsAscend(rows) && rows != [] && doc < rows[0].doc
    ensures doc !in Docs(rows)
  {
  }

  /** Pushes the new rows before `doc`; what is left of them comes later. */
  method PushBefore<V(!new)>(written: seq<Row<V>>, rest: seq<Row<V>>, ghost existing: seq<Row<V>>, doc: nat)
    returns (more: seq<Row<V>>, left: seq<Row<V>>)
    requires existing != [] && existing[0].doc == doc
    ensures more + Override(existing, left) == written + Override(existing, rest)
    ensures left == [] || left[0].doc >= doc
  {
    more, left := written, rest;
    while left != [] && left[0].doc < doc
      invariant more + Override(existing, left) == written + Override(existing, rest)
      decreases |left|
    {
      OverrideUnfolds(more, existing, left);
      more := more + [left[0]];
      left := left[1..];
    }
  }

  /** One old row: the new rows before it, then the row itself unless it is replaced. */
  method PushOne<V(!new)>(written: seq<Row<V>>, rest: seq<Row<V>>, ghost existing: seq<Row<V>>, row: Row<V>)
    returns (more: seq<Row<V>>, left: seq<Row<V>>)
    requires existing != [] && existing[0] == row
    ensures more + Override(existing[1..], left) == written + Override(existing, rest)
  {
    more, left := PushBefore(written, rest, existing, row.doc);
    OverrideUnfolds(more, existing, left);
    if !(left != [] && left[0].doc == row.doc) { more := more + [row]; }
  }

  /** Writes the file: the new rows, in order, pushed before the first old row that is not before
      them. */
  method WriteVectors<V(!new)>(existing: Option<seq<Row<V>>>, newRows: seq<Row<V>>) returns (written: seq<Row<V>>)
    requires existing.Some? ==> RowsAscend(existing.value)
    requires OneRowPerDoc(newRows)
    ensures RowsAscend(written)
    ensures Overrides(if existing.Some? then existing.value else [], newRows, written)
  {
    var newer := SortBy(newRows, (r: Row<V>) => r.doc);
    SortedRows(newRows, newer);
    var old' := if existing.Some? then existing.value else [];
    written := MergeRows(old', newer);
    OverrideIsExact(old', newer);
  }

  method MergeRows<V(!new)>(existing: seq<Row<V>>, newer: seq<Row<V>>) returns (written: seq<Row<V>>)
    ensures written == Override(existing, newer)
  {
    var rest := newer;
    written := [];
    assert existing[0..] == existing;
    for index := 0 to |existing|
      invariant written + Override(existing[index..], rest) == Override(existing, newer)
    {
      assert existing[index..][1..] == existing[index + 1..];
      written, rest := PushOne(written, rest, existing[index..], existing[index]);
    }
    assert existing[|existing|..] == [];
    written := written + rest;
  }

  lemma OverrideUnfolds<V>(written: seq<Row<V>>, existing: seq<Row<V>>, newer: seq<Row<V>>)
    requires existing != []
    ensures newer != [] && newer[0].doc < existing[0].doc ==>
              written + Override(existing, newer) == written + [newer[0]] + Override(existing, newer[1..])
    ensures newer != [] && newer[0].doc == existing[0].doc ==> Override(existing, newer) == Override(existing[1..], newer)
    ensures newer == [] || newer[0].doc > existing[0].doc ==>
              written + Override(existing, newer) == written + [existing[0]] + Override(existing[1..], newer)
  {
    if newer == [] { assert existing == [existing[0]] + existing[1..]; }
  }

  lemma SortedRows<V(!new)>(rows: seq<Row<V>>, sorted: seq<Row<V>>)
    requires OneRowPerDoc(rows) && multiset(sorted) == multiset(rows)
    requires forall i, j :: 0 <= i < j < |sorted| ==> sorted[i].doc <= sorted[j].doc
    ensures RowsAscend(sorted) && (forall r :: r in sorted <==> r in rows) && Docs(sorted) == Docs(rows)
  {
    SameElements(sorted, rows);
    PermutationStaysDistinct(rows, sorted);
    forall i, j | 0 <= i < j < |sorted| ensures sorted[i].doc != sorted[j].doc {
      assert sorted[i] in rows && sorted[j] in rows;
      if sorted[i].doc == sorted[j].doc { SameRow(rows, sorted[i], sorted[j]); }
    }
    forall d ensures d in Docs(sorted) <==> d in Docs(rows) {
      if d in Docs(sorted) {
        var k :| 0 <= k < |sorted| && sorted[k].doc == d;
        assert sorted[k] in rows;
        DocOfRow(rows, sorted[k]);
      }
      if d in Docs(rows) {
        var k :| 0 <= k < |rows| && rows[k].doc == d;
        assert rows[k] in sorted;
        DocOfRow(sorted, rows[k]);
      }
    }
  }

  lemma SameRow<V(!new)>(rows: seq<Row<V>>, a: Row<V>, b: Row<V>)
    requires OneRowPerDoc(rows) && a in rows && b in rows && a.doc == b.doc
    ensures a == b
  {
    var i :| 0 <= i < |rows| && rows[i] == a;
    var j :| 0 <= j < |rows| && rows[j] == b;
  }
}
