/** Optimal string alignment distance: the full-matrix recurrence the fuzzy automaton has to
    agree with, and what that recurrence means as a least number of edits. */
module Osa {
  import opened Numbers

  /** The least of a deletion, an insertion and an alignment. */
  function Cheapest(up: nat, left: nat, diagonal: nat): nat
  {
    Min(up + 1, Min(left + 1, diagonal))
  }

  /** Cost of aligning the last characters of the two prefixes. */
  function Mismatch(a: string, i: nat, b: string, j: nat): nat
    requires 0 < i <= |a| && 0 < j <= |b|
  {
    if a[i - 1] == b[j - 1] then 0 else 1
  }

  predicate Swapped(a: string, i: nat, b: string, j: nat)
    requires i <= |a| && j <= |b|
  {
    i > 1 && j > 1 && a[i - 1] == b[j - 2] && a[i - 2] == b[j - 1]
  }

  /** Matrix entry `d[i][j]`: the distance between `a[..i]` and `b[..j]`. */
  function Distance(a: string, i: nat, b: string, j: nat): (d: nat)
    requires i <= |a| && j <= |b|
    decreases i + j
  {
    if i == 0 then j
    else if j == 0 then i
    else
      var plain := Cheapest(Distance(a, i - 1, b, j), Distance(a, i, b, j - 1),
                            Distance(a, i - 1, b, j - 1) + Mismatch(a, i, b, j));
      if Swapped(a, i, b, j) then Min(plain, Distance(a, i - 2, b, j - 2) + 1) else plain
  }

  function Osa(a: string, b: string): nat { Distance(a, |a|, b, |b|) }

  // ---------------------------------------------------------------------------------------
  // The recurrence is the least cost of an edit script.
  // ---------------------------------------------------------------------------------------

  datatype Edit = Align | Delete | Insert | Transpose

  /** Whether applying `script` (last edit first) rewrites `a[..i]` into `b[..j]`. */
  predicate Rewrites(script: seq<Edit>, a: string, i: nat, b: string, j: nat)
    requires i <= |a| && j <= |b|
    decreases |script|
  {
    if script == [] then i == 0 && j == 0
    else match script[0]
      case Align => i > 0 && j > 0 && Rewrites(script[1..], a, i - 1, b, j - 1)
      case Delete => i > 0 && Rewrites(script[1..], a, i - 1, b, j)
      case Insert => j > 0 && Rewrites(script[1..], a, i, b, j - 1)
      case Transpose => Swapped(a, i, b, j) && Rewrites(script[1..], a, i - 2, b, j - 2)
  }

  function Cost(script: seq<Edit>, a: string, i: nat, b: string, j: nat): nat
    requires i <= |a| && j <= |b| && Rewrites(script, a, i, b, j)
    decreases |script|
  {
    if script == [] then 0
    else match script[0]
      case Align => Mismatch(a, i, b, j) + Cost(script[1..], a, i - 1, b, j - 1)
      case Delete => 1 + Cost(script[1..], a, i - 1, b, j)
      case Insert => 1 + Cost(script[1..], a, i, b, j - 1)
      case Transpose => 1 + Cost(script[1..], a, i - 2, b, j - 2)
  }

  /** No script is cheaper than the matrix entry. */
  lemma {:induction false} ScriptCostsAtLeastDistance(script: seq<Edit>, a: string, i: nat, b: string, j: nat)
    requires i <= |a| && j <= |b| && Rewrites(script, a, i, b, j)
    ensures Distance(a, i, b, j) <= Cost(script, a, i, b, j)
    decreases |script|
  {
    if script != [] {
      match script[0]
      case Align => ScriptCostsAtLeastDistance(script[1..], a, i - 1, b, j - 1);
      case Delete =>
        ScriptCostsAtLeastDistance(script[1..], a, i - 1, b, j);
        NeighboursDifferByOne(a, i, b, j);
      case Insert =>
        ScriptCostsAtLeastDistance(script[1..], a, i, b, j - 1);
        NeighboursDifferByOne(a, i, b, j);
      case Transpose => ScriptCostsAtLeastDistance(script[1..], a, i - 2, b, j - 2);
    }
  }

  /** The edit a table entry ends with. */
  lemma LastEdit(m: (nat, nat) -> nat, a: string, i: nat, b: string, j: nat) returns (edit: Edit)
    requires i <= |a| && j <= |b| && i + j > 0 && Solves(m, a, b)
    ensures match edit
            case Align => i > 0 && j > 0 && m(i, j) == m(i - 1, j - 1) + Mismatch(a, i, b, j)
            case Delete => i > 0 && m(i, j) == m(i - 1, j) + 1
            case Insert => j > 0 && m(i, j) == m(i, j - 1) + 1
            case Transpose => Swapped(a, i, b, j) && m(i, j) == m(i - 2, j - 2) + 1
  {
    assert Follows(m, a, i, b, j);
    if j == 0 {
      edit := Delete;
      assert Follows(m, a, i - 1, b, j);
    } else if i == 0 {
      edit := Insert;
      assert Follows(m, a, i, b, j - 1);
    } else if m(i, j) == m(i - 1, j) + 1 {
      edit := Delete;
    } else if m(i, j) == m(i, j - 1) + 1 {
      edit := Insert;
    } else if m(i, j) == m(i - 1, j - 1) + Mismatch(a, i, b, j) {
      edit := Align;
    } else {
      edit := Transpose;
    }
  }

  lemma {:induction false} CheapestTableScript(m: (nat, nat) -> nat, a: string, i: nat, b: string, j: nat)
    returns (script: seq<Edit>)
    requires i <= |a| && j <= |b| && Solves(m, a, b)
    ensures Rewrites(script, a, i, b, j) && Cost(script, a, i, b, j) == m(i, j)
    decreases i + j
  {
    if i + j == 0 {
      script := [];
      assert Follows(m, a, i, b, j);
    } else {
      var edit := LastEdit(m, a, i, b, j);
      var i' := match edit case Insert => i case Transpose => i - 2 case _ => i - 1;
      var j' := match edit case Delete => j case Transpose => j - 2 case _ => j - 1;
      var rest := CheapestTableScript(m, a, i', b, j');
      script := [edit] + rest;
      assert script[1..] == rest;
    }
  }

  /** Some script costs exactly the matrix entry. */
  lemma CheapestScript(a: string, i: nat, b: string, j: nat) returns (script: seq<Edit>)
    requires i <= |a| && j <= |b|
    ensures Rewrites(script, a, i, b, j)
    ensures Cost(script, a, i, b, j) == Distance(a, i, b, j)
  {
    TableSolves(a, b);
    script := CheapestTableScript(Table(a, b), a, i, b, j);
  }

  /** One more character on either side costs at most one more edit. */
  lemma {:induction false} NeighboursDifferByOne(a: string, i: nat, b: string, j: nat)
    requires i <= |a| && j <= |b|
    ensures i > 0 ==> Distance(a, i, b, j) <= Distance(a, i - 1, b, j) + 1
    ensures j > 0 ==> Distance(a, i, b, j) <= Distance(a, i, b, j - 1) + 1
  {
  }

  /** Both directions of what the distance means. */
  lemma OsaIsLeastScriptCost(a: string, b: string)
    ensures exists s :: Rewrites(s, a, |a|, b, |b|) && Cost(s, a, |a|, b, |b|) == Osa(a, b)
    ensures forall s :: Rewrites(s, a, |a|, b, |b|) ==> Osa(a, b) <= Cost(s, a, |a|, b, |b|)
  {
    var s := CheapestScript(a, |a|, b, |b|);
    forall s | Rewrites(s, a, |a|, b, |b|) ensures Osa(a, b) <= Cost(s, a, |a|, b, |b|) {
      ScriptCostsAtLeastDistance(s, a, |a|, b, |b|);
    }
  }

  // ---------------------------------------------------------------------------------------
  // Facts the automaton and the weighted distance rest on.
  // ---------------------------------------------------------------------------------------

  /** The distances as a table. */
  ghost function Table(a: string, b: string): (nat, nat) -> nat
  {
    (i: nat, j: nat) => if i <= |a| && j <= |b| then Distance(a, i, b, j) else 0
  }

  /** Entry `(i, j)` of a table is what its neighbours make it. */
  ghost predicate Follows(m: (nat, nat) -> nat, a: string, i: nat, b: string, j: nat)
    requires i <= |a| && j <= |b|
  {
    m(i, j) ==
    if i == 0 then j
    else if j == 0 then i
    else
      var plain := Cheapest(m(i - 1, j), m(i, j - 1), m(i - 1, j - 1) + Mismatch(a, i, b, j));
      if Swapped(a, i, b, j) then Min(plain, m(i - 2, j - 2) + 1) else plain
  }

  ghost predicate Solves(m: (nat, nat) -> nat, a: string, b: string)
  {
    forall i: nat, j: nat :: i <= |a| && j <= |b| ==> Follows(m, a, i, b, j)
  }

  lemma TableFollows(a: string, i: nat, b: string, j: nat)
    requires i <= |a| && j <= |b|
    ensures Follows(Table(a, b), a, i, b, j)
  {
  }

  lemma TableSolves(a: string, b: string)
    ensures Solves(Table(a, b), a, b)
  {
    forall i: nat, j: nat | i <= |a| && j <= |b| ensures Follows(Table(a, b), a, i, b, j) { TableFollows(a, i, b, j); }
  }

  lemma {:induction false} TablesMirror(
      m: (nat, nat) -> nat, k: (nat, nat) -> nat, a: string, i: nat, b: string, j: nat)
    requires i <= |a| && j <= |b| && Solves(m, a, b) && Solves(k, b, a)
    ensures m(i, j) == k(j, i)
    decreases i + j
  {
    assert Follows(m, a, i, b, j) && Follows(k, b, j, a, i);
    if i > 0 && j > 0 {
      TablesMirror(m, k, a, i - 1, b, j);
      TablesMirror(m, k, a, i, b, j - 1);
      TablesMirror(m, k, a, i - 1, b, j - 1);
      if Swapped(a, i, b, j) { TablesMirror(m, k, a, i - 2, b, j - 2); }
    }
  }

  lemma DistanceIsSymmetric(a: string, i: nat, b: string, j: nat)
    requires i <= |a| && j <= |b|
    ensures Distance(a, i, b, j) == Distance(b, j, a, i)
  {
    TableSolves(a, b);
    TableSolves(b, a);
    TablesMirror(Table(a, b), Table(b, a), a, i, b, j);
  }

  lemma {:induction false} EntryAtLeastLengthGap(m: (nat, nat) -> nat, a: string, i: nat, b: string, j: nat)
    requires i <= |a| && j <= |b| && Solves(m, a, b)
    ensures i - j <= m(i, j) && j - i <= m(i, j)
    decreases i + j
  {
    assert Follows(m, a, i, b, j);
    if i > 0 && j > 0 {
      EntryAtLeastLengthGap(m, a, i - 1, b, j);
      EntryAtLeastLengthGap(m, a, i, b, j - 1);
      EntryAtLeastLengthGap(m, a, i - 1, b, j - 1);
      if Swapped(a, i, b, j) { EntryAtLeastLengthGap(m, a, i - 2, b, j - 2); }
    }
  }

  /** A cell is at least its distance from the diagonal. */
  lemma DistanceAtLeastLengthGap(a: string, i: nat, b: string, j: nat)
    requires i <= |a| && j <= |b|
    ensures Distance(a, i, b, j) >= i - j
    ensures Distance(a, i, b, j) >= j - i
  {
    TableSolves(a, b);
    EntryAtLeastLengthGap(Table(a, b), a, i, b, j);
  }

  lemma {:induction false} ZeroDistanceMeansEqual(a: string, i: nat, b: string, j: nat)
    requires i <= |a| && j <= |b|
    ensures Distance(a, i, b, j) == 0 <==> a[..i] == b[..j]
    decreases i + j
  {
    if i > 0 && j > 0 {
      assert a[..i] == a[..i - 1] + [a[i - 1]];
      assert b[..j] == b[..j - 1] + [b[j - 1]];
      ZeroDistanceMeansEqual(a, i - 1, b, j - 1);
      if a[..i] == b[..j] {
        assert a[i - 1] == a[..i][i - 1] && b[j - 1] == b[..j][j - 1];
        assert a[..i - 1] == a[..i][..i - 1] == b[..j][..j - 1] == b[..j - 1];
      }
    }
  }

  /** Every entry of row `i` is above `k`. */
  ghost predicate RowAbove(a: string, i: nat, b: string, k: nat)
    requires i <= |a|
  {
    forall j: nat :: j <= |b| ==> Distance(a, i, b, j) > k
  }

  /** A row whose every entry is above `k` is followed only by such rows: a transposition
      reaches back two rows, but the row in between is at most one edit further. */
  lemma {:induction false} NextCellStaysAbove(a: string, i: nat, b: string, j: nat, k: nat)
    requires i < |a| && j <= |b| && RowAbove(a, i, b, k)
    ensures Distance(a, i + 1, b, j) > k
    decreases j
  {
    assert Distance(a, i, b, j) > k;
    if j > 0 {
      NextCellStaysAbove(a, i, b, j - 1, k);
      assert Distance(a, i, b, j - 1) > k;
      if Swapped(a, i + 1, b, j) {
        assert Distance(a, i, b, j - 1) <= Distance(a, i - 1, b, j - 2) + 1;
      }
    }
  }

  lemma {:induction false} RowsBelowStayAbove(a: string, i: nat, b: string, k: nat, below: nat)
    requires i <= below <= |a| && RowAbove(a, i, b, k)
    ensures RowAbove(a, below, b, k)
    decreases below - i
  {
    if i < below {
      var next := i + 1;
      forall j: nat | j <= |b| ensures Distance(a, next, b, j) > k {
        NextCellStaysAbove(a, i, b, j, k);
      }
      RowsBelowStayAbove(a, next, b, k, below);
    }
  }

  // ---------------------------------------------------------------------------------------
  // The matrix as data, as the reference implementation fills it.
  // ---------------------------------------------------------------------------------------

  ghost function Matrix(a: string, b: string): seq<seq<nat>>
  {
    seq(|a| + 1, i requires 0 <= i <= |a| =>
          seq(|b| + 1, j requires 0 <= j <= |b| => Distance(a, i, b, j)))
  }

  ghost predicate HasShape(m: seq<seq<nat>>, a: string, b: string)
  {
    |m| == |a| + 1 && forall i :: 0 <= i < |m| ==> |m[i]| == |b| + 1
  }

  /** An inner entry is the least of its neighbours' costs. Swapping two equal characters is left
      out: keeping both is never worse. */
  ghost predicate CellFollows(m: seq<seq<nat>>, a: string, i: nat, b: string, j: nat)
    requires HasShape(m, a, b) && 0 < i <= |a| && 0 < j <= |b|
  {
    var plain := Cheapest(m[i - 1][j], m[i][j - 1], m[i - 1][j - 1] + Mismatch(a, i, b, j));
    m[i][j] == if Swapped(a, i, b, j) && a[i - 1] != a[i - 2] then Min(plain, m[i - 2][j - 2] + 1) else plain
  }

  /** Everything the band relies on. */
  ghost predicate IsAlignmentMatrix(m: seq<seq<nat>>, a: string, b: string)
  {
    && HasShape(m, a, b)
    && (forall j :: 0 <= j <= |b| ==> m[0][j] == j)
    && (forall i :: 0 <= i <= |a| ==> m[i][0] == i)
    && (forall i, j :: 0 < i <= |a| && 0 < j <= |b| ==> CellFollows(m, a, i, b, j))
    && (forall i, j :: 0 <= i <= |a| && 0 <= j <= |b| ==> i - j <= m[i][j] && j - i <= m[i][j])
  }

  /** Swapping two equal characters is never cheaper than keeping both. */
  lemma SwapOfEqualsIsSuperfluous(m: (nat, nat) -> nat, a: string, i: nat, b: string, j: nat)
    requires i <= |a| && j <= |b| && Swapped(a, i, b, j) && a[i - 1] == a[i - 2]
    requires Follows(m, a, i, b, j) && Follows(m, a, i - 1, b, j - 1)
    ensures m(i, j) <= m(i - 1, j - 1) <= m(i - 2, j - 2)
  {
  }

  lemma CellFollowsTable(d: seq<seq<nat>>, m: (nat, nat) -> nat, a: string, i: nat, b: string, j: nat)
    requires HasShape(d, a, b) && 0 < i <= |a| && 0 < j <= |b| && Solves(m, a, b)
    requires d[i][j] == m(i, j) && d[i - 1][j] == m(i - 1, j) && d[i][j - 1] == m(i, j - 1)
    requires d[i - 1][j - 1] == m(i - 1, j - 1) && (i > 1 && j > 1 ==> d[i - 2][j - 2] == m(i - 2, j - 2))
    ensures CellFollows(d, a, i, b, j)
  {
    assert Follows(m, a, i, b, j);
    if Swapped(a, i, b, j) && a[i - 1] == a[i - 2] {
      assert Follows(m, a, i - 1, b, j - 1);
      SwapOfEqualsIsSuperfluous(m, a, i, b, j);
    }
  }

  lemma MatrixHoldsTable(a: string, b: string)
    ensures HasShape(Matrix(a, b), a, b)
    ensures forall i: nat, j: nat :: i <= |a| && j <= |b| ==> Matrix(a, b)[i][j] == Table(a, b)(i, j)
  {
  }

  lemma MatrixCellFollows(a: string, i: nat, b: string, j: nat)
    requires 0 < i <= |a| && 0 < j <= |b|
    ensures CellFollows(Matrix(a, b), a, i, b, j)
  {
    TableSolves(a, b);
    MatrixHoldsTable(a, b);
    CellFollowsTable(Matrix(a, b), Table(a, b), a, i, b, j);
  }

  lemma MatrixIsAlignmentMatrix(a: string, b: string)
    ensures IsAlignmentMatrix(Matrix(a, b), a, b)
  {
    var m := Matrix(a, b);
    forall i, j | 0 < i <= |a| && 0 < j <= |b| ensures CellFollows(m, a, i, b, j) {
      MatrixCellFollows(a, i, b, j);
    }
    forall i, j | 0 <= i <= |a| && 0 <= j <= |b| ensures i - j <= m[i][j] && j - i <= m[i][j] {
      DistanceAtLeastLengthGap(a, i, b, j);
    }
  }
}
