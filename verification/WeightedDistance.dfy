/** The cost that ranks corrections: an alignment distance whose edits cost between half and
    twice a plain edit. Costs are integer tenths. */
module WeightedDistance {
  import opened Numbers
  import opened EditCosts
  import EditPrices
  import Osa

  /** The costs of the edits between two fixed words, by 1-based position. */
  datatype Edits = Edits(remove: nat -> nat, insert: nat -> nat,
                         replace: (nat, nat) -> nat, swaps: (nat, nat) -> bool)

  function EditsBetween(q: string, c: string): Edits
  {
    Edits(i => Indel(i, |q|), j => Indel(j, |c|),
          (i: nat, j: nat) => if 0 < i <= |q| && 0 < j <= |c| then Substitution(q, i, c, j) else 0,
          (i: nat, j: nat) => i <= |q| && j <= |c| && SwapsTwo(q, i, c, j))
  }

  function Least(x: nat, y: nat, z: nat): nat { Min(Min(x, y), z) }

  /** Matrix entry `d[i][j]`. */
  function Cost(e: Edits, i: nat, j: nat): nat
    decreases i + j
  {
    if i == 0 && j == 0 then 0
    else if j == 0 then Cost(e, i - 1, j) + e.remove(i)
    else if i == 0 then Cost(e, i, j - 1) + e.insert(j)
    else
      var v := Least(Cost(e, i - 1, j) + e.remove(i), Cost(e, i, j - 1) + e.insert(j),
                     Cost(e, i - 1, j - 1) + e.replace(i, j));
      if i >= 2 && j >= 2 && e.swaps(i, j) then Min(v, Cost(e, i - 2, j - 2) + COST_TRANSPOSE) else v
  }

  function Weighted(q: string, c: string): nat { Cost(EditsBetween(q, c), |q|, |c|) }

  /** Entry `(i, j)` of `m` is what its neighbours make it. */
  ghost predicate Follows(m: (nat, nat) -> nat, e: Edits, i: nat, j: nat)
  {
    m(i, j) ==
    if i == 0 && j == 0 then 0
    else if j == 0 then m(i - 1, j) + e.remove(i)
    else if i == 0 then m(i, j - 1) + e.insert(j)
    else
      var v := Least(m(i - 1, j) + e.remove(i), m(i, j - 1) + e.insert(j), m(i - 1, j - 1) + e.replace(i, j));
      if i >= 2 && j >= 2 && e.swaps(i, j) then Min(v, m(i - 2, j - 2) + COST_TRANSPOSE) else v
  }

  ghost predicate Solves(m: (nat, nat) -> nat, e: Edits)
  {
    forall i, j :: Follows(m, e, i, j)
  }

  /** `Cost` as one matrix. */
  ghost function CostMatrix(e: Edits): (m: (nat, nat) -> nat)
    ensures Solves(m, e) && forall i, j :: m(i, j) == Cost(e, i, j)
  {
    var m := (i: nat, j: nat) => Cost(e, i, j);
    assert forall i, j :: Follows(m, e, i, j);
    m
  }

  /** One inner loop: row `i` of the matrix from the rows above it. */
  method FillRow(d: array2<nat>, q: string, c: string, i: nat, ghost m: (nat, nat) -> nat)
    requires Solves(m, EditsBetween(q, c)) && 0 < i <= |q|
    requires d.Length0 == |q| + 1 && d.Length1 == |c| + 1
    requires forall x, y :: 0 <= x < i && 0 <= y <= |c| ==> d[x, y] == m(x, y)
    requires forall x :: 0 <= x <= |q| ==> d[x, 0] == m(x, 0)
    modifies d
    ensures forall x, y :: 0 <= x <= i && 0 <= y <= |c| ==> d[x, y] == m(x, y)
    ensures forall x :: 0 <= x <= |q| ==> d[x, 0] == m(x, 0)
  {
    for j := 1 to |c| + 1
      invariant forall x, y :: 0 <= x < i && 0 <= y <= |c| ==> d[x, y] == m(x, y)
      invariant forall x :: 0 <= x <= |q| ==> d[x, 0] == m(x, 0)
      invariant forall y :: 0 <= y < j ==> d[i, y] == m(i, y)
    {
      var v := Least(d[i - 1, j] + Indel(i, |q|), d[i, j - 1] + Indel(j, |c|),
                     d[i - 1, j - 1] + Substitution(q, i, c, j));
      if SwapsTwo(q, i, c, j) {
        v := Min(v, d[i - 2, j - 2] + COST_TRANSPOSE);
      }
      assert Follows(m, EditsBetween(q, c), i, j);
      d[i, j] := v;
    }
  }

  /** The source's matrix loops. */
  method WeightedDistance(query: string, candidate: string) returns (cost: nat)
    ensures cost == Weighted(query, candidate)
  {
    var rows, columns := |query|, |candidate|;
    ghost var e := EditsBetween(query, candidate);
    ghost var m := CostMatrix(e);
    var d := new nat[rows + 1, columns + 1]((i, j) => 0);
    assert Follows(m, e, 0, 0);
    for i := 1 to rows + 1
      invariant forall k :: 0 <= k < i ==> d[k, 0] == m(k, 0)
    {
      d[i, 0] := d[i - 1, 0] + Indel(i, rows);
      assert Follows(m, e, i, 0);
    }
    for j := 1 to columns + 1
      invariant forall k :: 0 <= k <= rows ==> d[k, 0] == m(k, 0)
      invariant forall k :: 0 <= k < j ==> d[0, k] == m(0, k)
    {
      d[0, j] := d[0, j - 1] + Indel(j, columns);
      assert Follows(m, e, 0, j);
    }
    for i := 1 to rows + 1
      invariant forall k :: 0 <= k <= rows ==> d[k, 0] == m(k, 0)
      invariant forall x, y :: 0 <= x < i && 0 <= y <= columns ==> d[x, y] == m(x, y)
    {
      FillRow(d, query, candidate, i, m);
    }
    cost := d[rows, columns];
  }

  // ---------------------------------------------------------------------------------------
  // The recurrence is the least weighted cost of an edit script.
  // ---------------------------------------------------------------------------------------

  /** What a script that rewrites `q[..i]` into `c[..j]` costs. */
  function ScriptCost(script: seq<Osa.Edit>, q: string, i: nat, c: string, j: nat): nat
    requires i <= |q| && j <= |c| && Osa.Rewrites(script, q, i, c, j)
    decreases |script|
  {
    if script == [] then 0
    else
      EditPrices.Price(script[0], q, i, c, j) +
      match script[0]
      case Align => ScriptCost(script[1..], q, i - 1, c, j - 1)
      case Delete => ScriptCost(script[1..], q, i - 1, c, j)
      case Insert => ScriptCost(script[1..], q, i, c, j - 1)
      case Transpose => ScriptCost(script[1..], q, i - 2, c, j - 2)
  }

  /** An entry costs at most any last edit after the best way to get there. */
  lemma EntryAtMostEdit(m: (nat, nat) -> nat, q: string, i: nat, c: string, j: nat)
    requires i <= |q| && j <= |c| && Follows(m, EditsBetween(q, c), i, j)
    ensures i > 0 ==> m(i, j) <= m(i - 1, j) + Indel(i, |q|)
    ensures j > 0 ==> m(i, j) <= m(i, j - 1) + Indel(j, |c|)
    ensures i > 0 && j > 0 ==> m(i, j) <= m(i - 1, j - 1) + Substitution(q, i, c, j)
    ensures SwapsTwo(q, i, c, j) ==> m(i, j) <= m(i - 2, j - 2) + COST_TRANSPOSE
  {
  }

  /** Also a swap of two equal characters, which keeping both undercuts. */
  lemma EntryAtMostSwap(m: (nat, nat) -> nat, q: string, i: nat, c: string, j: nat)
    requires i <= |q| && j <= |c| && Solves(m, EditsBetween(q, c)) && Osa.Swapped(q, i, c, j)
    ensures m(i, j) <= m(i - 2, j - 2) + COST_TRANSPOSE
  {
    var e := EditsBetween(q, c);
    assert Follows(m, e, i, j) && Follows(m, e, i - 1, j - 1);
    EntryAtMostEdit(m, q, i, c, j);
    EntryAtMostEdit(m, q, i - 1, c, j - 1);
  }

  lemma {:induction false} ScriptCostsAtLeast(
      m: (nat, nat) -> nat, script: seq<Osa.Edit>, q: string, i: nat, c: string, j: nat)
    requires i <= |q| && j <= |c| && Osa.Rewrites(script, q, i, c, j) && Solves(m, EditsBetween(q, c))
    ensures m(i, j) <= ScriptCost(script, q, i, c, j)
    decreases |script|
  {
    assert Follows(m, EditsBetween(q, c), i, j);
    EntryAtMostEdit(m, q, i, c, j);
    if script != [] {
      EditPrices.CostIsPrice(script[0], q, i, c, j);
      match script[0]
      case Align => ScriptCostsAtLeast(m, script[1..], q, i - 1, c, j - 1);
      case Delete => ScriptCostsAtLeast(m, script[1..], q, i - 1, c, j);
      case Insert => ScriptCostsAtLeast(m, script[1..], q, i, c, j - 1);
      case Transpose =>
        ScriptCostsAtLeast(m, script[1..], q, i - 2, c, j - 2);
        EntryAtMostSwap(m, q, i, c, j);
    }
  }

  /** The edit an entry ends with. */
  lemma LastEdit(m: (nat, nat) -> nat, q: string, i: nat, c: string, j: nat) returns (edit: Osa.Edit)
    requires i <= |q| && j <= |c| && i + j > 0 && Follows(m, EditsBetween(q, c), i, j)
    ensures match edit
            case Align => i > 0 && j > 0 && m(i, j) == m(i - 1, j - 1) + Substitution(q, i, c, j)
            case Delete => i > 0 && m(i, j) == m(i - 1, j) + Indel(i, |q|)
            case Insert => j > 0 && m(i, j) == m(i, j - 1) + Indel(j, |c|)
            case Transpose => Osa.Swapped(q, i, c, j) && m(i, j) == m(i - 2, j - 2) + COST_TRANSPOSE
  {
    if i > 0 && m(i, j) == m(i - 1, j) + Indel(i, |q|) {
      edit := Osa.Delete;
    } else if j > 0 && m(i, j) == m(i, j - 1) + Indel(j, |c|) {
      edit := Osa.Insert;
    } else if m(i, j) == m(i - 1, j - 1) + Substitution(q, i, c, j) {
      edit := Osa.Align;
    } else {
      edit := Osa.Transpose;
    }
  }

  lemma {:induction false} CheapestScript(m: (nat, nat) -> nat, q: string, i: nat, c: string, j: nat)
    returns (script: seq<Osa.Edit>)
    requires i <= |q| && j <= |c| && Solves(m, EditsBetween(q, c))
    ensures Osa.Rewrites(script, q, i, c, j) && ScriptCost(script, q, i, c, j) == m(i, j)
    decreases i + j
  {
    assert Follows(m, EditsBetween(q, c), i, j);
    if i + j == 0 {
      script := [];
    } else {
      var edit := LastEdit(m, q, i, c, j);
      var i' := match edit case Insert => i case Transpose => i - 2 case _ => i - 1;
      var j' := match edit case Delete => j case Transpose => j - 2 case _ => j - 1;
      EditPrices.CostIsPrice(edit, q, i, c, j);
      var rest := CheapestScript(m, q, i', c, j');
      script := [edit] + rest;
      assert script[1..] == rest;
    }
  }

  /** Some edit script costs exactly the weighted distance, and none costs less. */
  lemma WeightedIsLeastScriptCost(q: string, c: string)
    ensures exists s :: Osa.Rewrites(s, q, |q|, c, |c|) && ScriptCost(s, q, |q|, c, |c|) == Weighted(q, c)
    ensures forall s :: Osa.Rewrites(s, q, |q|, c, |c|) ==> Weighted(q, c) <= ScriptCost(s, q, |q|, c, |c|)
  {
    var m := CostMatrix(EditsBetween(q, c));
    var s := CheapestScript(m, q, |q|, c, |c|);
    forall s | Osa.Rewrites(s, q, |q|, c, |c|) ensures Weighted(q, c) <= ScriptCost(s, q, |q|, c, |c|) {
      ScriptCostsAtLeast(m, s, q, |q|, c, |c|);
    }
  }

  // ---------------------------------------------------------------------------------------
  // Symmetry.
  // ---------------------------------------------------------------------------------------

  lemma SubstituteIsSymmetric(a: char, b: char)
    ensures SubstituteCost(a, b) == SubstituteCost(b, a)
    ensures SoundAlike(a, b) == SoundAlike(b, a)
  {
    assert KeyboardNeighbors(a, b) == KeyboardNeighbors(b, a);
  }

  ghost predicate Mirrored(e: Edits, f: Edits)
  {
    && (forall k :: e.remove(k) == f.insert(k) && e.insert(k) == f.remove(k))
    && (forall i, j :: e.replace(i, j) == f.replace(j, i))
    && (forall i, j :: e.swaps(i, j) == f.swaps(j, i))
  }

  lemma EditsMirror(q: string, c: string)
    ensures Mirrored(EditsBetween(q, c), EditsBetween(c, q))
  {
    var e, f := EditsBetween(q, c), EditsBetween(c, q);
    forall i: nat, j: nat ensures e.replace(i, j) == f.replace(j, i) {
      if 0 < i <= |q| && 0 < j <= |c| { SubstituteIsSymmetric(q[i - 1], c[j - 1]); }
    }
  }

  lemma {:induction false} MirroredEditsCostTheSame(
      m: (nat, nat) -> nat, e: Edits, k: (nat, nat) -> nat, f: Edits, i: nat, j: nat)
    requires Solves(m, e) && Solves(k, f) && Mirrored(e, f)
    ensures m(i, j) == k(j, i)
    decreases i + j
  {
    assert Follows(m, e, i, j) && Follows(k, f, j, i);
    if i > 0 { MirroredEditsCostTheSame(m, e, k, f, i - 1, j); }
    if j > 0 { MirroredEditsCostTheSame(m, e, k, f, i, j - 1); }
    if i > 0 && j > 0 {
      MirroredEditsCostTheSame(m, e, k, f, i - 1, j - 1);
      assert e.swaps(i, j) == f.swaps(j, i) && e.replace(i, j) == f.replace(j, i);
      if i > 1 && j > 1 { MirroredEditsCostTheSame(m, e, k, f, i - 2, j - 2); }
    }
  }

  // ---------------------------------------------------------------------------------------
  // Between half and twice the plain distance.
  // ---------------------------------------------------------------------------------------

  /** Every edit costs between half and twice a plain edit. */
  ghost predicate Bounded(e: Edits, q: string, c: string)
  {
    && (forall k :: 5 <= e.remove(k) <= 20 && 5 <= e.insert(k) <= 20)
    && (forall i, j :: 0 < i <= |q| && 0 < j <= |c| ==>
          5 * Osa.Mismatch(q, i, c, j) <= e.replace(i, j) <= 20 * Osa.Mismatch(q, i, c, j))
    && (forall i, j :: 0 <= i <= |q| && 0 <= j <= |c| ==> e.swaps(i, j) == SwapsTwo(q, i, c, j))
  }

  lemma EditsAreBounded(q: string, c: string)
    ensures Bounded(EditsBetween(q, c), q, c)
  {
  }

  /** Among numbers: the cheapest of costs between half and twice the plain ones. */
  lemma ChoiceBetweenHalfAndTwice(
      up: nat, left: nat, diagonal: nat, before: nat, remove: nat, insert: nat, replace: nat, swap: bool,
      dUp: nat, dLeft: nat, dDiagonal: nat, mismatch: nat, dBefore: nat)
    requires 5 * dUp <= up <= 20 * dUp && 5 * dLeft <= left <= 20 * dLeft && 5 * dDiagonal <= diagonal <= 20 * dDiagonal
    requires swap ==> 5 * dBefore <= before <= 20 * dBefore
    requires 5 <= remove <= 20 && 5 <= insert <= 20 && 5 * mismatch <= replace <= 20 * mismatch
    ensures var v := Least(up + remove, left + insert, diagonal + replace);
            var m := if swap then Min(v, before + COST_TRANSPOSE) else v;
            var w := Osa.Cheapest(dUp, dLeft, dDiagonal + mismatch);
            var d := if swap then Min(w, dBefore + 1) else w;
            5 * d <= m <= 20 * d
  {
  }

  /** With `d` the plain matrix and `m` the weighted one, entry by entry. */
  lemma {:induction false} CostBetweenHalfAndTwice(
      m: (nat, nat) -> nat, e: Edits, d: seq<seq<nat>>, q: string, c: string, i: nat, j: nat)
    requires i <= |q| && j <= |c|
    requires Solves(m, e) && Bounded(e, q, c) && Osa.IsAlignmentMatrix(d, q, c)
    ensures 5 * d[i][j] <= m(i, j) <= 20 * d[i][j]
    decreases i + j
  {
    assert Follows(m, e, i, j);
    if i > 0 { CostBetweenHalfAndTwice(m, e, d, q, c, i - 1, j); }
    if j > 0 { CostBetweenHalfAndTwice(m, e, d, q, c, i, j - 1); }
    if i > 0 && j > 0 {
      CostBetweenHalfAndTwice(m, e, d, q, c, i - 1, j - 1);
      if i > 1 && j > 1 { CostBetweenHalfAndTwice(m, e, d, q, c, i - 2, j - 2); }
      InnerCellBetweenHalfAndTwice(m, e, d, q, c, i, j);
    }
  }

  lemma InnerCellBetweenHalfAndTwice(
      m: (nat, nat) -> nat, e: Edits, d: seq<seq<nat>>, q: string, c: string, i: nat, j: nat)
    requires 0 < i <= |q| && 0 < j <= |c|
    requires Follows(m, e, i, j) && Bounded(e, q, c) && Osa.HasShape(d, q, c) && Osa.CellFollows(d, q, i, c, j)
    requires 5 * d[i - 1][j] <= m(i - 1, j) <= 20 * d[i - 1][j]
    requires 5 * d[i][j - 1] <= m(i, j - 1) <= 20 * d[i][j - 1]
    requires 5 * d[i - 1][j - 1] <= m(i - 1, j - 1) <= 20 * d[i - 1][j - 1]
    requires i > 1 && j > 1 ==> 5 * d[i - 2][j - 2] <= m(i - 2, j - 2) <= 20 * d[i - 2][j - 2]
    ensures 5 * d[i][j] <= m(i, j) <= 20 * d[i][j]
  {
    var swap := i >= 2 && j >= 2 && e.swaps(i, j);
    assert e.swaps(i, j) == SwapsTwo(q, i, c, j);
    assert 5 * Osa.Mismatch(q, i, c, j) <= e.replace(i, j) <= 20 * Osa.Mismatch(q, i, c, j);
    assert 5 <= e.remove(i) <= 20 && 5 <= e.insert(j) <= 20;
    ChoiceBetweenHalfAndTwice(
      m(i - 1, j), m(i, j - 1), m(i - 1, j - 1), if swap then m(i - 2, j - 2) else 0,
      e.remove(i), e.insert(j), e.replace(i, j), swap,
      d[i - 1][j], d[i][j - 1], d[i - 1][j - 1], Osa.Mismatch(q, i, c, j), if swap then d[i - 2][j - 2] else 0);
  }

  /** Symmetric, zero exactly for equal words, and between half and twice the plain distance. */
  lemma WeightedDistanceLaws(q: string, c: string)
    ensures Weighted(q, c) == Weighted(c, q)
    ensures Weighted(q, c) == 0 <==> q == c
    ensures 5 * Osa.Osa(q, c) <= Weighted(q, c) <= 20 * Osa.Osa(q, c)
  {
    var e, f := EditsBetween(q, c), EditsBetween(c, q);
    EditsMirror(q, c);
    MirroredEditsCostTheSame(CostMatrix(e), e, CostMatrix(f), f, |q|, |c|);
    EditsAreBounded(q, c);
    Osa.MatrixIsAlignmentMatrix(q, c);
    CostBetweenHalfAndTwice(CostMatrix(e), e, Osa.Matrix(q, c), q, c, |q|, |c|);
    Osa.ZeroDistanceMeansEqual(q, |q|, c, |c|);
    assert q[..|q|] == q && c[..|c|] == c;
  }
}
