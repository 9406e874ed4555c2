/** What the weighted distance makes of single edits, for every word and every letter, in tenths. */
module WeightedPrices {
  import opened Numbers
  import opened EditCosts
  import opened EditPrices
  import opened WeightedDistance
  import Osa

  // ---------------------------------------------------------------------------------------
  // Entries of the matrix: upper bounds along matching letters, lower bounds off the diagonal.
  // ---------------------------------------------------------------------------------------

  /** Letters that match cost nothing more. */
  lemma {:induction false} MatchingCostsNothing(m: (nat, nat) -> nat, q: string, c: string, i: nat, j: nat, n: nat)
    requires Solves(m, EditsBetween(q, c)) && i + n <= |q| && j + n <= |c|
    requires q[i..i + n] == c[j..j + n]
    ensures m(i + n, j + n) <= m(i, j)
  {
    if n > 0 {
      assert q[i..i + n - 1] == q[i..i + n][..n - 1] && c[j..j + n - 1] == c[j..j + n][..n - 1];
      assert q[i + n - 1] == q[i..i + n][n - 1] && c[j + n - 1] == c[j..j + n][n - 1];
      MatchingCostsNothing(m, q, c, i, j, n - 1);
      assert Follows(m, EditsBetween(q, c), i + n, j + n);
      EntryAtMostEdit(m, q, i + n, c, j + n);
    }
  }

  /** The edit an entry ends with. */
  lemma LastEditOf(m: (nat, nat) -> nat, q: string, i: nat, c: string, j: nat) returns (edit: Osa.Edit)
    requires i <= |q| && j <= |c| && i + j > 0 && Solves(m, EditsBetween(q, c))
    ensures match edit
            case Align => i > 0 && j > 0 && m(i, j) == m(i - 1, j - 1) + Substitution(q, i, c, j)
            case Delete => i > 0 && m(i, j) == m(i - 1, j) + Indel(i, |q|)
            case Insert => j > 0 && m(i, j) == m(i, j - 1) + Indel(j, |c|)
            case Transpose => Osa.Swapped(q, i, c, j) && m(i, j) == m(i - 2, j - 2) + COST_TRANSPOSE
  {
    assert Follows(m, EditsBetween(q, c), i, j);
    edit := LastEdit(m, q, i, c, j);
  }

  lemma StartsAtZero(m: (nat, nat) -> nat, q: string, c: string)
    requires Solves(m, EditsBetween(q, c))
    ensures m(0, 0) == 0
  {
    assert Follows(m, EditsBetween(q, c), 0, 0);
  }

  lemma CommonStartIsFree(m: (nat, nat) -> nat, q: string, c: string, n: nat)
    requires Solves(m, EditsBetween(q, c)) && n <= |q| && n <= |c| && q[..n] == c[..n]
    ensures m(n, n) == 0
  {
    StartsAtZero(m, q, c);
    MatchingCostsNothing(m, q, c, 0, 0, n);
  }

  function Gap(i: nat, j: nat): nat { if i < j then j - i else i - j }

  /** Each letter more or less costs at least `least`, here on the part of the matrix up to `(a, b)`. */
  lemma {:induction false} GapIsPaid(
      m: (nat, nat) -> nat, q: string, c: string, a: nat, b: nat, least: nat, i: nat, j: nat)
    requires Solves(m, EditsBetween(q, c)) && i <= a <= |q| && j <= b <= |c|
    requires least <= 7 || (least <= 10 && a < |q| && b < |c|)
    ensures m(i, j) >= least * Gap(i, j)
    decreases i + j
  {
    var e := EditsBetween(q, c);
    assert Follows(m, e, i, j);
    if i > 0 { GapIsPaid(m, q, c, a, b, least, i - 1, j); }
    if j > 0 { GapIsPaid(m, q, c, a, b, least, i, j - 1); }
    if i > 0 && j > 0 {
      GapIsPaid(m, q, c, a, b, least, i - 1, j - 1);
      if i > 1 && j > 1 { GapIsPaid(m, q, c, a, b, least, i - 2, j - 2); }
    }
    assert (i > 0 ==> e.remove(i) >= least) && (j > 0 ==> e.insert(j) >= least);
    GapGrows(least, i, j);
  }

  lemma GapGrows(least: nat, i: nat, j: nat)
    ensures i > 0 ==> least * Gap(i, j) <= least * Gap(i - 1, j) + least
    ensures j > 0 ==> least * Gap(i, j) <= least * Gap(i, j - 1) + least
    ensures i > 0 && j > 0 ==> Gap(i - 1, j - 1) == Gap(i, j)
    ensures i > 1 && j > 1 ==> Gap(i - 2, j - 2) == Gap(i, j)
  {
  }

  // ---------------------------------------------------------------------------------------
  // A letter more or less.
  // ---------------------------------------------------------------------------------------

  /** A word one letter longer costs at least 7, and unless the letter is added at the end at least 10. */
  lemma LongerWordIsPaid(m: (nat, nat) -> nat, q: string, c: string, n: nat)
    requires Solves(m, EditsBetween(q, c)) && 0 < n == |q| && |c| == n + 1
    ensures m(n, n + 1) >= if q == c[..n] then 7 else 10
  {
    var edit := LastEditOf(m, q, n, c, n + 1);
    match edit
    case Align => GapIsPaid(m, q, c, n - 1, n, 10, n - 1, n);
    case Delete => GapIsPaid(m, q, c, n, n + 1, 7, n - 1, n + 1);
    case Insert => if q[..n] != c[..n] { DiagonalIsDear(m, q, c, n); }
    case Transpose => GapIsPaid(m, q, c, n - 1, n, 10, n - 2, n - 1);
  }

  /** Adding `c[at]` and going on with matching letters. */
  lemma AddingSuffices(m: (nat, nat) -> nat, q: string, c: string, at: nat)
    requires Solves(m, EditsBetween(q, c)) && at <= |q| && |c| == |q| + 1
    requires q[..at] == c[..at] && q[at..] == c[at + 1..]
    ensures m(|q|, |c|) <= Indel(at + 1, |c|)
  {
    CommonStartIsFree(m, q, c, at);
    assert Follows(m, EditsBetween(q, c), at, at + 1);
    EntryAtMostEdit(m, q, at, c, at + 1);
    assert q[at..at + (|q| - at)] == q[at..] && c[at + 1..at + 1 + (|q| - at)] == c[at + 1..];
    MatchingCostsNothing(m, q, c, at, at + 1, |q| - at);
  }

  /** Where the starts of the words differ something was paid. */
  lemma DiagonalIsDear(m: (nat, nat) -> nat, q: string, c: string, n: nat)
    requires Solves(m, EditsBetween(q, c)) && n <= |q| && n <= |c| && q[..n] != c[..n]
    ensures m(n, n) >= 5
  {
    var e := EditsBetween(q, c);
    EditsAreBounded(q, c);
    Osa.MatrixIsAlignmentMatrix(q, c);
    CostBetweenHalfAndTwice(m, e, Osa.Matrix(q, c), q, c, n, n);
    Osa.ZeroDistanceMeansEqual(q, n, c, n);
  }

  /** Adding a letter to a word, or dropping it again, costs 7 if the longer word starts with the shorter one,
      as it does for a last letter, and else 10. */
  lemma InnerLetterCosts(u: string, x: char, v: string)
    requires u != []
    ensures Weighted(u + v, u + [x] + v) == if u + v <= u + [x] + v then 7 else 10
    ensures Weighted(u + [x] + v, u + v) == Weighted(u + v, u + [x] + v)
    ensures v == [] ==> u + v <= u + [x] + v
  {
    var q, c := u + v, u + [x] + v;
    var m := CostMatrix(EditsBetween(q, c));
    LongerWordIsPaid(m, q, c, |q|);
    assert q[..|u|] == u == c[..|u|] && q[|u|..] == v == c[|u| + 1..];
    AddingSuffices(m, q, c, |u|);
    if q <= c {
      assert q[..|q|] == q == c[..|q|] && q[|q|..] == [] == c[|q| + 1..];
      AddingSuffices(m, q, c, |q|);
    }
    WeightedDistanceLaws(q, c);
  }

  // ---------------------------------------------------------------------------------------
  // Two neighbours swapped.
  // ---------------------------------------------------------------------------------------

  lemma SwappingSuffices(m: (nat, nat) -> nat, q: string, c: string, n: nat)
    requires Solves(m, EditsBetween(q, c)) && n + 2 <= |q| == |c| && SwapsTwo(q, n + 2, c, n + 2)
    requires q[..n] == c[..n] && q[n + 2..] == c[n + 2..]
    ensures m(|q|, |c|) <= 5
  {
    CommonStartIsFree(m, q, c, n);
    assert Follows(m, EditsBetween(q, c), n + 2, n + 2);
    EntryAtMostEdit(m, q, n + 2, c, n + 2);
    assert q[n + 2..n + 2 + (|q| - n - 2)] == q[n + 2..] && c[n + 2..n + 2 + (|q| - n - 2)] == c[n + 2..];
    MatchingCostsNothing(m, q, c, n + 2, n + 2, |q| - n - 2);
  }

  /** Swapping two different neighbouring letters costs 5, also at the start. */
  lemma SwapCosts(u: string, x: char, y: char, v: string)
    requires x != y
    ensures Weighted(u + [x, y] + v, u + [y, x] + v) == 5
  {
    var q, c, n := u + [x, y] + v, u + [y, x] + v, |u|;
    var m := CostMatrix(EditsBetween(q, c));
    assert q[..n] == u == c[..n] && q[n + 2..] == v == c[n + 2..];
    assert q[n] == x && q[n + 1] == y && c[n] == y && c[n + 1] == x;
    SwappingSuffices(m, q, c, n);
    assert q[..|q|] == q && c[..|c|] == c;
    DiagonalIsDear(m, q, c, |q|);
  }

  // ---------------------------------------------------------------------------------------
  // A letter replaced.
  // ---------------------------------------------------------------------------------------

  /** The words differ in letter `at` alone. */
  ghost predicate DifferAt(q: string, c: string, at: nat)
  {
    |q| == |c| && at < |q| && q[at] != c[at] && forall k :: 0 <= k < |q| && k != at ==> q[k] == c[k]
  }

  /** Leaving the diagonal and coming back takes a letter more and a letter less. */
  lemma BesideDiagonal(m: (nat, nat) -> nat, q: string, c: string, i: nat)
    requires Solves(m, EditsBetween(q, c)) && 0 < i <= |q| && i <= |c|
    ensures m(i - 1, i) + Indel(i, |q|) >= 14 && m(i, i - 1) + Indel(i, |c|) >= 14
  {
    GapIsPaid(m, q, c, |q|, |c|, 7, i - 1, i);
    GapIsPaid(m, q, c, |q|, |c|, 7, i, i - 1);
  }

  /** No entry on the diagonal behind the replaced letter is cheaper than the replacement. */
  lemma {:induction false} ReplacedIsPaid(m: (nat, nat) -> nat, q: string, c: string, at: nat, price: nat, i: nat)
    requires Solves(m, EditsBetween(q, c)) && DifferAt(q, c, at) && at < i <= |q|
    requires price <= 14 && price <= m(at, at) + Substitution(q, at + 1, c, at + 1)
    ensures m(i, i) >= price
  {
    var edit := LastEditOf(m, q, i, c, i);
    match edit
    case Align => if i - 1 > at { ReplacedIsPaid(m, q, c, at, price, i - 1); }
    case Delete => BesideDiagonal(m, q, c, i);
    case Insert => BesideDiagonal(m, q, c, i);
    case Transpose =>
      NotSwappedThere(q, c, at, i);
      ReplacedIsPaid(m, q, c, at, price, i - 2);
  }

  /** Two letters are not swapped where just one of them differs. */
  lemma NotSwappedThere(q: string, c: string, at: nat, i: nat)
    requires DifferAt(q, c, at) && at < i <= |q| && Osa.Swapped(q, i, c, i)
    ensures at < i - 2
  {
  }

  lemma ReplacementSuffices(m: (nat, nat) -> nat, q: string, c: string, at: nat)
    requires Solves(m, EditsBetween(q, c)) && DifferAt(q, c, at)
    ensures m(|q|, |c|) <= Substitution(q, at + 1, c, at + 1)
  {
    assert q[..at] == c[..at];
    CommonStartIsFree(m, q, c, at);
    assert Follows(m, EditsBetween(q, c), at + 1, at + 1);
    EntryAtMostEdit(m, q, at + 1, c, at + 1);
    MatchingCostsNothing(m, q, c, at + 1, at + 1, |q| - at - 1);
  }

  /** Putting one letter for another behind the first costs 6 for letters easily confused and else 10. */
  lemma ReplacedLetterCosts(u: string, x: char, y: char, v: string)
    requires u != [] && x != y
    ensures Weighted(u + [x] + v, u + [y] + v) == if Near(x, y) then 6 else 10
  {
    var q, c, at := u + [x] + v, u + [y] + v, |u|;
    var m := CostMatrix(EditsBetween(q, c));
    assert q[at] == x && c[at] == y;
    SubstitutionIsPriced(x, y);
    ReplacementSuffices(m, q, c, at);
    ReplacedIsPaid(m, q, c, at, Substitution(q, at + 1, c, at + 1), |q|);
  }

  /** Words whose first letters differ: every entry but the empty one costs at least the replacement, unless
      the first two letters are swapped. */
  lemma {:induction false} FirstLetterIsPaid(m: (nat, nat) -> nat, q: string, c: string, price: nat, i: nat, j: nat)
    requires Solves(m, EditsBetween(q, c)) && |q| >= 2 && |c| >= 2 && i <= |q| && j <= |c| && i + j > 0
    requires price <= 20 && price <= Substitution(q, 1, c, 1) && !Osa.Swapped(q, 2, c, 2)
    ensures m(i, j) >= price
    decreases i + j
  {
    var edit := LastEditOf(m, q, i, c, j);
    match edit
    case Align => if i + j > 2 { FirstLetterIsPaid(m, q, c, price, i - 1, j - 1); }
    case Delete => if i + j > 1 { FirstLetterIsPaid(m, q, c, price, i - 1, j); }
    case Insert => if i + j > 1 { FirstLetterIsPaid(m, q, c, price, i, j - 1); }
    case Transpose => if i + j > 4 { FirstLetterIsPaid(m, q, c, price, i - 2, j - 2); }
  }

  lemma OneLetterWords(m: (nat, nat) -> nat, x: char, y: char)
    requires Solves(m, EditsBetween([x], [y]))
    ensures m(0, 1) == 17 && m(1, 0) == 17
    ensures m(1, 1) == Substitution([x], 1, [y], 1)
  {
    var e := EditsBetween([x], [y]);
    assert Follows(m, e, 0, 0) && Follows(m, e, 0, 1) && Follows(m, e, 1, 0) && Follows(m, e, 1, 1);
  }

  lemma FirstLetterReplaced(m: (nat, nat) -> nat, q: string, c: string)
    requires Solves(m, EditsBetween(q, c)) && |q| >= 2 && DifferAt(q, c, 0) && Substitution(q, 1, c, 1) <= 20
    ensures m(|q|, |c|) == Substitution(q, 1, c, 1)
  {
    ReplacementSuffices(m, q, c, 0);
    FirstLetterIsPaid(m, q, c, Substitution(q, 1, c, 1), |q|, |c|);
  }

  /** Putting one first letter for another costs 6 for letters that sound alike, 16 for others easily
      confused and else 20. */
  lemma ReplacedFirstLetterCosts(x: char, y: char, v: string)
    requires x != y
    ensures Weighted([x] + v, [y] + v) == if y in SoundsLike(x) then 6 else if Near(x, y) then 16 else 20
  {
    var q, c := [x] + v, [y] + v;
    var m := CostMatrix(EditsBetween(q, c));
    CostIsPrice(Osa.Align, q, 1, c, 1);
    assert q[0] == x && c[0] == y;
    if v == [] {
      assert q == [x] && c == [y];
      OneLetterWords(m, x, y);
    } else {
      FirstLetterReplaced(m, q, c);
    }
  }

  /** A letter put before a word, or dropped there, costs at most 20, and just that unless letters of the
      words can be confused or swapped. */
  lemma AddedFirstLetterCosts(x: char, v: string)
    ensures v != [] ==> Weighted(v, [x] + v) <= 20
    ensures v == [] ==> Weighted(v, [x] + v) == 17
    ensures |v| >= 2 && x != v[0] && !Near(v[0], x) && x != v[1] ==> Weighted(v, [x] + v) == 20
    ensures Weighted([x] + v, v) == Weighted(v, [x] + v)
  {
    var c := [x] + v;
    var e := EditsBetween(v, c);
    var m := CostMatrix(e);
    assert Follows(m, e, 0, 0) && Follows(m, e, 0, 1);
    MatchingCostsNothing(m, v, c, 0, 1, |v|);
    WeightedDistanceLaws(v, c);
    if |v| >= 2 && x != v[0] && !Near(v[0], x) && x != v[1] {
      CostIsPrice(Osa.Align, v, 1, c, 1);
      FirstLetterIsPaid(m, v, c, 20, |v|, |c|);
    }
  }
}
