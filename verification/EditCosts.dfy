/** What single edits cost as the ranking of corrections computes it, in integer tenths. */
module EditCosts {
  import opened Options
  import Osa

  const COST_CHAR: nat := 10
  const COST_END_CHAR: nat := 7
  const COST_SUBSTITUTE: nat := 10
  const COST_NEAR_SUBSTITUTE: nat := 6
  const COST_TRANSPOSE: nat := 5
  const FIRST_CHAR_PENALTY: nat := 10

  function IndexOf(keys: string, c: char): Option<nat>
  {
    if keys == [] then None
    else if keys[0] == c then Some(0)
    else match IndexOf(keys[1..], c)
      case Some(k) => Some(k + 1)
      case None => None
  }

  /** The rows of a QWERTY keyboard, with how far each is shifted in quarter keys. */
  const KEY_ROWS: seq<(string, nat)> := [("qwertyuiop", 0), ("asdfghjkl", 1), ("zxcvbnm", 3)]

  /** Column in quarter keys and row of a key in the rows from `y` on. */
  function PositionFrom(rows: seq<(string, nat)>, y: nat, c: char): Option<(int, int)>
    decreases |rows| - y
  {
    if y >= |rows| then None
    else match IndexOf(rows[y].0, c)
      case Some(x) => Some((4 * x + rows[y].1, y))
      case None => PositionFrom(rows, y + 1, c)
  }

  function KeyboardPosition(c: char): Option<(int, int)> { PositionFrom(KEY_ROWS, 0, c) }

  function Gap(x: int, y: int): nat { if x < y then y - x else x - y }

  predicate Adjacent(a: Option<(int, int)>, b: Option<(int, int)>)
  {
    match (a, b)
    case (Some((ax, aRow)), Some((bx, bRow))) =>
      (Gap(aRow, bRow) == 0 && Gap(ax, bx) == 4) || (Gap(aRow, bRow) == 1 && Gap(ax, bx) < 4)
    case _ => false
  }

  predicate KeyboardNeighbors(a: char, b: char) { Adjacent(KeyboardPosition(a), KeyboardPosition(b)) }

  predicate IsVowel(c: char) { c in {'a', 'e', 'i', 'o', 'u', 'y'} }

  predicate SoundAlike(a: char, b: char)
  {
    var pair := if a <= b then (a, b) else (b, a);
    pair in {('c', 'k'), ('c', 's'), ('k', 'q'), ('s', 'z'), ('v', 'w'), ('g', 'j')}
  }

  function SubstituteCost(a: char, b: char): nat
  {
    if a == b then 0
    else if (IsVowel(a) && IsVowel(b)) || KeyboardNeighbors(a, b) || SoundAlike(a, b) then COST_NEAR_SUBSTITUTE
    else COST_SUBSTITUTE
  }

  /** Inserting or removing the character at 1-based `pos` of a word of length `len`. */
  function Indel(pos: nat, len: nat): nat
  {
    (if pos == len then COST_END_CHAR else COST_CHAR) + (if pos == 1 then FIRST_CHAR_PENALTY else 0)
  }

  function Substitution(q: string, i: nat, c: string, j: nat): nat
    requires 0 < i <= |q| && 0 < j <= |c|
  {
    var sub := SubstituteCost(q[i - 1], c[j - 1]);
    if sub > 0 && i == 1 && j == 1 && !SoundAlike(q[0], c[0]) then sub + FIRST_CHAR_PENALTY else sub
  }

  predicate SwapsTwo(q: string, i: nat, c: string, j: nat)
    requires i <= |q| && j <= |c|
  {
    Osa.Swapped(q, i, c, j) && q[i - 1] != q[i - 2]
  }
}
