/** What one edit of a word costs, in tenths, told by listing the letters that are easily confused. */
module EditPrices {
  import opened Options
  import opened EditCosts
  import Osa

  /** The keys that touch a key on a QWERTY keyboard. */
  function KeysAround(c: char): set<char>
  {
    match c
    case 'q' => {'w', 'a'}
    case 'w' => {'q', 'e', 'a', 's'}
    case 'e' => {'w', 'r', 's', 'd'}
    case 'r' => {'e', 't', 'd', 'f'}
    case 't' => {'r', 'y', 'f', 'g'}
    case 'y' => {'t', 'u', 'g', 'h'}
    case 'u' => {'y', 'i', 'h', 'j'}
    case 'i' => {'u', 'o', 'j', 'k'}
    case 'o' => {'i', 'p', 'k', 'l'}
    case 'p' => {'o', 'l'}
    case 'a' => {'q', 'w', 's', 'z'}
    case 's' => {'w', 'e', 'a', 'd', 'z', 'x'}
    case 'd' => {'e', 'r', 's', 'f', 'x', 'c'}
    case 'f' => {'r', 't', 'd', 'g', 'c', 'v'}
    case 'g' => {'t', 'y', 'f', 'h', 'v', 'b'}
    case 'h' => {'y', 'u', 'g', 'j', 'b', 'n'}
    case 'j' => {'u', 'i', 'h', 'k', 'n', 'm'}
    case 'k' => {'i', 'o', 'j', 'l', 'm'}
    case 'l' => {'o', 'p', 'k'}
    case 'z' => {'a', 's', 'x'}
    case 'x' => {'s', 'd', 'z', 'c'}
    case 'c' => {'d', 'f', 'x', 'v'}
    case 'v' => {'f', 'g', 'c', 'b'}
    case 'b' => {'g', 'h', 'v', 'n'}
    case 'n' => {'h', 'j', 'b', 'm'}
    case 'm' => {'j', 'k', 'n'}
    case _ => {}
  }

  /** The letters that sound like a letter. */
  function SoundsLike(c: char): set<char>
  {
    match c
    case 'c' => {'k', 's'}
    case 'k' => {'c', 'q'}
    case 's' => {'c', 'z'}
    case 'q' => {'k'}
    case 'z' => {'s'}
    case 'v' => {'w'}
    case 'w' => {'v'}
    case 'g' => {'j'}
    case 'j' => {'g'}
    case _ => {}
  }

  predicate IsVowel(c: char) { c in {'a', 'e', 'i', 'o', 'u', 'y'} }

  /** Two letters easily confused: both vowels, neighbouring keys, or alike in sound. */
  predicate Near(a: char, b: char)
  {
    (IsVowel(a) && IsVowel(b)) || b in KeysAround(a) || b in SoundsLike(a)
  }

  /** Putting `b` for `a`, not as the first letter. */
  function LetterPrice(a: char, b: char): nat { if a == b then 0 else if Near(a, b) then 6 else 10 }

  /** Putting `b` for `a` as the first letter. */
  function FirstLetterPrice(a: char, b: char): nat
  {
    if a == b then 0 else if b in SoundsLike(a) then 6 else if Near(a, b) then 16 else 20
  }

  /** Adding or dropping letter `pos`, from 1, of a word of `len` letters. */
  function AddedLetterPrice(pos: nat, len: nat): nat
  {
    if pos == 1 then if len == 1 then 17 else 20
    else if pos == len then 7 else 10
  }

  function Price(edit: Osa.Edit, q: string, i: nat, c: string, j: nat): nat
    requires i <= |q| && j <= |c| && (edit.Align? ==> i > 0 && j > 0)
  {
    match edit
    case Align => if i == 1 && j == 1 then FirstLetterPrice(q[0], c[0]) else LetterPrice(q[i - 1], c[j - 1])
    case Delete => AddedLetterPrice(i, |q|)
    case Insert => AddedLetterPrice(j, |c|)
    case Transpose => 5
  }

  // ---------------------------------------------------------------------------------------
  // The keyboard geometry and the sound pairs give the listed letters.
  // ---------------------------------------------------------------------------------------

  ghost predicate IsIndex(keys: string, c: char, r: Option<nat>)
  {
    match r
    case Some(k) => k < |keys| && keys[k] == c
    case None => c !in keys
  }

  lemma {:induction false} IndexOfFinds(keys: string, c: char)
    ensures IsIndex(keys, c, IndexOf(keys, c))
  {
    if keys != [] && keys[0] != c {
      IndexOfFinds(keys[1..], c);
      assert keys == [keys[0]] + keys[1..];
    }
  }

  /** Where a key is, in quarter keys from the left, and its row. */
  function KeyAt(c: char): Option<(int, int)>
  {
    match c
    case 'q' => Some((0, 0))
    case 'w' => Some((4, 0))
    case 'e' => Some((8, 0))
    case 'r' => Some((12, 0))
    case 't' => Some((16, 0))
    case 'y' => Some((20, 0))
    case 'u' => Some((24, 0))
    case 'i' => Some((28, 0))
    case 'o' => Some((32, 0))
    case 'p' => Some((36, 0))
    case 'a' => Some((1, 1))
    case 's' => Some((5, 1))
    case 'd' => Some((9, 1))
    case 'f' => Some((13, 1))
    case 'g' => Some((17, 1))
    case 'h' => Some((21, 1))
    case 'j' => Some((25, 1))
    case 'k' => Some((29, 1))
    case 'l' => Some((33, 1))
    case 'z' => Some((3, 2))
    case 'x' => Some((7, 2))
    case 'c' => Some((11, 2))
    case 'v' => Some((15, 2))
    case 'b' => Some((19, 2))
    case 'n' => Some((23, 2))
    case 'm' => Some((27, 2))
    case _ => None
  }

  function Place(top: Option<nat>, home: Option<nat>, bottom: Option<nat>): Option<(int, int)>
  {
    if top.Some? then Some((4 * top.value, 0))
    else if home.Some? then Some((4 * home.value + 1, 1))
    else if bottom.Some? then Some((4 * bottom.value + 3, 2))
    else None
  }

  lemma PlaceIsKeyAt(c: char, top: Option<nat>, home: Option<nat>, bottom: Option<nat>)
    requires IsIndex("qwertyuiop", c, top) && IsIndex("asdfghjkl", c, home) && IsIndex("zxcvbnm", c, bottom)
    ensures Place(top, home, bottom) == KeyAt(c)
  {
  }

  lemma PositionIsPlace(rows: seq<(string, nat)>, c: char)
    requires |rows| == 3 && rows[0].1 == 0 && rows[1].1 == 1 && rows[2].1 == 3
    ensures PositionFrom(rows, 0, c) == Place(IndexOf(rows[0].0, c), IndexOf(rows[1].0, c), IndexOf(rows[2].0, c))
  {
    assert PositionFrom(rows, 3, c) == None;
    assert PositionFrom(rows, 2, c) == Place(None, None, IndexOf(rows[2].0, c));
  }

  lemma IndicesArePlaced(top: string, home: string, bottom: string, c: char)
    requires top == "qwertyuiop" && home == "asdfghjkl" && bottom == "zxcvbnm"
    ensures Place(IndexOf(top, c), IndexOf(home, c), IndexOf(bottom, c)) == KeyAt(c)
  {
    IndexOfFinds(top, c);
    IndexOfFinds(home, c);
    IndexOfFinds(bottom, c);
    PlaceIsKeyAt(c, IndexOf(top, c), IndexOf(home, c), IndexOf(bottom, c));
  }

  lemma PositionIsKeyAt(rows: seq<(string, nat)>, c: char)
    requires rows == KEY_ROWS
    ensures PositionFrom(rows, 0, c) == KeyAt(c)
  {
    PositionIsPlace(rows, c);
    IndicesArePlaced(rows[0].0, rows[1].0, rows[2].0, c);
  }

  lemma LeftTopKeysTouch(a: char, b: char)
    requires a in {'q', 'w', 'e', 'r', 't'}
    ensures Adjacent(KeyAt(a), KeyAt(b)) <==> b in KeysAround(a)
  {
  }

  lemma RightTopKeysTouch(a: char, b: char)
    requires a in {'y', 'u', 'i', 'o', 'p'}
    ensures Adjacent(KeyAt(a), KeyAt(b)) <==> b in KeysAround(a)
  {
  }

  lemma LeftHomeKeysTouch(a: char, b: char)
    requires a in {'a', 's', 'd', 'f'}
    ensures Adjacent(KeyAt(a), KeyAt(b)) <==> b in KeysAround(a)
  {
  }

  lemma RightHomeKeysTouch(a: char, b: char)
    requires a in {'g', 'h', 'j', 'k', 'l'}
    ensures Adjacent(KeyAt(a), KeyAt(b)) <==> b in KeysAround(a)
  {
  }

  lemma LeftBottomKeysTouch(a: char, b: char)
    requires a in {'z', 'x', 'c'}
    ensures Adjacent(KeyAt(a), KeyAt(b)) <==> b in KeysAround(a)
  {
  }

  lemma RightBottomKeysTouch(a: char, b: char)
    requires a in {'v', 'b', 'n', 'm'}
    ensures Adjacent(KeyAt(a), KeyAt(b)) <==> b in KeysAround(a)
  {
  }

  lemma KeysThatTouch(a: char, b: char)
    ensures Adjacent(KeyAt(a), KeyAt(b)) <==> b in KeysAround(a)
  {
    if a in {'q', 'w', 'e', 'r', 't'} { LeftTopKeysTouch(a, b); }
    else if a in {'y', 'u', 'i', 'o', 'p'} { RightTopKeysTouch(a, b); }
    else if a in {'a', 's', 'd', 'f'} { LeftHomeKeysTouch(a, b); }
    else if a in {'g', 'h', 'j', 'k', 'l'} { RightHomeKeysTouch(a, b); }
    else if a in {'z', 'x', 'c'} { LeftBottomKeysTouch(a, b); }
    else if a in {'v', 'b', 'n', 'm'} { RightBottomKeysTouch(a, b); }
  }

  /** Where the code finds keys to touch are exactly the listed keys. */
  lemma NeighborsAreListed(a: char, b: char)
    ensures KeyboardNeighbors(a, b) <==> b in KeysAround(a)
  {
    PositionIsKeyAt(KEY_ROWS, a);
    PositionIsKeyAt(KEY_ROWS, b);
    KeysThatTouch(a, b);
  }

  lemma SoundsAreListed(a: char, b: char)
    ensures SoundAlike(a, b) <==> b in SoundsLike(a)
  {
  }

  /** The code charges every edit its listed price. */
  lemma CostIsPrice(edit: Osa.Edit, q: string, i: nat, c: string, j: nat)
    requires i <= |q| && j <= |c|
    requires match edit
             case Align => i > 0 && j > 0
             case Delete => i > 0
             case Insert => j > 0
             case Transpose => true
    ensures Price(edit, q, i, c, j)
            == match edit
               case Align => Substitution(q, i, c, j)
               case Delete => Indel(i, |q|)
               case Insert => Indel(j, |c|)
               case Transpose => COST_TRANSPOSE
  {
    if edit.Align? { SubstitutionIsPriced(q[i - 1], c[j - 1]); }
  }

  lemma SubstitutionIsPriced(a: char, b: char)
    ensures SubstituteCost(a, b) == LetterPrice(a, b)
    ensures FirstLetterPrice(a, b) == LetterPrice(a, b) + if a == b || SoundAlike(a, b) then 0 else 10
  {
    NeighborsAreListed(a, b);
    SoundsAreListed(a, b);
  }
}
