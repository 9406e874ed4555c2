/** The byte-at-a-time fuzzy automaton: a band of the alignment matrix, 2k+1 cells wide and
    saturated at k+1, stepped once per UTF-8 character and abandoned once every cell is
    saturated. It refines the full-matrix distance of module `Osa`. */
module LevenshteinAutomaton {
  import opened Options
  import opened Utf8
  import opened Numbers
  import Osa

  const MAX_SUPPORTED_EDITS: nat := 3
  const BAND: nat := 2 * MAX_SUPPORTED_EDITS + 1

  datatype Automaton = Automaton(exact: seq<Byte>, keyPrefixLen: nat, query: string, maxEdits: nat)

  datatype FuzzyState = FuzzyState(
    row: seq<nat>, prevRow: seq<nat>, chars: nat, prevChar: Option<char>,
    utf8: seq<Byte>, utf8Need: nat)

  datatype LevState = Dead | Exact(matched: nat) | Fuzzy(state: FuzzyState)

  /** First `prefixChars` characters of `term` and the rest. */
  function SplitPrefix(term: string, prefixChars: nat): (r: (string, string))
    ensures r.0 + r.1 == term && |r.0| == Min(prefixChars, |term|)
  {
    var at := Min(prefixChars, |term|);
    (term[..at], term[at..])
  }

  function New(keyPrefix: seq<Byte>, term: string, maxEdits: nat, prefixLength: nat): Automaton
  {
    var (prefix, suffix) := SplitPrefix(term, prefixLength);
    Automaton(keyPrefix + EncodeAll(prefix), |keyPrefix|, suffix, Min(maxEdits, MAX_SUPPORTED_EDITS))
  }

  /** What `New` establishes and every step relies on. */
  predicate Supported(a: Automaton) { a.maxEdits <= MAX_SUPPORTED_EDITS }

  predicate WellFormed(s: FuzzyState)
  {
    && |s.row| == BAND && |s.prevRow| == BAND
    && (s.utf8Need == 0 ==> s.utf8 == [])
    && (s.utf8Need != 0 ==> 0 < |s.utf8| < s.utf8Need <= 4 && Width(s.utf8[0]) == s.utf8Need)
  }

  predicate ValidState(a: Automaton, state: LevState)
  {
    match state
    case Dead => true
    case Exact(n) => n < |a.exact|
    case Fuzzy(s) => WellFormed(s)
  }

  function BandWidth(a: Automaton): nat { 2 * a.maxEdits + 1 }

  /** Query column held by band slot `t` of the row after `chars` characters. */
  function Column(a: Automaton, chars: nat, t: nat): Option<nat>
  {
    var j := chars - a.maxEdits + t;
    if 0 <= j <= |a.query| then Some(j) else None
  }

  function SaturatingAdd(x: nat, y: nat): nat { Min(x + y, 255) }

  function InitialFuzzy(a: Automaton): LevState
    requires Supported(a)
  {
    var cap := a.maxEdits + 1;
    Fuzzy(FuzzyState(
            seq(BAND, t requires 0 <= t =>
                  if t < BandWidth(a) && Column(a, 0, t).Some? then Column(a, 0, t).value else cap),
            seq(BAND, _ => cap), 0, None, [], 0))
  }

  /** The loop that fills the first row of the matrix: column `j` holds `j`, cells outside it the cap. */
  method InitialFuzzyInPlace(a: Automaton) returns (r: LevState)
    requires Supported(a)
    ensures r == InitialFuzzy(a)
  {
    var cap := a.maxEdits + 1;
    var row := new nat[BAND](_ => cap);
    for t := 0 to 2 * a.maxEdits + 1
      invariant forall u :: 0 <= u < BAND ==>
                  row[u] == if u < t && Column(a, 0, u).Some? then Column(a, 0, u).value else cap
    {
      match Column(a, 0, t) {
        case Some(j) => row[t] := j;
        case None =>
      }
    }
    r := Fuzzy(FuzzyState(row[..], seq(BAND, _ => cap), 0, None, [], 0));
  }

  /** Cell `t` of the next row; `before` is the cell to its left. */
  function StepCell(a: Automaton, s: FuzzyState, c: char, t: nat, before: nat): nat
    requires Supported(a) && WellFormed(s) && t < BandWidth(a)
  {
    var cap := a.maxEdits + 1;
    match Column(a, s.chars + 1, t)
    case None => cap
    case Some(j) =>
      var up := if t + 1 < BandWidth(a) then SaturatingAdd(s.row[t + 1], 1) else cap;
      if j == 0 then Min(up, cap)
      else
        var v := if t > 0 then Min(up, SaturatingAdd(before, 1)) else up;
        var v := Min(v, SaturatingAdd(s.row[t], if a.query[j - 1] != c then 1 else 0));
        var transposed := j >= 2 && s.chars >= 1 && s.prevChar.Some? && c != s.prevChar.value
                          && c == a.query[j - 2] && s.prevChar.value == a.query[j - 1];
        var v := if transposed then Min(v, SaturatingAdd(s.prevRow[t], 1)) else v;
        Min(v, cap)
  }

  /** The first `n` cells of the next row, left to right. */
  function StepCells(a: Automaton, s: FuzzyState, c: char, n: nat): (cells: seq<nat>)
    requires Supported(a) && WellFormed(s) && n <= BandWidth(a)
    ensures |cells| == n
  {
    if n == 0 then []
    else
      var before := StepCells(a, s, c, n - 1);
      before + [StepCell(a, s, c, n - 1, if n > 1 then before[n - 2] else 0)]
  }

  function StepChar(a: Automaton, s: FuzzyState, c: char): LevState
    requires Supported(a) && WellFormed(s)
  {
    var cells := StepCells(a, s, c, BandWidth(a));
    if forall t :: 0 <= t < |cells| ==> cells[t] > a.maxEdits then Dead
    else Fuzzy(FuzzyState(cells + seq(BAND - BandWidth(a), _ => a.maxEdits + 1), s.row,
                          s.chars + 1, Some(c), [], 0))
  }

  /** The loops that fill `next` cell by cell and keep the best cell. */
  method StepCharInPlace(a: Automaton, s: FuzzyState, c: char) returns (r: LevState)
    requires Supported(a) && WellFormed(s)
    ensures r == StepChar(a, s, c)
  {
    var width := 2 * a.maxEdits + 1;
    var next, best := FillRow(a, s, c, width);
    assert next[..] == next[..width] + next[width..];
    assert next[width..] == seq(BAND - width, _ => a.maxEdits + 1);
    if best > a.maxEdits {
      r := Dead;
    } else {
      r := Fuzzy(FuzzyState(next[..], s.row, s.chars + 1, Some(c), [], 0));
    }
  }

  method FillRow(a: Automaton, s: FuzzyState, c: char, width: nat) returns (next: array<nat>, best: nat)
    requires Supported(a) && WellFormed(s) && width == BandWidth(a)
    ensures next.Length == BAND && next[..width] == StepCells(a, s, c, width)
    ensures forall u :: width <= u < BAND ==> next[u] == a.maxEdits + 1
    ensures best > a.maxEdits <==> AllAbove(next[..width], a.maxEdits)
  {
    var cap := a.maxEdits + 1;
    next := new nat[BAND](_ => cap);
    best := cap;
    for t := 0 to width
      invariant next[..t] == StepCells(a, s, c, t)
      invariant forall u :: t <= u < BAND ==> next[u] == cap
      invariant best > a.maxEdits <==> AllAbove(next[..t], a.maxEdits)
    {
      var left := if t > 0 then next[t - 1] else 0;
      best := SetCell(next, t, StepCell(a, s, c, t, left), best, a.maxEdits);
    }
  }

  ghost predicate AllAbove(cells: seq<nat>, limit: nat) { forall u :: 0 <= u < |cells| ==> cells[u] > limit }

  /** Sets the next cell and keeps the least one. */
  method SetCell(next: array<nat>, t: nat, v: nat, best: nat, ghost limit: nat) returns (least: nat)
    requires t < next.Length && (best > limit <==> AllAbove(next[..t], limit))
    modifies next
    ensures next[..t + 1] == old(next[..t]) + [v] && forall u :: t < u < next.Length ==> next[u] == old(next[u])
    ensures least > limit <==> AllAbove(next[..t + 1], limit)
  {
    ghost var before := next[..t];
    next[t] := v;
    least := Min(best, v);
    assert next[..t + 1] == before + [v];
    assert AllAbove(before + [v], limit) <==> AllAbove(before, limit) && v > limit by {
      assert (before + [v])[t] == v && forall u :: 0 <= u < t ==> (before + [v])[u] == before[u];
    }
  }

  function Start(a: Automaton): (r: LevState)
    requires Supported(a)
    ensures ValidState(a, r)
  {
    if a.exact == [] then InitialFuzzy(a) else Exact(0)
  }

  function Accept(a: Automaton, state: LevState, byte: Byte): (r: LevState)
    requires Supported(a) && ValidState(a, state)
    ensures ValidState(a, r)
  {
    match state
    case Dead => Dead
    case Exact(n) =>
      if a.exact[n] != byte then Dead
      else if n + 1 == |a.exact| then InitialFuzzy(a)
      else Exact(n + 1)
    case Fuzzy(s) =>
      if s.utf8Need == 0 then
        var w := Width(byte);
        if w == 0 then Dead
        else if w == 1 then StepChar(a, s, byte as char)
        else Fuzzy(s.(utf8 := [byte], utf8Need := w))
      else if !IsContinuation(byte) then Dead
      else
        var bytes := s.utf8 + [byte];
        if |bytes| < s.utf8Need then Fuzzy(s.(utf8 := bytes))
        else match DecodeOne(bytes)
          case Some(c) => StepChar(a, s, c)
          case None => Dead
  }

  /** Distance of a matching state. */
  function MatchDistance(a: Automaton, state: LevState): Option<nat>
    requires Supported(a) && ValidState(a, state)
  {
    match state
    case Fuzzy(s) =>
      if s.utf8Need != 0 then None
      else
        var t := |a.query| - s.chars + a.maxEdits;
        if t < 0 || t > 2 * a.maxEdits then None
        else if s.row[t] <= a.maxEdits then Some(s.row[t]) else None
    case _ => None
  }

  function Run(a: Automaton, state: LevState, bytes: seq<Byte>): (r: LevState)
    requires Supported(a) && ValidState(a, state)
    ensures ValidState(a, r)
    decreases |bytes|
  {
    if bytes == [] then state else Run(a, Accept(a, state, bytes[0]), bytes[1..])
  }

  /** `distance_to`, which stops reading at the first dead state. */
  method DistanceTo(a: Automaton, word: seq<Byte>) returns (d: Option<nat>)
    requires Supported(a)
    ensures d == MatchDistance(a, Run(a, Start(a), word))
  {
    var state := Start(a);
    for k := 0 to |word|
      invariant ValidState(a, state)
      invariant Run(a, state, word[k..]) == Run(a, Start(a), word)
    {
      state := Accept(a, state, word[k]);
      assert word[k..][1..] == word[k + 1..];
      if state.Dead? {
        DeadStaysDead(a, word[k + 1..]);
        return None;
      }
    }
    return MatchDistance(a, state);
  }

  // ---------------------------------------------------------------------------------------
  // The band holds the matrix, saturated.
  // ---------------------------------------------------------------------------------------

  /** What slot `t` must hold after `i` characters, `m` being the full matrix. */
  ghost function Saturated(a: Automaton, m: seq<seq<nat>>, i: nat, t: nat): nat
    requires i < |m| && |m[i]| == |a.query| + 1
  {
    var column := Column(a, i, t);
    if t < BandWidth(a) && column.Some? then Min(m[i][column.value], a.maxEdits + 1)
    else a.maxEdits + 1
  }

  ghost predicate RowHolds(a: Automaton, row: seq<nat>, m: seq<seq<nat>>, i: nat)
    requires i < |m| && |m[i]| == |a.query| + 1
  {
    |row| == BAND && forall t :: 0 <= t < BAND ==> row[t] == Saturated(a, m, i, t)
  }

  /** `s` is the state after the first `i` characters of `w`, whose matrix is `m`. */
  ghost predicate Tracks(a: Automaton, s: FuzzyState, w: string, m: seq<seq<nat>>, i: nat)
  {
    && i <= |w| && Osa.IsAlignmentMatrix(m, w, a.query)
    && WellFormed(s) && s.utf8Need == 0 && s.chars == i
    && RowHolds(a, s.row, m, i)
    && (if i == 0 then s.prevChar == None
        else RowHolds(a, s.prevRow, m, i - 1) && s.prevChar == Some(w[i - 1]))
  }

  lemma InitialTracks(a: Automaton, w: string)
    requires Supported(a)
    ensures Tracks(a, InitialFuzzy(a).state, w, Osa.Matrix(w, a.query), 0)
  {
    Osa.MatrixIsAlignmentMatrix(w, a.query);
  }

  /** Saturating the neighbours first and the minimum last is saturating the minimum: `up`,
      `left`, `diagonal` and `swap` are the exact neighbours, `cell` their minimum. */
  lemma SaturationCommutesWithMinimum(a: Automaton, s: FuzzyState, c: char, t: nat, before: nat, j: nat,
                                      up: nat, left: nat, diagonal: nat, swap: Option<nat>, cell: nat)
    requires Supported(a) && WellFormed(s) && t < BandWidth(a)
    requires Column(a, s.chars + 1, t) == Some(j) && j > 0
    requires if t + 1 < BandWidth(a) then s.row[t + 1] == Min(up, a.maxEdits + 1) else up > a.maxEdits
    requires if t > 0 then before == Min(left, a.maxEdits + 1) else left > a.maxEdits
    requires s.row[t] == Min(diagonal, a.maxEdits + 1)
    requires swap.Some? <==> j >= 2 && s.chars >= 1 && s.prevChar.Some? && c != s.prevChar.value
                             && c == a.query[j - 2] && s.prevChar.value == a.query[j - 1]
    requires swap.Some? ==> s.prevRow[t] == Min(swap.value, a.maxEdits + 1)
    requires var plain := Osa.Cheapest(up, left, diagonal + if a.query[j - 1] != c then 1 else 0);
             cell == if swap.Some? then Min(plain, swap.value + 1) else plain
    ensures StepCell(a, s, c, t, before) == Min(cell, a.maxEdits + 1)
  {
  }

  /** Where the neighbours in the same column and in the same row are kept. */
  lemma UpAndLeftAreHeld(a: Automaton, s: FuzzyState, w: string, m: seq<seq<nat>>, i: nat, t: nat, before: nat, j: nat)
    requires Supported(a) && i < |w| && Tracks(a, s, w, m, i) && t < BandWidth(a)
    requires t > 0 ==> before == Saturated(a, m, i + 1, t - 1)
    requires Column(a, i + 1, t) == Some(j) && j > 0
    ensures if t + 1 < BandWidth(a) then s.row[t + 1] == Min(m[i][j], a.maxEdits + 1)
            else m[i][j] > a.maxEdits
    ensures if t > 0 then before == Min(m[i + 1][j - 1], a.maxEdits + 1)
            else m[i + 1][j - 1] > a.maxEdits
  {
    assert t + 1 < BandWidth(a) ==> s.row[t + 1] == Saturated(a, m, i, t + 1);
  }

  /** The diagonal neighbours are kept in the same slot, one and two rows back. */
  lemma DiagonalsAreHeld(a: Automaton, s: FuzzyState, w: string, m: seq<seq<nat>>, i: nat, t: nat, j: nat)
    requires Supported(a) && i < |w| && Tracks(a, s, w, m, i) && t < BandWidth(a)
    requires Column(a, i + 1, t) == Some(j) && j > 0
    ensures s.row[t] == Min(m[i][j - 1], a.maxEdits + 1)
    ensures i > 0 && j > 1 ==> s.prevRow[t] == Min(m[i - 1][j - 2], a.maxEdits + 1)
  {
    assert s.row[t] == Saturated(a, m, i, t);
    assert i > 0 ==> s.prevRow[t] == Saturated(a, m, i - 1, t);
  }

  lemma InnerCellHoldsMatrix(a: Automaton, s: FuzzyState, w: string, m: seq<seq<nat>>, i: nat,
                             t: nat, before: nat, j: nat)
    requires Supported(a) && i < |w| && Tracks(a, s, w, m, i) && t < BandWidth(a)
    requires t > 0 ==> before == Saturated(a, m, i + 1, t - 1)
    requires Column(a, i + 1, t) == Some(j) && j > 0
    ensures StepCell(a, s, w[i], t, before) == Min(m[i + 1][j], a.maxEdits + 1)
  {
    UpAndLeftAreHeld(a, s, w, m, i, t, before, j);
    DiagonalsAreHeld(a, s, w, m, i, t, j);
    MatrixCellFollows(a, w, m, i, j);
    SaturationCommutesWithMinimum(
      a, s, w[i], t, before, j, m[i][j], m[i + 1][j - 1], m[i][j - 1],
      SwapNeighbour(a, w, m, i, j), m[i + 1][j]);
  }

  ghost function SwapNeighbour(a: Automaton, w: string, m: seq<seq<nat>>, i: nat, j: nat): (r: Option<nat>)
    requires Osa.HasShape(m, w, a.query) && i < |w| && 0 < j <= |a.query|
  {
    if Osa.Swapped(w, i + 1, a.query, j) && w[i] != w[i - 1] then Some(m[i - 1][j - 2]) else None
  }

  lemma MatrixCellFollows(a: Automaton, w: string, m: seq<seq<nat>>, i: nat, j: nat)
    requires Osa.IsAlignmentMatrix(m, w, a.query) && i < |w| && 0 < j <= |a.query|
    ensures var plain := Osa.Cheapest(m[i][j], m[i + 1][j - 1], m[i][j - 1] + if a.query[j - 1] != w[i] then 1 else 0);
            var swap := SwapNeighbour(a, w, m, i, j);
            m[i + 1][j] == if swap.Some? then Min(plain, swap.value + 1) else plain
  {
    assert Osa.CellFollows(m, w, i + 1, a.query, j);
  }

  lemma StepCellHoldsMatrix(a: Automaton, s: FuzzyState, w: string, m: seq<seq<nat>>, i: nat, t: nat, before: nat)
    requires Supported(a) && i < |w| && Tracks(a, s, w, m, i) && t < BandWidth(a)
    requires t > 0 ==> before == Saturated(a, m, i + 1, t - 1)
    ensures StepCell(a, s, w[i], t, before) == Saturated(a, m, i + 1, t)
  {
    var column := Column(a, i + 1, t);
    if column.Some? && column.value > 0 {
      InnerCellHoldsMatrix(a, s, w, m, i, t, before, column.value);
    } else if column.Some? {
      assert t + 1 < BandWidth(a) && s.row[t + 1] == Saturated(a, m, i, t + 1);
    }
  }

  lemma {:induction false} StepCellsHoldMatrix(a: Automaton, s: FuzzyState, w: string, m: seq<seq<nat>>, i: nat, n: nat)
    requires Supported(a) && i < |w| && Tracks(a, s, w, m, i) && n <= BandWidth(a)
    ensures forall t :: 0 <= t < n ==> StepCells(a, s, w[i], n)[t] == Saturated(a, m, i + 1, t)
  {
    if n > 0 {
      StepCellsHoldMatrix(a, s, w, m, i, n - 1);
      var before := StepCells(a, s, w[i], n - 1);
      StepCellHoldsMatrix(a, s, w, m, i, n - 1, if n > 1 then before[n - 2] else 0);
    }
  }

  ghost predicate RowSaturated(a: Automaton, row: seq<nat>)
  {
    forall j :: 0 <= j < |row| ==> row[j] > a.maxEdits
  }

  /** One character moves the band one row down; a dead state means a whole row is too far. */
  lemma StepCharTracks(a: Automaton, s: FuzzyState, w: string, m: seq<seq<nat>>, i: nat)
    requires Supported(a) && i < |w| && Tracks(a, s, w, m, i)
    ensures var next := StepChar(a, s, w[i]);
            if next.Fuzzy? then Tracks(a, next.state, w, m, i + 1)
            else next.Dead? && RowSaturated(a, m[i + 1])
  {
    StepCellsHoldMatrix(a, s, w, m, i, BandWidth(a));
    var cells := StepCells(a, s, w[i], BandWidth(a));
    if StepChar(a, s, w[i]).Dead? {
      var row := m[i + 1];
      forall j | 0 <= j < |row| ensures row[j] > a.maxEdits {
        var t := j - (i + 1) + a.maxEdits;
        if 0 <= t < BandWidth(a) {
          assert cells[t] == Saturated(a, m, i + 1, t) && Column(a, i + 1, t) == Some(j);
        }
      }
    }
  }

  /** A state that tracks the whole word answers with its distance, or not at all. */
  lemma TrackedDistance(a: Automaton, s: FuzzyState, w: string, m: seq<seq<nat>>)
    requires Supported(a) && Tracks(a, s, w, m, |w|)
    ensures var d := m[|w|][|a.query|];
            MatchDistance(a, Fuzzy(s)) == if d <= a.maxEdits then Some(d) else None
  {
    var t := |a.query| - |w| + a.maxEdits;
    if 0 <= t < BandWidth(a) {
      assert Column(a, |w|, t) == Some(|a.query|);
      assert s.row[t] == Saturated(a, m, |w|, t);
    }
  }

  // ---------------------------------------------------------------------------------------
  // Bytes against characters.
  // ---------------------------------------------------------------------------------------

  /** The state after stepping `s` once per character. */
  function RunChars(a: Automaton, state: LevState, cs: string): (r: LevState)
    requires Supported(a) && ValidState(a, state)
    requires state.Fuzzy? ==> state.state.utf8Need == 0
    ensures ValidState(a, r) && (r.Fuzzy? ==> state.Fuzzy? && r.state.utf8Need == 0)
    decreases |cs|
  {
    if cs == [] || !state.Fuzzy? then (if state.Fuzzy? then state else Dead)
    else RunChars(a, StepChar(a, state.state, cs[0]), cs[1..])
  }

  lemma {:induction false} DeadStaysDead(a: Automaton, bytes: seq<Byte>)
    requires Supported(a)
    ensures Run(a, Dead, bytes) == Dead
    decreases |bytes|
  {
    if bytes != [] { DeadStaysDead(a, bytes[1..]); }
  }

  lemma {:induction false} RunConcat(a: Automaton, state: LevState, x: seq<Byte>, y: seq<Byte>)
    requires Supported(a) && ValidState(a, state)
    ensures Run(a, state, x + y) == Run(a, Run(a, state, x), y)
    decreases |x|
  {
    if x == [] {
      assert x + y == y;
    } else {
      assert (x + y)[1..] == x[1..] + y;
      RunConcat(a, Accept(a, state, x[0]), x[1..], y);
    }
  }

  /** Continuation bytes up to the last are only collected. */
  lemma {:induction false} CollectsPending(a: Automaton, s: FuzzyState, bytes: seq<Byte>)
    requires Supported(a) && WellFormed(s) && s.utf8Need != 0 && |s.utf8| + |bytes| < s.utf8Need
    requires forall k :: 0 <= k < |bytes| ==> IsContinuation(bytes[k])
    ensures Run(a, Fuzzy(s), bytes) == Fuzzy(s.(utf8 := s.utf8 + bytes))
    decreases |bytes|
  {
    if bytes == [] {
      assert s.utf8 + bytes == s.utf8;
    } else {
      CollectsPending(a, s.(utf8 := s.utf8 + [bytes[0]]), bytes[1..]);
      assert s.utf8 + [bytes[0]] + bytes[1..] == s.utf8 + bytes;
    }
  }

  /** Exactly one character's worth of bytes: a step, if they encode a character. */
  lemma ReadsOneCharacter(a: Automaton, s: FuzzyState, bytes: seq<Byte>)
    requires Supported(a) && WellFormed(s) && s.utf8Need == 0
    requires |bytes| > 1 && Width(bytes[0]) == |bytes|
    requires forall k :: 0 < k < |bytes| ==> IsContinuation(bytes[k])
    ensures Run(a, Fuzzy(s), bytes)
            == match DecodeOne(bytes) case Some(c) => StepChar(a, s, c) case None => Dead
  {
    var n := |bytes|;
    var middle := bytes[1..n - 1];
    var pending := s.(utf8 := [bytes[0]], utf8Need := n);
    assert bytes[1..] == middle + [bytes[n - 1]];
    CollectsPending(a, pending, middle);
    RunConcat(a, Fuzzy(pending), middle, [bytes[n - 1]]);
    var collected := pending.(utf8 := [bytes[0]] + middle);
    assert [bytes[0]] + middle == bytes[..n - 1];
    LastByteDecides(a, collected, bytes);
    if DecodeOne(bytes).Some? { SameRowsSameStep(a, s, collected, DecodeOne(bytes).value, BandWidth(a)); }
  }

  lemma LastByteDecides(a: Automaton, s: FuzzyState, bytes: seq<Byte>)
    requires Supported(a) && WellFormed(s) && s.utf8Need == |bytes| > 1 && s.utf8 == bytes[..|bytes| - 1]
    requires IsContinuation(bytes[|bytes| - 1])
    ensures Run(a, Fuzzy(s), [bytes[|bytes| - 1]])
            == match DecodeOne(bytes) case Some(c) => StepChar(a, s, c) case None => Dead
  {
    var last := bytes[|bytes| - 1];
    assert s.utf8 + [last] == bytes && [last][1..] == [];
  }

  lemma SameRowsSameCell(a: Automaton, s: FuzzyState, p: FuzzyState, c: char, t: nat, before: nat)
    requires Supported(a) && WellFormed(s) && WellFormed(p) && t < BandWidth(a)
    requires s.row == p.row && s.prevRow == p.prevRow && s.chars == p.chars && s.prevChar == p.prevChar
    ensures StepCell(a, s, c, t, before) == StepCell(a, p, c, t, before)
  {
  }

  lemma {:induction false} SameRowsSameStep(a: Automaton, s: FuzzyState, p: FuzzyState, c: char, n: nat)
    requires Supported(a) && WellFormed(s) && WellFormed(p) && n <= BandWidth(a)
    requires s.row == p.row && s.prevRow == p.prevRow && s.chars == p.chars && s.prevChar == p.prevChar
    ensures StepCells(a, s, c, n) == StepCells(a, p, c, n)
  {
    if n > 0 {
      SameRowsSameStep(a, s, p, c, n - 1);
      var before := StepCells(a, s, c, n - 1);
      SameRowsSameCell(a, s, p, c, n - 1, if n > 1 then before[n - 2] else 0);
    }
  }

  lemma ReadsEncodedCharacter(a: Automaton, s: FuzzyState, c: char)
    requires Supported(a) && WellFormed(s) && s.utf8Need == 0
    ensures Run(a, Fuzzy(s), Encode(c)) == StepChar(a, s, c)
  {
    EncodedShape(c);
    if |Encode(c)| > 1 {
      DecodeUndoesEncode(c);
      ReadsOneCharacter(a, s, Encode(c));
    } else {
      assert Encode(c)[0] as char == c && Encode(c)[1..] == [];
    }
  }

  /** Feeding the encoding byte by byte is stepping character by character. */
  lemma {:induction false} BytesStepLikeCharacters(a: Automaton, s: FuzzyState, cs: string)
    requires Supported(a) && WellFormed(s) && s.utf8Need == 0
    ensures Run(a, Fuzzy(s), EncodeAll(cs)) == RunChars(a, Fuzzy(s), cs)
    decreases |cs|
  {
    if cs != [] {
      RunConcat(a, Fuzzy(s), Encode(cs[0]), EncodeAll(cs[1..]));
      ReadsEncodedCharacter(a, s, cs[0]);
      var next := StepChar(a, s, cs[0]);
      if next.Fuzzy? {
        BytesStepLikeCharacters(a, next.state, cs[1..]);
      } else {
        DeadStaysDead(a, EncodeAll(cs[1..]));
      }
    }
  }

  /** A state in the middle of a character is never a match. */
  lemma MidCharacterNeverMatches(a: Automaton, s: FuzzyState, c: char, n: nat)
    requires Supported(a) && WellFormed(s) && s.utf8Need == 0 && 0 < n < |Encode(c)|
    ensures MatchDistance(a, Run(a, Fuzzy(s), Encode(c)[..n])) == None
  {
    EncodedShape(c);
    var bytes := Encode(c)[..n];
    var pending := s.(utf8 := [bytes[0]], utf8Need := |Encode(c)|);
    CollectsPending(a, pending, bytes[1..]);
  }

  /** Whatever the automaton matches is the encoding of characters. */
  lemma {:induction false} MatchesOnlyEncodings(a: Automaton, s: FuzzyState, bytes: seq<Byte>) returns (cs: string)
    requires Supported(a) && WellFormed(s) && s.utf8Need == 0
    requires MatchDistance(a, Run(a, Fuzzy(s), bytes)).Some?
    ensures bytes == EncodeAll(cs)
    decreases |bytes|
  {
    if bytes == [] {
      cs := [];
    } else {
      var w := Width(bytes[0]);
      if w == 0 { DeadStaysDead(a, bytes[1..]); }
      var c, next := FirstCharacter(a, s, bytes);
      var rest := MatchesOnlyEncodings(a, next, bytes[|Encode(c)|..]);
      cs := [c] + rest;
      assert bytes == Encode(c) + bytes[|Encode(c)|..];
      assert cs[1..] == rest;
    }
  }

  /** The bytes of a match start with one complete character, read in one step. */
  lemma FirstCharacter(a: Automaton, s: FuzzyState, bytes: seq<Byte>) returns (c: char, next: FuzzyState)
    requires Supported(a) && WellFormed(s) && s.utf8Need == 0 && bytes != []
    requires MatchDistance(a, Run(a, Fuzzy(s), bytes)).Some?
    ensures Encode(c) <= bytes && WellFormed(next) && next.utf8Need == 0
    ensures Run(a, Fuzzy(next), bytes[|Encode(c)|..]) == Run(a, Fuzzy(s), bytes)
  {
    var w := Width(bytes[0]);
    if w == 0 {
      DeadStaysDead(a, bytes[1..]);
      assert false;
    } else if w == 1 {
      c := bytes[0] as char;
      assert Encode(c) == [bytes[0]];
      if StepChar(a, s, c).Dead? {
        DeadStaysDead(a, bytes[1..]);
        assert false;
      }
      next := StepChar(a, s, c).state;
    } else {
      var pending := s.(utf8 := [bytes[0]], utf8Need := w);
      NeedsContinuations(a, pending, bytes[1..]);
      var head := bytes[..w];
      assert bytes == head + bytes[w..];
      assert forall k :: 0 < k < w ==> head[k] == bytes[1..][k - 1];
      RunConcat(a, Fuzzy(s), head, bytes[w..]);
      ReadsOneCharacter(a, s, head);
      if !Run(a, Fuzzy(s), head).Fuzzy? {
        DeadStaysDead(a, bytes[w..]);
        assert false;
      }
      c := DecodeOne(head).value;
      EncodeUndoesDecode(head);
      next := StepChar(a, s, c).state;
    }
  }

  /** A match out of an unfinished character supplies all its continuation bytes. */
  lemma {:induction false} NeedsContinuations(a: Automaton, s: FuzzyState, bytes: seq<Byte>)
    requires Supported(a) && WellFormed(s) && s.utf8Need != 0
    requires MatchDistance(a, Run(a, Fuzzy(s), bytes)).Some?
    ensures |s.utf8| + |bytes| >= s.utf8Need
    ensures forall k :: 0 <= k < s.utf8Need - |s.utf8| ==> IsContinuation(bytes[k])
    decreases |bytes|
  {
    if bytes != [] {
      if !IsContinuation(bytes[0]) {
        DeadStaysDead(a, bytes[1..]);
        assert false;
      }
      if |s.utf8| + 1 < s.utf8Need {
        NeedsContinuations(a, s.(utf8 := s.utf8 + [bytes[0]]), bytes[1..]);
        assert forall k :: 0 < k < s.utf8Need - |s.utf8| ==> bytes[k] == bytes[1..][k - 1];
      }
    }
  }

  // ---------------------------------------------------------------------------------------
  // The theorems.
  // ---------------------------------------------------------------------------------------

  lemma SaturatedRowEndsTheWord(a: Automaton, w: string, i: nat)
    requires i <= |w| && RowSaturated(a, Osa.Matrix(w, a.query)[i])
    ensures Osa.Osa(w, a.query) > a.maxEdits
  {
    var row := Osa.Matrix(w, a.query)[i];
    forall j: nat | j <= |a.query| ensures Osa.Distance(w, i, a.query, j) > a.maxEdits {
      assert row[j] == Osa.Distance(w, i, a.query, j);
    }
    Osa.RowsBelowStayAbove(w, i, a.query, a.maxEdits, |w|);
    assert Osa.Distance(w, |w|, a.query, |a.query|) > a.maxEdits;
  }

  /** From row `i` on, the automaton either tracks the matrix to the end of the word or is dead
      in a row from which the word cannot recover. */
  lemma {:induction false} RunCharsAgreesWithMatrix(a: Automaton, s: FuzzyState, w: string, m: seq<seq<nat>>, i: nat)
    requires Supported(a) && Tracks(a, s, w, m, i) && m == Osa.Matrix(w, a.query)
    ensures var d := m[|w|][|a.query|];
            MatchDistance(a, RunChars(a, Fuzzy(s), w[i..])) == if d <= a.maxEdits then Some(d) else None
    decreases |w| - i
  {
    if i == |w| {
      TrackedDistance(a, s, w, m);
    } else {
      StepCharTracks(a, s, w, m, i);
      assert w[i..][1..] == w[i + 1..];
      var next := StepChar(a, s, w[i]);
      if next.Fuzzy? {
        RunCharsAgreesWithMatrix(a, next.state, w, m, i + 1);
      } else {
        SaturatedRowEndsTheWord(a, w, i + 1);
      }
    }
  }

  /** The fuzzy part alone, on encoded characters. */
  lemma FuzzyPartAgreesWithOsa(a: Automaton, w: string)
    requires Supported(a)
    ensures var d := Osa.Osa(a.query, w);
            MatchDistance(a, Run(a, InitialFuzzy(a), EncodeAll(w))) == if d <= a.maxEdits then Some(d) else None
  {
    InitialTracks(a, w);
    BytesStepLikeCharacters(a, InitialFuzzy(a).state, w);
    assert w[0..] == w;
    RunCharsAgreesWithMatrix(a, InitialFuzzy(a).state, w, Osa.Matrix(w, a.query), 0);
    Osa.DistanceIsSymmetric(w, |w|, a.query, |a.query|);
  }

  /** The pinned bytes are consumed one by one; anything else kills the automaton or ends early. */
  lemma {:induction false} ExactPartIsConsumed(a: Automaton, n: nat, key: seq<Byte>)
    requires Supported(a) && n < |a.exact|
    ensures var r := Run(a, Exact(n), key);
            if a.exact[n..] <= key then r == Run(a, InitialFuzzy(a), key[|a.exact| - n..])
            else !r.Fuzzy?
    decreases |key|
  {
    if key == [] {
      assert |a.exact[n..]| > 0;
    } else if a.exact[n] != key[0] {
      DeadStaysDead(a, key[1..]);
      assert a.exact[n..][0] == a.exact[n];
    } else if n + 1 == |a.exact| {
      assert a.exact[n..] == [key[0]];
      assert key == [key[0]] + key[1..];
    } else {
      ExactPartIsConsumed(a, n + 1, key[1..]);
      assert a.exact[n..] == [key[0]] + a.exact[n + 1..];
      assert key == [key[0]] + key[1..];
      if a.exact[n + 1..] <= key[1..] {
        assert key[1..][|a.exact| - n - 1..] == key[|a.exact| - n..];
      }
    }
  }

  lemma StartReadsExactPart(a: Automaton, key: seq<Byte>)
    requires Supported(a)
    ensures var r := Run(a, Start(a), key);
            if a.exact <= key then r == Run(a, InitialFuzzy(a), key[|a.exact|..]) else !r.Fuzzy?
  {
    if a.exact == [] {
      assert key[0..] == key;
    } else {
      assert a.exact[0..] == a.exact;
      ExactPartIsConsumed(a, 0, key);
    }
  }

  /** For every byte string: the automaton answers `d` exactly when the key is the key prefix,
      the pinned characters, and characters at distance `d <= maxEdits` from the rest of the
      query. */
  lemma AutomatonAgreesWithOsa(keyPrefix: seq<Byte>, term: string, maxEdits: nat, prefixLength: nat,
                               key: seq<Byte>, d: nat)
    ensures var a := New(keyPrefix, term, maxEdits, prefixLength);
            var (pinned, rest) := SplitPrefix(term, prefixLength);
            MatchDistance(a, Run(a, Start(a), key)) == Some(d)
            <==> exists cs :: key == keyPrefix + EncodeAll(pinned) + EncodeAll(cs)
                              && Osa.Osa(rest, cs) == d && d <= Min(maxEdits, 3)
  {
    var a := New(keyPrefix, term, maxEdits, prefixLength);
    var (pinned, rest) := SplitPrefix(term, prefixLength);
    StartReadsExactPart(a, key);
    if a.exact <= key {
      var tail := key[|a.exact|..];
      assert key == a.exact + tail;
      if MatchDistance(a, Run(a, Start(a), key)).Some? {
        var cs := MatchesOnlyEncodings(a, InitialFuzzy(a).state, tail);
        FuzzyPartAgreesWithOsa(a, cs);
        assert key == keyPrefix + EncodeAll(pinned) + EncodeAll(cs);
      }
      forall cs | key == keyPrefix + EncodeAll(pinned) + EncodeAll(cs)
        ensures MatchDistance(a, Run(a, Start(a), key))
                == if Osa.Osa(rest, cs) <= a.maxEdits then Some(Osa.Osa(rest, cs)) else None
      {
        assert tail == EncodeAll(cs);
        FuzzyPartAgreesWithOsa(a, cs);
      }
    }
  }

  /** For every query and word: a match exactly when the word starts with the pinned characters
      and the remainders are within `maxEdits`, and then the answer is their distance. */
  lemma WordsWithinDistanceMatch(term: string, maxEdits: nat, prefixLength: nat, word: string)
    ensures var a := New([], term, maxEdits, prefixLength);
            var (pinned, rest) := SplitPrefix(term, prefixLength);
            MatchDistance(a, Run(a, Start(a), EncodeAll(word)))
            == if pinned <= word && Osa.Osa(rest, word[|pinned|..]) <= Min(maxEdits, 3)
               then Some(Osa.Osa(rest, word[|pinned|..])) else None
  {
    var a := New([], term, maxEdits, prefixLength);
    var (pinned, rest) := SplitPrefix(term, prefixLength);
    var key := EncodeAll(word);
    assert [] + EncodeAll(pinned) == EncodeAll(pinned);
    StartReadsExactPart(a, key);
    if pinned <= word {
      assert word == pinned + word[|pinned|..];
      EncodeAllConcat(pinned, word[|pinned|..]);
      FuzzyPartAgreesWithOsa(a, word[|pinned|..]);
    } else if EncodeAll(pinned) <= key {
      NotAnEncodedPrefix(pinned, word);
      assert false;
    }
  }

  lemma NotAnEncodedPrefix(pinned: string, word: string)
    requires !(pinned <= word)
    ensures !(EncodeAll(pinned) <= EncodeAll(word))
  {
    var start, key := EncodeAll(pinned), EncodeAll(word);
    if start <= key {
      assert key == start + key[|start|..];
      EncodedPrefixIsPrefix(pinned, key[|start|..], word);
      assert false;
    }
  }
}
