/** The text buffer of the editor as a value: its rows of runes, the cursor
    and the viewport size, and the three editing operations as functions from
    one state to the next. The class in editor.dfy is proved to follow them. */
module Buffer {

  /** A Go `rune`: a signed 32-bit code point. */
  newtype Rune = c: int | -0x8000_0000 <= c < 0x8000_0000

  /** The fields of a `TextBuffer` together with those of its `Cursor`.
      The row `y` never goes below 0: it starts there and its only decrement
      is guarded by `y != 0`. */
  datatype State = State(runes: seq<seq<Rune>>, x: int, y: nat, width: int, height: int)

  /** The run-time failures the editor can die of. */
  datatype Panic =
    | IndexOutOfRange(index: int, length: int)  // a slice index past its length
    | EventError                                 // an error event from the terminal

  /** An operation either returns a new state or panics. */
  datatype Result = Ok(state: State) | Panicked(panic: Panic)

  /** The buffer as it is built at start-up: no rows, cursor at (0, 0). */
  function Initial(width: int, height: int): (s: State)
    ensures Reachable(s)
    ensures s.runes == [] && s.x == 0 && s.y == 0
    ensures s.width == width && s.height == height
  {
    State([], 0, 0, width, height)
  }

  /** Row `i` of the buffer, or the empty row when it does not exist yet. */
  function RowAt(runes: seq<seq<Rune>>, i: nat): seq<Rune>
  {
    if i < |runes| then runes[i] else []
  }

  /** `n` empty rows. */
  function EmptyRows(n: nat): (r: seq<seq<Rune>>)
    ensures |r| == n && forall i :: 0 <= i < n ==> r[i] == []
  {
    seq(n, _ => [])
  }

  /** Appends empty rows, one at a time, until there are at least `n`. */
  function Pad(runes: seq<seq<Rune>>, n: nat): (r: seq<seq<Rune>>)
    ensures |r| == if |runes| < n then n else |runes|
    ensures r[..|runes|] == runes
    ensures forall i :: |runes| <= i < |r| ==> r[i] == []
    decreases n - |runes|
  {
    if |runes| >= n then runes else Pad(runes + [[]], n)
  }

  /** The invariant every state reached from `Initial` by the editing
      operations keeps: the rows reach the cursor row or stop just short of
      it, and the cursor sits at the end of its row (column 0 of a missing
      row). */
  predicate Reachable(s: State)
  {
    && s.x >= 0
    && (|s.runes| == s.y || |s.runes| == s.y + 1)
    && s.x == |RowAt(s.runes, s.y)|
  }

  /** `InsertRune(ch)`: creates the missing rows up to the cursor row, then
      appends `ch` to that row and moves the cursor one column right. */
  function InsertRune(s: State, ch: Rune): (r: State)
    ensures |r.runes| == if |s.runes| <= s.y then s.y + 1 else |s.runes|
    ensures r.runes[s.y] == RowAt(s.runes, s.y) + [ch]
    ensures forall i :: 0 <= i < |r.runes| && i != s.y ==> r.runes[i] == RowAt(s.runes, i)
    ensures r.x == s.x + 1 && r.y == s.y
    ensures r.width == s.width && r.height == s.height
  {
    var rows := Pad(s.runes, s.y + 1);
    s.(runes := rows[s.y := rows[s.y] + [ch]], x := s.x + 1)
  }

  /** `InsertNewLine()`: creates the cursor row when it is missing, then
      moves the cursor to column 0 of the next row. */
  function InsertNewLine(s: State): (r: State)
    ensures |r.runes| == |s.runes| + (if |s.runes| <= s.y then 1 else 0)
    ensures r.runes[..|s.runes|] == s.runes
    ensures forall i :: |s.runes| <= i < |r.runes| ==> r.runes[i] == []
    ensures r.x == 0 && r.y == s.y + 1
    ensures r.width == s.width && r.height == s.height
  {
    s.(runes := if |s.runes| - 1 < s.y then s.runes + [[]] else s.runes,
       x := 0, y := s.y + 1)
  }

  /** `RemoveRune()` as written: it reads the cursor row without checking
      that it exists, so it panics when rows exist but the cursor row is not
      one of them. */
  function RemoveRune(s: State): (r: Result)
    // the unchecked index fails exactly when the cursor row is missing from a non-empty buffer
    ensures r.Panicked? <==> 0 < |s.runes| <= s.y
    ensures r.Panicked? ==> r.panic == IndexOutOfRange(s.y, |s.runes|)
    // no rows at all, or an empty first row: nothing changes
    ensures |s.runes| == 0 || (s.y == 0 && s.runes[0] == []) ==> r == Ok(s)
    // a non-empty row loses exactly its last rune, and nothing else changes but the column
    ensures s.y < |s.runes| && s.runes[s.y] != [] ==>
      && r.Ok?
      && |r.state.runes| == |s.runes|
      && r.state.runes == s.runes[s.y := r.state.runes[s.y]]
      && r.state.runes[s.y] + [s.runes[s.y][|s.runes[s.y]| - 1]] == s.runes[s.y]
      && r.state == s.(runes := r.state.runes, x := s.x - 1)
    // an empty row below the first: the cursor goes to the end of the row above,
    // and that row becomes the last one
    ensures 0 < s.y < |s.runes| && s.runes[s.y] == [] ==>
      && r.Ok?
      && r.state.runes == s.runes[..s.y]
      && r.state == s.(runes := r.state.runes, x := |s.runes[s.y - 1]|, y := s.y - 1)
  {
    if |s.runes| == 0 then Ok(s)
    else if s.y >= |s.runes| then Panicked(IndexOutOfRange(s.y, |s.runes|))
    else
      var row := s.runes[s.y];
      if |row| == 0 then
        if s.y == 0 then Ok(s)
        else
          var rowAbove := s.runes[s.y - 1];
          Ok(s.(x := |rowAbove|, y := s.y - 1, runes := s.runes[..s.y]))
      else
        Ok(s.(runes := s.runes[s.y := row[..|row| - 1]], x := s.x - 1))
  }

  /** Characters typed one after another, with nothing in between. */
  function TypeRunes(s: State, chs: seq<Rune>): State
    decreases |chs|
  {
    if chs == [] then s else TypeRunes(InsertRune(s, chs[0]), chs[1..])
  }

  /** `n` presses of Enter one after another. */
  function NewLines(s: State, n: nat): State
    decreases n
  {
    if n == 0 then s else NewLines(InsertNewLine(s), n - 1)
  }

  lemma InsertRunePreservesReachable(s: State, ch: Rune)
    requires Reachable(s)
    ensures Reachable(InsertRune(s, ch))
    ensures |InsertRune(s, ch).runes| == s.y + 1
  {
  }

  /** After Enter the cursor row never exists: there are exactly `y` rows. */
  lemma InsertNewLinePreservesReachable(s: State)
    requires Reachable(s)
    ensures Reachable(InsertNewLine(s))
    ensures |InsertNewLine(s).runes| == InsertNewLine(s).y
  {
  }

  /** In a reachable state `RemoveRune` panics exactly when the cursor row is
      missing from a non-empty buffer, and otherwise keeps the invariant. */
  lemma RemoveRunePreservesReachable(s: State)
    requires Reachable(s)
    ensures RemoveRune(s).Panicked? <==> 0 < |s.runes| == s.y
    ensures RemoveRune(s).Ok? ==> Reachable(RemoveRune(s).state)
  {
    if s.y < |s.runes| && s.runes[s.y] != [] {
      var t := RemoveRune(s).state;
      assert |t.runes[s.y]| + 1 == |s.runes[s.y]|;
    }
  }

  /** Backspace straight after Enter always panics: Enter leaves the cursor on
      a row that does not exist, and `RemoveRune` indexes it unchecked. */
  lemma BackspaceAfterEnterPanics(s: State)
    requires Reachable(s)
    ensures RemoveRune(InsertNewLine(s)) == Panicked(IndexOutOfRange(s.y + 1, s.y + 1))
  {
    InsertNewLinePreservesReachable(s);
  }

  /** On an existing row, deleting right after typing restores the state. */
  lemma {:induction false} InsertThenRemove(s: State, ch: Rune)
    requires s.y < |s.runes|
    ensures RemoveRune(InsertRune(s, ch)) == Ok(s)
  {
    var t := InsertRune(s, ch);
    var u := RemoveRune(t).state;
    assert t.runes[s.y] == s.runes[s.y] + [ch];
    assert u.runes[s.y] == s.runes[s.y] by {
      assert u.runes[s.y] + [ch] == s.runes[s.y] + [ch];
    }
    assert u.runes == s.runes;
  }

  /** Typing without line breaks appends the characters, in order, to the
      cursor row, and leaves the cursor at its end. */
  lemma {:induction false} TypingAppends(s: State, chs: seq<Rune>)
    requires Reachable(s)
    ensures Reachable(TypeRunes(s, chs))
    ensures TypeRunes(s, chs).y == s.y
    ensures RowAt(TypeRunes(s, chs).runes, s.y) == RowAt(s.runes, s.y) + chs
    ensures TypeRunes(s, chs).runes[..s.y] == s.runes[..s.y]
    decreases |chs|
  {
    if chs != [] {
      var t := InsertRune(s, chs[0]);
      InsertRunePreservesReachable(s, chs[0]);
      TypingAppends(t, chs[1..]);
      assert RowAt(s.runes, s.y) + chs == RowAt(t.runes, s.y) + chs[1..];
      assert t.runes[..s.y] == s.runes[..s.y];
    }
  }

  /** From the start, `n` presses of Enter leave `n` empty rows and the
      cursor at column 0 of row `n`, a row that does not exist. */
  lemma {:induction false} LineBreaksFromStart(width: int, height: int, n: nat)
    ensures NewLines(Initial(width, height), n) == State(EmptyRows(n), 0, n, width, height)
  {
    if n > 0 {
      LineBreaksExtend(Initial(width, height), n - 1);
      LineBreaksFromStart(width, height, n - 1);
      assert EmptyRows(n - 1) + [[]] == EmptyRows(n);
    }
  }

  /** Enter `n + 1` times is Enter `n` times followed by Enter once. */
  lemma {:induction false} LineBreaksExtend(s: State, n: nat)
    ensures NewLines(s, n + 1) == InsertNewLine(NewLines(s, n))
    decreases n
  {
    if n > 0 {
      LineBreaksExtend(InsertNewLine(s), n - 1);
    }
  }

  /** `RemoveRune` as evidently intended: a missing cursor row counts as an
      empty row, so it is joined with the row above like one. */
  function RemoveRuneFixed(s: State): (r: State)
    ensures RemoveRune(s).Ok? ==> r == RemoveRune(s).state
    ensures RemoveRune(s).Panicked? ==> r == s.(x := |RowAt(s.runes, s.y - 1)|, y := s.y - 1)
  {
    if |s.runes| == 0 then s
    else if RowAt(s.runes, s.y) == [] then
      if s.y == 0 then s
      else s.(x := |RowAt(s.runes, s.y - 1)|, y := s.y - 1,
              runes := s.runes[..if s.y < |s.runes| then s.y else |s.runes|])
    else
      var row := s.runes[s.y];
      s.(runes := s.runes[s.y := row[..|row| - 1]], x := s.x - 1)
  }

  /** The corrected `RemoveRune` keeps the invariant in every reachable state. */
  lemma RemoveRuneFixedPreservesReachable(s: State)
    requires Reachable(s)
    ensures Reachable(RemoveRuneFixed(s))
  {
    RemoveRunePreservesReachable(s);
  }

  /** With the corrected `RemoveRune`, Backspace undoes Enter: the cursor is
      back where it was and the only trace is the cursor row, now created. */
  lemma BackspaceUndoesEnterFixed(s: State)
    requires Reachable(s)
    ensures RemoveRuneFixed(InsertNewLine(s)) == s.(runes := Pad(s.runes, s.y + 1))
  {
    var t := InsertNewLine(s);
    var p := Pad(s.runes, s.y + 1);
    assert t.runes == p;
  }
}
