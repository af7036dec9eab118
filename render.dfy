/** What `Draw` puts on the terminal: the cells of the buffer that fall inside
    the viewport, in the order the nested loops of `Draw` emit them, and the
    cursor at its buffer coordinates, unclipped. */
module Render {
  import opened Buffer

  /** One `SetCell(col, row, ch)`. */
  datatype Cell = Cell(col: int, row: int, ch: Rune)

  /** Everything one redraw produces. */
  datatype Frame = Frame(cells: seq<Cell>, cursorCol: int, cursorRow: int)

  /** The number of indices `k` in `0 .. len - 1` with `k < limit`: the count
      of iterations of a loop `for k := 0; k < len && k < limit; k++`. */
  function Clip(len: nat, limit: int): (n: nat)
    ensures n <= len && (n <= limit || n == 0)
    ensures n < len ==> n == limit || (n == 0 && limit <= 0)
  {
    if limit < 0 then 0 else if limit < len then limit else len
  }

  /** The cells of row `i` for its first `n` columns. */
  function RowCells(row: seq<Rune>, i: int, n: nat): seq<Cell>
    requires n <= |row|
  {
    if n == 0 then [] else RowCells(row, i, n - 1) + [Cell(n - 1, i, row[n - 1])]
  }

  /** The cells of the first `n` rows, each clipped to `width` columns. */
  function Rows(runes: seq<seq<Rune>>, width: int, n: nat): seq<Cell>
    requires n <= |runes|
  {
    if n == 0 then []
    else Rows(runes, width, n - 1) + RowCells(runes[n - 1], n - 1, Clip(|runes[n - 1]|, width))
  }

  /** The cells a redraw emits for a buffer in a `width` x `height` viewport. */
  function Visible(runes: seq<seq<Rune>>, width: int, height: int): seq<Cell>
  {
    Rows(runes, width, Clip(|runes|, height))
  }

  /** The frame drawn for a state: the visible cells and the raw cursor. */
  function Screen(s: State): Frame
  {
    Frame(Visible(s.runes, s.width, s.height), s.x, s.y)
  }

  /** `a` comes before `b` in row-major order. */
  predicate Precedes(a: Cell, b: Cell)
  {
    a.row < b.row || (a.row == b.row && a.col < b.col)
  }

  predicate RowMajor(cells: seq<Cell>)
  {
    forall i, j :: 0 <= i < j < |cells| ==> Precedes(cells[i], cells[j])
  }

  lemma {:induction false} RowCellsMembers(row: seq<Rune>, i: int, n: nat, c: Cell)
    requires n <= |row|
    ensures c in RowCells(row, i, n) <==> c.row == i && 0 <= c.col < n && c.ch == row[c.col]
  {
    if n > 0 {
      RowCellsMembers(row, i, n - 1, c);
    }
  }

  lemma {:induction false} RowsMembers(runes: seq<seq<Rune>>, width: int, n: nat, c: Cell)
    requires n <= |runes|
    ensures c in Rows(runes, width, n) <==>
      && 0 <= c.row < n
      && 0 <= c.col < Clip(|runes[c.row]|, width)
      && c.ch == runes[c.row][c.col]
  {
    if n > 0 {
      RowsMembers(runes, width, n - 1, c);
      RowCellsMembers(runes[n - 1], n - 1, Clip(|runes[n - 1]|, width), c);
    }
  }

  /** A cell is emitted exactly when it lies in both the buffer and the
      viewport, and it then carries the rune stored there. */
  lemma VisibleCells(runes: seq<seq<Rune>>, width: int, height: int, c: Cell)
    ensures c in Visible(runes, width, height) <==>
      && 0 <= c.row < |runes| && c.row < height
      && 0 <= c.col < |runes[c.row]| && c.col < width
      && c.ch == runes[c.row][c.col]
  {
    RowsMembers(runes, width, Clip(|runes|, height), c);
  }

  lemma {:induction false} RowCellsRowMajor(row: seq<Rune>, i: int, n: nat)
    requires n <= |row|
    ensures RowMajor(RowCells(row, i, n))
  {
    if n > 0 {
      RowCellsRowMajor(row, i, n - 1);
      var left := RowCells(row, i, n - 1);
      forall k | 0 <= k < |left|
        ensures Precedes(left[k], Cell(n - 1, i, row[n - 1]))
      {
        RowCellsMembers(row, i, n - 1, left[k]);
      }
    }
  }

  lemma {:induction false} RowsRowMajor(runes: seq<seq<Rune>>, width: int, n: nat)
    requires n <= |runes|
    ensures RowMajor(Rows(runes, width, n))
  {
    if n > 0 {
      var left := Rows(runes, width, n - 1);
      var right := RowCells(runes[n - 1], n - 1, Clip(|runes[n - 1]|, width));
      RowsRowMajor(runes, width, n - 1);
      RowCellsRowMajor(runes[n - 1], n - 1, Clip(|runes[n - 1]|, width));
      forall a, b | 0 <= a < |left| && 0 <= b < |right|
        ensures Precedes(left[a], right[b])
      {
        RowsMembers(runes, width, n - 1, left[a]);
        RowCellsMembers(runes[n - 1], n - 1, Clip(|runes[n - 1]|, width), right[b]);
      }
      var all := left + right;
      forall i, j | 0 <= i < j < |all|
        ensures Precedes(all[i], all[j])
      {
        if j < |left| {
          assert all[i] == left[i] && all[j] == left[j];
        } else if i >= |left| {
          assert all[i] == right[i - |left|] && all[j] == right[j - |left|];
        } else {
          assert all[i] == left[i] && all[j] == right[j - |left|];
        }
      }
    }
  }

  /** `Draw` emits each visible cell once, row by row, left to right. */
  lemma VisibleRowMajor(runes: seq<seq<Rune>>, width: int, height: int)
    ensures RowMajor(Visible(runes, width, height))
  {
    RowsRowMajor(runes, width, Clip(|runes|, height));
  }

  /** A row wider than the viewport shows only its first `width` runes. */
  lemma WideRowIsClipped()
    ensures Visible([[97, 98, 99, 100, 101, 102, 103, 104]], 5, 24)
         == [Cell(0, 0, 97), Cell(1, 0, 98), Cell(2, 0, 99), Cell(3, 0, 100), Cell(4, 0, 101)]
  {
    var row: seq<Rune> := [97, 98, 99, 100, 101, 102, 103, 104];
    calc {
      Visible([row], 5, 24);
      Rows([row], 5, 1);
      Rows([row], 5, 0) + RowCells(row, 0, 5);
      RowCells(row, 0, 5);
    }
  }
}
