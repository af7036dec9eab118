/** The `TextBuffer` and `Cursor` objects of the editor, updated in place, and
    the handling of one terminal event by `main`. `InsertRune`, `RemoveRune`
    and `InsertNewLine` are proved to do to the object what the function of
    the same name in `Buffer` does to its value; `Draw` is proved to emit
    `Render.Visible`, and `HandleEvent` to follow `Events.Dispatch` and redraw
    `Render.Screen`. */
module Editor {
  import opened Buffer
  import opened Render
  import opened Events

  /** How `RemoveRune` ends: it returns, or it panics before changing anything.
      This is `Buffer.Result` without the state, which here lives in the object. */
  datatype Status = Returned | Panicking(panic: Panic)

  /** How the handling of one event ends. */
  datatype Control = Redrawn(frame: Frame) | Idle | Exit | Abort(panic: Panic)

  /** The insertion point, in buffer coordinates. */
  class Cursor {
    var x: int
    var y: nat

    constructor ()
      ensures x == 0 && y == 0
    {
      x, y := 0, 0;
    }
  }

  class TextBuffer {
    const cursor: Cursor
    var runes: seq<seq<Rune>>
    var width: int
    var height: int

    /** The buffer and its cursor as a value. */
    function Model(): State
      reads this, cursor
    {
      State(runes, cursor.x, cursor.y, width, height)
    }

    /** The buffer built at start-up, for a terminal of the given size. */
    constructor (width: int, height: int)
      ensures fresh(cursor)
      ensures Model() == Initial(width, height)
    {
      cursor := new Cursor();
      runes := [];
      this.width := width;
      this.height := height;
    }

    method InsertRune(ch: Rune)
      modifies this, cursor
      ensures Model() == Buffer.InsertRune(old(Model()), ch)
    {
      while |runes| - 1 < cursor.y
        invariant Model() == old(Model()).(runes := runes)
        invariant Pad(runes, cursor.y + 1) == Pad(old(runes), cursor.y + 1)
        decreases cursor.y - |runes|
      {
        runes := runes + [[]];
      }
      var row := runes[cursor.y];
      row := row + [ch];
      runes := runes[cursor.y := row];
      cursor.x := cursor.x + 1;
    }

    method RemoveRune() returns (status: Status)
      modifies this, cursor
      ensures Buffer.RemoveRune(old(Model())) ==
        match status
        case Returned => Ok(Model())
        case Panicking(p) => Panicked(p)
      ensures status.Panicking? ==> Model() == old(Model())
    {
      if |runes| == 0 {
        return Returned;
      }
      if cursor.y >= |runes| {
        return Panicking(IndexOutOfRange(cursor.y, |runes|));
      }
      var row := runes[cursor.y];
      if |row| == 0 {
        if cursor.y == 0 {
          return Returned;
        }
        var rowAbove := runes[cursor.y - 1];
        cursor.x := |rowAbove|;
        cursor.y := cursor.y - 1;
        runes := runes[..cursor.y + 1];
        return Returned;
      }
      row := row[..|row| - 1];
      runes := runes[cursor.y := row];
      cursor.x := cursor.x - 1;
      status := Returned;
    }

    method InsertNewLine()
      modifies this, cursor
      ensures Model() == Buffer.InsertNewLine(old(Model()))
    {
      if |runes| - 1 < cursor.y {
        runes := runes + [[]];
      }
      cursor.x := 0;
      cursor.y := cursor.y + 1;
    }

    /** The cells inside the viewport, row by row, and the cursor. */
    method Draw() returns (frame: Frame)
      ensures frame.cells == Visible(runes, width, height)
      ensures frame.cursorCol == cursor.x && frame.cursorRow == cursor.y
    {
      var cells: seq<Cell> := [];
      var i := 0;
      while i < |runes| && i < height
        invariant 0 <= i <= Clip(|runes|, height)
        invariant cells == Rows(runes, width, i)
      {
        var row := runes[i];
        var j := 0;
        while j < |row| && j < width
          invariant 0 <= j <= Clip(|row|, width)
          invariant cells == Rows(runes, width, i) + RowCells(row, i, j)
        {
          cells := cells + [Cell(j, i, row[j])];
          j := j + 1;
        }
        i := i + 1;
      }
      frame := Frame(cells, cursor.x, cursor.y);
    }
  }

  /** One pass through the event loop of `main` for the event `e`. */
  method HandleEvent(text: TextBuffer, e: Event) returns (control: Control)
    modifies text, text.cursor
    ensures match Dispatch(old(text.Model()), e)
      case Next(t, redraw) => text.Model() == t && control == if redraw then Redrawn(Screen(t)) else Idle
      case Stop => text.Model() == old(text.Model()) && control == Exit
      case Crash(p) => text.Model() == old(text.Model()) && control == Abort(p)
  {
    match e
    case KeyEvent(key, ch) =>
      if key == CtrlC {
        return Exit;
      } else if key == Backspace || key == Backspace2 {
        var status := text.RemoveRune();
        if status.Panicking? {
          return Abort(status.panic);
        }
      } else if key == Enter {
        text.InsertNewLine();
      } else {
        text.InsertRune(ch);
      }
      var frame := text.Draw();
      control := Redrawn(frame);
    case ResizeEvent(w, h) =>
      text.width := w;
      text.height := h;
      control := Idle;
    case ErrorEvent =>
      control := Abort(EventError);
    case InterruptEvent =>
      control := Exit;
    case OtherEvent =>
      control := Idle;
  }
}
