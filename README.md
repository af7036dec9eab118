# A verified model of the editor's text buffer

This project models the in-memory text buffer of a minimal full-screen
terminal editor written in Go (`main.go`):

- a `TextBuffer` holds rows of runes, a `Cursor` (`x` is the column, `y` is the
  row) and the viewport `width` and `height`;
- three editing operations change it in place:
  - `InsertRune` appends a rune to the cursor row, creating missing rows first;
  - `RemoveRune` deletes the last rune of the cursor row, or joins an empty row
    to the row above;
  - `InsertNewLine` moves the cursor to the start of the next row;
- `Draw` emits the cells that fall inside the viewport and places the terminal
  cursor;
- `main` maps each terminal event to one of these operations.

The files:

- `buffer.dfy` (module `Buffer`): the buffer as a value `State` and the three
  operations as functions on it. It defines the invariant `Reachable`, the
  lemmas about the operations, and a corrected `RemoveRune` (see Findings).
- `render.dfy` (module `Render`): the clipping rule of `Draw` as the function
  `Visible`, with lemmas saying which cells it contains and in what order.
- `events.dfy` (module `Events`): one pass of the event loop as `Dispatch`,
  a sequence of events as `Run`, and lemmas about whole sessions.
- `editor.dfy` (module `Editor`): the classes `Cursor` and `TextBuffer`. Their
  methods update the fields in place. `InsertRune`, `RemoveRune` and
  `InsertNewLine` are proved to do what the function of the same name in
  `Buffer` does. `Draw` has the nested loops of the original and is proved to
  emit `Render.Visible`. `HandleEvent` is the body of the event loop and is
  proved to follow `Events.Dispatch`, redrawing `Render.Screen`.

A Go panic is modelled as a value, not as an abort. `RemoveRune` returns
`Panicking(IndexOutOfRange(y, len(runes)))` and leaves the state unchanged,
because the unchecked index is read before anything is written. An error
event gives `Abort(EventError)`.

Three facts about the code shape the model:

- After `InsertNewLine` the cursor row does not exist. `len(runes)` is always
  `y` or `y + 1` (`Buffer.Reachable`).
- `n` line breaks from the start leave exactly `n` rows
  (`Buffer.LineBreaksFromStart`).
- Backspace right after Enter panics (see Findings).

## Model

| member | source | states |
|---|---|---|
| `Buffer.Initial` | main.go:26-30 | The new buffer has no rows, the cursor at (0, 0), the given viewport, and satisfies `Reachable`. |
| `Buffer.Pad` | main.go:50-52 | The loop appends only empty rows. It stops once there are `n` rows, never truncates, and keeps the existing rows. |
| `Buffer.InsertRune` | main.go:49-57 | Row `y` exists afterwards, holding the old row (or nothing) plus `ch`. Every other row is unchanged, and new rows are empty. `x` goes up by one. `y` and the viewport are unchanged. |
| `Buffer.InsertNewLine` | main.go:79-87 | Exactly one empty row is appended if `len(runes) <= y`, otherwise none. Existing rows are untouched, so no row is split. The cursor goes to (0, `y + 1`). |
| `Buffer.RemoveRune` | main.go:59-77 | Panics exactly when rows exist but row `y` does not. Does nothing on an empty buffer or an empty row 0. On a non-empty row it drops exactly the last rune and decrements `x`. On an empty row `y > 0` the cursor moves to the end of row `y - 1` and only the first `y` rows are kept. |
| `Buffer.InsertRunePreservesReachable` | main.go:49-57 | `InsertRune` keeps `Reachable`, and afterwards row `y` is the last row. |
| `Buffer.InsertNewLinePreservesReachable` | main.go:79-87 | `InsertNewLine` keeps `Reachable`, and afterwards `len(runes) == y`: the cursor row is missing. |
| `Buffer.RemoveRunePreservesReachable` | main.go:59-77 | In a reachable state `RemoveRune` panics if and only if `0 < len(runes) == y`. Whenever it returns, the new state is reachable. |
| `Buffer.BackspaceAfterEnterPanics` | main.go:59-87 | From every reachable state, `InsertNewLine` followed by `RemoveRune` panics with index `y + 1` against length `y + 1`. |
| `Buffer.InsertThenRemove` | main.go:49-77 | When row `y` exists, `InsertRune(ch)` followed by `RemoveRune` restores `runes`, `x` and `y` exactly. |
| `Buffer.TypingAppends` | main.go:49-57 | Typing a sequence of runes appends them in order to row `y`. The cursor stays at the end of that row, `y` does not move, and the rows above are unchanged. |
| `Buffer.LineBreaksFromStart` | main.go:79-87 | From the start, `n` line breaks give exactly `n` empty rows and the cursor at (0, `n`). |
| `Buffer.RemoveRuneFixed` | main.go:59-77 | The corrected delete agrees with `RemoveRune` wherever that returns. Where `RemoveRune` panics, it moves the cursor to the end of the row above and changes nothing else: the rows and the viewport are kept. |
| `Buffer.RemoveRuneFixedPreservesReachable` | main.go:59-77 | The corrected delete keeps `Reachable` in every reachable state, with no panic. |
| `Buffer.BackspaceUndoesEnterFixed` | main.go:59-87 | With the corrected delete, Backspace after Enter puts the cursor back where it was. The only change to the rows is that the cursor row now exists. |
| `Render.Clip` | main.go:37-39 | The number of iterations of a loop bounded by both a length and a limit: at most the length, at most the limit (or 0), and equal to the limit (or 0 for a non-positive limit) when less than the length. This fixes it as the smaller of the two, and 0 for a negative limit. |
| `Render.Visible` | main.go:37-42 | The clipping loops as a function. It has no contract of its own; `Render.VisibleCells` and `Render.VisibleRowMajor` state which cells it holds and in what order. |
| `Render.Screen` | main.go:33-47 | The frame one redraw produces, together with `Cursor.Draw` (main.go:94-95): the cells of `Render.Visible` and the cursor at its unclipped (`x`, `y`). It has no contract of its own. `Editor.TextBuffer.Draw` is proved to produce it, and `Editor.HandleEvent`'s contract is stated in terms of it. |
| `Render.VisibleCells` | main.go:37-42 | A cell is emitted if and only if its row is below both `len(runes)` and `height`, and its column is below both the row's length and `width`. It then carries `runes[row][col]`. |
| `Render.VisibleRowMajor` | main.go:37-42 | The emitted cells are in strictly increasing row-major order, so each position is emitted once. |
| `Render.WideRowIsClipped` | main.go:37-42 | With `width` 5, the row "abcdefgh" emits exactly the cells for "abcde" in columns 0 to 4. |
| `Events.Dispatch` | main.go:115-141 | The switch of the event loop as a function. It has no contract of its own; `Events.DispatchPreservesReachable` and `Events.ViewportOnlyOnResize` state its behaviour, and `Editor.HandleEvent` is proved to follow it. |
| `Events.Run` | main.go:113-143 | The event loop unrolled over a finite sequence of events. It has no contract of its own. Ctrl-C or an interrupt ends it with the state from before that event, and a panic aborts it. `Events.RunPreservesReachable`, `Events.EnterThenBackspaceCrashes`, `Events.BackspaceAtStartIsNoOp` and `Events.TypeEnterTypeBackspace` state its behaviour. |
| `Events.DispatchPreservesReachable` | main.go:115-141 | Every event that does not end the loop keeps a reachable state reachable. The loop panics exactly on an error event or on Backspace when `0 < len(runes) == y`. It stops exactly on Ctrl-C or an interrupt. |
| `Events.ViewportOnlyOnResize` | main.go:115-135 | A resize sets only `width` and `height` and causes no redraw. No other event changes the viewport. |
| `Events.RunPreservesReachable` | main.go:113-143 | Every sequence of events from a reachable state that does not panic ends in a reachable state. |
| `Events.EnterThenBackspaceCrashes` | main.go:121-126 | From any reachable state, the key events Enter then Backspace end the session with an index-out-of-range panic. |
| `Events.BackspaceAtStartIsNoOp` | main.go:59-67 | Any number of Backspaces on the new, empty buffer leaves it unchanged and never panics. |
| `Events.BackspaceJoinsEmptyRow` | main.go:64-72 | With rows "ab" and "" and the cursor at (0, 1), Backspace leaves the single row "ab" with the cursor at (2, 0), and redraws. |
| `Events.TypeEnterTypeBackspace` | main.go:115-130 | Typing "hi", Enter, "x", Backspace from the start leaves rows "hi" and "" with the cursor at (0, 1). |
| `Editor.Cursor.constructor` | main.go:89-92 | A new cursor is at (0, 0). |
| `Editor.TextBuffer.constructor` | main.go:26-30 | A new buffer is the initial state for the given viewport, with its own fresh cursor. |
| `Editor.TextBuffer.InsertRune` | main.go:49-57 | The object's new state is `Buffer.InsertRune` of its old state. The loop of line 50 creates exactly the missing rows. |
| `Editor.TextBuffer.RemoveRune` | main.go:59-77 | The object's new state and the status are what `Buffer.RemoveRune` gives for its old state. A panic leaves the object unchanged. |
| `Editor.TextBuffer.InsertNewLine` | main.go:79-87 | The object's new state is `Buffer.InsertNewLine` of its old state. |
| `Editor.TextBuffer.Draw` | main.go:33-47 | The nested loops emit exactly `Visible(runes, width, height)` in emission order. The cursor is placed at the unclipped (`x`, `y`). |
| `Editor.HandleEvent` | main.go:113-143 | Handling one event changes the buffer as `Dispatch` says. A key event that returns is followed by a redraw of the new state. A resize is not redrawn. Ctrl-C or an interrupt exits, and an error or a panic aborts with the buffer unchanged. |

## Left out

- Terminal I/O through termbox is not modelled: `Init`, `Close`, `SetInputMode`, `Clear`, `SetCell`, `SetCursor`, `Flush` and `PollEvent`. `Draw` returns the cells and the cursor position it would send instead.
- The panics of `Draw` when `Clear` or `Flush` fail are I/O failures and are not modelled. The colours given to `SetCell` are styling constants and are dropped too.
- `NewTextBuffer` reads the viewport size from the terminal with `terminal.GetSize` and panics when that fails. The model's constructor takes `width` and `height` as parameters instead.
- The logger, the `init` function and the global `text` variable are process setup. `HandleEvent` takes the buffer as a parameter.
- The blocking loop of `main` and its first `Draw` before the loop are not modelled as such. `HandleEvent` is one pass of the loop, and `Events.Run` is a finite sequence of passes.
- An event keeps only what `main` reads: the key, the rune, the new size, or the fact that it is an error or an interrupt. The error value is dropped. Mouse, raw and empty events are one `OtherEvent`, which no case of the switch handles.
- Cursor coordinates are unbounded integers, so the wrap-around of `x++` (main.go:56) and `y++` (main.go:86) at the platform's `int` width is not modelled; it would need at least 2^31 keystrokes. `y` is a `nat`, because it starts at 0 and is decremented only after a check that it is not 0.
- Go slices share backing arrays. No other reference to a row or to the row list exists, so the model treats rows and the row list as values. Capacity and aliasing are not modelled.
- `Cursor.Draw` is folded into the cursor part of `Editor.TextBuffer.Draw`'s result.

## Findings

| source | as written | input that shows it | evidently intended | confidence | as-written member | corrected member |
|---|---|---|---|---|---|---|
| main.go:63 | `RemoveRune` reads `runes[cursor.y]` without a bounds check. `InsertNewLine` always leaves `cursor.y == len(runes)`, so that row does not exist. | From the start, press Enter and then Backspace. Typing "a", Enter, Backspace fails the same way. | Backspace after Enter treats the missing row as an empty row and returns the cursor to the end of the row above. | high (not executed) | `Buffer.BackspaceAfterEnterPanics` | `Buffer.BackspaceUndoesEnterFixed` |

The object model (`Editor.TextBuffer.RemoveRune`) and the event loop (`Events.Dispatch`) keep the behaviour as written, because that is what the program does. `Buffer.RemoveRuneFixed` is the corrected definition. It is proved to agree with the original wherever the original returns, to keep `Reachable`, and to undo Enter.
