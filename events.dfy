/** The event loop of `main`, one event at a time: which buffer operation an
    event triggers, whether the screen is redrawn, and when the loop ends. */
module Events {
  import opened Buffer

  /** The keys `main` tells apart. `OtherKey` stands for any key code other
      than the four named ones; the switch of the event loop does not look at
      its code, only at the rune the event carries. */
  datatype Key = CtrlC | Backspace | Backspace2 | Enter | OtherKey(code: int)

  /** An event from the terminal. A key event carries the rune typed, if any. */
  datatype Event =
    | KeyEvent(key: Key, ch: Rune)
    | ResizeEvent(width: int, height: int)
    | ErrorEvent
    | InterruptEvent
    | OtherEvent  // mouse, raw and empty events: no case of the switch takes them

  /** What handling one event leads to: a next state (redrawn or not), the end
      of the loop, or a panic. */
  datatype Step = Next(state: State, redraw: bool) | Stop | Crash(panic: Panic)

  /** What a whole sequence of events leads to. */
  datatype Session = Live(state: State) | Ended(state: State) | Aborted(panic: Panic)

  predicate IsBackspace(e: Event)
  {
    e.KeyEvent? && (e.key == Backspace || e.key == Backspace2)
  }

  /** One pass through the body of the event loop. */
  function Dispatch(s: State, e: Event): Step
  {
    match e
    case KeyEvent(key, ch) =>
      if key == CtrlC then Stop
      else if key == Backspace || key == Backspace2 then
        match RemoveRune(s)
        case Ok(t) => Next(t, true)
        case Panicked(p) => Crash(p)
      else if key == Enter then Next(InsertNewLine(s), true)
      else Next(InsertRune(s, ch), true)
    case ResizeEvent(w, h) => Next(s.(width := w, height := h), false)
    case ErrorEvent => Crash(EventError)
    case InterruptEvent => Stop
    case OtherEvent => Next(s, false)
  }

  /** The events handled one after another until the loop stops or panics. */
  function Run(s: State, events: seq<Event>): Session
    decreases |events|
  {
    if events == [] then Live(s)
    else
      match Dispatch(s, events[0])
      case Next(t, _) => Run(t, events[1..])
      case Stop => Ended(s)
      case Crash(p) => Aborted(p)
  }

  /** Every event but a terminal error keeps a reachable state reachable or
      ends the loop, except a Backspace on a row that Enter has not created. */
  lemma DispatchPreservesReachable(s: State, e: Event)
    requires Reachable(s)
    ensures Dispatch(s, e).Next? ==> Reachable(Dispatch(s, e).state)
    ensures Dispatch(s, e).Crash? <==> e == ErrorEvent || (IsBackspace(e) && 0 < |s.runes| == s.y)
    ensures Dispatch(s, e).Stop? <==> e == InterruptEvent || (e.KeyEvent? && e.key == CtrlC)
  {
    match e
    case KeyEvent(key, ch) =>
      if key == Backspace || key == Backspace2 {
        RemoveRunePreservesReachable(s);
      } else if key == Enter {
        InsertNewLinePreservesReachable(s);
      } else if key != CtrlC {
        InsertRunePreservesReachable(s, ch);
      }
    case _ =>
  }

  /** A resize changes only the viewport and is not redrawn; no other event
      changes the viewport. */
  lemma ViewportOnlyOnResize(s: State, e: Event)
    requires Dispatch(s, e).Next?
    ensures var t := Dispatch(s, e).state;
      if e.ResizeEvent?
      then t == s.(width := e.width, height := e.height) && !Dispatch(s, e).redraw
      else t.width == s.width && t.height == s.height
  {
  }

  /** No sequence of events leaves the reachable states, short of a panic. */
  lemma {:induction false} RunPreservesReachable(s: State, events: seq<Event>)
    requires Reachable(s)
    ensures Run(s, events).Live? || Run(s, events).Ended? ==> Reachable(Run(s, events).state)
    decreases |events|
  {
    if events != [] {
      DispatchPreservesReachable(s, events[0]);
      if Dispatch(s, events[0]).Next? {
        RunPreservesReachable(Dispatch(s, events[0]).state, events[1..]);
      }
    }
  }

  /** From any reachable state, Enter followed by Backspace kills the editor. */
  lemma EnterThenBackspaceCrashes(s: State, ch: Rune)
    requires Reachable(s)
    ensures Run(s, [KeyEvent(Enter, ch), KeyEvent(Backspace, ch)])
         == Aborted(IndexOutOfRange(s.y + 1, s.y + 1))
  {
    BackspaceAfterEnterPanics(s);
    var events := [KeyEvent(Enter, ch), KeyEvent(Backspace, ch)];
    assert events[1..] == [KeyEvent(Backspace, ch)];
    assert events[1..][1..] == [];
  }

  /** `n` Backspaces. */
  function Backspaces(n: nat): (r: seq<Event>)
    ensures |r| == n && forall i :: 0 <= i < n ==> IsBackspace(r[i])
  {
    seq(n, _ => KeyEvent(Backspace, 0))
  }

  /** Backspace at the start of the document does nothing, however often. */
  lemma {:induction false} BackspaceAtStartIsNoOp(width: int, height: int, n: nat)
    ensures Run(Initial(width, height), Backspaces(n)) == Live(Initial(width, height))
  {
    var s := Initial(width, height);
    if n > 0 {
      assert Backspaces(n)[1..] == Backspaces(n - 1);
      BackspaceAtStartIsNoOp(width, height, n - 1);
    }
  }

  /** Backspace on an empty second row joins it to the first. */
  lemma BackspaceJoinsEmptyRow(width: int, height: int)
    ensures Dispatch(State([[97, 98], []], 0, 1, width, height), KeyEvent(Backspace, 0))
         == Next(State([[97, 98]], 2, 0, width, height), true)
  {
    var s := State([[97, 98], []], 0, 1, width, height);
    assert s.runes[..1] == [[97, 98]];
  }

  /** Handling the first event of a sequence, then the rest. */
  lemma RunFirst(s: State, e: Event, rest: seq<Event>)
    ensures Dispatch(s, e).Next? ==> Run(s, [e] + rest) == Run(Dispatch(s, e).state, rest)
    ensures Dispatch(s, e).Crash? ==> Run(s, [e] + rest) == Aborted(Dispatch(s, e).panic)
  {
    assert ([e] + rest)[1..] == rest;
  }

  /** The five steps of the scenario below, one event each. */
  lemma {:induction false} TypingSteps(width: int, height: int)
    ensures Dispatch(Initial(width, height), KeyEvent(OtherKey(0), 104))
         == Next(State([[104]], 1, 0, width, height), true)
    ensures Dispatch(State([[104]], 1, 0, width, height), KeyEvent(OtherKey(0), 105))
         == Next(State([[104, 105]], 2, 0, width, height), true)
  {
    assert InsertRune(Initial(width, height), 104).runes[0] == [104];
    assert InsertRune(State([[104]], 1, 0, width, height), 105).runes[0] == [104, 105];
  }

  lemma {:induction false} NewRowSteps(width: int, height: int)
    ensures Dispatch(State([[104, 105]], 2, 0, width, height), KeyEvent(Enter, 0))
         == Next(State([[104, 105]], 0, 1, width, height), true)
    ensures Dispatch(State([[104, 105]], 0, 1, width, height), KeyEvent(OtherKey(0), 120))
         == Next(State([[104, 105], [120]], 1, 1, width, height), true)
    ensures Dispatch(State([[104, 105], [120]], 1, 1, width, height), KeyEvent(Backspace, 0))
         == Next(State([[104, 105], []], 0, 1, width, height), true)
  {
    var t := InsertRune(State([[104, 105]], 0, 1, width, height), 120);
    assert t.runes[0] == [104, 105] && t.runes[1] == [120];
    var u := RemoveRune(State([[104, 105], [120]], 1, 1, width, height)).state;
    assert u.runes[0] == [104, 105] && u.runes[1] == [];
  }

  /** Type "hi", Enter, type "x", Backspace: the rows are "hi" and an empty
      row, and the cursor is at column 0 of that row. */
  lemma TypeEnterTypeBackspace(width: int, height: int)
    ensures Run(Initial(width, height),
                [KeyEvent(OtherKey(0), 104), KeyEvent(OtherKey(0), 105),
                 KeyEvent(Enter, 0), KeyEvent(OtherKey(0), 120), KeyEvent(Backspace, 0)])
         == Live(State([[104, 105], []], 0, 1, width, height))
  {
    var h, i, x := KeyEvent(OtherKey(0), 104), KeyEvent(OtherKey(0), 105), KeyEvent(OtherKey(0), 120);
    var enter, back := KeyEvent(Enter, 0), KeyEvent(Backspace, 0);
    TypingSteps(width, height);
    NewRowSteps(width, height);
    RunFirst(State([[104, 105], [120]], 1, 1, width, height), back, []);
    RunFirst(State([[104, 105]], 0, 1, width, height), x, [back]);
    RunFirst(State([[104, 105]], 2, 0, width, height), enter, [x, back]);
    RunFirst(State([[104]], 1, 0, width, height), i, [enter, x, back]);
    RunFirst(Initial(width, height), h, [i, enter, x, back]);
    assert [h, i, enter, x, back] == [h] + [i, enter, x, back];
  }
}
