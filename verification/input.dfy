/** The key table: one pending terminal event to at most one user action. */
module Input {
  import opened Options

  /** The key codes the table distinguishes; every other code is `OtherKey`. */
  datatype KeyCode = Char(c: char) | Esc | Tab | Left | Right | Up | Down | OtherKey

  datatype KeyEventKind = Press | Repeat | Release

  /** A terminal event: a key event, or anything else (mouse, resize, focus, paste). */
  datatype Event = Key(code: KeyCode, kind: KeyEventKind) | NonKey

  datatype Action =
    | Quit
    | TogglePause
    | ToggleMode
    | NextScene
    | PrevScene
    | GotoScene(index: nat)
    | ToggleHud
    | ToggleHold
    | ParamUp
    | ParamDown
    | ParamPrev
    | ParamNext
    | NoAction

  /** The fixed bindings, one `(key, action)` pair per line of the table. */
  const Bindings: seq<(KeyCode, Action)> := [
    (Char('q'), Quit), (Esc, Quit),
    (Char(' '), TogglePause),
    (Tab, ToggleMode),
    (Char('n'), NextScene), (Right, NextScene),
    (Char('p'), PrevScene), (Left, PrevScene),
    (Char('h'), ToggleHud),
    (Char('f'), ToggleHold),
    (Up, ParamUp), (Down, ParamDown),
    (Char('['), ParamPrev), (Char(']'), ParamNext)
  ]

  predicate IsSceneDigit(c: char) { '1' <= c <= '9' }

  /** The match inside `poll_action` for a pressed key. */
  function KeyAction(code: KeyCode): (a: Action)
    ensures code.Char? && IsSceneDigit(code.c) ==> a == GotoScene(code.c as int - '1' as int)
  {
    match code
    case Char('q') => Quit
    case Esc => Quit
    case Char(' ') => TogglePause
    case Tab => ToggleMode
    case Char('n') => NextScene
    case Right => NextScene
    case Char('p') => PrevScene
    case Left => PrevScene
    case Char('h') => ToggleHud
    case Char('f') => ToggleHold
    case Up => ParamUp
    case Down => ParamDown
    case Char('[') => ParamPrev
    case Char(']') => ParamNext
    case Char(c) => if IsSceneDigit(c) then GotoScene(c as int - '1' as int) else NoAction
    case OtherKey => NoAction
  }

  /** `poll_action` with the polled event passed in: only a key press yields an action. */
  function PollAction(ev: Option<Event>): (a: Action)
    ensures ev.None? || ev.value.NonKey? || ev.value.kind != Press ==> a == NoAction
    ensures a.GotoScene? ==> a.index < 9
  {
    match ev
    case Some(Key(code, Press)) => KeyAction(code)
    case _ => NoAction
  }

  /** A pressed key yields a non-digit action exactly when the key is listed in `Bindings`
      with that action, and a digit action exactly for the keys '1'..'9'. */
  lemma PollActionMatchesBindings(code: KeyCode, a: Action)
    requires a != NoAction
    ensures !a.GotoScene? ==>
      (PollAction(Some(Key(code, Press))) == a <==> (code, a) in Bindings)
    ensures a.GotoScene? ==>
      (PollAction(Some(Key(code, Press))) == a <==>
         code.Char? && IsSceneDigit(code.c) && a.index == code.c as int - '1' as int)
  {
  }

  /** '0', and every key that is neither bound nor a digit '1'..'9', yields no action. */
  lemma UnboundKeysDoNothing(code: KeyCode)
    requires forall i :: 0 <= i < |Bindings| ==> Bindings[i].0 != code
    requires !(code.Char? && IsSceneDigit(code.c))
    ensures PollAction(Some(Key(code, Press))) == NoAction
  {
    assert Bindings[0].0 == Char('q');
    assert Bindings[1].0 == Esc;
    assert Bindings[2].0 == Char(' ');
    assert Bindings[3].0 == Tab;
    assert Bindings[4].0 == Char('n');
    assert Bindings[5].0 == Right;
    assert Bindings[6].0 == Char('p');
    assert Bindings[7].0 == Left;
    assert Bindings[8].0 == Char('h');
    assert Bindings[9].0 == Char('f');
    assert Bindings[10].0 == Up;
    assert Bindings[11].0 == Down;
    assert Bindings[12].0 == Char('[');
    assert Bindings[13].0 == Char(']');
  }

  /** Distinct digit keys select distinct scenes. */
  lemma DigitKeysInjective(c1: char, c2: char)
    requires IsSceneDigit(c1) && IsSceneDigit(c2) && c1 != c2
    ensures PollAction(Some(Key(Char(c1), Press))) != PollAction(Some(Key(Char(c2), Press)))
  {
  }
}
