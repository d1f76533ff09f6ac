/**
  Terminal input events and the quit decision of the dashboard
  (`handle_crossterm_events` and `on_key_event` in src/main.rs).

  The event types follow the terminal library's: an event is a key, mouse,
  resize, focus or paste event; a key event has a code, a set of modifier
  keys and a kind (press, repeat or release).
 */
module Input {

  datatype KeyCode =
    | Backspace | Enter | Left | Right | Up | Down | Home | End | PageUp | PageDown
    | Tab | BackTab | Delete | Insert | F(number: nat) | Char(c: char) | Null | Esc
    | CapsLock | ScrollLock | NumLock | PrintScreen | Pause | Menu | KeypadBegin
    | Media(mediaKey: nat) | Modifier(modifierKey: nat)

  datatype Modifier = Shift | Control | Alt | Super | Hyper | Meta

  /** The modifier keys held during a key event; compared as a whole, like a bit set. */
  type KeyModifiers = set<Modifier>

  const CONTROL: KeyModifiers := {Control}

  datatype KeyEventKind = Press | Repeat | Release

  datatype KeyEvent = KeyEvent(code: KeyCode, modifiers: KeyModifiers, kind: KeyEventKind)

  datatype Event =
    | FocusGained
    | FocusLost
    | Key(key: KeyEvent)
    | Mouse
    | Paste(text: string)
    | Resize(columns: nat, rows: nat)

  /**
    The key handler's match on (modifiers, code): Esc or 'q' with any
    modifiers, or 'c'/'C' with exactly the Control modifier, asks to quit.
   */
  predicate IsQuitKey(key: KeyEvent) {
    match (key.modifiers, key.code)
    case (_, Esc) => true
    case (_, Char('q')) => true
    case (mods, Char(c)) => mods == CONTROL && (c == 'c' || c == 'C')
    case _ => false
  }

  /** Whether handling `e` stops the dashboard: only a key press can. */
  predicate QuitsOn(e: Event) {
    match e
    case Key(key) => key.kind == Press && IsQuitKey(key)
    case Mouse => false
    case Resize(_, _) => false
    case _ => false
  }

  /** The quit combinations, listed: Esc, 'q', Ctrl+'c' and Ctrl+'C'. */
  lemma QuitKeys(key: KeyEvent)
    ensures IsQuitKey(key) <==>
      key.code == Esc || key.code == Char('q') ||
      (key.modifiers == CONTROL && (key.code == Char('c') || key.code == Char('C')))
  {
  }

  /** A quitting event is a key press of one of the quit keys, and nothing else. */
  lemma QuitsOnlyOnPress(e: Event)
    ensures QuitsOn(e) <==> e.Key? && e.key.kind == Press && IsQuitKey(e.key)
  {
  }

  /** Release and repeat events never quit, whatever the key. */
  lemma ReleaseAndRepeatIgnored(code: KeyCode, mods: KeyModifiers, kind: KeyEventKind)
    requires kind != Press
    ensures !QuitsOn(Key(KeyEvent(code, mods, kind)))
  {
  }

  /** A pressed Esc or 'q' quits whatever modifiers are held. */
  lemma EscAndQQuitWithAnyModifiers(mods: KeyModifiers)
    ensures QuitsOn(Key(KeyEvent(Esc, mods, Press)))
    ensures QuitsOn(Key(KeyEvent(Char('q'), mods, Press)))
  {
  }

  /** Upper-case 'Q' is not a quit key, with any modifiers. */
  lemma UpperQIgnored(mods: KeyModifiers, kind: KeyEventKind)
    ensures !QuitsOn(Key(KeyEvent(Char('Q'), mods, kind)))
  {
  }

  /**
    A pressed 'c' or 'C' quits exactly when the modifiers are Control and
    nothing else: plain 'c', Shift+'C' and Ctrl+Shift+'C' do not.
   */
  lemma CtrlCNeedsExactlyControl(c: char, mods: KeyModifiers)
    requires c == 'c' || c == 'C'
    ensures QuitsOn(Key(KeyEvent(Char(c), mods, Press))) <==> mods == CONTROL
  {
  }

  /** Mouse, resize, focus and paste events never quit. */
  lemma NonKeyEventsIgnored(e: Event)
    requires !e.Key?
    ensures !QuitsOn(e)
  {
  }
}
