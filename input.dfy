/** The input system's mode machine (`input::InputSystem`): `Normal` mode
    takes key presses and releases, `Chat` and `Command` take characters.
    Escape or Enter typed as a character goes back to `Normal`; a pressed
    grave accent or slash with no ctrl, alt or logo modifier leaves it.
    What the handlers ask of the shared game state (movement, field of view,
    post-processing levels, shutdown, resize) is returned as an `Effect`
    rather than carried out. */
module InputModes {
  import opened Base

  datatype Mode = Normal | Chat | Command

  /** The virtual key codes the handlers distinguish; every other code is `OtherKey`. */
  datatype Key =
    | Escape | Grave | Slash
    | W | A | S | D | Q | E
    | Up | Down | Left | Right | PageUp | PageDown
    | F3 | F4 | F7 | F8 | F9 | F10 | F11 | F12
    | OtherKey

  datatype ElementState = Pressed | Released

  datatype Modifiers = Modifiers(shift: bool, ctrl: bool, alt: bool, logo: bool)

  datatype KeyboardInput = KeyboardInput(state: ElementState, virtualKeycode: Option<Key>, modifiers: Modifiers)

  datatype WindowEvent =
    | Resized
    | Closed
    | ReceivedCharacter(ch: char)
    | Keyboard(input: KeyboardInput)
    | CursorMoved
    | OtherWindowEvent

  datatype Event = WindowEvt(event: WindowEvent) | DeviceEvent | Awakened | Suspended

  datatype MoveDirection = Forward | Backward | YawLeft | YawRight | StrafeLeft | StrafeRight | PitchUp | PitchDown

  /** What a handled event asks of the game state. */
  datatype Effect =
    | NoEffect
    | Terminate
    | Resize
    | Movement(direction: MoveDirection, start: bool)
    | AdjustFovX(degrees: real)
    | AdjustBlurLevel(up: bool)
    | AdjustBloomStrength(up: bool)
    | AdjustBloomCliff(up: bool)

  const EscapeChar: char := '\U{1b}'
  const EnterChar: char := '\r'

  /** No ctrl, alt or logo modifier; shift does not matter. */
  predicate Plain(m: Modifiers)
  {
    !m.ctrl && !m.alt && !m.logo
  }

  /** The movement a key stands for, if any. */
  function MovementOf(k: Key): Option<MoveDirection>
  {
    match k
    case W => Some(Forward)
    case Up => Some(Forward)
    case S => Some(Backward)
    case Down => Some(Backward)
    case A => Some(YawLeft)
    case Left => Some(YawLeft)
    case D => Some(YawRight)
    case Right => Some(YawRight)
    case Q => Some(StrafeLeft)
    case E => Some(StrafeRight)
    case PageUp => Some(PitchUp)
    case PageDown => Some(PitchDown)
    case _ => None
  }

  /** The state change asked for by a released key. */
  function ReleaseEffect(m: Modifiers, k: Key): (r: Effect)
    ensures r.Terminate? <==> m.logo && k == Escape
    ensures r.Movement? ==> Plain(m) && MovementOf(k) == Some(r.direction) && !r.start
    ensures Plain(m) && MovementOf(k).Some? ==> r == Movement(MovementOf(k).value, false)
    ensures r == NoEffect || r.Terminate? || r.Movement?
  {
    if m.logo && k == Escape then Terminate
    else if Plain(m) && MovementOf(k).Some? then Movement(MovementOf(k).value, false)
    else NoEffect
  }

  /** The state change asked for by a pressed key (mode changes aside). */
  function PressEffect(m: Modifiers, k: Key): (r: Effect)
    ensures r != NoEffect ==> Plain(m) && !r.Terminate? && !r.Resize?
    ensures r.Movement? ==> MovementOf(k) == Some(r.direction) && r.start
    ensures Plain(m) && MovementOf(k).Some? ==> r == Movement(MovementOf(k).value, true)
  {
    if !Plain(m) then NoEffect
    else if MovementOf(k).Some? then Movement(MovementOf(k).value, true)
    else match k
      case F3 => AdjustFovX(0.5)
      case F4 => AdjustFovX(-0.5)
      case F7 => AdjustBlurLevel(false)
      case F8 => AdjustBlurLevel(true)
      case F9 => AdjustBloomStrength(false)
      case F10 => AdjustBloomStrength(true)
      case F11 => AdjustBloomCliff(false)
      case F12 => AdjustBloomCliff(true)
      case _ => NoEffect
  }

  class InputSystem {
    var mode: Mode

    constructor ()
      ensures mode == Normal
    {
      mode := Normal;
    }

    method HandleEvent(e: Event) returns (eff: Effect)
      modifies this
      ensures !e.WindowEvt? ==> mode == old(mode) && eff == NoEffect
      ensures e.WindowEvt? ==> mode == NextMode(old(mode), e.event) && eff == EffectOf(old(mode), e.event)
    {
      eff := NoEffect;
      match e {
        case WindowEvt(event) => eff := HandleWindowEvent(event);
        case DeviceEvent =>
        case Awakened =>
        case Suspended =>
      }
    }

    /** Characters reach the character handler only in chat or command mode,
        keyboard input reaches the key handler only in normal mode. */
    method HandleWindowEvent(e: WindowEvent) returns (eff: Effect)
      modifies this
      ensures mode == NextMode(old(mode), e) && eff == EffectOf(old(mode), e)
    {
      eff := NoEffect;
      match e {
        case Resized => eff := Resize;
        case Closed => eff := Terminate;
        case ReceivedCharacter(ch) =>
          if mode == Chat || mode == Command {
            HandleCharacter(ch);
          }
        case Keyboard(input) =>
          if mode == Normal {
            eff := HandleKeyboard(input);
          }
        case CursorMoved =>
        case OtherWindowEvent =>
      }
    }

    /** Escape abandons and Enter finishes the line being typed; both go back
        to normal mode.  Any other character leaves the mode alone. */
    method HandleCharacter(ch: char)
      modifies this
      ensures mode == if ch == EscapeChar || ch == EnterChar then Normal else old(mode)
    {
      if ch == EscapeChar {
        mode := Normal;
      } else if ch == EnterChar {
        mode := Normal;
      }
    }

    /** Keys without a virtual code are ignored.  Some keys act on release;
        on press, a plain grave accent opens chat and a plain slash opens a
        command. */
    method HandleKeyboard(input: KeyboardInput) returns (eff: Effect)
      modifies this
      ensures mode == KeyMode(old(mode), input) && eff == KeyEffect(input)
    {
      if input.virtualKeycode.None? {
        return NoEffect;
      }
      var key := input.virtualKeycode.value;
      if input.state == Released {
        eff := ReleaseEffect(input.modifiers, key);
      } else if Plain(input.modifiers) && key == Grave {
        mode := Chat;
        eff := NoEffect;
      } else if Plain(input.modifiers) && key == Slash {
        mode := Command;
        eff := NoEffect;
      } else {
        eff := PressEffect(input.modifiers, key);
      }
    }
  }

  // ----- The machine as functions -------------------------------------------

  /** The mode after a keyboard input handled in any mode. */
  function KeyMode(mode: Mode, input: KeyboardInput): (r: Mode)
    ensures r != mode ==>
      && input.state != Released && Plain(input.modifiers)
      && (input.virtualKeycode == Some(Grave) || input.virtualKeycode == Some(Slash))
    ensures r != mode ==> r == if input.virtualKeycode == Some(Grave) then Chat else Command
  {
    if input.virtualKeycode.None? || input.state == Released || !Plain(input.modifiers) then mode
    else if input.virtualKeycode.value == Grave then Chat
    else if input.virtualKeycode.value == Slash then Command
    else mode
  }

  /** The state change asked for by a keyboard input in normal mode. */
  function KeyEffect(input: KeyboardInput): (r: Effect)
    ensures input.virtualKeycode.None? ==> r == NoEffect
    ensures r.Terminate? <==>
      input.state == Released && input.modifiers.logo && input.virtualKeycode == Some(Escape)
    ensures r.Movement? ==>
      && Plain(input.modifiers) && input.virtualKeycode.Some?
      && MovementOf(input.virtualKeycode.value) == Some(r.direction)
      && r.start == (input.state != Released)
    ensures input.virtualKeycode.Some? && Plain(input.modifiers) && MovementOf(input.virtualKeycode.value).Some? ==>
      r == Movement(MovementOf(input.virtualKeycode.value).value, input.state != Released)
    ensures (r.AdjustFovX? || r.AdjustBlurLevel? || r.AdjustBloomStrength? || r.AdjustBloomCliff?) ==>
      input.state != Released && Plain(input.modifiers)
  {
    if input.virtualKeycode.None? then NoEffect
    else if input.state == Released then ReleaseEffect(input.modifiers, input.virtualKeycode.value)
    else if Plain(input.modifiers) && input.virtualKeycode.value in {Grave, Slash} then NoEffect
    else PressEffect(input.modifiers, input.virtualKeycode.value)
  }

  /** The mode after a window event. */
  function NextMode(mode: Mode, e: WindowEvent): (r: Mode)
    ensures r != mode ==>
      || (mode == Normal && e.Keyboard?)
      || (mode != Normal && r == Normal && e.ReceivedCharacter?)
  {
    match e
    case ReceivedCharacter(ch) =>
      if mode != Normal && (ch == EscapeChar || ch == EnterChar) then Normal else mode
    case Keyboard(input) =>
      if mode == Normal then KeyMode(mode, input) else mode
    case _ => mode
  }

  /** The state change asked for by a window event: resizing and closing
      in every mode, keys only in normal mode. */
  function EffectOf(mode: Mode, e: WindowEvent): (r: Effect)
    ensures e.Resized? <==> r.Resize?
    ensures r.Terminate? <==> e.Closed? || (mode == Normal && e.Keyboard? && KeyEffect(e.input).Terminate?)
    ensures r != NoEffect ==> e.Resized? || e.Closed? || (mode == Normal && e.Keyboard?)
  {
    match e
    case Resized => Resize
    case Closed => Terminate
    case Keyboard(input) => if mode == Normal then KeyEffect(input) else NoEffect
    case _ => NoEffect
  }

  /** The mode of the machine after a run of window events. */
  function Run(mode: Mode, es: seq<WindowEvent>): Mode
  {
    if es == [] then mode else NextMode(Run(mode, es[..|es| - 1]), es[|es| - 1])
  }

  // ----- Properties ----------------------------------------------------------

  /** Normal mode is left exactly by a pressed plain grave accent (to chat) or
      slash (to command). */
  lemma LeavingNormal(e: WindowEvent)
    ensures NextMode(Normal, e) != Normal <==>
      e.Keyboard? && e.input.state == Pressed && Plain(e.input.modifiers)
      && e.input.virtualKeycode in {Some(Grave), Some(Slash)}
    ensures NextMode(Normal, e) == Chat <==>
      e.Keyboard? && e.input.state == Pressed && Plain(e.input.modifiers) && e.input.virtualKeycode == Some(Grave)
    ensures NextMode(Normal, e) == Command <==>
      e.Keyboard? && e.input.state == Pressed && Plain(e.input.modifiers) && e.input.virtualKeycode == Some(Slash)
  {
  }

  /** Chat and command mode are left only by an Escape or Enter character,
      and always for normal mode; key events are not even looked at. */
  lemma LeavingTyping(mode: Mode, e: WindowEvent)
    requires mode != Normal
    ensures NextMode(mode, e) != mode <==>
      e.ReceivedCharacter? && (e.ch == EscapeChar || e.ch == EnterChar)
    ensures NextMode(mode, e) in {mode, Normal}
    ensures e.Keyboard? ==> NextMode(mode, e) == mode && EffectOf(mode, e) == NoEffect
  {
  }

  /** Characters never change normal mode. */
  lemma CharactersIgnoredInNormal(ch: char)
    ensures NextMode(Normal, ReceivedCharacter(ch)) == Normal
    ensures EffectOf(Normal, ReceivedCharacter(ch)) == NoEffect
  {
  }

  /** Releasing a key never changes the mode, nor does a key without a code. */
  lemma ReleaseKeepsMode(mode: Mode, input: KeyboardInput)
    requires input.state == Released || input.virtualKeycode.None?
    ensures NextMode(mode, Keyboard(input)) == mode
  {
  }

  /** A key without a virtual code asks nothing of the game state either. */
  lemma UncodedKeyIgnored(mode: Mode, input: KeyboardInput)
    requires input.virtualKeycode.None?
    ensures EffectOf(mode, Keyboard(input)) == NoEffect
  {
  }

  /** A mode change happens only on a key event in normal mode or a
      character event in the other two. */
  lemma ModeChangesOnlyByRoutedEvents(mode: Mode, e: WindowEvent)
    requires NextMode(mode, e) != mode
    ensures (mode == Normal && e.Keyboard?) || (mode != Normal && e.ReceivedCharacter?)
  {
  }

  /** From any mode, an Escape (or Enter) character followed by a grave
      accent press ends up in chat, whatever the modifiers' shift state. */
  lemma {:induction false} EscapeThenGraveOpensChat(mode: Mode, shift: bool)
    ensures Run(mode, [ReceivedCharacter(EscapeChar), Keyboard(KeyboardInput(Pressed, Some(Grave), Modifiers(shift, false, false, false)))]) == Chat
  {
    var es := [ReceivedCharacter(EscapeChar), Keyboard(KeyboardInput(Pressed, Some(Grave), Modifiers(shift, false, false, false)))];
    assert es[..1][..0] == [];
    assert Run(mode, es[..1]) == Normal;
  }

  /** Typing never leaves the typing modes: a run of characters other than
      Escape and Enter keeps chat or command mode. */
  lemma {:induction false} PlainTypingStays(mode: Mode, es: seq<WindowEvent>)
    requires mode != Normal
    requires forall i :: 0 <= i < |es| ==> es[i].ReceivedCharacter? && es[i].ch != EscapeChar && es[i].ch != EnterChar
    ensures Run(mode, es) == mode
  {
    if es != [] {
      PlainTypingStays(mode, es[..|es| - 1]);
    }
  }
}
