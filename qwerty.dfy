/**
 * The QWERTY layout of `src/terminal/layouts/qwerty.rs`: a two-state machine over PS/2
 * set-1 scancodes (the 0xE0 prefix selects the extended codes) that tracks the modifier
 * keys and the two locks, and yields a character for printable keys.
 */
module QwertyLayout {
  import opened Wrappers
  import opened KeyModifiers

  /** Whether the previous scancode was the 0xE0 escape. */
  type Scancode = x: int | 0 <= x < 256

  datatype State = Neutral | E0

  /** A modifier key going down (its flag is set) or up (its flag is cleared). */
  datatype ModifierEvent = Press(flag: Modifiers) | Release(flag: Modifiers)

  /** The shift, control and alt make and break codes (lines 61-84 and 96-119). */
  function ModifierKey(st: State, sc: Scancode): (r: Option<ModifierEvent>)
  {
    match st
    case Neutral =>
      if sc == 0x2A then Some(Press(LEFT_SHIFT))
      else if sc == 0xAA then Some(Release(LEFT_SHIFT))
      else if sc == 0x36 then Some(Press(RIGHT_SHIFT))
      else if sc == 0xB6 then Some(Release(RIGHT_SHIFT))
      else if sc == 0x1D then Some(Press(LEFT_CONTROL))
      else if sc == 0x9D then Some(Release(LEFT_CONTROL))
      else if sc == 0x38 then Some(Press(LEFT_ALT))
      else if sc == 0xB8 then Some(Release(LEFT_ALT))
      else None
    case E0 =>
      if sc == 0x1D then Some(Press(RIGHT_CONTROL))
      else if sc == 0x9D then Some(Release(RIGHT_CONTROL))
      else if sc == 0x38 then Some(Press(RIGHT_ALT))
      else if sc == 0xB8 then Some(Release(RIGHT_ALT))
      else None
  }

  /** The modifiers after an event: its flag set on a press, cleared on a release. */
  function Apply(m: Modifiers, e: ModifierEvent): Modifiers {
    match e
    case Press(flag) => m | flag
    case Release(flag) => m & !flag
  }

  /** A press sets the event's flag, a release clears it, and no other flag moves. */
  lemma ApplyChangesOnlyItsFlag(m: Modifiers, e: ModifierEvent)
    ensures Apply(m, e) & e.flag == (if e.Press? then e.flag else 0)
    ensures Apply(m, e) & !e.flag == m & !e.flag
  {
  }

  /**
   * The modifier codes: the left keys are the plain codes, the right keys of control and
   * alt the codes after 0xE0; right shift has a plain code of its own.
   */
  lemma ModifierKeysAreTheirSide(st: State, sc: Scancode)
    requires ModifierKey(st, sc).Some?
    ensures var f := ModifierKey(st, sc).value.flag;
            && (st == E0 <==> f == RIGHT_CONTROL || f == RIGHT_ALT)
            && (sc < 0x80 <==> ModifierKey(st, sc).value.Press?)
            &&
            var partner := if sc < 0x80 then sc + 0x80 else sc - 0x80;
            ModifierKey(st, partner).Some? && ModifierKey(st, partner).value.flag == f
  {
  }

  /** `toggle`: a lock key flips its flag. */
  function Toggle(m: Modifiers, flag: Modifiers): Modifiers {
    m ^ flag
  }

  /** The keys with a character of their own and a shifted one (lines 132-226). */
  function ShiftPair(sc: Scancode): Option<(char, char)> {
    match sc
    case 0x02 => Some(('1', '!')) case 0x03 => Some(('2', '@')) case 0x04 => Some(('3', '#'))
    case 0x05 => Some(('4', '$')) case 0x06 => Some(('5', '%')) case 0x07 => Some(('6', '^'))
    case 0x08 => Some(('7', '&')) case 0x09 => Some(('8', '*')) case 0x0A => Some(('9', '('))
    case 0x0B => Some(('0', ')')) case 0x0C => Some(('-', '_')) case 0x0D => Some(('=', '+'))
    case 0x10 => Some(('q', 'Q')) case 0x11 => Some(('w', 'W')) case 0x12 => Some(('e', 'E'))
    case 0x13 => Some(('r', 'R')) case 0x14 => Some(('t', 'T')) case 0x15 => Some(('y', 'Y'))
    case 0x16 => Some(('u', 'U')) case 0x17 => Some(('i', 'I')) case 0x18 => Some(('o', 'O'))
    case 0x19 => Some(('p', 'P')) case 0x1A => Some(('[', '{')) case 0x1B => Some((']', '}'))
    case 0x2B => Some(('\\', '|')) case 0x1E => Some(('a', 'A')) case 0x1F => Some(('s', 'S'))
    case 0x20 => Some(('d', 'D')) case 0x21 => Some(('f', 'F')) case 0x22 => Some(('g', 'G'))
    case 0x23 => Some(('h', 'H')) case 0x24 => Some(('j', 'J')) case 0x25 => Some(('k', 'K'))
    case 0x26 => Some(('l', 'L')) case 0x27 => Some((';', ':')) case 0x28 => Some(('\'', '"'))
    case 0x29 => Some(('`', '~')) case 0x2C => Some(('z', 'Z')) case 0x2D => Some(('x', 'X'))
    case 0x2E => Some(('c', 'C')) case 0x2F => Some(('v', 'V')) case 0x30 => Some(('b', 'B'))
    case 0x31 => Some(('n', 'N')) case 0x32 => Some(('m', 'M')) case 0x33 => Some((',', '<'))
    case 0x34 => Some(('.', '>')) case 0x35 => Some(('/', '?'))
    case _ => None
  }

  /** The numeric keypad in number mode (lines 227-237). */
  function Keypad(sc: Scancode): Option<char> {
    match sc
    case 0x47 => Some('7') case 0x48 => Some('8') case 0x49 => Some('9')
    case 0x4B => Some('4') case 0x4C => Some('5') case 0x4D => Some('6')
    case 0x4F => Some('1') case 0x50 => Some('2') case 0x51 => Some('3')
    case 0x52 => Some('0') case 0x53 => Some('.')
    case _ => None
  }

  /** The character a non-modifier scancode produces in state `st` under modifiers `m`. */
  function KeyChar(st: State, m: Modifiers, sc: Scancode): Option<char> {
    if st == Neutral && ShiftPair(sc).Some? then
      Some(if Shifted(m) then ShiftPair(sc).value.1 else ShiftPair(sc).value.0)
    else if st == Neutral && Keypad(sc).Some? then
      if NumLocked(m) then Some(Keypad(sc).value) else None
    else if st == E0 && sc == 0x35 then Some('/')
    else if st == Neutral && sc == 0x39 then Some(' ')
    else if sc == 0x1C then Some('\n')
    else if st == Neutral && sc == 0x0E then Some(8 as char)
    else if st == Neutral && sc == 0x0F then Some('\t')
    else None
  }

  /** The codes `advance` handles before looking for a character: modifiers and locks. */
  predicate IsControlCode(st: State, sc: Scancode) {
    ModifierKey(st, sc).Some? || (st == Neutral && sc in {0x3A, 0xBA, 0x45, 0xC5})
  }

  predicate IsLower(c: char) { 'a' <= c <= 'z' }
  predicate IsUpper(c: char) { 'A' <= c <= 'Z' }

  /** Every letter key pairs a lower-case letter with its upper-case counterpart. */
  lemma LetterPairsDifferInCase(sc: Scancode)
    requires ShiftPair(sc).Some? && IsLower(ShiftPair(sc).value.0)
    ensures IsUpper(ShiftPair(sc).value.1)
    ensures ShiftPair(sc).value.1 as int == ShiftPair(sc).value.0 as int - 32
  {
  }

  /**
   * Letter keys give the lower-case letter when not `shifted` and the upper-case one when
   * `shifted`; so toggling CAPS LOCK swaps the case of every letter.
   */
  lemma {:induction false} LettersFollowShift(m: Modifiers, sc: Scancode)
    requires ShiftPair(sc).Some? && IsLower(ShiftPair(sc).value.0)
    ensures KeyChar(Neutral, m, sc).Some?
    ensures var c := KeyChar(Neutral, m, sc).value;
            && (Shifted(m) ==> IsUpper(c) && c as int == ShiftPair(sc).value.0 as int - 32)
            && (!Shifted(m) ==> IsLower(c))
            && KeyChar(Neutral, Toggle(m, CAPS_LOCK), sc).value != c
  {
    CapsLockInvertsShifted(m);
    LetterPairsDifferInCase(sc);
  }

  /** The keypad yields a digit or '.' in number mode, and nothing otherwise. */
  lemma KeypadNeedsNumLock(m: Modifiers, sc: Scancode)
    requires Keypad(sc).Some?
    ensures KeyChar(Neutral, m, sc).Some? <==> NumLocked(m)
    ensures NumLocked(m) ==> var c := KeyChar(Neutral, m, sc).value; '0' <= c <= '9' || c == '.'
  {
  }

  /** After the 0xE0 prefix only keypad '/' and keypad Enter produce a character. */
  lemma ExtendedCodesYieldLittle(m: Modifiers, sc: Scancode)
    ensures KeyChar(E0, m, sc).Some? <==> sc == 0x35 || sc == 0x1C
    ensures KeyChar(E0, m, 0x35) == Some('/') && KeyChar(E0, m, 0x1C) == Some('\n')
  {
  }

  /** No modifier or lock code is also a character key. */
  lemma ControlCodesAreNotCharacters(st: State, m: Modifiers, sc: Scancode)
    requires IsControlCode(st, sc)
    ensures KeyChar(st, m, sc) == None
  {
  }

  /** Both characters of every key pair are printable ASCII. */
  lemma ShiftPairIsPrintable(sc: Scancode)
    requires ShiftPair(sc).Some?
    ensures ' ' <= ShiftPair(sc).value.0 <= '~' && ' ' <= ShiftPair(sc).value.1 <= '~'
  {
  }

  /**
   * Every character the layout produces is printable ASCII or one of backspace, line feed
   * and tab.
   */
  lemma KeyCharIsAscii(st: State, m: Modifiers, sc: Scancode)
    requires KeyChar(st, m, sc).Some?
    ensures var c := KeyChar(st, m, sc).value;
            c == 8 as char || c == '\n' || c == '\t' || ' ' <= c <= '~'
  {
    if st == Neutral && ShiftPair(sc).Some? {
      ShiftPairIsPrintable(sc);
    }
  }

  /** The whole state of the layout: what `Qwerty`'s fields hold. */
  datatype Keyboard = Keyboard(modifiers: Modifiers, state: State, numlockRepeating: bool, capslockRepeating: bool)

  /**
   * One scancode fed to the layout: the new state and the character produced, in the
   * order `advance` tests the codes.
   */
  function Step(k: Keyboard, sc: Scancode): (Keyboard, Option<char>) {
    var k' := k.(state := if k.state == Neutral && sc == 0xE0 then E0 else Neutral);
    var key := ModifierKey(k.state, sc);
    if key.Some? then
      (k'.(modifiers := Apply(k.modifiers, key.value)), None)
    else if k.state == Neutral && sc == 0x3A then
      if k.capslockRepeating then (k', None)
      else (k'.(capslockRepeating := true, modifiers := Toggle(k.modifiers, CAPS_LOCK)), None)
    else if k.state == Neutral && sc == 0xBA then
      (k'.(capslockRepeating := false), None)
    else if k.state == Neutral && sc == 0x45 then
      if k.numlockRepeating then (k', None)
      else (k'.(numlockRepeating := true, modifiers := Toggle(k.modifiers, NUM_LOCK)), None)
    else if k.state == Neutral && sc == 0xC5 then
      (k'.(numlockRepeating := false), None)
    else
      (k', KeyChar(k.state, k.modifiers, sc))
  }

  /** The escape state: E0 exactly after 0xE0 in Neutral, whatever else the code does. */
  lemma StepTracksEscape(k: Keyboard, sc: Scancode)
    ensures Step(k, sc).0.state == if k.state == Neutral && sc == 0xE0 then E0 else Neutral
  {
  }

  /**
   * A modifier make or break code applies its event to the modifiers (see
   * `ApplyChangesOnlyItsFlag`); the locks do not change and no character is produced.
   */
  lemma ModifierKeysSetTheirFlag(k: Keyboard, sc: Scancode)
    requires ModifierKey(k.state, sc).Some?
    ensures var (k', r) := Step(k, sc);
            var e := ModifierKey(k.state, sc).value;
            && r == None
            && k'.modifiers == Apply(k.modifiers, e)
            && k'.capslockRepeating == k.capslockRepeating && k'.numlockRepeating == k.numlockRepeating
  {
  }

  /**
   * CAPS LOCK toggles on its first make code only: repeats while the key is held change
   * nothing, and the break code re-arms it. NUM LOCK behaves the same way.
   */
  lemma LocksToggleOncePerPress(k: Keyboard)
    requires k.state == Neutral
    ensures var (k', r) := Step(k, 0x3A);
            && r == None && k'.capslockRepeating && k'.numlockRepeating == k.numlockRepeating
            && k'.modifiers == if k.capslockRepeating then k.modifiers else Toggle(k.modifiers, CAPS_LOCK)
    ensures var (k', r) := Step(k, 0xBA);
            r == None && !k'.capslockRepeating && k'.modifiers == k.modifiers
    ensures var (k', r) := Step(k, 0x45);
            && r == None && k'.numlockRepeating && k'.capslockRepeating == k.capslockRepeating
            && k'.modifiers == if k.numlockRepeating then k.modifiers else Toggle(k.modifiers, NUM_LOCK)
    ensures var (k', r) := Step(k, 0xC5);
            r == None && !k'.numlockRepeating && k'.modifiers == k.modifiers
  {
  }

  /** Every other code leaves modifiers and locks alone and yields its `KeyChar`. */
  lemma CharacterKeysKeepModifiers(k: Keyboard, sc: Scancode)
    requires !IsControlCode(k.state, sc)
    ensures var (k', r) := Step(k, sc);
            && r == KeyChar(k.state, k.modifiers, sc)
            && k'.modifiers == k.modifiers
            && k'.capslockRepeating == k.capslockRepeating && k'.numlockRepeating == k.numlockRepeating
  {
  }

  /** `Qwerty`: the modifiers, the escape state, and whether each lock key is held down. */
  class Qwerty {
    var modifiers: Modifiers
    var state: State
    var numlockRepeating: bool
    var capslockRepeating: bool

    function Contents(): Keyboard
      reads this
    {
      Keyboard(modifiers, state, numlockRepeating, capslockRepeating)
    }

    /** `Qwerty::new`: no modifier, no lock, not inside an escape sequence. */
    constructor ()
      ensures Contents() == Keyboard(EMPTY, Neutral, false, false)
    {
      modifiers := EMPTY;
      state := Neutral;
      numlockRepeating := false;
      capslockRepeating := false;
    }

    /** `advance`: feeds one scancode, as `Step` describes. */
    method Advance(sc: Scancode) returns (r: Option<char>)
      modifies this
      ensures (Contents(), r) == Step(old(Contents()), sc)
    {
      var st := state;
      state := if st == Neutral && sc == 0xE0 then E0 else Neutral;
      var key := ModifierKey(st, sc);
      if key.Some? {
        modifiers := Apply(modifiers, key.value);
        return None;
      }
      if st == Neutral && sc == 0x3A {
        if !capslockRepeating {
          capslockRepeating := true;
          modifiers := Toggle(modifiers, CAPS_LOCK);
        }
        return None;
      } else if st == Neutral && sc == 0xBA {
        capslockRepeating := false;
        return None;
      } else if st == Neutral && sc == 0x45 {
        if !numlockRepeating {
          numlockRepeating := true;
          modifiers := Toggle(modifiers, NUM_LOCK);
        }
        return None;
      } else if st == Neutral && sc == 0xC5 {
        numlockRepeating := false;
        return None;
      }
      r := KeyChar(st, modifiers, sc);
    }
  }

  /**
   * Holding CAPS LOCK down sends its make code repeatedly: two in a row toggle the lock
   * once, not twice.
   */
  method HoldCapsLock(q: Qwerty) returns (r1: Option<char>, r2: Option<char>)
    requires q.state == Neutral && !q.capslockRepeating
    modifies q
    ensures r1 == None && r2 == None
    ensures q.modifiers == Toggle(old(q.modifiers), CAPS_LOCK) && q.capslockRepeating
  {
    r1 := q.Advance(0x3A);
    r2 := q.Advance(0x3A);
  }
}
