/**
 * The keystroke encoder of the gdb terminal pane: a key event becomes the bytes a
 * terminal would send for it. Printable characters go out as themselves, Ctrl
 * combinations follow the ASCII caret convention (the character's code minus 64), and
 * cursor and editing keys use the control sequences of ECMA-48 (CUU, CUD, CUF, CUB in
 * sections 8.3.22, 8.3.19, 8.3.20 and 8.3.18, CBT in 8.3.7) and the VT220 `ESC [ n ~` keys.
 */
module Gdbtty {
  import opened Options
  import opened Numeric

  datatype KeyCode =
    | Char(ch: char)
    | Enter | Backspace | Left | Right | Up | Down | Tab | Home | End
    | PageUp | PageDown | BackTab | Delete | Insert | Esc
    | OtherKey(id: nat)      // function keys, media keys and the other codes the pane ignores

  /** Modifier bits as the terminal library reports them: SHIFT 1, CONTROL 2, ALT 4, and higher bits. */
  type Modifiers = bv8

  const SHIFT: Modifiers := 1
  const CONTROL: Modifiers := 2
  const ALT: Modifiers := 4

  datatype KeyEvent = KeyEvent(code: KeyCode, modifiers: Modifiers)

  /** The line ending the Enter key sends depends on the platform the program was built for. */
  datatype Platform = Unix | Windows

  const ESC: byte := 27

  /** `char::to_ascii_uppercase`: only `a`..`z` change. */
  function AsciiUpper(c: char): char
  {
    if 'a' <= c <= 'z' then (c as int - 32) as char else c
  }

  /** `ch as u8`: the low 8 bits of the code point. */
  function LowByte(c: char): byte
  {
    (c as int) % 256
  }

  /**
   * The byte Ctrl plus the character sends: the caret rule (code minus 64) on the whole
   * upper-cased range `@`..`_`, NUL for the `2` and space aliases, the codes 27..31 for the
   * digit aliases `3`..`7` and `-`, and the low byte for anything else.
   */
  function ControlByte(ch: char): (b: byte)
    ensures '@' <= AsciiUpper(ch) <= '_' ==> b == AsciiUpper(ch) as int - 64
    ensures ch in {'2', ' '} ==> b == 0
    ensures '3' <= ch <= '7' ==> b == ch as int - '3' as int + 27
    ensures ch == '-' ==> b == 31
    ensures !('@' <= AsciiUpper(ch) <= '_') && ch !in {'2', '3', '4', '5', '6', '7', ' ', '-'} ==> b == LowByte(ch)
  {
    var upper := AsciiUpper(ch);
    match upper
    case '2' | '@' | ' ' => 0
    case '3' | '[' => 27
    case '4' | '\\' => 28
    case '5' | ']' => 29
    case '6' | '^' => 30
    case '7' | '-' | '_' => 31
    case _ => if 'A' <= upper <= '_' then upper as int - 64 else LowByte(ch)
  }

  /** `handle_pane_key_event`: the bytes to send, or nothing for a key the pane does not handle. */
  function HandlePaneKeyEvent(key: KeyEvent, platform: Platform): (r: Option<seq<byte>>)
    ensures r.None? <==> key.code.OtherKey?
    ensures r.Some? ==> |r.value| > 0
    ensures key.code.Char? ==> |r.value| == 1
  {
    match key.code
    case Char(ch) => Some(if key.modifiers == CONTROL then [ControlByte(ch)] else [LowByte(ch)])
    case Enter => Some(if platform == Unix then [10] else [13, 10])
    case Backspace => Some([8])
    case Left => Some([ESC, 91, 68])
    case Right => Some([ESC, 91, 67])
    case Up => Some([ESC, 91, 65])
    case Down => Some([ESC, 91, 66])
    case Tab => Some([9])
    case Home => Some([ESC, 91, 72])
    case End => Some([ESC, 91, 70])
    case PageUp => Some([ESC, 91, 53, 126])
    case PageDown => Some([ESC, 91, 54, 126])
    case BackTab => Some([ESC, 91, 90])
    case Delete => Some([ESC, 91, 51, 126])
    case Insert => Some([ESC, 91, 50, 126])
    case Esc => Some([ESC])
    case OtherKey(_) => None
  }

  /** Without exactly the CONTROL modifier (Shift, Alt, Ctrl+Alt, ...) a character is its low byte. */
  lemma PlainCharIsLowByte(ch: char, mods: Modifiers, platform: Platform)
    requires mods != CONTROL
    ensures HandlePaneKeyEvent(KeyEvent(Char(ch), mods), platform) == Some([(ch as int) % 256])
    ensures ch as int < 256 ==> HandlePaneKeyEvent(KeyEvent(Char(ch), mods), platform) == Some([ch as int])
  {
  }

  /**
   * The caret rule holds on the whole range `@`..`_`: the special cases listed for `@`,
   * `[`, `\`, `]`, `^` and `_` agree with code minus 64, so Ctrl+c sends c - 64 there.
   */
  lemma {:induction false} CaretRule(c: char, platform: Platform)
    requires '@' <= c <= '_'
    ensures HandlePaneKeyEvent(KeyEvent(Char(c), CONTROL), platform) == Some([c as int - 64])
  {
    assert AsciiUpper(c) == c;
  }

  /** Letters are case-insensitive under Ctrl: Ctrl+a and Ctrl+A both send 1, and so on to 26. */
  lemma ControlLetter(c: char, platform: Platform)
    requires 'a' <= c <= 'z'
    ensures HandlePaneKeyEvent(KeyEvent(Char(c), CONTROL), platform) == Some([c as int - 96])
    ensures HandlePaneKeyEvent(KeyEvent(Char(c), CONTROL), platform) == HandlePaneKeyEvent(KeyEvent(Char(AsciiUpper(c)), CONTROL), platform)
  {
  }

  /** The digit and punctuation aliases of the control codes. */
  lemma ControlAliases(platform: Platform)
    ensures HandlePaneKeyEvent(KeyEvent(Char('2'), CONTROL), platform) == Some([0])
    ensures HandlePaneKeyEvent(KeyEvent(Char(' '), CONTROL), platform) == Some([0])
    ensures HandlePaneKeyEvent(KeyEvent(Char('3'), CONTROL), platform) == Some([27])
    ensures HandlePaneKeyEvent(KeyEvent(Char('4'), CONTROL), platform) == Some([28])
    ensures HandlePaneKeyEvent(KeyEvent(Char('5'), CONTROL), platform) == Some([29])
    ensures HandlePaneKeyEvent(KeyEvent(Char('6'), CONTROL), platform) == Some([30])
    ensures HandlePaneKeyEvent(KeyEvent(Char('7'), CONTROL), platform) == Some([31])
    ensures HandlePaneKeyEvent(KeyEvent(Char('-'), CONTROL), platform) == Some([31])
  {
  }

  /** Any other character under Ctrl (`1`, `8`, `{`, non-ASCII, ...) is sent as its low byte. */
  lemma ControlOtherIsRaw(ch: char, platform: Platform)
    requires !('@' <= AsciiUpper(ch) <= '_')
    requires ch !in {'2', '3', '4', '5', '6', '7', ' ', '-'}
    ensures HandlePaneKeyEvent(KeyEvent(Char(ch), CONTROL), platform) == Some([LowByte(ch)])
  {
    assert AsciiUpper(ch) == ch;
  }

  // ---------------------------------------------------------------- the special keys, decoded

  /** The keys with a fixed multi-byte or control sequence. */
  predicate IsSpecial(k: KeyCode)
  {
    !k.Char? && !k.OtherKey?
  }

  /** A terminal-side reading of the fixed sequences, used as the encoder's partner. */
  function SpecialKeyOf(bytes: seq<byte>, platform: Platform): Option<KeyCode>
  {
    if bytes == (if platform == Unix then [10] else [13, 10]) then Some(Enter)
    else if bytes == [8] then Some(Backspace)
    else if bytes == [9] then Some(Tab)
    else if bytes == [ESC] then Some(Esc)
    else if |bytes| == 3 && bytes[..2] == [ESC, 91] then
      match bytes[2]
      case 65 => Some(Up)       // CUU, cursor up
      case 66 => Some(Down)     // CUD, cursor down
      case 67 => Some(Right)    // CUF, cursor forward
      case 68 => Some(Left)     // CUB, cursor backward
      case 72 => Some(Home)
      case 70 => Some(End)
      case 90 => Some(BackTab)  // CBT, cursor backward tabulation
      case _ => None
    else if |bytes| == 4 && bytes[..2] == [ESC, 91] && bytes[3] == 126 then
      match bytes[2]
      case 53 => Some(PageUp)
      case 54 => Some(PageDown)
      case 51 => Some(Delete)
      case 50 => Some(Insert)
      case _ => None
    else None
  }

  /**
   * Every special key's sequence reads back as that key, whatever the modifiers, so no two
   * special keys share a sequence.
   */
  lemma SpecialKeysDecode(k: KeyCode, mods: Modifiers, platform: Platform)
    requires IsSpecial(k)
    ensures HandlePaneKeyEvent(KeyEvent(k, mods), platform).Some?
    ensures SpecialKeyOf(HandlePaneKeyEvent(KeyEvent(k, mods), platform).value, platform) == Some(k)
  {
  }

  lemma SpecialKeysDistinct(k1: KeyCode, k2: KeyCode, platform: Platform)
    requires IsSpecial(k1) && IsSpecial(k2) && k1 != k2
    ensures HandlePaneKeyEvent(KeyEvent(k1, 0), platform) != HandlePaneKeyEvent(KeyEvent(k2, 0), platform)
  {
    SpecialKeysDecode(k1, 0, platform);
    SpecialKeysDecode(k2, 0, platform);
  }

  /** The cursor keys and BackTab are the three-byte CSI sequences `ESC [ F` of ECMA-48. */
  lemma CursorKeysAreCsi(mods: Modifiers, platform: Platform)
    ensures HandlePaneKeyEvent(KeyEvent(Up, mods), platform) == Some([ESC, '[' as int, 'A' as int])
    ensures HandlePaneKeyEvent(KeyEvent(Down, mods), platform) == Some([ESC, '[' as int, 'B' as int])
    ensures HandlePaneKeyEvent(KeyEvent(Right, mods), platform) == Some([ESC, '[' as int, 'C' as int])
    ensures HandlePaneKeyEvent(KeyEvent(Left, mods), platform) == Some([ESC, '[' as int, 'D' as int])
    ensures HandlePaneKeyEvent(KeyEvent(BackTab, mods), platform) == Some([ESC, '[' as int, 'Z' as int])
    ensures HandlePaneKeyEvent(KeyEvent(Home, mods), platform) == Some([ESC, '[' as int, 'H' as int])
    ensures HandlePaneKeyEvent(KeyEvent(End, mods), platform) == Some([ESC, '[' as int, 'F' as int])
  {
  }

  /** The editing keys are the VT220 sequences `ESC [ n ~`: PageUp 5, PageDown 6, Delete 3, Insert 2. */
  lemma EditingKeysAreTilde(mods: Modifiers, platform: Platform)
    ensures HandlePaneKeyEvent(KeyEvent(PageUp, mods), platform) == Some([ESC, '[' as int, '5' as int, '~' as int])
    ensures HandlePaneKeyEvent(KeyEvent(PageDown, mods), platform) == Some([ESC, '[' as int, '6' as int, '~' as int])
    ensures HandlePaneKeyEvent(KeyEvent(Delete, mods), platform) == Some([ESC, '[' as int, '3' as int, '~' as int])
    ensures HandlePaneKeyEvent(KeyEvent(Insert, mods), platform) == Some([ESC, '[' as int, '2' as int, '~' as int])
  {
  }

  /** Enter is LF on unix and CR LF on windows; Backspace, Tab and Esc are BS, HT and ESC. */
  lemma ControlKeys(mods: Modifiers)
    ensures HandlePaneKeyEvent(KeyEvent(Enter, mods), Unix) == Some(['\n' as int])
    ensures HandlePaneKeyEvent(KeyEvent(Enter, mods), Windows) == Some(['\r' as int, '\n' as int])
    ensures forall p: Platform :: HandlePaneKeyEvent(KeyEvent(Backspace, mods), p) == Some([8])
    ensures forall p: Platform :: HandlePaneKeyEvent(KeyEvent(Tab, mods), p) == Some([9])
    ensures forall p: Platform :: HandlePaneKeyEvent(KeyEvent(Esc, mods), p) == Some([27])
  {
  }
}
