/** Keys, modifiers and triggers of the keymap. */
module Keys {
  import opened Wrappers

  datatype Side = LeftSide | RightSide

  datatype Modifiers = Modifiers(
    shift: bool, ctrl: bool, alt: bool, command: bool,
    shiftSide: Option<Side>, ctrlSide: Option<Side>, altSide: Option<Side>, commandSide: Option<Side>)

  function NoModifiers(): Modifiers {
    Modifiers(false, false, false, false, None, None, None, None)
  }

  type UpperLetter = c: char | 'A' <= c <= 'Z' witness 'A'
  type DecimalDigit = c: char | '0' <= c <= '9' witness '0'

  type FunctionNumber = n: int | 1 <= n <= 12 witness 1

  /** The physical keys of the grammar: letters, digits, function keys, and the keys with a name of their own. */
  datatype PhysicalKey =
    | Letter(letter: UpperLetter)
    | Digit(digit: DecimalDigit)
    | Function(number: FunctionNumber)
    | Named(name: NamedKey)

  datatype NamedKey =
    | Backquote | Backslash | BracketLeft | BracketRight | Comma | Equal | Minus | Period | Quote | Semicolon | Slash
    | ArrowUp | ArrowDown | ArrowRight | ArrowLeft | Delete | Home | End | PageUp | PageDown | Space | Insert | Enter
    | Tab | Backspace | Escape

  datatype TriggerKey = Unicode(ch: char) | Physical(key: PhysicalKey) | ScrollUp | ScrollDown | CatchAll

  datatype Trigger = Trigger(modifiers: Modifiers, key: TriggerKey)

  datatype BindingFlags = BindingFlags(consumed: bool, all: bool, global: bool, performable: bool)
}
