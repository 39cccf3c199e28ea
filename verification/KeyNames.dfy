/**
 The spelling of single keys: canonical names, their aliases, and the key a part of a trigger names.
 */
module KeyNames {
  import opened Wrappers
  import opened Sequences
  import opened Keys

  datatype TriggerError = InvalidFormat

  // ----- Names

  function CanonicalNamed(key: NamedKey): string {
    match key
    case Backquote => "Backquote"
    case Backslash => "Backslash"
    case BracketLeft => "BracketLeft"
    case BracketRight => "BracketRight"
    case Comma => "Comma"
    case Equal => "Equal"
    case Minus => "Minus"
    case Period => "Period"
    case Quote => "Quote"
    case Semicolon => "Semicolon"
    case Slash => "Slash"
    case ArrowUp => "ArrowUp"
    case ArrowDown => "ArrowDown"
    case ArrowRight => "ArrowRight"
    case ArrowLeft => "ArrowLeft"
    case Delete => "Delete"
    case Home => "Home"
    case End => "End"
    case PageUp => "PageUp"
    case PageDown => "PageDown"
    case Space => "Space"
    case Insert => "Insert"
    case Enter => "Enter"
    case Tab => "Tab"
    case Backspace => "Backspace"
    case Escape => "Escape"
  }

  /** The key with this canonical name or alias, looked up under its first letter. */
  function NamedOf(s: string): Option<NamedKey> {
    if s == "" then None
    else if s[0] == 'B' || s[0] == 'b' then NamedB(s)
    else if s[0] == 'E' || s[0] == 'e' then NamedE(s)
    else if s[0] == 'P' || s[0] == 'p' then NamedP(s)
    else if s[0] == 'S' || s[0] == 's' then NamedS(s)
    else if s[0] == 'A' || s[0] == 'a' then NamedA(s)
    else NamedAlone(s)
  }

  function NamedB(s: string): Option<NamedKey> {
    if s == "Backquote" || s == "backquote" then Some(Backquote)
    else if s == "Backslash" || s == "backslash" then Some(Backslash)
    else if s == "Backspace" || s == "backspace" then Some(Backspace)
    else NamedBracket(s)
  }

  function NamedBracket(s: string): Option<NamedKey> {
    if s == "BracketLeft" || s == "bracket_left" then Some(BracketLeft)
    else if s == "BracketRight" || s == "bracket_right" then Some(BracketRight)
    else None
  }

  function NamedE(s: string): Option<NamedKey> {
    if s == "Equal" || s == "equal" then Some(Equal)
    else if s == "End" || s == "end" then Some(End)
    else if s == "Enter" || s == "enter" then Some(Enter)
    else if s == "Escape" || s == "escape" then Some(Escape)
    else None
  }

  function NamedP(s: string): Option<NamedKey> {
    if s == "Period" || s == "period" then Some(Period)
    else if s == "PageUp" || s == "page_up" then Some(PageUp)
    else if s == "PageDown" || s == "page_down" then Some(PageDown)
    else None
  }

  function NamedS(s: string): Option<NamedKey> {
    if s == "Semicolon" || s == "semicolon" then Some(Semicolon)
    else if s == "Slash" || s == "slash" then Some(Slash)
    else if s == "Space" || s == "space" then Some(Space)
    else None
  }

  function NamedA(s: string): Option<NamedKey> {
    if s == "ArrowUp" || s == "arrow_up" then Some(ArrowUp)
    else if s == "ArrowDown" || s == "arrow_down" then Some(ArrowDown)
    else if s == "ArrowRight" || s == "arrow_right" then Some(ArrowRight)
    else if s == "ArrowLeft" || s == "arrow_left" then Some(ArrowLeft)
    else None
  }

  function NamedAlone(s: string): Option<NamedKey> {
    if s == "Comma" || s == "comma" then Some(Comma)
    else if s == "Minus" || s == "minus" then Some(Minus)
    else if s == "Quote" || s == "quote" then Some(Quote)
    else if s == "Delete" || s == "delete" then Some(Delete)
    else NamedOther(s)
  }

  function NamedOther(s: string): Option<NamedKey> {
    if s == "Home" || s == "home" then Some(Home)
    else if s == "Insert" || s == "insert" then Some(Insert)
    else if s == "Tab" || s == "tab" then Some(Tab)
    else None
  }

  function FunctionName(n: FunctionNumber): string {
    if n < 10 then ['F', '0' + n as char] else ['F', '1', '0' + (n - 10) as char]
  }

  function FunctionOf(s: string): Option<FunctionNumber> {
    if |s| == 2 && (s[0] == 'F' || s[0] == 'f') && '1' <= s[1] <= '9' then Some((s[1] - '0') as int)
    else if |s| == 3 && (s[0] == 'F' || s[0] == 'f') && s[1] == '1'
      && '0' <= s[2] <= '2' then Some(10 + (s[2] - '0') as int)
    else None
  }

  function CanonicalName(key: PhysicalKey): string {
    match key
    case Letter(c) => "Key" + [c]
    case Digit(c) => "Digit" + [c]
    case Function(n) => FunctionName(n)
    case Named(k) => CanonicalNamed(k)
  }

  function UpperOf(c: char): UpperLetter
    requires 'a' <= c <= 'z'
  {
    c - 'a' + 'A'
  }

  /**
   The physical key of a canonical name or an alias. Every other word starting like a letter or a digit
   key is refused.
   */
  function PhysicalOf(s: string): Result<Option<PhysicalKey>, TriggerError> {
    if |s| == 4 && StartsWith(s, "Key") && 'A' <= s[3] <= 'Z' then Ok(Some(Letter(s[3])))
    else if |s| == 5 && StartsWith(s, "key_") && 'a' <= s[4] <= 'z' then Ok(Some(Letter(UpperOf(s[4]))))
    else if |s| == 6 && StartsWith(s, "Digit") && '0' <= s[5] <= '9' then Ok(Some(Digit(s[5])))
    else if |s| == 7 && StartsWith(s, "digit_") && '0' <= s[6] <= '9' then Ok(Some(Digit(s[6])))
    else if FunctionOf(s).Some? then Ok(Some(Function(FunctionOf(s).value)))
    else if NamedOf(s).Some? then Ok(Some(Named(NamedOf(s).value)))
    else if StartsWith(s, "Key") || StartsWith(s, "Digit") then Err(InvalidFormat)
    else Ok(None)
  }

  function LowerAscii(s: string): string {
    seq(|s|, i requires 0 <= i < |s| => if 'A' <= s[i] <= 'Z' then s[i] - 'A' + 'a' else s[i])
  }

  /** The key that a part of a trigger names. */
  function KeyOf(part: string): Result<TriggerKey, TriggerError> {
    if part == "physical:zero" then Ok(Physical(Digit('0')))
    else
      match PhysicalOf(part)
      case Err(e) => Err(e)
      case Ok(Some(key)) => Ok(Physical(key))
      case Ok(None) =>
        if LowerAscii(part) == "scroll_up" then Ok(ScrollUp)
        else if LowerAscii(part) == "scroll_down" then Ok(ScrollDown)
        else if LowerAscii(part) == "catch_all" then Ok(CatchAll)
        else if LowerAscii(part) == "space" then Ok(Unicode(' '))
        else if |part| == 1 then Ok(Unicode(part[0]))
        else Err(InvalidFormat)
  }

  function KeyText(key: TriggerKey): string {
    match key
    case Unicode(ch) => [ch]
    case Physical(k) => CanonicalName(k)
    case ScrollUp => "scroll_up"
    case ScrollDown => "scroll_down"
    case CatchAll => "catch_all"
  }

  // ----- Modifiers

  datatype ModifierKind = Shift | Ctrl | Alt | Command

  function KindOf(s: string): Option<ModifierKind> {
    if s == "shift" then Some(Shift)
    else if s == "ctrl" || s == "control" then Some(Ctrl)
    else if s == "alt" || s == "opt" || s == "option" then Some(Alt)
    else if s == "cmd" || s == "command" || s == "super" then Some(Command)
    else None
  }

  datatype ModifierPart = ModifierPart(kind: ModifierKind, side: Option<Side>)

  /** The modifier that a part of a trigger names, with the side it asks for. */
  function ModifierOf(part: string): Option<ModifierPart> {
    if KindOf(part).Some? then Some(ModifierPart(KindOf(part).value, None))
    else if StartsWith(part, "left_")
      && KindOf(part[5..]).Some? then Some(ModifierPart(KindOf(part[5..]).value, Some(LeftSide)))
    else if StartsWith(part, "right_")
      && KindOf(part[6..]).Some? then Some(ModifierPart(KindOf(part[6..]).value, Some(RightSide)))
    else None
  }

  function KindName(kind: ModifierKind): string {
    match kind
    case Shift => "shift"
    case Ctrl => "ctrl"
    case Alt => "alt"
    case Command => "cmd"
  }

  function ModifierName(part: ModifierPart): string {
    match part.side
    case None => KindName(part.kind)
    case Some(LeftSide) => "left_" + KindName(part.kind)
    case Some(RightSide) => "right_" + KindName(part.kind)
  }

  // ----- Every name is read back

  predicate PlainChar(c: char) {
    'A' <= c <= 'Z' || 'a' <= c <= 'z' || '0' <= c <= '9' || c == '_'
  }

  /** Made of ASCII letters, digits and underscores. */
  predicate Plain(s: string) {
    forall i :: 0 <= i < |s| ==> PlainChar(s[i])
  }

  ghost predicate ReadsBack(key: NamedKey) {
    var name := CanonicalNamed(key);
    && NamedOf(name) == Some(key) && Plain(name) && |name| >= 3 && 'A' <= name[0] <= 'Z'
    && name[0] != 'K' && name[0] != 'F' && (name[0] == 'D' ==> name[1] != 'i')
  }

  lemma ReadBack(key: NamedKey)
    requires key == Backquote || key == Backslash || key == Backspace
    ensures ReadsBack(key)
  {
    hide NamedE, NamedP, NamedS, NamedA, NamedAlone, NamedBracket;
  }

  lemma ReadBracket(key: NamedKey)
    requires key == BracketLeft || key == BracketRight
    ensures ReadsBack(key)
  {
    hide NamedB, NamedE, NamedP, NamedS, NamedA, NamedAlone;
    NotBack(key);
  }

  lemma NotBack(key: NamedKey)
    requires key == BracketLeft || key == BracketRight
    ensures var name := CanonicalNamed(key); NamedB(name) == NamedBracket(name)
  {
    hide NamedBracket;
  }

  lemma ReadE(key: NamedKey)
    requires key == Equal || key == End || key == Enter || key == Escape
    ensures ReadsBack(key)
  {
    hide NamedB, NamedP, NamedS, NamedA, NamedAlone;
  }

  lemma ReadP(key: NamedKey)
    requires key == Period || key == PageUp || key == PageDown
    ensures ReadsBack(key)
  {
    hide NamedB, NamedE, NamedS, NamedA, NamedAlone;
  }

  lemma ReadS(key: NamedKey)
    requires key == Semicolon || key == Slash || key == Space
    ensures ReadsBack(key)
  {
    hide NamedB, NamedE, NamedP, NamedA, NamedAlone;
  }

  lemma ReadA(key: NamedKey)
    requires key == ArrowUp || key == ArrowDown || key == ArrowRight || key == ArrowLeft
    ensures ReadsBack(key)
  {
    hide NamedB, NamedE, NamedP, NamedS, NamedAlone;
  }

  lemma ReadAlone(key: NamedKey)
    requires key == Comma || key == Minus || key == Quote || key == Delete
    ensures ReadsBack(key)
  {
    hide NamedB, NamedE, NamedP, NamedS, NamedA, NamedOther;
  }

  lemma ReadOther(key: NamedKey)
    requires key == Home || key == Insert || key == Tab
    ensures ReadsBack(key)
  {
    hide NamedB, NamedE, NamedP, NamedS, NamedA, NamedAlone;
    NotAlone(key);
  }

  lemma NotAlone(key: NamedKey)
    requires key == Home || key == Insert || key == Tab
    ensures var name := CanonicalNamed(key); NamedAlone(name) == NamedOther(name)
  {
    hide NamedOther;
  }

  lemma NamedRead(key: NamedKey)
    ensures ReadsBack(key)
  {
    hide ReadsBack;
    match key {
      case Backquote | Backslash | Backspace => ReadBack(key);
      case BracketLeft | BracketRight => ReadBracket(key);
      case Equal | End | Enter | Escape => ReadE(key);
      case Period | PageUp | PageDown => ReadP(key);
      case Semicolon | Slash | Space => ReadS(key);
      case ArrowUp | ArrowDown | ArrowRight | ArrowLeft => ReadA(key);
      case Comma | Minus | Quote | Delete => ReadAlone(key);
      case Home | Insert | Tab => ReadOther(key);
    }
  }

  lemma WordsAreNotNamed()
    ensures NamedOf("scroll_up") == NamedOf("scroll_down") == NamedOf("catch_all") == None
  {}

  lemma CharIsNotNamed(ch: char)
    ensures NamedOf([ch]) == None
  {}

  lemma LowerWords()
    ensures LowerAscii("scroll_up") == "scroll_up" && LowerAscii("scroll_down") == "scroll_down"
      && LowerAscii("catch_all") == "catch_all"
  {}

  lemma PhysicalRead(key: PhysicalKey)
    ensures PhysicalOf(CanonicalName(key)) == Ok(Some(key))
    ensures CanonicalName(key) != "" && 'A' <= CanonicalName(key)[0] <= 'Z' && Plain(CanonicalName(key))
  {
    hide NamedOf, CanonicalNamed;
    match key
    case Letter(c) =>
    case Digit(c) =>
    case Function(n) =>
      FunctionRead(n);
    case Named(k) =>
      NamedRead(k);
  }

  lemma FunctionRead(n: FunctionNumber)
    ensures FunctionOf(FunctionName(n)) == Some(n)
    ensures |FunctionName(n)| < 4 && FunctionName(n)[0] == 'F' && Plain(FunctionName(n))
  {}

  lemma NoModifierLike(s: string)
    requires KindOf(s).Some?
    ensures |s| >= 3 && (s[0] == 's' || s[0] == 'c' || s[0] == 'a' || s[0] == 'o')
  {}

  lemma WordsAreNotKinds()
    ensures KindOf("scroll_up") == KindOf("scroll_down") == KindOf("catch_all") == None
  {}

  lemma WordsAreNotPhysical()
    ensures PhysicalOf("scroll_up") == PhysicalOf("scroll_down") == PhysicalOf("catch_all") == Ok(None)
  {
    hide NamedOf;
    WordsAreNotNamed();
  }

  lemma WordRead(key: TriggerKey)
    requires key == ScrollUp || key == ScrollDown || key == CatchAll
    ensures KeyOf(KeyText(key)) == Ok(key)
    ensures ModifierOf(KeyText(key)) == None
    ensures KeyText(key) != "" && Plain(KeyText(key))
  {
    hide PhysicalOf, KindOf, LowerAscii;
    WordsAreNotPhysical();
    WordsAreNotKinds();
    LowerWords();
    assert "catch_all"[0] != "scroll_up"[0];
  }

  /** Every key is read back from its text, which is no modifier's. */
  lemma KeyRead(key: TriggerKey)
    ensures KeyOf(KeyText(key)) == Ok(key)
    ensures ModifierOf(KeyText(key)) == None
    ensures KeyText(key) != ""
    ensures key.Unicode? || Plain(KeyText(key))
  {
    hide NamedOf, CanonicalNamed, KindOf, CanonicalName;
    match key
    case Unicode(ch) =>
      CharIsNotNamed(ch);
      if KindOf([ch]).Some? {
        NoModifierLike([ch]);
      }
    case Physical(k) =>
      PhysicalRead(k);
      if KindOf(CanonicalName(k)).Some? {
        NoModifierLike(CanonicalName(k));
      }
    case _ =>
      WordRead(key);
  }

  lemma KindRead(kind: ModifierKind)
    ensures KindOf(KindName(kind)) == Some(kind)
    ensures Plain(KindName(kind))
  {}

  /** So is every modifier. */
  lemma ModifierRead(part: ModifierPart)
    ensures ModifierOf(ModifierName(part)) == Some(part)
    ensures ModifierName(part) != "" && Plain(ModifierName(part))
  {
    hide KindOf, KindName;
    KindRead(part.kind);
    var name := ModifierName(part);
    if part.side.Some? {
      if KindOf(name).Some? {
        NoModifierLike(name);
      }
      assert part.side.value.LeftSide? ==> name[5..] == KindName(part.kind);
      assert part.side.value.RightSide? ==> name[6..] == KindName(part.kind) && name[0] == 'r';
    }
    if part.kind.Shift? || part.side.None? { NoModifierLike(KindName(part.kind)); }
  }
}
