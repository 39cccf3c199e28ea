/**
 Saved terminal history as a sequence of items: characters, forward gaps (section 8.3.20 of ECMA-48),
 styles (section 8.3.117 of ECMA-48), and the OSC records that a fresh capture may carry.
 */
module HistoryGrammar {
  import opened Wrappers
  import opened Sequences

  const MAX_BYTES: nat := 256 * 1024
  const ESC: char := '\U{1B}'
  const BELL: char := '\U{07}'

  /** The length of a character in UTF-8. */
  function Width(c: char): (n: nat)
    ensures n > 0
  {
    if c as int < 0x80 then 1 else if c as int < 0x800 then 2 else if c as int < 0x10000 then 3 else 4
  }

  function Bytes(s: string): nat {
    if s == "" then 0 else Width(s[0]) + Bytes(s[1..])
  }

  /** A character to show: no control but line breaks and tabs. */
  predicate PlainChar(c: char) {
    !(c as int < 32 || 127 <= c as int < 160) || c == '\n' || c == '\r' || c == '\t'
  }

  // ----- Numbers

  predicate IsDigit(c: char) {
    '0' <= c <= '9'
  }

  predicate AllDigits(s: string) {
    forall i :: 0 <= i < |s| ==> IsDigit(s[i])
  }

  function Value(s: string): nat
    requires AllDigits(s)
  {
    if s == "" then 0 else 10 * Value(s[..|s| - 1]) + (s[|s| - 1] - '0') as nat
  }

  /** A number up to the limit, with an optional plus sign. */
  function ParseNumber(s: string, limit: nat): Option<nat> {
    var digits := if |s| > 1 && s[0] == '+' then s[1..] else s;
    if digits != "" && AllDigits(digits) && Value(digits) <= limit then Some(Value(digits)) else None
  }

  // ----- Styles

  function Split(s: string, c: char): (r: seq<string>)
    ensures |r| > 0
    decreases |s|
  {
    var i := IndexOf(s, c);
    if i == |s| then [s] else [s[..i]] + Split(s[i + 1..], c)
  }

  function ParseByte(s: string): Option<nat> {
    ParseNumber(s, 255)
  }

  predicate SimpleCode(n: nat) {
    n <= 9 || 21 <= n <= 25 || 27 <= n <= 37 || 39 <= n <= 47 || n == 49 || n == 53 || n == 55 || n == 59
      || 90 <= n <= 97 || 100 <= n <= 107
  }

  predicate ColorCode(n: nat) {
    n == 38 || n == 48 || n == 58
  }

  predicate IsUnderline(part: string) {
    |part| >= 2 && part[..2] == "4:"
  }

  /** The number of values after a color's mode. */
  function ColorValues(mode: string): Option<nat> {
    if mode == "5" then Some(1) else if mode == "2" then Some(3) else None
  }

  predicate ValuesParse(parts: seq<string>, n: nat) {
    n <= |parts| && forall i :: 0 <= i < n ==> ParseByte(parts[i]).Some?
  }

  predicate ValidParts(parts: seq<string>)
    decreases |parts|
  {
    if parts == [] then true
    else if IsUnderline(parts[0]) then |parts[0]| == 3 && '0' <= parts[0][2] <= '5' && ValidParts(parts[1..])
    else
      var code := if parts[0] == "" then Some(0) else ParseByte(parts[0]);
      if code.None? then false
      else if SimpleCode(code.value) then ValidParts(parts[1..])
      else if ColorCode(code.value) then
        && |parts| > 1 && ColorValues(parts[1]).Some?
        && ValuesParse(parts[2..], ColorValues(parts[1]).value)
        && ValidParts(parts[2 + ColorValues(parts[1]).value..])
      else false
  }

  predicate ValidStyle(parameters: string) {
    ValidParts(Split(parameters, ';'))
  }

  method ValidateSgr(parameters: string) returns (ok: bool)
    ensures ok == ValidStyle(parameters)
  {
    hide ParseNumber, Split, ValuesParse, SimpleCode;
    var parts := Split(parameters, ';');
    while parts != []
      invariant ValidStyle(parameters) == ValidParts(parts)
      decreases |parts|
    {
      var part := parts[0];
      if IsUnderline(part) {
        if !(|part| == 3 && '0' <= part[2] <= '5') {
          return false;
        }
        parts := parts[1..];
        continue;
      }
      var code := if part == "" then Some(0) else ParseByte(part);
      if code.None? {
        return false;
      }
      if SimpleCode(code.value) {
        parts := parts[1..];
      } else if ColorCode(code.value) {
        if |parts| == 1 || ColorValues(parts[1]).None? {
          return false;
        }
        var count := ColorValues(parts[1]).value;
        var parsed := ReadValues(parts[2..], count);
        if !parsed {
          return false;
        }
        ValuesFit(parts[2..], count);
        parts := parts[2 + count..];
      } else {
        return false;
      }
    }
    ok := true;
  }

  lemma ValuesFit(parts: seq<string>, n: nat)
    requires ValuesParse(parts, n)
    ensures n <= |parts|
  {}

  method ReadValues(parts: seq<string>, count: nat) returns (ok: bool)
    ensures ok == ValuesParse(parts, count)
  {
    hide ParseNumber;
    var i := 0;
    while i < count
      invariant 0 <= i <= count && i <= |parts|
      invariant forall k :: 0 <= k < i ==> ParseByte(parts[k]).Some?
    {
      if i == |parts| || ParseByte(parts[i]).None? {
        return false;
      }
      i := i + 1;
    }
    ok := true;
  }

  // ----- Controls

  /** What stands at an escape character, and how long it is. */
  datatype Control = Osc(length: nat) | Gap(length: nat, count: nat) | Style(length: nat)

  predicate ParameterChar(c: char) {
    IsDigit(c) || c == ';' || c == ':'
  }

  function ParametersEnd(s: string, i: nat): (r: nat)
    requires i <= |s|
    ensures i <= r <= |s|
    ensures forall k :: i <= k < r ==> ParameterChar(s[k])
    ensures r < |s| ==> !ParameterChar(s[r])
    decreases |s| - i
  {
    if i == |s| || !ParameterChar(s[i]) then i else ParametersEnd(s, i + 1)
  }

  function OscEnd(s: string, i: nat): (r: nat)
    requires i <= |s|
    ensures i <= r <= |s|
    ensures forall k :: i <= k < r ==> s[k] != BELL && s[k] != ESC
    ensures r < |s| ==> s[r] == BELL || s[r] == ESC
    decreases |s| - i
  {
    if i == |s| || s[i] == BELL || s[i] == ESC then i else OscEnd(s, i + 1)
  }

  function OscAt(s: string): (r: Option<Control>)
    requires |s| >= 2
    ensures r.Some? ==> r.value.Osc? && 2 < r.value.length <= |s|
  {
    var end := OscEnd(s, 2);
    if end == |s| then None
    else if s[end] == BELL then Some(Osc(end + 1))
    else if end + 1 < |s| && s[end + 1] == '\\' then Some(Osc(end + 2))
    else None
  }

  function CommandAt(s: string): (r: Option<Control>)
    requires |s| >= 2
    ensures r.Some? ==> !r.value.Osc? && 2 < r.value.length <= |s|
  {
    var end := ParametersEnd(s, 2);
    var parameters := s[2..end];
    if end == |s| then None
    else if s[end] == 'C' then
      if parameters != "" && AllDigits(parameters)
        && 0 < Value(parameters) <= 65535 then Some(Gap(end + 1, Value(parameters))) else None
    else if s[end] == 'm' && ValidStyle(parameters) then Some(Style(end + 1))
    else None
  }

  /** The control at the start of the text, which must be an escape; OSC records only where they are stripped. */
  function ControlAt(s: string, strip: bool): (r: Option<Control>)
    requires s != "" && s[0] == ESC
    ensures r.Some? ==> 2 < r.value.length <= |s| && |s| >= 2
    ensures r.Some? && r.value.Osc? ==> strip && s[1] == ']'
    ensures r.Some? && !r.value.Osc? ==> s[1] == '['
  {
    if |s| < 2 then None
    else if strip && s[1] == ']' then OscAt(s)
    else if s[1] == '[' then CommandAt(s)
    else None
  }

  // ----- Items

  datatype Item = Char(ch: char) | Command(control: Control, text: string)

  /** The items of a text, one character or control after another. */
  function Items(s: string, strip: bool): Option<seq<Item>>
    decreases |s|
  {
    if s == "" then Some([])
    else if s[0] != ESC then
      if PlainChar(s[0]) then Cons(Char(s[0]), Items(s[1..], strip)) else None
    else
      match ControlAt(s, strip)
      case None => None
      case Some(c) => Cons(Command(c, s[..c.length]), Items(s[c.length..], strip))
  }

  function Cons(item: Item, rest: Option<seq<Item>>): Option<seq<Item>> {
    if rest.Some? then Some([item] + rest.value) else None
  }

  function Spaces(n: nat): (r: string)
    ensures |r| == n && forall i :: 0 <= i < n ==> r[i] == ' '
  {
    seq(n, _ => ' ')
  }

  function RenderItem(item: Item, styled: bool): string {
    match item
    case Char(c) => [c]
    case Command(Osc(_), _) => ""
    case Command(Gap(_, count), text) => if styled then text else Spaces(count)
    case Command(Style(_), text) => if styled then text else ""
  }

  /** What items come to: with their styles and gaps as controls, or as readable text. */
  function Render(items: seq<Item>, styled: bool): string {
    if items == [] then "" else RenderItem(items[0], styled) + Render(items[1..], styled)
  }

  // ----- Sizes

  lemma {:induction false} BytesConcat(a: string, b: string)
    ensures Bytes(a + b) == Bytes(a) + Bytes(b)
  {
    if a == "" {
      assert a + b == b;
    } else {
      assert (a + b)[1..] == a[1..] + b;
      BytesConcat(a[1..], b);
    }
  }

  lemma {:induction false} RenderConcat(a: seq<Item>, b: seq<Item>, styled: bool)
    ensures Render(a + b, styled) == Render(a, styled) + Render(b, styled)
  {
    hide RenderItem;
    if a == [] {
      assert a + b == b;
    } else {
      assert (a + b)[1..] == a[1..] + b;
      RenderConcat(a[1..], b, styled);
    }
  }

  // ----- Items of a text without records

  /** Every escape begins a command. */
  ghost predicate EscapesAreCommands(s: string) {
    forall i :: 0 <= i < |s| && s[i] == ESC ==> i + 1 < |s| && s[i + 1] == '['
  }

  lemma ControlHasOneEscape(s: string)
    requires s != "" && s[0] == ESC && ControlAt(s, false).Some?
    ensures forall i :: 1 <= i < ControlAt(s, false).value.length ==> s[i] != ESC
  {
    hide ValidStyle, AllDigits, Value;
  }

  lemma {:induction false} ValidHasOnlyCommands(s: string)
    requires Items(s, false).Some?
    ensures EscapesAreCommands(s)
    decreases |s|
  {
    hide PlainChar, ControlAt;
    if s != "" {
      var n := if s[0] != ESC then 1 else ControlAt(s, false).value.length;
      ValidHasOnlyCommands(s[n..]);
      if s[0] == ESC {
        ControlHasOneEscape(s);
      }
      forall i | 0 <= i < |s| && s[i] == ESC ensures i + 1 < |s| && s[i + 1] == '[' {
        if i >= n {
          assert s[n..][i - n] == s[i];
          assert s[n..][i - n + 1] == s[i + 1];
        }
      }
    }
  }

  /** Such a text reads the same with and without stripping. */
  lemma {:induction false} StrippingFindsNothing(s: string)
    requires EscapesAreCommands(s)
    ensures Items(s, true) == Items(s, false)
    decreases |s|
  {
    hide PlainChar, OscAt, CommandAt;
    if s != "" {
      if s[0] != ESC {
        Suffix(s, 1);
        StrippingFindsNothing(s[1..]);
      } else {
        assert ControlAt(s, true) == ControlAt(s, false);
        if ControlAt(s, false).Some? {
          var n := ControlAt(s, false).value.length;
          Suffix(s, n);
          StrippingFindsNothing(s[n..]);
        }
      }
    }
  }

  lemma Suffix(s: string, n: nat)
    requires n <= |s| && EscapesAreCommands(s)
    ensures EscapesAreCommands(s[n..])
  {
    forall i | 0 <= i < |s| - n && s[n..][i] == ESC ensures i + 1 < |s| - n && s[n..][i + 1] == '[' {
      assert s[n + i] == ESC;
    }
  }

  // ----- Putting texts together

  lemma {:induction false} ParametersEndMore(s: string, b: string, i: nat)
    requires i <= |s| && ParametersEnd(s, i) < |s|
    ensures ParametersEnd(s + b, i) == ParametersEnd(s, i)
    decreases |s| - i
  {
    hide ParameterChar;
    assert i < |s| && (s + b)[i] == s[i];
    if ParameterChar(s[i]) {
      ParametersEndMore(s, b, i + 1);
    }
  }

  /** A command ends where it ends, whatever follows. */
  lemma ControlMore(s: string, b: string)
    requires s != "" && s[0] == ESC && ControlAt(s, false).Some?
    ensures ControlAt(s + b, false) == ControlAt(s, false)
    ensures (s + b)[..ControlAt(s, false).value.length] == s[..ControlAt(s, false).value.length]
  {
    hide ValidStyle, AllDigits, Value;
    var end := ParametersEnd(s, 2);
    ParametersEndMore(s, b, 2);
    assert (s + b)[2..end] == s[2..end];
  }

  lemma NoItems()
    ensures Items("", false) == Some([])
  {}

  /** Whether a text starts with an item, how long that is, and what it is. */
  predicate Starts(s: string) {
    s != "" && if s[0] != ESC then PlainChar(s[0]) else ControlAt(s, false).Some?
  }

  function StepLength(s: string): (n: nat)
    requires Starts(s)
    ensures 0 < n <= |s|
  {
    if s[0] != ESC then 1 else ControlAt(s, false).value.length
  }

  function FirstItem(s: string): Item
    requires Starts(s)
  {
    if s[0] != ESC then Char(s[0]) else Command(ControlAt(s, false).value, s[..StepLength(s)])
  }

  lemma ItemsStep(s: string)
    requires s != ""
    ensures Items(s, false) == if Starts(s) then Cons(FirstItem(s), Items(s[StepLength(s)..], false)) else None
  {
    hide PlainChar, ControlAt;
  }

  lemma StepMore(a: string, b: string)
    requires Starts(a)
    ensures Starts(a + b) && StepLength(a + b) == StepLength(a) && FirstItem(a + b) == FirstItem(a)
    ensures (a + b)[StepLength(a)..] == a[StepLength(a)..] + b
  {
    hide PlainChar, ControlAt;
    assert (a + b)[0] == a[0];
    if a[0] == ESC {
      ControlMore(a, b);
    }
  }

  /** So the items of two texts put together are the items of each. */
  lemma {:induction false} ItemsConcat(a: string, b: string)
    requires Items(a, false).Some? && Items(b, false).Some?
    ensures Items(a + b, false) == Some(Items(a, false).value + Items(b, false).value)
    decreases |a|
  {
    hide PlainChar, ControlAt, Items;
    if a == "" {
      assert a + b == b;
      NoItems();
      assert [] + Items(b, false).value == Items(b, false).value;
    } else {
      ItemsStep(a);
      var n := StepLength(a);
      ItemsConcat(a[n..], b);
      StepMore(a, b);
      ItemsStep(a + b);
      ConcatAssoc([FirstItem(a)], Items(a[n..], false).value, Items(b, false).value);
    }
  }

  /** Without stripping, the items are the text. */
  lemma {:induction false} ItemsAreText(s: string)
    requires Items(s, false).Some?
    ensures Render(Items(s, false).value, true) == s
    decreases |s|
  {
    hide PlainChar, ControlAt, Items, RenderItem;
    if s == "" {
      NoItems();
    } else {
      ItemsStep(s);
      var n := StepLength(s);
      ItemsAreText(s[n..]);
      FirstItemIsText(s);
      assert s == s[..n] + s[n..];
      assert ([FirstItem(s)] + Items(s[n..], false).value)[1..] == Items(s[n..], false).value;
    }
  }

  lemma FirstItemIsText(s: string)
    requires Starts(s)
    ensures RenderItem(FirstItem(s), true) == s[..StepLength(s)]
  {
    hide PlainChar, ControlAt;
    if s[0] == ESC {
      ControlIsNoOsc(s);
    }
  }

  lemma ControlIsNoOsc(s: string)
    requires s != "" && s[0] == ESC && ControlAt(s, false).Some?
    ensures !ControlAt(s, false).value.Osc?
  {}
}
