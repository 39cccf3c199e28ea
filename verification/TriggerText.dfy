/**
 Printing and parsing of one trigger. The parser splits at plus signs, except one in the first place
 of a part, and so reads every printed trigger back, the plus key included.
 */
module TriggerText {
  import opened Wrappers
  import opened Sequences
  import opened Keys
  import opened KeyNames

  // ----- Modifiers by kind

  predicate IsOn(m: Modifiers, kind: ModifierKind) {
    match kind
    case Shift => m.shift
    case Ctrl => m.ctrl
    case Alt => m.alt
    case Command => m.command
  }

  function SideOf(m: Modifiers, kind: ModifierKind): Option<Side> {
    match kind
    case Shift => m.shiftSide
    case Ctrl => m.ctrlSide
    case Alt => m.altSide
    case Command => m.commandSide
  }

  function Set(m: Modifiers, part: ModifierPart): Modifiers {
    match part.kind
    case Shift => m.(shift := true, shiftSide := part.side)
    case Ctrl => m.(ctrl := true, ctrlSide := part.side)
    case Alt => m.(alt := true, altSide := part.side)
    case Command => m.(command := true, commandSide := part.side)
  }

  /** The modifiers with the sides of absent ones dropped. */
  function Cleared(m: Modifiers): Modifiers {
    m.(shiftSide := if m.shift then m.shiftSide else None,
       ctrlSide := if m.ctrl then m.ctrlSide else None,
       altSide := if m.alt then m.altSide else None,
       commandSide := if m.command then m.commandSide else None)
  }

  function Kinds(): seq<ModifierKind> {
    [Command, Ctrl, Alt, Shift]
  }

  // ----- Printing

  function Closed(output: string): string {
    if output == "" then "" else output + "+"
  }

  function PushModifier(output: string, m: Modifiers, kind: ModifierKind): string {
    if IsOn(m, kind) then Closed(output) + ModifierName(ModifierPart(kind, SideOf(m, kind))) else output
  }

  function FormatTrigger(t: Trigger): string {
    var m := t.modifiers;
    var output := PushModifier(PushModifier(PushModifier(PushModifier("", m, Command), m, Ctrl), m, Alt), m, Shift);
    Closed(output) + KeyText(t.key)
  }

  // ----- Splitting into parts

  /** The first plus sign from index i on, or the end. */
  function PlusFrom(s: string, i: nat): (r: nat)
    requires i <= |s|
    ensures i <= r <= |s|
    ensures forall k :: i <= k < r ==> s[k] != '+'
    ensures r < |s| ==> s[r] == '+'
    decreases |s| - i
  {
    if i == |s| || s[i] == '+' then i else PlusFrom(s, i + 1)
  }

  /** The parts between plus signs, where a plus sign in the first place of a part belongs to it. */
  function Parts(s: string): (r: seq<string>)
    ensures |r| > 0
    decreases |s|
  {
    if s == "" || PlusFrom(s, 1) == |s| then [s]
    else [s[..PlusFrom(s, 1)]] + Parts(s[PlusFrom(s, 1) + 1..])
  }

  lemma PlusFromIs(s: string, i: nat, r: nat)
    requires i <= r <= |s|
    requires forall k :: i <= k < r ==> s[k] != '+'
    requires r < |s| ==> s[r] == '+'
    ensures PlusFrom(s, i) == r
  {}

  lemma PartsAtPlus(input: string, start: nat, index: nat)
    requires start < index < |input| && input[index] == '+'
    requires forall k :: start < k < index ==> input[k] != '+'
    ensures Parts(input[start..]) == [input[start..index]] + Parts(input[index + 1..])
  {
    var s := input[start..];
    assert forall k :: 1 <= k < index - start ==> s[k] == input[start + k];
    PlusFromIs(s, 1, index - start);
    assert s[..index - start] == input[start..index];
    assert s[index - start + 1..] == input[index + 1..];
  }

  lemma PartsWithoutPlus(s: string)
    requires forall k :: 0 < k < |s| ==> s[k] != '+'
    ensures Parts(s) == [s]
  {
    if s != "" {
      PlusFromIs(s, 1, |s|);
    }
  }

  method SplitTriggerParts(input: string) returns (parts: Result<seq<string>, TriggerError>)
    ensures parts == if "" in Parts(input) then Err(InvalidFormat) else Ok(Parts(input))
  {
    hide Parts;
    var found := PartsOf(input);
    parts := if "" in found then Err(InvalidFormat) else Ok(found);
  }

  method PartsOf(input: string) returns (found: seq<string>)
    ensures found == Parts(input)
  {
    hide Parts, PlusFrom;
    found := [];
    var start, index := 0, 0;
    assert input[0..] == input && found + Parts(input) == Parts(input);
    while index < |input|
      invariant 0 <= start <= index <= |input|
      invariant forall k :: start < k < index ==> input[k] != '+'
      invariant Parts(input) == found + Parts(input[start..])
    {
      if input[index] == '+' && index != start {
        PartsAtPlus(input, start, index);
        ConcatAssoc(found, [input[start..index]], Parts(input[index + 1..]));
        found := found + [input[start..index]];
        start := index + 1;
      }
      index := index + 1;
    }
    PartsWithoutPlus(input[start..]);
    found := found + [input[start..]];
  }

  // ----- Parsing

  function ReadParts(parts: seq<string>, m: Modifiers, key: Option<TriggerKey>): Result<Trigger, TriggerError> {
    if parts == [] then
      if key.Some? then Ok(Trigger(m, key.value)) else Err(InvalidFormat)
    else
      match ModifierOf(parts[0])
      case Some(part) =>
        if IsOn(m, part.kind) || (part.side.Some? && SideOf(m, part.kind).Some?) then Err(InvalidFormat)
        else ReadParts(parts[1..],
          Set(m, ModifierPart(part.kind, if part.side.Some? then part.side else SideOf(m, part.kind))), key)
      case None =>
        match KeyOf(parts[0])
        case Err(e) => Err(e)
        case Ok(k) => if key.Some? then Err(InvalidFormat) else ReadParts(parts[1..], m, Some(k))
  }

  function ReadTrigger(s: string): Result<Trigger, TriggerError> {
    if s == "" || "" in Parts(s) then Err(InvalidFormat) else ReadParts(Parts(s), NoModifiers(), None)
  }

  method ParseTrigger(input: string) returns (r: Result<Trigger, TriggerError>)
    ensures r == ReadTrigger(input)
  {
    if input == "" {
      return Err(InvalidFormat);
    }
    var split := SplitTriggerParts(input);
    if split.Err? {
      return Err(split.error);
    }
    var parts := split.value;
    var m, key := NoModifiers(), None;
    var i := 0;
    while i < |parts|
      invariant 0 <= i <= |parts|
      invariant ReadParts(parts, NoModifiers(), None) == ReadParts(parts[i..], m, key)
    {
      var modifier := ModifierOf(parts[i]);
      if modifier.Some? {
        var part := modifier.value;
        if IsOn(m, part.kind) || (part.side.Some? && SideOf(m, part.kind).Some?) {
          return Err(InvalidFormat);
        }
        m := Set(m, ModifierPart(part.kind, if part.side.Some? then part.side else SideOf(m, part.kind)));
      } else {
        var parsed := KeyOf(parts[i]);
        if parsed.Err? {
          return Err(parsed.error);
        }
        if key.Some? {
          return Err(InvalidFormat);
        }
        key := Some(parsed.value);
      }
      assert parts[i..][1..] == parts[i + 1..];
      i := i + 1;
    }
    r := if key.Some? then Ok(Trigger(m, key.value)) else Err(InvalidFormat);
  }

  // ----- The printed modifiers

  function TagNames(m: Modifiers, kinds: seq<ModifierKind>): seq<string> {
    if kinds == [] then []
    else if IsOn(m, kinds[0]) then
      [ModifierName(ModifierPart(kinds[0], SideOf(m, kinds[0])))] + TagNames(m, kinds[1..])
    else TagNames(m, kinds[1..])
  }

  /** Each name, closed by a plus sign. */
  function Tags(names: seq<string>): string {
    if names == [] then "" else names[0] + "+" + Tags(names[1..])
  }

  function Prefix(m: Modifiers): string {
    Tags(TagNames(m, Kinds()))
  }

  lemma {:induction false} TagsConcat(a: seq<string>, b: seq<string>)
    ensures Tags(a + b) == Tags(a) + Tags(b)
  {
    if a == [] {
      assert a + b == b;
    } else {
      assert (a + b)[1..] == a[1..] + b;
      TagsConcat(a[1..], b);
    }
  }

  lemma ClosedPush(output: string, m: Modifiers, kind: ModifierKind)
    ensures Closed(PushModifier(output, m, kind)) == Closed(output) + Tags(TagNames(m, [kind]))
  {
    hide ModifierName;
    if IsOn(m, kind) {
      var name := ModifierName(ModifierPart(kind, SideOf(m, kind)));
      ModifierRead(ModifierPart(kind, SideOf(m, kind)));
      assert TagNames(m, [kind]) == [name];
      assert [name][1..] == [];
      assert Tags([name]) == name + "+";
    } else {
      assert TagNames(m, [kind]) == [];
    }
  }

  lemma TagNamesConcat(m: Modifiers, a: seq<ModifierKind>, kind: ModifierKind)
    ensures TagNames(m, a + [kind]) == TagNames(m, a) + TagNames(m, [kind])
  {
    if a != [] {
      assert (a + [kind])[1..] == a[1..] + [kind];
      TagNamesConcat(m, a[1..], kind);
    } else {
      assert a + [kind] == [kind];
    }
  }

  lemma FormatIsPrefix(t: Trigger)
    ensures FormatTrigger(t) == Prefix(t.modifiers) + KeyText(t.key)
  {
    hide TagNames, Tags, PushModifier, KeyText;
    var m := t.modifiers;
    var one := PushModifier("", m, Command);
    var two := PushModifier(one, m, Ctrl);
    var three := PushModifier(two, m, Alt);
    ClosedPush("", m, Command);
    ClosedPush(one, m, Ctrl);
    ClosedPush(two, m, Alt);
    ClosedPush(three, m, Shift);
    TagNamesConcat(m, [Command], Ctrl);
    TagNamesConcat(m, [Command, Ctrl], Alt);
    TagNamesConcat(m, [Command, Ctrl, Alt], Shift);
    TagsConcat(TagNames(m, [Command]), TagNames(m, [Ctrl]));
    TagsConcat(TagNames(m, [Command, Ctrl]), TagNames(m, [Alt]));
    TagsConcat(TagNames(m, [Command, Ctrl, Alt]), TagNames(m, [Shift]));
    assert [Command] + [Ctrl] == [Command, Ctrl];
    assert [Command, Ctrl] + [Alt] == [Command, Ctrl, Alt];
    assert [Command, Ctrl, Alt] + [Shift] == Kinds();
  }

  // ----- Reading the printed modifiers

  ghost predicate PlainNames(names: seq<string>) {
    forall i :: 0 <= i < |names| ==> names[i] != "" && Plain(names[i])
  }

  lemma {:induction false} TagNamesPlain(m: Modifiers, kinds: seq<ModifierKind>)
    ensures PlainNames(TagNames(m, kinds))
  {
    hide ModifierName, Plain;
    if kinds != [] {
      ModifierRead(ModifierPart(kinds[0], SideOf(m, kinds[0])));
      TagNamesPlain(m, kinds[1..]);
    }
  }

  lemma PartsOfTag(name: string, rest: string)
    requires name != "" && Plain(name)
    ensures Parts(name + "+" + rest) == [name] + Parts(rest)
  {
    var s := name + "+" + rest;
    assert forall k :: 0 <= k < |name| ==> s[k] == name[k];
    PlusFromIs(s, 1, |name|);
    assert s[..|name|] == name && s[|name| + 1..] == rest;
  }

  lemma {:induction false} PartsOfTags(names: seq<string>, rest: string)
    requires PlainNames(names)
    ensures Parts(Tags(names) + rest) == names + Parts(rest)
  {
    hide Plain, Parts;
    if names == [] {
      assert Tags(names) + rest == rest;
    } else {
      PartsOfTags(names[1..], rest);
      PartsOfTag(names[0], Tags(names[1..]) + rest);
      assert Tags(names) + rest == names[0] + "+" + (Tags(names[1..]) + rest);
    }
  }

  /** The modifiers of these kinds added to the ones in base. */
  function Added(base: Modifiers, m: Modifiers, kinds: seq<ModifierKind>): Modifiers
    decreases |kinds|
  {
    if kinds == [] then base
    else Added(if IsOn(m, kinds[0]) then Set(base, ModifierPart(kinds[0], SideOf(m, kinds[0]))) else base, m,
      kinds[1..])
  }

  ghost predicate Fresh(base: Modifiers, kinds: seq<ModifierKind>) {
    && (forall i :: 0 <= i < |kinds| ==> !IsOn(base, kinds[i]) && SideOf(base, kinds[i]) == None)
    && (forall i, j :: 0 <= i < j < |kinds| ==> kinds[i] != kinds[j])
  }

  lemma ReadTag(base: Modifiers, part: ModifierPart, parts: seq<string>)
    requires !IsOn(base, part.kind) && SideOf(base, part.kind) == None
    ensures ReadParts([ModifierName(part)] + parts, base, None) == ReadParts(parts, Set(base, part), None)
  {
    hide ModifierName, ModifierOf, KeyOf;
    ModifierRead(part);
    assert ([ModifierName(part)] + parts)[1..] == parts;
  }

  lemma {:induction false} ReadTags(base: Modifiers, m: Modifiers, kinds: seq<ModifierKind>, parts: seq<string>)
    requires Fresh(base, kinds)
    ensures ReadParts(TagNames(m, kinds) + parts, base, None) == ReadParts(parts, Added(base, m, kinds), None)
    decreases |kinds|
  {
    hide ModifierName, ModifierOf, KeyOf, ReadParts;
    if kinds == [] {
      assert TagNames(m, kinds) + parts == parts;
    } else if IsOn(m, kinds[0]) {
      var part := ModifierPart(kinds[0], SideOf(m, kinds[0]));
      var rest := TagNames(m, kinds[1..]) + parts;
      assert TagNames(m, kinds) + parts == [ModifierName(part)] + rest;
      ReadTag(base, part, rest);
      ReadTags(Set(base, part), m, kinds[1..], parts);
    } else {
      assert TagNames(m, kinds) + parts == TagNames(m, kinds[1..]) + parts;
      ReadTags(base, m, kinds[1..], parts);
    }
  }

  lemma AddedKinds(m: Modifiers)
    ensures Added(NoModifiers(), m, Kinds()) == Cleared(m)
  {
    assert Kinds()[1..] == [Ctrl, Alt, Shift] && [Ctrl, Alt, Shift][1..] == [Alt, Shift]
      && [Alt, Shift][1..] == [Shift];
  }

  /** A printed trigger is read back, but for sides without their modifier. */
  lemma TriggerRoundTrip(t: Trigger)
    ensures ReadTrigger(FormatTrigger(t)) == Ok(Trigger(Cleared(t.modifiers), t.key))
  {
    hide ModifierOf, KeyOf, KeyText, TagNames, Tags, Added, Plain, FormatTrigger, Parts;
    var m, text := t.modifiers, KeyText(t.key);
    var names := TagNames(m, Kinds());
    FormatIsPrefix(t);
    TagNamesPlain(m, Kinds());
    PartsOfTags(names, text);
    KeyIsOnePart(t.key);
    ReadTags(NoModifiers(), m, Kinds(), [text]);
    AddedKinds(m);
    KeyRead(t.key);
    OneKey(text, Cleared(m), t.key);
  }

  lemma OneKey(text: string, m: Modifiers, key: TriggerKey)
    requires ModifierOf(text) == None && KeyOf(text) == Ok(key)
    ensures ReadParts([text], m, None) == Ok(Trigger(m, key))
  {
    hide ModifierOf, KeyOf;
    assert [text][1..] == [];
    assert ReadParts([], m, Some(key)) == Ok(Trigger(m, key));
  }

  lemma KeyIsOnePart(key: TriggerKey)
    ensures Parts(KeyText(key)) == [KeyText(key)]
  {
    hide KeyText, KeyOf, ModifierOf;
    var text := KeyText(key);
    KeyRead(key);
    if key.Unicode? {
      UnicodeText(key);
    }
    PlusFromIs(text, 1, |text|);
  }

  lemma UnicodeText(key: TriggerKey)
    requires key.Unicode?
    ensures KeyText(key) == [key.ch]
  {}

  /** The modifiers alone are no trigger. */
  lemma PrefixIsNoTrigger(m: Modifiers)
    ensures ReadTrigger(Prefix(m)).Err?
  {
    hide TagNames, Tags, Plain;
    TagNamesPlain(m, Kinds());
    PartsOfTags(TagNames(m, Kinds()), "");
    assert Prefix(m) + "" == Prefix(m);
    assert Parts("") == [""];
    assert Parts(Prefix(m))[|TagNames(m, Kinds())|] == "";
  }

  /** The characters of the printed modifiers: plain ones, and plus signs, one of them at the end. */
  lemma {:induction false} TagsChars(names: seq<string>)
    requires PlainNames(names)
    ensures forall i :: 0 <= i < |Tags(names)| ==> PlainChar(Tags(names)[i]) || Tags(names)[i] == '+'
    ensures Tags(names) != "" ==> Tags(names)[|Tags(names)| - 1] == '+'
  {
    hide PlainChar;
    if names != [] {
      assert Plain(names[0]);
      TagsChars(names[1..]);
    }
  }

  lemma PrefixChars(m: Modifiers)
    ensures forall i :: 0 <= i < |Prefix(m)| ==> PlainChar(Prefix(m)[i]) || Prefix(m)[i] == '+'
    ensures Prefix(m) != "" ==> Prefix(m)[|Prefix(m)| - 1] == '+'
  {
    hide TagNames, Tags, Plain, PlainChar;
    TagNamesPlain(m, Kinds());
    TagsChars(TagNames(m, Kinds()));
  }
}
