/**
 Printing and parsing of whole key sequences: flags before colons, triggers between blanks, and the
 legacy spelling with ">" between steps and "-" after modifiers. It is shown exactly which sequences
 are read back from their printed text.
 */
module SequenceText {
  import opened Wrappers
  import opened Sequences
  import opened Keys
  import opened KeyNames
  import opened TriggerText

  datatype KeySequence = KeySequence(triggers: seq<Trigger>, flags: BindingFlags)

  datatype SequenceError = InvalidKeystroke(source: string) | EmptySequence | FlagsOnChord | DuplicateFlag(name: string)

  // ----- Legacy triggers

  /** The legacy spellings of the modifiers. */
  function NormalizedModifier(s: string): Option<string> {
    if s == "win" then Some("cmd")
    else if KindOf(s).Some? then Some(KindName(KindOf(s).value))
    else None
  }

  datatype LegacyParts = LegacyParts(modifiers: seq<string>, rest: string)

  /** The modifiers before dashes, and what follows them. */
  function LegacySplit(rest: string): LegacyParts
    decreases |rest|
  {
    var i := IndexOf(rest, '-');
    if i == |rest| || NormalizedModifier(rest[..i]).None? then LegacyParts([], rest)
    else
      var tail := LegacySplit(rest[i + 1..]);
      LegacyParts([NormalizedModifier(rest[..i]).value] + tail.modifiers, tail.rest)
  }

  function ReadLegacy(source: string): Result<Trigger, SequenceError> {
    if ReadTrigger(source).Ok? then Ok(ReadTrigger(source).value)
    else
      var split := LegacySplit(source);
      if split.modifiers == [] || split.rest == "" then Err(InvalidKeystroke(source))
      else
        match ReadTrigger(Tags(split.modifiers) + split.rest)
        case Ok(trigger) => Ok(trigger)
        case Err(_) => Err(InvalidKeystroke(source))
  }

  lemma LegacyFirst(modifier: string, rest: string, i: nat)
    requires i == IndexOf(rest, '-') < |rest| && NormalizedModifier(rest[..i]) == Some(modifier)
    ensures LegacySplit(rest).modifiers == [modifier] + LegacySplit(rest[i + 1..]).modifiers
    ensures LegacySplit(rest).rest == LegacySplit(rest[i + 1..]).rest
  {
    hide NormalizedModifier, IndexOf;
  }

  lemma LegacyStep(modifiers: seq<string>, modifier: string, rest: string, i: nat)
    requires i == IndexOf(rest, '-') < |rest| && NormalizedModifier(rest[..i]) == Some(modifier)
    ensures modifiers + LegacySplit(rest).modifiers == modifiers + [modifier] + LegacySplit(rest[i + 1..]).modifiers
    ensures LegacySplit(rest).rest == LegacySplit(rest[i + 1..]).rest
  {
    hide NormalizedModifier, LegacySplit, IndexOf;
    LegacyFirst(modifier, rest, i);
  }

  method ParseLegacyTrigger(source: string) returns (r: Result<Trigger, SequenceError>)
    ensures r == ReadLegacy(source)
  {
    hide ReadTrigger, NormalizedModifier, Tags;
    var direct := ParseTrigger(source);
    if direct.Ok? {
      return Ok(direct.value);
    }
    var rest, modifiers: seq<string> := source, [];
    while IndexOf(rest, '-') < |rest| && NormalizedModifier(rest[..IndexOf(rest, '-')]).Some?
      invariant LegacySplit(source) == LegacyParts(modifiers + LegacySplit(rest).modifiers, LegacySplit(rest).rest)
      decreases |rest|
    {
      var i := IndexOf(rest, '-');
      var modifier := NormalizedModifier(rest[..i]).value;
      LegacyStep(modifiers, modifier, rest, i);
      modifiers := modifiers + [modifier];
      rest := rest[i + 1..];
    }
    assert LegacySplit(source) == LegacyParts(modifiers, rest);
    if modifiers == [] || rest == "" {
      return Err(InvalidKeystroke(source));
    }
    var parsed := ParseTrigger(Tags(modifiers) + rest);
    r := if parsed.Ok? then Ok(parsed.value) else Err(InvalidKeystroke(source));
  }

  // ----- Steps between ">"

  /** The steps of a word from start on, looking for the next separator at index: one after a complete trigger. */
  function StepsFrom(source: string, start: nat, index: nat): seq<string>
    requires start <= index <= |source|
    decreases |source| - index
  {
    if index == |source| then [source[start..]]
    else if source[index] == '>' && ReadLegacy(source[start..index]).Ok? then
      [source[start..index]] + StepsFrom(source, index + 1, index + 1)
    else StepsFrom(source, start, index + 1)
  }

  function Steps(source: string): seq<string> {
    StepsFrom(source, 0, 0)
  }

  method SplitLegacyTriggers(source: string) returns (steps: seq<string>)
    ensures steps == Steps(source)
  {
    hide ReadLegacy;
    steps := [];
    var start, index := 0, 0;
    while index < |source|
      invariant 0 <= start <= index <= |source|
      invariant steps + StepsFrom(source, start, index) == Steps(source)
    {
      if source[index] == '>' {
        var step := ParseLegacyTrigger(source[start..index]);
        if step.Ok? {
          steps := steps + [source[start..index]];
          start := index + 1;
        }
      }
      index := index + 1;
    }
    steps := steps + [source[start..]];
  }

  // ----- Words

  function BlankFrom(s: string): (r: nat)
    ensures r <= |s|
    ensures forall k :: 0 <= k < r ==> !IsSpace(s[k])
    ensures r < |s| ==> IsSpace(s[r])
  {
    if s == "" || IsSpace(s[0]) then 0 else 1 + BlankFrom(s[1..])
  }

  /** The words between ASCII whitespace. */
  function Words(s: string): seq<string>
    decreases |s|
  {
    if s == "" then []
    else if IsSpace(s[0]) then Words(s[1..])
    else [s[..BlankFrom(s)]] + Words(s[BlankFrom(s)..])
  }

  // ----- Sequences

  function ReadSteps(steps: seq<string>): Result<seq<Trigger>, SequenceError> {
    if steps == [] then Ok([])
    else
      match ReadLegacy(steps[0])
      case Err(e) => Err(e)
      case Ok(trigger) =>
        match ReadSteps(steps[1..])
        case Err(e) => Err(e)
        case Ok(triggers) => Ok([trigger] + triggers)
  }

  function AllSteps(words: seq<string>): seq<string> {
    if words == [] then [] else Steps(words[0]) + AllSteps(words[1..])
  }

  datatype Flag = Performable | Global | All | Unconsumed

  function FlagName(flag: Flag): string {
    match flag
    case Performable => "performable"
    case Global => "global"
    case All => "all"
    case Unconsumed => "unconsumed"
  }

  function FlagOf(s: string): Option<Flag> {
    if s == "performable" then Some(Performable)
    else if s == "global" then Some(Global)
    else if s == "all" then Some(All)
    else if s == "unconsumed" then Some(Unconsumed)
    else None
  }

  predicate HasFlag(flags: BindingFlags, flag: Flag) {
    match flag
    case Performable => flags.performable
    case Global => flags.global
    case All => flags.all
    case Unconsumed => !flags.consumed
  }

  function WithFlag(flags: BindingFlags, flag: Flag): BindingFlags {
    match flag
    case Performable => flags.(performable := true)
    case Global => flags.(global := true)
    case All => flags.(all := true)
    case Unconsumed => flags.(consumed := false)
  }

  function DefaultFlags(): BindingFlags {
    BindingFlags(true, false, false, false)
  }

  datatype Flagged = Flagged(flags: BindingFlags, rest: string)

  function ReadFlags(source: string, flags: BindingFlags): Result<Flagged, SequenceError>
    decreases |source|
  {
    var i := IndexOf(source, ':');
    if i == |source| || FlagOf(source[..i]).None? then Ok(Flagged(flags, source))
    else
      var flag := FlagOf(source[..i]).value;
      if HasFlag(flags, flag) then Err(DuplicateFlag(source[..i]))
        else ReadFlags(source[i + 1..], WithFlag(flags, flag))
  }

  method ParseSequenceFlags(text: string) returns (r: Result<Flagged, SequenceError>)
    ensures r == ReadFlags(text, DefaultFlags())
  {
    hide FlagOf, HasFlag, WithFlag, IndexOf;
    var source, flags := text, DefaultFlags();
    while IndexOf(source, ':') < |source| && FlagOf(source[..IndexOf(source, ':')]).Some?
      invariant ReadFlags(text, DefaultFlags()) == ReadFlags(source, flags)
      decreases |source|
    {
      var i := IndexOf(source, ':');
      var flag := FlagOf(source[..i]).value;
      if HasFlag(flags, flag) {
        return Err(DuplicateFlag(source[..i]));
      }
      flags, source := WithFlag(flags, flag), source[i + 1..];
    }
    r := Ok(Flagged(flags, source));
  }

  function Checked(triggers: seq<Trigger>, flags: BindingFlags): Result<KeySequence, SequenceError> {
    if triggers == [] then Err(EmptySequence)
    else if |triggers| > 1 && (flags.global || flags.all) then Err(FlagsOnChord)
    else Ok(KeySequence(triggers, flags))
  }

  function ReadSequence(source: string): Result<KeySequence, SequenceError> {
    match ReadFlags(source, DefaultFlags())
    case Err(e) => Err(e)
    case Ok(Flagged(flags, rest)) =>
      match ReadSteps(AllSteps(Words(rest)))
      case Err(e) => Err(e)
      case Ok(triggers) => Checked(triggers, flags)
  }

  function FlagText(flags: BindingFlags, names: seq<Flag>): string {
    if names == [] then ""
    else (if HasFlag(flags, names[0]) then FlagName(names[0]) + ":" else "") + FlagText(flags, names[1..])
  }

  function Flags(): seq<Flag> {
    [Performable, Global, All, Unconsumed]
  }

  function Joined(triggers: seq<Trigger>): string {
    if triggers == [] then ""
    else if |triggers| == 1 then FormatTrigger(triggers[0])
    else FormatTrigger(triggers[0]) + " " + Joined(triggers[1..])
  }

  function FormatSequence(s: KeySequence): string {
    FlagText(s.flags, Flags()) + Joined(s.triggers)
  }

  lemma {:induction false} ReadStepsConcat(a: seq<string>, b: seq<string>)
    requires ReadSteps(a).Ok?
    ensures ReadSteps(a + b)
      == (match ReadSteps(b) case Err(e) => Err(e) case Ok(more) => Ok(ReadSteps(a).value + more))
    decreases |a|
  {
    hide ReadLegacy;
    if a == [] {
      assert a + b == b;
      var more := ReadSteps(b);
      if more.Ok? {
        assert [] + more.value == more.value;
      }
    } else {
      assert (a + b)[1..] == a[1..] + b;
      ReadStepsConcat(a[1..], b);
      var more := ReadSteps(b);
      if more.Ok? {
        assert ReadSteps(a).value + more.value == [ReadSteps(a).value[0]] + (ReadSteps(a[1..]).value + more.value);
      }
    }
  }

  method ParseKeymapSequence(source: string) returns (r: Result<KeySequence, SequenceError>)
    ensures r == ReadSequence(source)
  {
    hide ReadFlags, Words, Steps, ReadLegacy, Checked;
    var flagged := ParseSequenceFlags(source);
    if flagged.Err? {
      return Err(flagged.error);
    }
    var words, triggers: seq<Trigger> := Words(flagged.value.rest), [];
    assert forall more: seq<Trigger> :: [] + more == more;
    while words != []
      invariant ReadSteps(AllSteps(Words(flagged.value.rest)))
        == (match ReadSteps(AllSteps(words)) case Err(e) => Err(e) case Ok(more) => Ok(triggers + more))
      decreases |words|
    {
      var steps := SplitLegacyTriggers(words[0]);
      var parsed := ParseSteps(steps);
      if parsed.Err? {
        ReadStepsFails(steps, AllSteps(words[1..]));
        return Err(parsed.error);
      }
      ReadStepsConcat(steps, AllSteps(words[1..]));
      ghost var before := triggers;
      triggers := triggers + parsed.value;
      assert forall more: seq<Trigger> :: before + (parsed.value + more) == triggers + more;
      words := words[1..];
    }
    assert ReadSteps(AllSteps([])) == Ok([]);
    assert triggers + [] == triggers;
    r := Checked(triggers, flagged.value.flags);
  }

  lemma {:induction false} ReadStepsFails(a: seq<string>, b: seq<string>)
    requires ReadSteps(a).Err?
    ensures ReadSteps(a + b) == Err(ReadSteps(a).error)
    decreases |a|
  {
    hide ReadLegacy;
    assert (a + b)[1..] == a[1..] + b;
    if ReadLegacy(a[0]).Ok? {
      ReadStepsFails(a[1..], b);
    }
  }

  method ParseSteps(steps: seq<string>) returns (r: Result<seq<Trigger>, SequenceError>)
    ensures r == ReadSteps(steps)
  {
    hide ReadLegacy;
    var triggers: seq<Trigger> := [];
    var i := 0;
    while i < |steps|
      invariant 0 <= i <= |steps|
      invariant ReadSteps(steps[..i]) == Ok(triggers)
    {
      assert steps == steps[..i] + steps[i..];
      var step := ParseLegacyTrigger(steps[i]);
      if step.Err? {
        ReadStepsConcat(steps[..i], steps[i..]);
        return Err(step.error);
      }
      ReadOneStep(steps[i]);
      ReadStepsConcat(steps[..i], [steps[i]]);
      assert steps[..i + 1] == steps[..i] + [steps[i]];
      triggers := triggers + [step.value];
      i := i + 1;
    }
    assert steps[..i] == steps;
    r := Ok(triggers);
  }

  lemma ReadOneStep(step: string)
    requires ReadLegacy(step).Ok?
    ensures ReadSteps([step]) == Ok([ReadLegacy(step).value])
  {
    hide ReadLegacy;
    assert [step][1..] == [];
    assert ReadSteps([]) == Ok([]);
    assert [ReadLegacy(step).value] + [] == [ReadLegacy(step).value];
  }

  method FormatEntry(s: KeySequence) returns (output: string)
    ensures output == FormatSequence(s)
  {
    hide FlagName, HasFlag, Joined;
    output := "";
    var names := Flags();
    while names != []
      invariant output + FlagText(s.flags, names) == FlagText(s.flags, Flags())
      decreases |names|
    {
      if HasFlag(s.flags, names[0]) {
        output := output + FlagName(names[0]) + ":";
      }
      names := names[1..];
    }
    assert output + "" == output;
    output := output + Joined(s.triggers);
  }

  // ----- The flags are read back

  lemma FlagRead(flag: Flag)
    ensures FlagOf(FlagName(flag)) == Some(flag) && Plain(FlagName(flag))
  {}

  lemma FlagIsWord(s: string)
    requires FlagOf(s).Some?
    ensures s != "" && PlainChar(s[|s| - 1])
  {}

  function AddedFlags(base: BindingFlags, flags: BindingFlags, names: seq<Flag>): BindingFlags
    decreases |names|
  {
    if names == [] then base
    else AddedFlags(if HasFlag(flags, names[0]) then WithFlag(base, names[0]) else base, flags, names[1..])
  }

  ghost predicate FreshFlags(base: BindingFlags, names: seq<Flag>) {
    && (forall i :: 0 <= i < |names| ==> !HasFlag(base, names[i]))
    && (forall i, j :: 0 <= i < j < |names| ==> names[i] != names[j])
  }

  lemma ReadFlag(base: BindingFlags, flag: Flag, rest: string)
    requires !HasFlag(base, flag)
    ensures ReadFlags(FlagName(flag) + ":" + rest, base) == ReadFlags(rest, WithFlag(base, flag))
  {
    hide FlagName, FlagOf, HasFlag, WithFlag;
    FlagRead(flag);
    var name := FlagName(flag);
    var s := name + ":" + rest;
    assert forall k :: 0 <= k < |name| ==> s[k] == name[k];
    IndexOfIs(s, ':', |name|);
    assert s[..|name|] == name && s[|name| + 1..] == rest;
  }

  lemma FreshWithFlag(base: BindingFlags, names: seq<Flag>)
    requires FreshFlags(base, names) && names != []
    ensures FreshFlags(WithFlag(base, names[0]), names[1..])
  {
  }

  lemma {:induction false} ReadFlagText(base: BindingFlags, flags: BindingFlags, names: seq<Flag>, rest: string)
    requires FreshFlags(base, names)
    ensures ReadFlags(FlagText(flags, names) + rest, base) == ReadFlags(rest, AddedFlags(base, flags, names))
    decreases |names|
  {
    hide FlagName, ReadFlags, HasFlag, WithFlag;
    if names == [] {
      assert FlagText(flags, names) + rest == rest;
    } else if HasFlag(flags, names[0]) {
      var more := FlagText(flags, names[1..]) + rest;
      assert FlagText(flags, names) + rest == FlagName(names[0]) + ":" + more;
      ReadFlag(base, names[0], more);
      FreshWithFlag(base, names);
      ReadFlagText(WithFlag(base, names[0]), flags, names[1..], rest);
    } else {
      assert FlagText(flags, names) + rest == FlagText(flags, names[1..]) + rest;
      ReadFlagText(base, flags, names[1..], rest);
    }
  }

  lemma AddedAllFlags(flags: BindingFlags)
    ensures AddedFlags(DefaultFlags(), flags, Flags()) == flags
  {
    assert Flags()[1..] == [Global, All, Unconsumed] && [Global, All, Unconsumed][1..] == [All, Unconsumed]
        && [All, Unconsumed][1..] == [Unconsumed];
  }

  /** Every colon comes first, or after a character no flag ends with. */
  ghost predicate ColonsApart(s: string) {
    forall i :: 0 < i < |s| && s[i] == ':' ==> !PlainChar(s[i - 1])
  }

  lemma NoFlagsAhead(s: string, flags: BindingFlags)
    requires ColonsApart(s)
    ensures ReadFlags(s, flags) == Ok(Flagged(flags, s))
  {
    hide FlagOf;
    var i := IndexOf(s, ':');
    if i < |s| && FlagOf(s[..i]).Some? {
      FlagIsWord(s[..i]);
    }
  }

  // ----- The text of one trigger

  /** A trigger whose key no blank hides. */
  predicate Visible(t: Trigger) {
    !(t.key.Unicode? && IsSpace(t.key.ch))
  }

  ghost predicate NoBlanks(s: string) {
    forall i :: 0 <= i < |s| ==> !IsSpace(s[i])
  }

  lemma PlainIsNoBlank(c: char)
    requires PlainChar(c) || c == '+'
    ensures !IsSpace(c) && c != '>' && c != ':' && c != '-'
  {}

  lemma PrefixIsClean(m: Modifiers)
    ensures NoBlanks(Prefix(m))
    ensures forall i :: 0 <= i < |Prefix(m)| ==> Prefix(m)[i] != '>' && Prefix(m)[i] != ':' && Prefix(m)[i] != '-'
    ensures Prefix(m) != "" ==> Prefix(m)[|Prefix(m)| - 1] == '+'
  {
    hide Prefix, PlainChar, IsSpace;
    PrefixChars(m);
    forall i | 0 <= i < |Prefix(m)|
      ensures !IsSpace(Prefix(m)[i]) && Prefix(m)[i] != '>' && Prefix(m)[i] != ':' && Prefix(m)[i] != '-'
    {
      PlainIsNoBlank(Prefix(m)[i]);
    }
  }

  lemma TextIsClean(key: TriggerKey)
    requires !key.Unicode?
    ensures KeyText(key) != ""
    ensures forall i :: 0 <= i < |KeyText(key)| ==>
      !IsSpace(KeyText(key)[i]) && KeyText(key)[i] != '>' && KeyText(key)[i] != ':'
  {
    hide KeyText, PlainChar, IsSpace, KeyOf, ModifierOf;
    KeyRead(key);
    forall i | 0 <= i < |KeyText(key)|
      ensures !IsSpace(KeyText(key)[i]) && KeyText(key)[i] != '>' && KeyText(key)[i] != ':'
    {
      assert Plain(KeyText(key));
      PlainIsNoBlank(KeyText(key)[i]);
    }
  }

  lemma FormatColonsApart(t: Trigger)
    ensures ColonsApart(FormatTrigger(t)) && FormatTrigger(t) != ""
  {
    hide KeyText, Prefix, FormatTrigger, IsSpace;
    FormatIsPrefix(t);
    PrefixIsClean(t.modifiers);
    if t.key.Unicode? {
      UnicodeText(t.key);
    } else {
      TextIsClean(t.key);
    }
  }

  lemma {:induction false} JoinedColonsApart(triggers: seq<Trigger>)
    ensures ColonsApart(Joined(triggers))
  {
    hide FormatTrigger;
    if triggers != [] {
      FormatColonsApart(triggers[0]);
      if |triggers| > 1 {
        JoinedColonsApart(triggers[1..]);
        ColonsApartJoin(FormatTrigger(triggers[0]), Joined(triggers[1..]));
      }
    }
  }

  lemma ColonsApartJoin(a: string, b: string)
    requires ColonsApart(a) && ColonsApart(b)
    ensures ColonsApart(a + " " + b)
  {
    var s := a + " " + b;
    forall i | 0 < i < |s| && s[i] == ':' ensures !PlainChar(s[i - 1]) {
      if i > |a| + 1 {
        assert s[i] == b[i - |a| - 1] && s[i - 1] == b[i - |a| - 2];
      }
    }
  }

  // ----- The words of joined triggers

  lemma BlankFromIs(s: string, r: nat)
    requires r <= |s|
    requires forall k :: 0 <= k < r ==> !IsSpace(s[k])
    requires r < |s| ==> IsSpace(s[r])
    ensures BlankFrom(s) == r
  {
    hide IsSpace;
  }

  lemma WordFirst(word: string, blank: char, rest: string)
    requires word != "" && NoBlanks(word) && IsSpace(blank)
    ensures Words(word + [blank] + rest) == [word] + Words(rest)
  {
    hide IsSpace;
    var s := word + [blank] + rest;
    assert forall k :: 0 <= k < |word| ==> s[k] == word[k];
    assert s[|word|] == blank;
    BlankFromIs(s, |word|);
    assert s[..|word|] == word && s[|word|..][1..] == rest;
    assert s[|word|..][0] == blank;
  }

  lemma WordAlone(word: string)
    requires word != "" && NoBlanks(word)
    ensures Words(word) == [word]
  {
    hide IsSpace;
    BlankFromIs(word, |word|);
    assert word[|word|..] == "" && word[..|word|] == word;
  }

  lemma WordsAfterBlank(blank: char, rest: string)
    requires IsSpace(blank)
    ensures Words([blank] + rest) == Words(rest)
  {
    assert ([blank] + rest)[1..] == rest;
  }

  /** The words that come of a trigger's text: the text, or what stands before its blank key. */
  function WordsOf(t: Trigger): seq<string> {
    if Visible(t) then [FormatTrigger(t)]
    else if Prefix(t.modifiers) == "" then []
    else [Prefix(t.modifiers)]
  }

  lemma VisibleHasNoBlanks(t: Trigger)
    requires Visible(t)
    ensures NoBlanks(FormatTrigger(t)) && FormatTrigger(t) != ""
  {
    hide KeyText, Prefix, FormatTrigger, IsSpace;
    FormatIsPrefix(t);
    PrefixIsClean(t.modifiers);
    if t.key.Unicode? {
      UnicodeText(t.key);
    } else {
      TextIsClean(t.key);
    }
  }

  lemma HiddenText(t: Trigger)
    requires !Visible(t)
    ensures FormatTrigger(t) == Prefix(t.modifiers) + [t.key.ch] && IsSpace(t.key.ch)
  {
    hide KeyText, Prefix, FormatTrigger, IsSpace;
    FormatIsPrefix(t);
    UnicodeText(t.key);
  }

  lemma WordsOfText(t: Trigger)
    ensures Words(FormatTrigger(t)) == WordsOf(t)
  {
    hide FormatTrigger, Prefix, Words, IsSpace;
    if Visible(t) {
      VisibleHasNoBlanks(t);
      WordAlone(FormatTrigger(t));
    } else {
      HiddenText(t);
      PrefixIsClean(t.modifiers);
      var p, c := Prefix(t.modifiers), t.key.ch;
      NoWords();
      if p == "" {
        WordsAfterBlank(c, "");
        assert p + [c] == [c] + "";
      } else {
        WordFirst(p, c, "");
        assert p + [c] + "" == p + [c];
      }
    }
  }

  lemma NoWords()
    ensures Words("") == []
  {}

  lemma WordsAfterText(t: Trigger, rest: string)
    ensures Words(FormatTrigger(t) + " " + rest) == WordsOf(t) + Words(rest)
  {
    hide FormatTrigger, Prefix, Words, IsSpace;
    BlankIsBlank();
    if Visible(t) {
      VisibleHasNoBlanks(t);
      WordFirst(FormatTrigger(t), ' ', rest);
    } else {
      HiddenText(t);
      PrefixIsClean(t.modifiers);
      var p, c := Prefix(t.modifiers), t.key.ch;
      WordsAfterBlank(' ', rest);
      if p == "" {
        WordsAfterBlank(c, " " + rest);
        assert FormatTrigger(t) + " " + rest == [c] + (" " + rest);
      } else {
        WordFirst(p, c, " " + rest);
        assert FormatTrigger(t) + " " + rest == p + [c] + (" " + rest);
      }
    }
  }

  lemma BlankIsBlank()
    ensures IsSpace(' ')
  {}

  function AllWords(triggers: seq<Trigger>): seq<string> {
    if triggers == [] then [] else WordsOf(triggers[0]) + AllWords(triggers[1..])
  }

  lemma {:induction false} WordsOfJoined(triggers: seq<Trigger>)
    ensures Words(Joined(triggers)) == AllWords(triggers)
  {
    hide FormatTrigger, WordsOf, Words;
    if triggers == [] {
      NoWords();
    } else if |triggers| == 1 {
      WordsOfText(triggers[0]);
      assert triggers[1..] == [];
    } else {
      WordsAfterText(triggers[0], Joined(triggers[1..]));
      WordsOfJoined(triggers[1..]);
    }
  }

  // ----- Each word is one step

  lemma {:induction false} NoDashes(s: string)
    requires forall i :: 0 <= i < |s| ==> s[i] != '-'
    ensures LegacySplit(s) == LegacyParts([], s)
  {
    IndexOfIs(s, '-', |s|);
  }

  lemma PrefixIsRefused(m: Modifiers)
    ensures ReadLegacy(Prefix(m)) == Err(InvalidKeystroke(Prefix(m)))
  {
    hide ReadTrigger, Prefix, LegacySplit, IsSpace;
    PrefixIsNoTrigger(m);
    PrefixIsClean(m);
    NoDashes(Prefix(m));
  }

  lemma {:induction false} OneStep(s: string, index: nat)
    requires index <= |s|
    requires forall i :: index <= i < |s| && s[i] == '>' ==> ReadLegacy(s[..i]).Err?
    ensures StepsFrom(s, 0, index) == [s]
    decreases |s| - index
  {
    hide ReadLegacy;
    if index < |s| {
      assert s[0..index] == s[..index];
      OneStep(s, index + 1);
    }
  }

  lemma FormatIsOneStep(t: Trigger)
    ensures Steps(FormatTrigger(t)) == [FormatTrigger(t)]
  {
    hide ReadLegacy, Prefix, FormatTrigger, KeyText, IsSpace;
    var s, p := FormatTrigger(t), Prefix(t.modifiers);
    FormatIsPrefix(t);
    PrefixIsClean(t.modifiers);
    if t.key.Unicode? {
      UnicodeText(t.key);
    } else {
      TextIsClean(t.key);
    }
    forall i | 0 <= i < |s| && s[i] == '>' ensures ReadLegacy(s[..i]).Err? {
      assert s[..|p|] == p;
      PrefixIsRefused(t.modifiers);
    }
    OneStep(s, 0);
  }

  lemma PrefixIsOneStep(m: Modifiers)
    ensures Steps(Prefix(m)) == [Prefix(m)]
  {
    hide ReadLegacy, Prefix, IsSpace;
    PrefixIsClean(m);
    OneStep(Prefix(m), 0);
  }

  // ----- What is read back

  /** What the parser makes of one printed trigger. */
  function ReadBack(t: Trigger): Result<seq<Trigger>, SequenceError> {
    if Visible(t) then Ok([Trigger(Cleared(t.modifiers), t.key)])
    else if Prefix(t.modifiers) == "" then Ok([])
    else Err(InvalidKeystroke(Prefix(t.modifiers)))
  }

  function ReadBackAll(triggers: seq<Trigger>): (r: Result<seq<Trigger>, SequenceError>)
    ensures r.Ok? ==> |r.value| <= |triggers|
  {
    if triggers == [] then Ok([])
    else
      match ReadBack(triggers[0])
      case Err(e) => Err(e)
      case Ok(first) =>
        match ReadBackAll(triggers[1..])
        case Err(e) => Err(e)
        case Ok(rest) => Ok(first + rest)
  }

  lemma ReadBackOne(t: Trigger, rest: seq<string>)
    ensures ReadSteps(AllSteps(WordsOf(t) + rest))
      == (match ReadBack(t)
          case Err(e) => Err(e)
          case Ok(first) =>
            match ReadSteps(AllSteps(rest))
            case Err(e) => Err(e)
            case Ok(more) => Ok(first + more))
  {
    hide FormatTrigger, Prefix, Steps, ReadTrigger, IsSpace;
    if Visible(t) {
      var s := FormatTrigger(t);
      assert ([s] + rest)[1..] == rest;
      FormatIsOneStep(t);
      assert ([s] + AllSteps(rest))[1..] == AllSteps(rest);
      TriggerRoundTrip(t);
      assert AllSteps(WordsOf(t) + rest) == [s] + AllSteps(rest);
    } else if Prefix(t.modifiers) == "" {
      assert WordsOf(t) + rest == rest;
      var read := ReadSteps(AllSteps(rest));
      if read.Ok? {
        assert [] + read.value == read.value;
      }
    } else {
      var p := Prefix(t.modifiers);
      assert ([p] + rest)[1..] == rest;
      PrefixIsOneStep(t.modifiers);
      PrefixIsRefused(t.modifiers);
    }
  }

  lemma {:induction false} ReadBackWords(triggers: seq<Trigger>)
    ensures ReadSteps(AllSteps(AllWords(triggers))) == ReadBackAll(triggers)
  {
    hide WordsOf, ReadBack, Steps, ReadLegacy;
    if triggers != [] {
      ReadBackOne(triggers[0], AllWords(triggers[1..]));
      ReadBackWords(triggers[1..]);
    }
  }

  lemma ReadBackSequence(s: KeySequence)
    ensures ReadSequence(FormatSequence(s))
      == (match ReadBackAll(s.triggers) case Err(e) => Err(e) case Ok(triggers) => Checked(triggers, s.flags))
  {
    hide FlagText, Joined, ReadFlags, Words, AllWords, AllSteps, ReadSteps, ReadBackAll, Checked, AddedFlags;
    ReadFlagText(DefaultFlags(), s.flags, Flags(), Joined(s.triggers));
    AddedAllFlags(s.flags);
    JoinedColonsApart(s.triggers);
    NoFlagsAhead(Joined(s.triggers), s.flags);
    WordsOfJoined(s.triggers);
    ReadBackWords(s.triggers);
  }

  // ----- The round trip

  /** The sides imply their modifiers, and the key is no blank. */
  predicate PrintableTrigger(t: Trigger) {
    Visible(t) && Cleared(t.modifiers) == t.modifiers
  }

  predicate Printable(s: KeySequence) {
    && s.triggers != []
    && (forall i :: 0 <= i < |s.triggers| ==> PrintableTrigger(s.triggers[i]))
    && (|s.triggers| > 1 ==> !s.flags.global && !s.flags.all)
  }

  lemma {:induction false} ReadBackIsSame(triggers: seq<Trigger>)
    ensures ReadBackAll(triggers) == Ok(triggers) <==> forall i :: 0 <= i < |triggers| ==> PrintableTrigger(triggers[i])
  {
    hide Cleared, Visible, Prefix;
    if triggers != [] {
      var t, rest := triggers[0], triggers[1..];
      ReadBackIsSame(rest);
      assert triggers == [t] + rest;
      PrintableCons(t, rest);
      if ReadBackAll(triggers) == Ok(triggers) {
        var first, more := ReadBack(t).value, ReadBackAll(rest).value;
        assert |first| == 1;
        assert triggers[0] == (first + more)[0] == first[0];
        assert rest == (first + more)[1..] == more;
      }
    }
  }

  lemma PrintableCons(t: Trigger, rest: seq<Trigger>)
    ensures (forall i :: 0 <= i < |[t] + rest| ==> PrintableTrigger(([t] + rest)[i]))
      <==> PrintableTrigger(t) && forall i :: 0 <= i < |rest| ==> PrintableTrigger(rest[i])
  {
    hide PrintableTrigger;
    var all := [t] + rest;
    assert all[0] == t;
    assert forall i :: 0 <= i < |rest| ==> all[i + 1] == rest[i];
  }

  /** A sequence is read back from its printed text exactly when it is printable. */
  lemma RoundTrip(s: KeySequence)
    ensures ReadSequence(FormatSequence(s)) == Ok(s) <==> Printable(s)
  {
    hide ReadSequence, FormatSequence, ReadBackAll;
    ReadBackSequence(s);
    ReadBackIsSame(s.triggers);
  }
}
