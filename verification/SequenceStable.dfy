/**
 Whatever the parser accepts, it reads back from its canonical spelling, unless a key is the blank
 character, which only a differently capitalised "space" can name.
 */
module SequenceStable {
  import opened Wrappers
  import opened Sequences
  import opened Keys
  import opened KeyNames
  import opened TriggerText
  import opened SequenceText

  /** A key that is visible, or the blank itself. */
  predicate NearlyVisible(key: TriggerKey) {
    key.Unicode? && IsSpace(key.ch) ==> key.ch == ' '
  }

  ghost predicate Sound(t: Trigger) {
    Cleared(t.modifiers) == t.modifiers && NearlyVisible(t.key)
  }

  ghost predicate AllClean(words: seq<string>) {
    forall i :: 0 <= i < |words| ==> NoBlanks(words[i])
  }

  lemma KeySound(part: string)
    requires NoBlanks(part) && KeyOf(part).Ok?
    ensures NearlyVisible(KeyOf(part).value)
  {
    hide PhysicalOf, LowerAscii;
  }

  lemma {:induction false} PartsClean(s: string)
    requires NoBlanks(s)
    ensures AllClean(Parts(s))
    decreases |s|
  {
    hide IsSpace;
    if s != "" && PlusFrom(s, 1) < |s| {
      PartsClean(s[PlusFrom(s, 1) + 1..]);
    }
  }

  lemma {:induction false} ReadPartsSound(parts: seq<string>, m: Modifiers, key: Option<TriggerKey>)
    requires AllClean(parts) && Cleared(m) == m && (key.Some? ==> NearlyVisible(key.value))
    requires ReadParts(parts, m, key).Ok?
    ensures Sound(ReadParts(parts, m, key).value)
    decreases |parts|
  {
    hide ModifierOf, KeyOf, NearlyVisible;
    if parts != [] {
      var modifier := ModifierOf(parts[0]);
      if modifier.Some? {
        var part := modifier.value;
        var next := Set(m, ModifierPart(part.kind, if part.side.Some? then part.side else SideOf(m, part.kind)));
        ReadPartsSound(parts[1..], next, key);
      } else {
        KeySound(parts[0]);
        ReadPartsSound(parts[1..], m, Some(KeyOf(parts[0]).value));
      }
    }
  }

  lemma TriggerSound(s: string)
    requires NoBlanks(s) && ReadTrigger(s).Ok?
    ensures Sound(ReadTrigger(s).value)
  {
    hide Parts, ReadParts;
    PartsClean(s);
    ReadPartsSound(Parts(s), NoModifiers(), None);
  }

  lemma NormalizedClean(s: string)
    requires NormalizedModifier(s).Some?
    ensures NoBlanks(NormalizedModifier(s).value)
  {
    hide KindOf;
  }

  lemma LegacyNone(s: string, i: nat)
    requires i == IndexOf(s, '-') && (i == |s| || NormalizedModifier(s[..i]).None?)
    ensures LegacySplit(s) == LegacyParts([], s)
  {
    hide NormalizedModifier, IndexOf;
  }

  lemma {:induction false} LegacySplitClean(s: string)
    requires NoBlanks(s)
    ensures AllClean(LegacySplit(s).modifiers) && NoBlanks(LegacySplit(s).rest)
    decreases |s|
  {
    hide NormalizedModifier, IsSpace, LegacySplit, IndexOf;
    var i := IndexOf(s, '-');
    if i < |s| && NormalizedModifier(s[..i]).Some? {
      NormalizedClean(s[..i]);
      LegacySplitClean(s[i + 1..]);
      LegacyFirst(NormalizedModifier(s[..i]).value, s, i);
    } else {
      LegacyNone(s, i);
    }
  }

  lemma {:induction false} TagsClean(names: seq<string>)
    requires AllClean(names)
    ensures NoBlanks(Tags(names))
  {
    if names != [] {
      assert NoBlanks(names[0]);
      TagsClean(names[1..]);
    }
  }

  lemma LegacySound(s: string)
    requires NoBlanks(s) && ReadLegacy(s).Ok?
    ensures Sound(ReadLegacy(s).value)
  {
    hide ReadTrigger, LegacySplit, Tags, IsSpace, Sound;
    if ReadTrigger(s).Ok? {
      TriggerSound(s);
    } else {
      LegacySplitClean(s);
      TagsClean(LegacySplit(s).modifiers);
      TriggerSound(Tags(LegacySplit(s).modifiers) + LegacySplit(s).rest);
    }
  }

  lemma {:induction false} StepsClean(s: string, start: nat, index: nat)
    requires start <= index <= |s| && NoBlanks(s)
    ensures AllClean(StepsFrom(s, start, index))
    decreases |s| - index
  {
    hide ReadLegacy, IsSpace;
    if index < |s| {
      if s[index] == '>' && ReadLegacy(s[start..index]).Ok? {
        StepsClean(s, index + 1, index + 1);
      } else {
        StepsClean(s, start, index + 1);
      }
    }
  }

  lemma {:induction false} WordsClean(s: string)
    ensures AllClean(Words(s))
    decreases |s|
  {
    hide IsSpace;
    if s != "" {
      if IsSpace(s[0]) {
        WordsClean(s[1..]);
      } else {
        WordsClean(s[BlankFrom(s)..]);
      }
    }
  }

  lemma {:induction false} AllStepsClean(words: seq<string>)
    requires AllClean(words)
    ensures AllClean(AllSteps(words))
  {
    hide Steps, NoBlanks;
    if words != [] {
      assert NoBlanks(words[0]);
      StepsOfClean(words[0]);
      AllStepsClean(words[1..]);
    }
  }

  lemma StepsOfClean(s: string)
    requires NoBlanks(s)
    ensures AllClean(Steps(s))
  {
    StepsClean(s, 0, 0);
  }

  lemma {:induction false} ReadStepsSound(steps: seq<string>, i: nat)
    requires AllClean(steps) && ReadSteps(steps).Ok? && i < |ReadSteps(steps).value|
    ensures Sound(ReadSteps(steps).value[i])
    decreases |steps|
  {
    hide ReadLegacy, Sound, NoBlanks;
    if i == 0 {
      LegacySound(steps[0]);
    } else {
      ReadStepsSound(steps[1..], i - 1);
    }
  }

  // ----- Where the blank comes from

  /** Spelled like the space key's name, but not as either of its spellings. */
  predicate OddSpace(part: string) {
    LowerAscii(part) == "space" && part != "Space" && part != "space"
  }

  ghost predicate AnyOddSpace(parts: seq<string>) {
    exists i :: 0 <= i < |parts| && OddSpace(parts[i])
  }

  lemma OddSpaceIsNamed(part: string)
    requires LowerAscii(part) == "space"
    ensures NamedOf(part) == if part == "Space" || part == "space" then Some(Space) else None
  {
    hide NamedA, NamedB, NamedE, NamedP, NamedAlone;
    var lower := LowerAscii(part);
    assert |part| == 5 && lower[0] == 's' && lower[1] == 'p';
  }

  lemma SpaceIsPhysical()
    ensures PhysicalOf("Space") == PhysicalOf("space") == Ok(Some(Named(Space)))
    ensures LowerAscii("Space") == LowerAscii("space") == "space"
  {
    hide NamedOf;
    SpellingsOfSpace();
    OddSpaceIsNamed("Space");
    OddSpaceIsNamed("space");
  }

  lemma SpellingsOfSpace()
    ensures LowerAscii("Space") == LowerAscii("space") == "space"
  {}

  /** A part without blanks names the blank character exactly when it is such a spelling. */
  lemma BlankIsOddSpace(part: string)
    requires NoBlanks(part)
    ensures KeyOf(part) == Ok(Unicode(' ')) <==> OddSpace(part)
  {
    hide NamedOf;
    if LowerAscii(part) == "space" {
      OddSpaceIsNamed(part);
      SpaceStarts(part);
    }
    SpaceIsPhysical();
  }

  lemma SpaceStarts(part: string)
    requires LowerAscii(part) == "space"
    ensures |part| == 5 && !StartsWith(part, "Key") && !StartsWith(part, "Digit") && !StartsWith(part, "key_")
      && FunctionOf(part) == None
  {
    var lower := LowerAscii(part);
    assert lower[0] == 's';
  }

  lemma OddSpaceIsNoModifier(part: string)
    requires LowerAscii(part) == "space"
    ensures ModifierOf(part) == None
  {
    var lower := LowerAscii(part);
    assert |part| == 5 && lower[1] == 'p' && lower[2] == 'a';
    KindIsNotSpace(part);
  }

  lemma KindIsNotSpace(s: string)
    requires LowerAscii(s) == "space"
    ensures KindOf(s) == None
  {
    var lower := LowerAscii(s);
    assert |s| == 5 && lower[1] == 'p';
    if KindOf(s).Some? {
      SecondOfKind(s);
    }
  }

  lemma SecondOfKind(s: string)
    requires KindOf(s).Some? && |s| == 5
    ensures s[1] == 'h' || s[1] == 'u'
  {}

  /** The key of a trigger is the blank exactly when one of its parts is such a spelling. */
  lemma {:induction false} ReadPartsBlank(parts: seq<string>, m: Modifiers, key: Option<TriggerKey>)
    requires AllClean(parts) && ReadParts(parts, m, key).Ok?
    ensures ReadParts(parts, m, key).value.key == Unicode(' ') <==> key == Some(Unicode(' ')) || AnyOddSpace(parts)
    decreases |parts|
  {
    hide ModifierOf, KeyOf, OddSpace, Set, LowerAscii, AnyOddSpace;
    if parts == [] {
      NoOddSpace();
    } else {
      var part, rest := parts[0], parts[1..];
      assert parts == [part] + rest;
      BlankIsOddSpace(part);
      OddSpaceIsKey(part);
      var modifier := ModifierOf(part);
      if modifier.Some? {
        var p := modifier.value;
        ReadPartsBlank(rest, Set(m, ModifierPart(p.kind, if p.side.Some? then p.side else SideOf(m, p.kind))), key);
      } else {
        ReadPartsBlank(rest, m, Some(KeyOf(part).value));
        KeptKey(rest, m, KeyOf(part).value);
      }
      OneOf(part, rest);
    }
  }

  lemma OddSpaceIsKey(part: string)
    ensures OddSpace(part) ==> ModifierOf(part) == None
  {
    hide ModifierOf;
    if OddSpace(part) {
      OddSpaceIsNoModifier(part);
    }
  }

  lemma OneOf(part: string, rest: seq<string>)
    ensures AnyOddSpace([part] + rest) <==> OddSpace(part) || AnyOddSpace(rest)
  {
    hide OddSpace;
    var all := [part] + rest;
    assert all[0] == part;
    forall i | 0 <= i < |rest| && OddSpace(rest[i]) ensures AnyOddSpace(all) {
      assert all[i + 1] == rest[i];
    }
  }

  lemma NoOddSpace()
    ensures !AnyOddSpace([])
  {}

  /** A key once read is the trigger's key. */
  lemma {:induction false} KeptKey(parts: seq<string>, m: Modifiers, key: TriggerKey)
    requires ReadParts(parts, m, Some(key)).Ok?
    ensures ReadParts(parts, m, Some(key)).value.key == key
    decreases |parts|
  {
    hide ModifierOf, KeyOf, Set;
    if parts != [] {
      var p := ModifierOf(parts[0]).value;
      KeptKey(parts[1..], Set(m, ModifierPart(p.kind, if p.side.Some? then p.side else SideOf(m, p.kind))), key);
    }
  }

  /** The parts that a step is read from: its own, or those of its legacy spelling. */
  function PartsRead(step: string): seq<string> {
    if ReadTrigger(step).Ok? then Parts(step) else Parts(Tags(LegacySplit(step).modifiers) + LegacySplit(step).rest)
  }

  ghost predicate HasOddSpace(step: string) {
    AnyOddSpace(PartsRead(step))
  }

  lemma TriggerBlank(s: string)
    requires NoBlanks(s) && ReadTrigger(s).Ok?
    ensures ReadTrigger(s).value.key == Unicode(' ') <==> AnyOddSpace(Parts(s))
  {
    hide Parts, ReadParts, AnyOddSpace;
    NoOddSpace();
    PartsClean(s);
    ReadPartsBlank(Parts(s), NoModifiers(), None);
  }

  lemma LegacyBlank(step: string)
    requires NoBlanks(step) && ReadLegacy(step).Ok?
    ensures ReadLegacy(step).value.key == Unicode(' ') <==> HasOddSpace(step)
  {
    hide ReadTrigger, LegacySplit, Tags, IsSpace, AnyOddSpace, Parts;
    if ReadTrigger(step).Ok? {
      TriggerBlank(step);
    } else {
      LegacySplitClean(step);
      TagsClean(LegacySplit(step).modifiers);
      var text := Tags(LegacySplit(step).modifiers) + LegacySplit(step).rest;
      assert PartsRead(step) == Parts(text);
      assert ReadLegacy(step).value == ReadTrigger(text).value;
      TriggerBlank(text);
    }
  }

  lemma {:induction false} ReadStepsAt(steps: seq<string>, i: nat)
    requires ReadSteps(steps).Ok? && i < |steps|
    ensures |ReadSteps(steps).value| == |steps| && ReadLegacy(steps[i]).Ok?
      && ReadSteps(steps).value[i] == ReadLegacy(steps[i]).value
    decreases |steps|
  {
    hide ReadLegacy;
    if i > 0 {
      ReadStepsAt(steps[1..], i - 1);
    } else if |steps| > 1 {
      ReadStepsAt(steps[1..], 0);
    }
  }

  /** The steps of a source, one for each trigger it is read as. */
  function StepsRead(source: string): seq<string>
    requires ReadSequence(source).Ok?
  {
    AllSteps(Words(ReadFlags(source, DefaultFlags()).value.rest))
  }

  /**
   A sequence the parser returns is printable exactly when none of its keys is the blank, and a key is
   exactly where a step spells "space" oddly.
   */
  lemma ParsedIsPrintable(source: string)
    requires ReadSequence(source).Ok?
    ensures var s, steps := ReadSequence(source).value, StepsRead(source);
      && |s.triggers| == |steps|
      && (forall i :: 0 <= i < |steps| ==> (s.triggers[i].key == Unicode(' ') <==> HasOddSpace(steps[i])))
      && (Printable(s) <==> forall i :: 0 <= i < |s.triggers| ==> s.triggers[i].key != Unicode(' '))
  {
    hide ReadFlags, AllSteps, ReadSteps, Words, Cleared, HasOddSpace, ReadLegacy, NoBlanks, NearlyVisible;
    var s, steps := ReadSequence(source).value, StepsRead(source);
    var rest := ReadFlags(source, DefaultFlags()).value.rest;
    WordsClean(rest);
    AllStepsClean(Words(rest));
    SameLength(steps);
    forall i | 0 <= i < |steps| ensures s.triggers[i].key == Unicode(' ') <==> HasOddSpace(steps[i]) {
      ReadStepsAt(steps, i);
      LegacyBlank(steps[i]);
    }
    forall i | 0 <= i < |s.triggers| ensures Sound(s.triggers[i]) {
      ReadStepsSound(steps, i);
    }
    SoundIsPrintable(s);
  }

  lemma SameLength(steps: seq<string>)
    requires ReadSteps(steps).Ok?
    ensures |ReadSteps(steps).value| == |steps|
  {
    hide ReadLegacy;
    if steps != [] {
      ReadStepsAt(steps, 0);
    }
  }

  lemma SoundIsPrintable(s: KeySequence)
    requires s.triggers != [] && (|s.triggers| > 1 ==> !s.flags.global && !s.flags.all)
    requires forall i :: 0 <= i < |s.triggers| ==> Sound(s.triggers[i])
    ensures Printable(s) <==> forall i :: 0 <= i < |s.triggers| ==> s.triggers[i].key != Unicode(' ')
  {
    hide Cleared;
  }

  /** So printing what was parsed, and parsing that, changes nothing more. */
  lemma CanonicalSpellingIsStable(source: string)
    requires ReadSequence(source).Ok?
    ensures var s := ReadSequence(source).value;
      ReadSequence(FormatSequence(s)) == Ok(s) <==> forall i :: 0 <= i < |s.triggers|
                                                     ==> s.triggers[i].key != Unicode(' ')
  {
    hide ReadSequence, FormatSequence, Printable, HasOddSpace;
    ParsedIsPrintable(source);
    RoundTrip(ReadSequence(source).value);
  }

  // ----- A source that fails

  /** A single plain word that names a key is read as that key alone. */
  lemma WordIsRead(word: string, key: TriggerKey)
    requires word != "" && Plain(word) && ModifierOf(word) == None && KeyOf(word) == Ok(key)
    ensures ReadSequence(word) == Ok(KeySequence([Trigger(NoModifiers(), key)], DefaultFlags()))
  {
    hide ModifierOf, KeyOf, PlainChar, IsSpace, FlagOf, ReadParts;
    forall i | 0 <= i < |word| ensures !IsSpace(word[i]) && word[i] != '>' && word[i] != ':' && word[i] != '+' {
      PlainIsNoBlank(word[i]);
      PlainIsNoPlus(word[i]);
    }
    NoFlagsAhead(word, DefaultFlags());
    WordAlone(word);
    OneStep(word, 0);
    PartsWithoutPlus(word);
    OneKey(word, NoModifiers(), key);
    assert ReadTrigger(word) == Ok(Trigger(NoModifiers(), key));
    ReadOneStep(word);
    assert [word][1..] == [];
    assert AllSteps([word]) == Steps(word) + AllSteps([]);
  }

  lemma PlainIsNoPlus(c: char)
    requires PlainChar(c)
    ensures c != '+'
  {}

  lemma SpaceSpelling()
    ensures "SPACE" != "" && Plain("SPACE") && OddSpace("SPACE")
  {}

  /** SPACE is read as the blank character, whose printed form is refused. */
  lemma SpaceIsNotStable()
    ensures var blank := KeySequence([Trigger(NoModifiers(), Unicode(' '))], DefaultFlags());
      && ReadSequence("SPACE") == Ok(blank)
      && ReadSequence(FormatSequence(blank)) == Err(EmptySequence)
  {
    hide ModifierOf, KeyOf, ReadSequence, FormatSequence, LowerAscii, OddSpace, Plain;
    var word := "SPACE";
    SpaceSpelling();
    PlainHasNoBlanks(word);
    BlankIsOddSpace(word);
    OddSpaceIsKey(word);
    WordIsRead(word, Unicode(' '));
    var t := Trigger(NoModifiers(), Unicode(' '));
    var blank := KeySequence([t], DefaultFlags());
    ReadBackSequence(blank);
    assert [t][1..] == [];
    NoPrefix();
  }

  lemma PlainHasNoBlanks(s: string)
    requires Plain(s)
    ensures NoBlanks(s)
  {
    hide PlainChar, IsSpace;
    forall i | 0 <= i < |s| ensures !IsSpace(s[i]) {
      PlainIsNoBlank(s[i]);
    }
  }

  lemma NoPrefix()
    ensures Prefix(NoModifiers()) == ""
  {
    var m := NoModifiers();
    assert Kinds()[1..] == [Ctrl, Alt, Shift] && [Ctrl, Alt, Shift][1..] == [Alt, Shift]
      && [Alt, Shift][1..] == [Shift];
    assert TagNames(m, Kinds()) == [];
  }
}
