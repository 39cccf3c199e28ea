/**
 Edits of the keymap file one after another. Each finds its place in the text the one before it left,
 and together they act on the list of sections, also where old indices are used from last to first.
 */
module JsoncRuns {
  import opened Wrappers
  import opened Sequences
  import opened JsoncText
  import opened JsoncArray
  import opened JsoncLists
  import opened JsoncEdits
  import opened JsoncAppend
  import opened JsoncCommas

  // ----- Runs of edits

  datatype TextEdit = Replace(index: nat, section: string) | Remove(index: nat) | Append(section: string)

  function EditText(contents: string, edit: TextEdit): Result<string, EditError> {
    match edit
    case Replace(i, e) => ReplaceSection(contents, i, e)
    case Remove(i) => RemoveSection(contents, i)
    case Append(e) => AppendSection(contents, e)
  }

  /** The same edit of a list. */
  function EditList(list: seq<string>, edit: TextEdit): Result<seq<string>, EditError> {
    match edit
    case Replace(i, e) => if i < |list| then Ok(list[i := e]) else Err(MissingSection)
    case Remove(i) => if i < |list| then Ok(RemoveAt(list, i)) else Err(MissingSection)
    case Append(e) => Ok(list + [e])
  }

  function RunText(contents: string, edits: seq<TextEdit>): Result<string, EditError>
    decreases |edits|
  {
    if edits == [] then Ok(contents)
    else
      match EditText(contents, edits[0])
      case Err(e) => Err(e)
      case Ok(next) => RunText(next, edits[1..])
  }

  function RunList(list: seq<string>, edits: seq<TextEdit>): Result<seq<string>, EditError>
    decreases |edits|
  {
    if edits == [] then Ok(list)
    else
      match EditList(list, edits[0])
      case Err(e) => Err(e)
      case Ok(next) => RunList(next, edits[1..])
  }

  ghost predicate NoSlashes(list: seq<string>) {
    forall i :: 0 <= i < |list| ==> !EndsInSlash(list[i])
  }

  /** A file that edits can work on: balanced, and no section ends in a slash, as none does in JSON. */
  ghost predicate Editable(contents: string) {
    Balanced(contents) && Sections(contents).Ok? && NoSlashes(Sections(contents).value)
  }

  /** What is written as a section does not end in a slash. */
  lemma SectionEnds(e: string)
    requires IsSection(e)
    ensures !EndsInSlash(e)
  {
    hide Run, Stripped, IsPiece, Open, NoStray, Commaless;
    var n := |e| - 1;
    StrippedAt(e, n);
    SlashIsLost(Run(e[..n], Normal), Peek(e[n + 1..], None));
    assert e[..n + 1] == e;
  }

  lemma SlashIsLost(m: Mode, next: Option<char>)
    ensures NextMode(m, '/') != Normal || Shown(m, '/', next) != '/'
  {}

  ghost predicate WritesSections(edit: TextEdit) {
    !edit.Remove? ==> IsSection(edit.section)
  }

  lemma IndexPastEnd(contents: string, i: nat, e: string)
    requires Balanced(contents) && Sections(contents).Ok? && i >= |Sections(contents).value|
    ensures ReplaceSection(contents, i, e) == Err(MissingSection) && RemoveSection(contents, i) == Err(MissingSection)
  {
    hide Sections, Located, Elements, Texts, RootBounds, Sanitize, RunScan, NoStray;
    LocatedIn(contents);
  }

  /** One edit of the text is the edit of the list, errors included. */
  lemma EditActsOnList(contents: string, edit: TextEdit)
    requires Editable(contents) && WritesSections(edit)
    ensures var list := EditList(Sections(contents).value, edit); var text := EditText(contents, edit);
      && (list.Err? ==> text == Err(list.error))
      && (list.Ok? ==> text.Ok? && Editable(text.value) && Sections(text.value) == list)
  {
    hide Balanced, Sections, IsSection, EndsInSlash, ReplaceSection, RemoveSection, AppendSection;
    var list := Sections(contents).value;
    match edit
    case Replace(i, e) =>
      SectionEnds(e);
      if i < |list| {
        ReplaceActsOnList(contents, i, e);
      } else {
        IndexPastEnd(contents, i, e);
      }
    case Remove(i) =>
      if i < |list| {
        RemoveActsOnList(contents, i);
      } else {
        IndexPastEnd(contents, i, []);
      }
    case Append(e) =>
      SectionEnds(e);
      AppendKeepsBalanced(contents, e);
  }

  /** So is every run of edits, which stops at the same error or ends in a file that can be edited on. */
  lemma {:induction false} RunActsOnList(contents: string, edits: seq<TextEdit>)
    requires Editable(contents) && forall i :: 0 <= i < |edits| ==> WritesSections(edits[i])
    ensures var list := RunList(Sections(contents).value, edits); var text := RunText(contents, edits);
      && (list.Err? ==> text == Err(list.error))
      && (list.Ok? ==> text.Ok? && Editable(text.value) && Sections(text.value) == list)
    decreases |edits|
  {
    hide Editable, Sections, EditText, EditList, WritesSections;
    EditableHasSections(contents);
    if edits != [] {
      EditActsOnList(contents, edits[0]);
      if EditList(Sections(contents).value, edits[0]).Ok? {
        RunActsOnList(EditText(contents, edits[0]).value, edits[1..]);
      }
    }
  }

  lemma EditableHasSections(contents: string)
    requires Editable(contents)
    ensures Sections(contents).Ok?
  {}

  /** Moving a binding to another section: its own section is rewritten or removed, then a new one is appended. */
  lemma MoveActsOnList(contents: string, i: nat, rest: Option<string>, e: string)
    requires Editable(contents) && i < |Sections(contents).value| && IsSection(e)
      && (rest.Some? ==> IsSection(rest.value))
    ensures var first := if rest.Some? then Replace(i, rest.value) else Remove(i);
      var text := RunText(contents, [first, Append(e)]); var list := Sections(contents).value;
      && text.Ok? && Editable(text.value)
      && Sections(text.value) == Ok((if rest.Some? then list[i := rest.value] else RemoveAt(list, i)) + [e])
  {
    hide Editable, Sections, EditText, IsSection;
    var first := if rest.Some? then Replace(i, rest.value) else Remove(i);
    var edits := [first, Append(e)];
    assert edits[1..] == [Append(e)] && [Append(e)][1..] == [];
    EditableHasSections(contents);
    RunActsOnList(contents, edits);
    var list := Sections(contents).value;
    TwoEdits(list, first, Append(e));
  }

  lemma TwoEdits(list: seq<string>, a: TextEdit, b: TextEdit)
    ensures RunList(list, [a, b]) == (match EditList(list, a) case Err(e) => Err(e) case Ok(next) => EditList(next, b))
  {
    hide EditList;
    assert [a, b][1..] == [b] && [b][1..] == [];
    if EditList(list, a).Ok? {
      var next := EditList(list, a).value;
      assert RunList(next, [b]) == EditList(next, b);
    }
  }

  // ----- Runs and the commas between sections

  /**
   An edit leaves the commas between sections, unless it appends to an array that is empty but for a
   comma. Only an append takes a comma before the bracket away, by putting a section behind it.
   */
  lemma EditSeparates(contents: string, edit: TextEdit)
    requires Editable(contents) && Separated(contents) && WritesSections(edit) && EditText(contents, edit).Ok?
    ensures var next := EditText(contents, edit).value;
      && Editable(next)
      && (Separated(next) <==> !(edit.Append? && Sections(contents).value == [] && Trailing(contents)))
      && (Trailing(next) <==> !edit.Append? && Trailing(contents))
  {
    hide Balanced, Sections, IsSection, EndsInSlash, ReplaceSection, RemoveSection, AppendSection, Trailing,
      WellSeparated;
    EditActsOnList(contents, edit);
    match edit
    case Replace(i, e) => ReplaceSeparates(contents, i, e);
    case Remove(i) => RemoveSeparates(contents, i);
    case Append(e) => AppendSeparates(contents, e);
  }

  /** Every text of a run has its commas between sections. */
  ghost predicate SeparatedThroughout(contents: string, edits: seq<TextEdit>)
    decreases |edits|
  {
    && Separated(contents)
    && (edits == [] || EditText(contents, edits[0]).Err?
        || SeparatedThroughout(EditText(contents, edits[0]).value, edits[1..]))
  }

  /** The first section that a run appends comes when none of this many is left. */
  predicate AppendsToNothing(count: nat, edits: seq<TextEdit>)
    decreases |edits|
  {
    && edits != []
    && match edits[0] {
         case Append(_) => count == 0
         case Remove(i) => i < count && AppendsToNothing(count - 1, edits[1..])
         case Replace(i, _) => i < count && AppendsToNothing(count, edits[1..])
       }
  }

  /**
   A run keeps the commas between sections in every text, exactly unless the file starts with a comma
   before its closing bracket and the run removes every section before it appends one.
   */
  lemma {:induction false} RunSeparatesIff(contents: string, edits: seq<TextEdit>)
    requires Editable(contents) && Separated(contents) && forall i :: 0 <= i < |edits| ==> WritesSections(edits[i])
    ensures SeparatedThroughout(contents, edits)
      <==> !(Trailing(contents) && AppendsToNothing(|Sections(contents).value|, edits))
    decreases |edits|
  {
    hide Editable, Separated, Sections, EditText, WritesSections, Trailing;
    EditableHasSections(contents);
    EditableIsBalanced(contents);
    if edits != [] {
      EditActsOnList(contents, edits[0]);
      if EditText(contents, edits[0]).Ok? {
        var next := EditText(contents, edits[0]).value;
        EditSeparates(contents, edits[0]);
        EditableIsBalanced(next);
        if Separated(next) {
          RunSeparatesIff(next, edits[1..]);
        }
      }
    }
  }

  lemma EditableIsBalanced(contents: string)
    requires Editable(contents)
    ensures Balanced(contents) && Sections(contents).Ok?
  {}

  /** So does moving a binding, exactly unless its section is the only one, goes, and a comma follows it. */
  lemma MoveSeparatesIff(contents: string, i: nat, rest: Option<string>, e: string)
    requires Editable(contents) && Separated(contents) && i < |Sections(contents).value| && IsSection(e)
      && (rest.Some? ==> IsSection(rest.value))
    ensures var first := if rest.Some? then Replace(i, rest.value) else Remove(i);
      var text := RunText(contents, [first, Append(e)]);
      && text.Ok? && Editable(text.value)
      && (Separated(text.value) <==> !(rest.None? && |Sections(contents).value| == 1 && Trailing(contents)))
  {
    hide Editable, Separated, Sections, EditText, IsSection, Trailing;
    EditableIsBalanced(contents);
    var first := if rest.Some? then Replace(i, rest.value) else Remove(i);
    MoveActsOnList(contents, i, rest, e);
    TwoTexts(contents, first, Append(e));
    EditActsOnList(contents, first);
    EditSeparates(contents, first);
    EditSeparates(EditText(contents, first).value, Append(e));
  }

  lemma TwoTexts(contents: string, a: TextEdit, b: TextEdit)
    ensures RunText(contents, [a, b])
      == (match EditText(contents, a) case Err(e) => Err(e) case Ok(next) => EditText(next, b))
  {
    hide EditText;
    assert [a, b][1..] == [b] && [b][1..] == [];
    if EditText(contents, a).Ok? {
      var next := EditText(contents, a).value;
      assert RunText(next, [b]) == EditText(next, b);
    }
  }

  /** A file with one section and a comma behind it. */
  function OneAndComma(e: string): string {
    ['['] + (e + [',', ']'])
  }

  /** Moving the only binding out of such a file does leave a comma with nothing before it. */
  lemma MoveStrandsComma(a: string, b: string)
    requires IsSection(a) && IsSection(b)
    ensures var contents := OneAndComma(a); var text := RunText(contents, [Remove(0), Append(b)]);
      && Editable(contents) && Separated(contents) && Sections(contents) == Ok([a])
      && text.Ok? && Sections(text.value) == Ok([b]) && !Separated(text.value)
  {
    hide Editable, Separated, IsSection, RunText, OneAndComma, Trailing, Sections;
    OneAndCommaIs(a);
    MoveActsOnList(OneAndComma(a), 0, None, b);
    MoveSeparatesIff(OneAndComma(a), 0, None, b);
    assert RemoveAt([a], 0) + [b] == [b];
  }

  /** A file that shows it. */
  lemma StrandedComma()
    ensures var text := RunText("[{},]", [Remove(0), Append("{}")]);
      Separated("[{},]") && text.Ok? && Sections(text.value) == Ok(["{}"]) && !Separated(text.value)
  {
    hide Separated, RunText, Sections, IsSection;
    EmptyObject();
    MoveStrandsComma("{}", "{}");
    assert OneAndComma("{}") == "[{},]";
  }

  lemma EmptyObject()
    ensures IsSection("{}")
  {
    assert "{}"[1..] == "}" && "}"[1..] == "";
  }

  lemma OneAndCommaIs(e: string)
    requires IsSection(e)
    ensures var contents := OneAndComma(e);
      && Editable(contents) && Separated(contents) && Trailing(contents) && Sections(contents) == Ok([e])
  {
    hide Run, Stripped, Commaless, RunScan, RunStr, RootBounds, Texts, Open, NoStray, CommentFree, Blank, IsElement,
      NoBlankPiece, LastSolid, EndsInSlash, IsSection;
    SectionEnds(e);
    var contents, v := OneAndComma(e), ['['] + (e + [' ', ']']);
    OneAndCommaSanitized(e);
    OneSectionRoot(e);
    assert contents[..2 + |e|] == ['['] + e + [','];
    LastSolidIs(contents[..2 + |e|]);
  }

  /** Neither pass touches such a file, but for its comma. */
  lemma OneAndCommaSanitized(e: string)
    requires IsSection(e)
    ensures var contents := OneAndComma(e);
      Strip(contents) == Some(contents) && Sanitize(contents) == Some(['['] + (e + [' ', ']']))
  {
    hide Run, Stripped, Commaless, RunScan, RunStr, Solid, Open, NoStray, CommentFree, PieceEnd;
    var t := [',', ']'];
    CommaAndBracket();
    CommentFreeConcat(e, t);
    CommentFreeConcat(['['], e + t);
    CommentFreeStrips(OneAndComma(e));
    PieceEndsNoComma(e);
    RunScanMode(e, Top());
    CommalessConcat(['['], e + t, Plain, None);
    CommalessConcat(e, t, Plain, None);
    BracketKept(Solid(e + t, None));
    AheadPastEnd(e, Plain, Solid(t, None), None);
  }

  lemma CommentFreeStrips(s: string)
    requires CommentFree(s)
    ensures Strip(s) == Some(s)
  {}

  lemma CommaAndBracket()
    ensures CommentFree(['[']) && CommentFree([',', ']']) && RunStr(['['], Plain) == Plain
    ensures Commaless([',', ']'], Plain, None) == [' ', ']']
  {
    assert [',', ']'][1..] == [']'] && [']'][1..] == [];
  }

  lemma BracketKept(ahead: Option<char>)
    ensures Commaless(['['], Plain, ahead) == ['[']
  {}

  /** An array of one section and a blank. */
  lemma OneSectionRoot(e: string)
    requires IsSection(e)
    ensures var v, body := ['['] + (e + [' ', ']']), e + [' '];
      && RootBounds(v).Some? && InnerStart(v) == 1 && Inner(v) == body
      && RunScan(body, Top()) == Top() && NoStray(body, Top()) && Texts(body) == [e] && NoBlankPiece(body)
  {
    hide RunScan, Texts, Open, NoStray, Blank, NoBlankPiece, RootBounds, IsSection;
    OneSectionBody(e);
    BracketedRoot(e + [' ']);
    assert ['['] + ((e + [' ']) + [']']) == ['['] + (e + [' ', ']']);
  }

  lemma BracketedRoot(body: string)
    requires Open(body, Top()) && RunScan(body, Top()) == Top()
    ensures var v := ['['] + (body + [']']); RootBounds(v).Some? && InnerStart(v) == 1 && Inner(v) == body
  {
    hide RunScan, Open, Blank, RootBounds;
    BlankSpaces();
    var v := ['['] + (body + [']']);
    assert v[1..] == body + [']'];
    assert v[1..][..|body|] == body && v[..0] == [] && v[1..1 + |body|] == body;
    RootIs(v, 0, |body|);
  }

  lemma OneSectionBody(e: string)
    requires IsSection(e)
    ensures var body := e + [' '];
      && Open(body, Top()) && RunScan(body, Top()) == Top() && NoStray(body, Top())
      && Texts(body) == [e] && NoBlankPiece(body)
  {
    hide RunScan, Texts, Open, NoStray, CommentFree, Blank, PieceEnd, NoBlankPiece, Commaless, Trim, Commas;
    var body := e + [' '];
    BlankSpaces();
    OneElement([], e, [' ']);
    PaddedPiece([], e, [' ']);
    assert [] + e + [' '] == body;
    SplitCommas(body, body, false, []);
    TrimAgrees(body, 0);
    OpenConcat(e, [' '], Top());
    OpenBlank([' '], Top());
    NoStrayConcat(e, [' '], Top());
    NoStrayBlank([' ']);
  }

  lemma BlankSpaces()
    ensures Blank([' ']) && Blank([])
  {}

  // ----- Resetting a context

  /** A parsed section, as far as resetting looks at it. */
  datatype ParsedSection = ParsedSection(
    context: string,
    useKeyEquivalents: bool,
    useBuiltinDefaults: Option<bool>,
    bindingCount: nat,
    sourceIndex: nat)

  predicate IsReset(s: ParsedSection, context: string) {
    s.context == context && s.bindingCount > 0
  }

  /** The text a reset leaves in the place of a section, if any. */
  function ResetTo(s: ParsedSection, write: ParsedSection -> string): Option<string> {
    if s.useKeyEquivalents || s.useBuiltinDefaults.Some? then Some(write(s.(bindingCount := 0))) else None
  }

  /** The parsed sections come in order, and each from an element of the file. */
  ghost predicate InOrder(sections: seq<ParsedSection>, length: nat) {
    && (forall i :: 0 <= i < |sections| ==> sections[i].sourceIndex < length)
    && (forall i, j :: 0 <= i < j < |sections| ==> sections[i].sourceIndex < sections[j].sourceIndex)
  }

  /** What becomes of the element at this index. */
  function Fate(text: string, index: nat, sections: seq<ParsedSection>, context: string,
                write: ParsedSection -> string): seq<string> {
    if sections == [] then [text]
    else if sections[0].sourceIndex != index then Fate(text, index, sections[1..], context, write)
    else if !IsReset(sections[0], context) then [text]
    else
      match ResetTo(sections[0], write)
      case None => []
      case Some(e) => [e]
  }

  /** The list with every section of the context rewritten without its bindings, or dropped, from this index on. */
  function ResetList(list: seq<string>, from: nat, sections: seq<ParsedSection>, context: string,
                     write: ParsedSection -> string): seq<string>
    requires from <= |list|
    decreases |list| - from
  {
    if from == |list| then []
    else Fate(list[from], from, sections, context, write) + ResetList(list, from + 1, sections, context, write)
  }

  lemma {:induction false} FateKept(text: string, index: nat, sections: seq<ParsedSection>, context: string,
                                    write: ParsedSection -> string)
    requires forall i :: 0 <= i < |sections| && IsReset(sections[i], context) ==> sections[i].sourceIndex != index
    ensures Fate(text, index, sections, context, write) == [text]
  {
    if sections != [] {
      FateKept(text, index, sections[1..], context, write);
    }
  }

  lemma {:induction false} FateReset(text: string, sections: seq<ParsedSection>, k: nat, context: string,
                                     write: ParsedSection -> string)
    requires k < |sections| && IsReset(sections[k], context)
    requires forall i, j :: 0 <= i < j < |sections| ==> sections[i].sourceIndex < sections[j].sourceIndex
    ensures Fate(text, sections[k].sourceIndex, sections, context, write)
      == match ResetTo(sections[k], write) case None => [] case Some(e) => [e]
  {
    hide ResetTo;
    if k > 0 {
      FateReset(text, sections[1..], k - 1, context, write);
    }
  }

  lemma ResetCons(list: seq<string>, from: nat, sections: seq<ParsedSection>, context: string,
                  write: ParsedSection -> string)
    requires from < |list|
    ensures ResetList(list, from, sections, context, write)
      == Fate(list[from], from, sections, context, write) + ResetList(list, from + 1, sections, context, write)
  {}

  /** Elements that no reset section comes from stay. */
  lemma {:induction false} ResetSkips(list: seq<string>, from: nat, until: nat, sections: seq<ParsedSection>,
                                      context: string, write: ParsedSection -> string)
    requires from <= until <= |list|
    requires forall i :: 0 <= i < |sections| && IsReset(sections[i], context)
              ==> !(from <= sections[i].sourceIndex < until)
    ensures ResetList(list, from, sections, context, write) == list[from..until]
      + ResetList(list, until, sections, context, write)
    decreases until - from
  {
    hide Fate, IsReset, ResetList;
    if from < until {
      FateKept(list[from], from, sections, context, write);
      ResetSkips(list, from + 1, until, sections, context, write);
      ResetCons(list, from, sections, context, write);
      assert list[from..until] == [list[from]] + list[from + 1..until];
      ConcatAssoc([list[from]], list[from + 1..until], ResetList(list, until, sections, context, write));
    } else {
      assert list[from..until] == [];
    }
  }

  /** The reset sections from the k-th on are those at or after this place. */
  ghost predicate DoneFrom(sections: seq<ParsedSection>, k: nat, done: nat, context: string) {
    forall i :: 0 <= i < |sections| && IsReset(sections[i], context) ==> (i >= k <==> sections[i].sourceIndex >= done)
  }

  /** The list before the k-th section is reset, taken apart at it. */
  lemma ResetStep(list: seq<string>, done: nat, sections: seq<ParsedSection>, k: nat, context: string,
                  write: ParsedSection -> string)
    requires done <= |list| && k < |sections| && InOrder(sections, |list|) && DoneFrom(sections, k + 1, done, context)
      && IsReset(sections[k], context)
    ensures var i := sections[k].sourceIndex;
      && i < done && DoneFrom(sections, k, i, context)
      && list[..done] + ResetList(list, done, sections, context, write)
         == list[..i] + [list[i]] + ResetList(list, i + 1, sections, context, write)
      && ResetList(list, i, sections, context, write)
         == (match ResetTo(sections[k], write) case None => [] case Some(e) => [e])
           + ResetList(list, i + 1, sections, context, write)
  {
    hide Fate, ResetTo, IsReset, ResetList;
    var i := sections[k].sourceIndex;
    FateReset(list[i], sections, k, context, write);
    ResetCons(list, i, sections, context, write);
    ResetSkips(list, i + 1, done, sections, context, write);
    assert list[..done] == list[..i] + [list[i]] + list[i + 1..done];
  }

  /** An edit at the end of the front part leaves what follows it alone. */
  lemma EditAt(front: seq<string>, x: string, tail: seq<string>, rest: Option<string>)
    ensures var edit := if rest.Some? then Replace(|front|, rest.value) else Remove(|front|);
      EditList(front + [x] + tail, edit) == Ok(front + (match rest case None => [] case Some(e) => [e]) + tail)
  {
    var all := front + [x] + tail;
    match rest
    case None =>
      assert RemoveAt(all, |front|) == front + tail;
      assert front + [] + tail == front + tail;
    case Some(e) =>
      assert all[|front| := e] == front + [e] + tail;
  }

  /** From last to first, with the indices of the file as it was parsed. */
  method ResetContext(contents: string, sections: seq<ParsedSection>, context: string, write: ParsedSection -> string)
    returns (result: Result<string, EditError>)
    requires Editable(contents) && InOrder(sections, |Sections(contents).value|)
    requires forall s :: IsSection(write(s))
    ensures result.Ok? && Editable(result.value)
    ensures Sections(result.value) == Ok(ResetList(Sections(contents).value, 0, sections, context, write))
    ensures Separated(contents) ==> Separated(result.value)
  {
    hide Separated, Editable, Sections, ReplaceSection, RemoveSection, IsSection, ResetList, EditList, IsReset,
      DoneFrom, InOrder;
    EditableHasSections(contents);
    ghost var list := Sections(contents).value;
    ghost var done: nat := |list|;
    var updated := contents;
    var k := |sections|;
    ResetStarts(list, sections, context, write);
    while k > 0
      invariant 0 <= k <= |sections| && done <= |list| && DoneFrom(sections, k, done, context)
      invariant Editable(updated)
        && Sections(updated) == Ok(list[..done] + ResetList(list, done, sections, context, write))
      invariant Separated(contents) ==> Separated(updated)
    {
      k := k - 1;
      var s := sections[k];
      if IsReset(s, context) {
        var i := s.sourceIndex;
        ResetStep(list, done, sections, k, context, write);
        var rest := ResetTo(s, write);
        ghost var tail := ResetList(list, i + 1, sections, context, write);
        ghost var edit := if rest.Some? then Replace(i, rest.value) else Remove(i);
        EditActsOnList(updated, edit);
        EditAt(list[..i], list[i], tail, rest);
        ConcatAssoc(list[..i], match rest case None => [] case Some(e) => [e], tail);
        if Separated(contents) {
          EditSeparates(updated, edit);
        }
        var next := if rest.Some? then ReplaceSection(updated, i, rest.value) else RemoveSection(updated, i);
        updated := next.value;
        done := i;
      } else {
        SkipSection(sections, k, done, context);
      }
    }
    ResetEnds(list, done, sections, context, write);
    result := Ok(updated);
  }

  lemma SkipSection(sections: seq<ParsedSection>, k: nat, done: nat, context: string)
    requires k < |sections| && DoneFrom(sections, k + 1, done, context) && !IsReset(sections[k], context)
    ensures DoneFrom(sections, k, done, context)
  {
    hide IsReset;
  }

  lemma ResetStarts(list: seq<string>, sections: seq<ParsedSection>, context: string, write: ParsedSection -> string)
    requires InOrder(sections, |list|)
    ensures DoneFrom(sections, |sections|, |list|, context)
    ensures list[..|list|] + ResetList(list, |list|, sections, context, write) == list
  {}

  lemma ResetEnds(list: seq<string>, done: nat, sections: seq<ParsedSection>, context: string,
                  write: ParsedSection -> string)
    requires done <= |list| && DoneFrom(sections, 0, done, context)
    ensures ResetList(list, 0, sections, context, write) == list[..done]
      + ResetList(list, done, sections, context, write)
  {
    hide IsReset, ResetList;
    ResetSkips(list, 0, done, sections, context, write);
    assert list[0..done] == list[..done];
  }
}
