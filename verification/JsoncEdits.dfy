/**
 Edits of the keymap file itself. Each finds its place in the sanitised text and changes the
 original text there. What it does to the list of sections is proved by sanitising and splitting
 the new text.
 */
module JsoncEdits {
  import opened Wrappers
  import opened Sequences
  import opened JsoncText
  import opened JsoncArray
  import opened JsoncLists

  datatype EditError = UnterminatedComment | RootMustBeArray | MissingSection

  /** The sections of a file, as their sanitised texts. */
  function Sections(contents: string): Result<seq<string>, EditError> {
    match Sanitize(contents)
    case None => Err(UnterminatedComment)
    case Some(v) =>
      match RootBounds(v)
      case None => Err(RootMustBeArray)
      case Some(b) => Ok(Texts(v[b.start + 1..b.end]))
  }

  /** The ranges of the sections. */
  function Located(contents: string): Result<seq<Range>, EditError> {
    match Sanitize(contents)
    case None => Err(UnterminatedComment)
    case Some(v) =>
      match RootElements(v)
      case None => Err(RootMustBeArray)
      case Some(r) => Ok(r)
  }

  /** The file with section index written anew. */
  function ReplaceSection(contents: string, index: nat, section: string): Result<string, EditError> {
    match Located(contents)
    case Err(e) => Err(e)
    case Ok(r) =>
      if index >= |r| then Err(MissingSection)
      else if !(r[index].start <= r[index].end <= |contents|) then Err(MissingSection)
      else Ok(Spliced(contents, r[index].start, r[index].end, section))
  }

  /** The text to cut out in order to remove a section. */
  function RemovalRange(r: seq<Range>, index: nat): Range
    requires index < |r|
  {
    if |r| == 1 then r[index]
    else if index + 1 < |r| then Range(r[index].start, r[index + 1].start)
    else Range(r[index - 1].end, r[index].end)
  }

  function RemoveSection(contents: string, index: nat): Result<string, EditError> {
    match Located(contents)
    case Err(e) => Err(e)
    case Ok(r) =>
      if index >= |r| then Err(MissingSection)
      else
        var cut := RemovalRange(r, index);
        if !(cut.start <= cut.end <= |contents|) then Err(MissingSection)
        else Ok(Spliced(contents, cut.start, cut.end, []))
  }

  /** The last character of a text that is not blank. */
  function LastSolid(s: string): Option<char> {
    if Trail(s) == 0 then None else Some(s[Trail(s) - 1])
  }

  function AppendSection(contents: string, section: string): Result<string, EditError> {
    match Strip(contents)
    case None => Err(UnterminatedComment)
    case Some(u) =>
      var v := Commaless(u, Plain, None);
      match RootBounds(v)
      case None => Err(RootMustBeArray)
      case Some(b) =>
        var hasElements := Lead(v[b.start + 1..b.end]) < b.end - b.start - 1;
        var comma := if LastSolid(u[..b.end]) == Some(',') then [] else [','];
        var insertion := if hasElements then comma + ['\n'] + section else ['\n'] + section + ['\n'];
        Ok(Spliced(contents, b.end, b.end, insertion))
  }

  lemma SplicedKeepsRest(s: string, p: nat, q: nat, e: string)
    requires p <= q <= |s|
    ensures var t := Spliced(s, p, q, e); t[..p] == s[..p] && t[p..p + |e|] == e && t[p + |e|..] == s[q..]
  {}

  /** An edit changes nothing outside the section it replaces, the range it cuts out, or the place it inserts at. */
  lemma EditsKeepRest(contents: string, i: nat, e: string)
    ensures ReplaceSection(contents, i, e).Ok? ==>
      var r := Located(contents).value[i]; var t := ReplaceSection(contents, i, e).value;
      r.start <= r.end <= |contents| && |t| == |contents| - (r.end - r.start) + |e|
      && t[..r.start] == contents[..r.start] && t[r.start..r.start + |e|] == e
         && t[r.start + |e|..] == contents[r.end..]
    ensures RemoveSection(contents, i).Ok? ==>
      var r := RemovalRange(Located(contents).value, i); var t := RemoveSection(contents, i).value;
      r.start <= r.end <= |contents| && |t| == |contents| - (r.end - r.start)
      && t[..r.start] == contents[..r.start] && t[r.start..] == contents[r.end..]
    ensures AppendSection(contents, e).Ok? ==>
      var close := RootBounds(Sanitize(contents).value).value.end; var t := AppendSection(contents, e).value;
      close <= |contents| && close < |t| && |t| > |contents|
      && t[..close] == contents[..close] && t[close + (|t| - |contents|)..] == contents[close..]
  {
    hide Located, Spliced, Lead, LastSolid, Strip, Commaless, RootBounds;
    if ReplaceSection(contents, i, e).Ok? {
      var r := Located(contents).value[i];
      SplicedKeepsRest(contents, r.start, r.end, e);
      SplicedSize(contents, r.start, r.end, e);
    }
    if RemoveSection(contents, i).Ok? {
      var r := RemovalRange(Located(contents).value, i);
      SplicedKeepsRest(contents, r.start, r.end, []);
      SplicedSize(contents, r.start, r.end, []);
    }
    if AppendSection(contents, e).Ok? {
      AppendKeepsRest(contents, e);
    }
  }

  lemma AppendIsSplice(contents: string, e: string) returns (insertion: string)
    requires AppendSection(contents, e).Ok?
    ensures Sanitize(contents).Some? && RootBounds(Sanitize(contents).value).Some? && insertion != []
    ensures var close := RootBounds(Sanitize(contents).value).value.end;
      close <= |contents| && AppendSection(contents, e) == Ok(Spliced(contents, close, close, insertion))
  {
    hide Spliced, Lead, LastSolid, Stripped, Run, Commaless, RootBounds;
    var u := Strip(contents).value;
    var v := Sanitize(contents).value;
    var b := RootBounds(v).value;
    RootFacts(v);
    var comma := if LastSolid(u[..b.end]) == Some(',') then [] else [','];
    insertion := if Lead(v[b.start + 1..b.end]) < b.end - b.start - 1 then comma + ['\n'] + e else ['\n'] + e + ['\n'];
  }

  lemma AppendKeepsRest(contents: string, e: string)
    requires AppendSection(contents, e).Ok?
    ensures Sanitize(contents).Some? && RootBounds(Sanitize(contents).value).Some?
    ensures var close := RootBounds(Sanitize(contents).value).value.end; var t := AppendSection(contents, e).value;
      close <= |contents| && close < |t| && |t| > |contents|
      && t[..close] == contents[..close] && t[close + (|t| - |contents|)..] == contents[close..]
  {
    hide Spliced, AppendSection, Sanitize, RootBounds;
    var insertion := AppendIsSplice(contents, e);
    var close := RootBounds(Sanitize(contents).value).value.end;
    SplicedKeepsRest(contents, close, close, insertion);
    SplicedSize(contents, close, close, insertion);
  }

  lemma SplicedSize(s: string, p: nat, q: nat, e: string)
    requires p <= q <= |s|
    ensures |Spliced(s, p, q, e)| == |s| - (q - p) + |e|
  {}

  // ----- Where the sanitiser can be cut

  /**
   The comment scanner stands outside strings and comments at k, and what follows opens no comment with
   what precedes.
   */
  ghost predicate CutAt(s: string, k: nat)
    requires k <= |s|
  {
    var m := Run(s[..k], Normal);
    m == Normal || (m == Slash && !OpensComment(Peek(s[k..], None)))
  }

  /** How a mode came about. */
  lemma ModeBefore(m: Mode, c: char, next: Option<char>)
    ensures NextMode(m, c) == Slash <==> m == Normal && c == '/'
    ensures NextMode(m, c) == Line || InBlock(NextMode(m, c)) ==> IsSpace(Shown(m, c, next))
    ensures m == Line || InBlock(m) ==> IsSpace(Shown(m, c, next))
    ensures m == Slash && OpensComment(Some(c)) ==> IsSpace(Shown(m, c, next))
    ensures m == Normal && c == '/' && !IsSpace(Shown(m, c, next)) ==> !OpensComment(next)
  {
  }

  /** A character that stays visible after sanitising was visible after the first pass, unchanged. */
  lemma VisibleAt(s: string, k: nat)
    requires Strip(s).Some? && k < |s| && !IsSpace(Sanitize(s).value[k])
    ensures Strip(s).value[k] == Sanitize(s).value[k] == s[k]
    ensures Shown(Run(s[..k], Normal), s[k], Peek(s[k + 1..], None)) == s[k]
  {
    hide Run, Stripped, Commaless, RunStr, Solid, Closer;
    StrippedAt(s, k);
    CommalessAt(Strip(s).value, k);
    SanitizeKeepsText(s, k);
  }

  /** Before a visible character outside strings the scanner can be cut. */
  lemma CutBefore(s: string, k: nat)
    requires Strip(s).Some? && k < |s| && !IsSpace(Sanitize(s).value[k])
      && RunStr(Sanitize(s).value[..k], Plain) == Plain
    ensures CutAt(s, k)
    ensures k == 0 || IsSpace(Sanitize(s).value[k - 1]) || Sanitize(s).value[k - 1] != '/'
      ==> Run(s[..k], Normal) == Normal
  {
    hide Run, Stripped, Commaless, RunStr, Shown, NextMode, Sanitize, Strip;
    VisibleAt(s, k);
    StrModeAt(s, k);
    ModeBefore(Run(s[..k], Normal), s[k], Peek(s[k + 1..], None));
    if k > 0 && Run(s[..k], Normal) == Slash {
      SlashShows(s, k);
    }
    if k == 0 {
      RunEmpty(s);
    }
  }

  /** A lone slash just passed is still there. */
  lemma SlashShows(s: string, k: nat)
    requires Strip(s).Some? && 0 < k <= |s| && Run(s[..k], Normal) == Slash && !OpensComment(Peek(s[k..], None))
    ensures Sanitize(s).value[k - 1] == '/'
  {
    hide Run, Stripped, Commaless, RunStr, Solid, Closer;
    StrippedAt(s, k - 1);
    ModeBefore(Run(s[..k - 1], Normal), s[k - 1], Peek(s[k..], None));
    CommalessAt(Strip(s).value, k - 1);
  }

  /** After a visible character outside strings the scanner can be cut. */
  lemma CutAfter(s: string, k: nat)
    requires Strip(s).Some? && 0 < k <= |s| && !IsSpace(Sanitize(s).value[k - 1])
      && RunStr(Sanitize(s).value[..k], Plain) == Plain
    ensures CutAt(s, k)
  {
    hide Run, Stripped, Commaless, RunStr, Shown, NextMode, Sanitize, Strip;
    VisibleAt(s, k - 1);
    StrModeAt(s, k);
    StrippedAt(s, k - 1);
    ModeBefore(Run(s[..k - 1], Normal), s[k - 1], Peek(s[k..], None));
  }

  // ----- Sanitising a spliced text

  /** Text without comments that leaves the scanner as it found it. */
  ghost predicate CommentFree(e: string) {
    Run(e, Normal) == Normal && Stripped(e, Normal, None) == e
  }

  lemma CutTail(s: string, k: nat)
    requires k <= |s| && CutAt(s, k)
    ensures Stripped(s, Normal, None)[k..] == Stripped(s[k..], Normal, None)
    ensures InBlock(Run(s, Normal)) == InBlock(Run(s[k..], Normal))
    ensures Stripped(s, Normal, None)[..k] == Stripped(s[..k], Normal, Peek(s[k..], None))
  {
    hide Run, Stripped;
    assert s == s[..k] + s[k..];
    StrippedConcat(s[..k], s[k..], Normal, None);
    RunConcat(s[..k], s[k..], Normal);
    if Run(s[..k], Normal) == Slash {
      PlainSlash(s[k..], None);
      if s[k..] == [] {
        RunOfNothing(s[k..]);
      }
    }
  }

  lemma RunOfNothing(s: string)
    requires s == []
    ensures Run(s, Normal) == Normal && Run(s, Slash) == Slash
  {
  }

  /** Comments are blanked in a spliced text just as in its parts. */
  lemma StripSpliced(s: string, p: nat, q: nat, e: string)
    requires p <= q <= |s| && CutAt(s, p) && CutAt(s, q) && CommentFree(e)
    requires Run(s[..p], Normal) == Slash ==> !OpensComment(Peek(e + s[q..], None))
    ensures Stripped(Spliced(s, p, q, e), Normal, None) == Spliced(Stripped(s, Normal, None), p, q, e)
    ensures InBlock(Run(Spliced(s, p, q, e), Normal)) == InBlock(Run(s, Normal))
  {
    hide Run, Stripped, OpensComment;
    var a, z, t := s[..p], s[q..], e + s[q..];
    var s' := Spliced(s, p, q, e);
    assert s' == a + t;
    CutTail(s, p);
    CutTail(s, q);
    StrippedConcat(a, t, Normal, None);
    RunConcat(a, t, Normal);
    AfterIgnored(a, Normal, Peek(s[p..], None), Peek(t, None));
    if Run(a, Normal) == Slash {
      PlainSlash(t, None);
    }
    StrippedConcat(e, z, Normal, None);
    RunConcat(e, z, Normal);
    AfterIgnored(e, Normal, None, Peek(z, None));
    if t == [] {
      RunOfNothing(t);
    }
    assert Stripped(t, Normal, None) == e + Stripped(s, Normal, None)[q..];
    ConcatAssoc(Stripped(s, Normal, None)[..p], e, Stripped(s, Normal, None)[q..]);
  }

  /** Trailing commas are blanked in a spliced text as in its parts, if no comma before it changes its fate. */
  lemma CommalessSpliced(u: string, p: nat, q: nat, e: string)
    requires p <= q <= |u| && RunStr(u[..p], Plain) == Plain && RunStr(u[..q], Plain) == Plain
      && RunStr(e, Plain) == Plain
    requires Commaless(u[..p], Plain, Solid(e + u[q..], None)) == Commaless(u[..p], Plain, Solid(u[p..], None))
    requires Commaless(e, Plain, Solid(u[q..], None)) == e
    ensures Commaless(Spliced(u, p, q, e), Plain, None) == Spliced(Commaless(u, Plain, None), p, q, e)
  {
    hide RunStr, Commaless, Solid;
    var a, z, t := u[..p], u[q..], e + u[q..];
    assert u == a + u[p..] && u == u[..q] + z;
    CommalessConcat(a, u[p..], Plain, None);
    CommalessConcat(u[..q], z, Plain, None);
    CommalessConcat(e, z, Plain, None);
    CommalessConcat(a, t, Plain, None);
    var v := Commaless(u, Plain, None);
    assert v[..p] == Commaless(a, Plain, Solid(u[p..], None)) && v[q..] == Commaless(z, Plain, None);
    assert Spliced(u, p, q, e) == a + t;
    assert Spliced(v, p, q, e) == v[..p] + (e + v[q..]);
  }

  /** What lies ahead does not matter to a text that ends in something visible other than a comma. */
  lemma {:induction false} AheadPastEnd(s: string, m: StrMode, a: Option<char>, b: Option<char>)
    requires s != [] && !IsSpace(s[|s| - 1]) && s[|s| - 1] != ','
    ensures Commaless(s, m, a) == Commaless(s, m, b) && Solid(s, a) == Solid(s, b)
  {
    if |s| > 1 {
      AheadPastEnd(s[1..], NextStr(m, s[0]), a, b);
    }
  }

  // ----- The root array of a spliced text

  /** What the brackets of the root array are. */
  lemma RootFacts(v: string)
    requires RootBounds(v).Some?
    ensures var b := RootBounds(v).value;
      var body := v[b.start + 1..b.end];
      && b.start == Lead(v) && Blank(v[..b.start]) && v[b.start] == '[' && v[b.end] == ']'
      && Open(body, Top()) && Closes(RunScan(body, Top()), ']')
  {
    hide Lead, CloseOffset, Open, RunScan;
    LeadCorrect(v);
    var open := Lead(v);
    CloseOffsetFound(v[open + 1..], Top());
    var k := CloseOffset(v[open + 1..], Top()).value;
    assert v[open + 1..][..k] == v[open + 1..open + 1 + k];
  }

  lemma RootIs(v: string, open: nat, k: nat)
    requires open + 1 + k < |v| && Blank(v[..open]) && v[open] == '[' && v[open + 1..][k] == ']'
    requires Open(v[open + 1..][..k], Top()) && Closes(RunScan(v[open + 1..][..k], Top()), ']')
    ensures RootBounds(v) == Some(Range(open, open + 1 + k))
  {
    hide Lead, CloseOffset, Open, RunScan, Blank;
    LeadIs(v, open);
    CloseOffsetIs(v[open + 1..], k, Top());
  }

  /** The inner text of the root array, and the place where it starts. */
  function Inner(v: string): string
    requires RootBounds(v).Some?
  {
    v[RootBounds(v).value.start + 1..RootBounds(v).value.end]
  }

  function InnerStart(v: string): nat
    requires RootBounds(v).Some?
  {
    RootBounds(v).value.start + 1
  }

  lemma RootSpliced(v: string, from: nat, to: nat, e: string)
    requires RootBounds(v).Some? && from <= to <= |Inner(v)|
    requires var body' := Spliced(Inner(v), from, to, e); Open(body', Top()) && Closes(RunScan(body', Top()), ']')
    ensures InnerStart(v) + to <= |v|
    ensures var v' := Spliced(v, InnerStart(v) + from, InnerStart(v) + to, e);
      RootBounds(v').Some? && InnerStart(v') == InnerStart(v) && Inner(v') == Spliced(Inner(v), from, to, e)
  {
    hide Open, RunScan, RootBounds, Spliced, Blank;
    RootFacts(v);
    var b := RootBounds(v).value;
    var body' := Spliced(Inner(v), from, to, e);
    SplicedSlices(v, b.start, b.end, from, to, e);
    RootIs(Spliced(v, b.start + 1 + from, b.start + 1 + to, e), b.start, |body'|);
  }

  lemma SplicedSlices(v: string, open: nat, close: nat, from: nat, to: nat, e: string)
    requires open < close < |v| && v[open] == '[' && v[close] == ']' && from <= to <= close - open - 1
    ensures var v', body' := Spliced(v, open + 1 + from, open + 1 + to, e), Spliced(v[open + 1..close], from, to, e);
      && open + 1 + |body'| < |v'| && v'[..open] == v[..open] && v'[open] == '['
      && v'[open + 1..][..|body'|] == body' && v'[open + 1..open + 1 + |body'|] == body'
         && v'[open + 1..][|body'|] == ']'
  {
    hide Spliced;
    SplicedBetween(v, open + 1, close, from, to, e);
    Between(v[..open + 1], Spliced(v[open + 1..close], from, to, e), v[close..]);
    assert v[..open + 1][..open] == v[..open];
  }

  /** A splice within a part of a text is a splice of that part. */
  lemma SplicedBetween(v: string, n: nat, close: nat, from: nat, to: nat, e: string)
    requires n <= close <= |v| && from <= to <= close - n
    ensures Spliced(v, n + from, n + to, e) == v[..n] + Spliced(v[n..close], from, to, e) + v[close..]
  {
    var body := v[n..close];
    assert v[..n + from] == v[..n] + body[..from];
    assert v[n + to..] == body[to..] + v[close..];
  }

  lemma Between(a: string, b: string, c: string)
    requires a != []
    ensures var t := a + b + c;
      && t[..|a| - 1] == a[..|a| - 1] && t[|a| - 1] == a[|a| - 1]
      && t[|a|..|a| + |b|] == b && t[|a|..][..|b|] == b
      && (c != [] ==> t[|a|..][|b|] == c[0])
  {
  }

  /** Whether a place in the array is inside a string. */
  lemma ModeInside(v: string, k: nat)
    requires RootBounds(v).Some? && k <= |Inner(v)|
    ensures InnerStart(v) + k <= |v| && RunStr(v[..InnerStart(v) + k], Plain) == RunScan(Inner(v)[..k], Top()).mode
  {
    hide RunScan, RunStr, RootBounds;
    RootFacts(v);
    var b := RootBounds(v).value;
    var front, part := v[..b.start], Inner(v)[..k];
    FrontAndPart(v, b.start, b.end, k);
    RunStrConcat(front, ['['] + part, Plain);
    RunStrConcat(['['], part, Plain);
    BlankStr(front);
    BracketStr();
    RunScanMode(part, Top());
  }

  lemma FrontAndPart(v: string, open: nat, close: nat, k: nat)
    requires open < close < |v| && v[open] == '[' && k <= close - open - 1
    ensures v[..open + 1 + k] == v[..open] + (['['] + v[open + 1..close][..k])
  {
    var n := open + 1;
    var part := v[n..close][..k];
    assert part == v[n..n + k];
    assert v[..n + k] == v[..open] + [v[open]] + part;
  }

  lemma BracketStr()
    ensures RunStr(['['], Plain) == Plain
  {
  }

  lemma {:induction false} BlankStr(w: string)
    requires Blank(w)
    ensures RunStr(w, Plain) == Plain
  {
    if w != [] {
      assert IsSpace(w[0]);
      BlankStr(w[1..]);
    }
  }

  /** The ranges found in the file are those of the inner text, moved to its place. */
  lemma LocatedIn(contents: string)
    requires Sanitize(contents).Some? && RootBounds(Sanitize(contents).value).Some?
    ensures var v := Sanitize(contents).value;
      && Located(contents) == Ok(Moved(Elements(Inner(v), 0), InnerStart(v)))
      && Sections(contents) == Ok(Texts(Inner(v)))
      && |Texts(Inner(v))| == |Elements(Inner(v), 0)|
  {
    hide Elements, Texts, RootBounds, Sanitize;
    var v := Sanitize(contents).value;
    ElementsShift(Inner(v), 0, InnerStart(v));
    assert Inner(v)[0..0 + |Inner(v)|] == Inner(v);
    ElementsAreTexts(Inner(v), Inner(v), 0);
  }

  // ----- The edits act on the list

  /** A file whose root array has balanced objects, so that its elements stand by themselves. */
  ghost predicate Balanced(contents: string) {
    && Sanitize(contents).Some?
    && var v := Sanitize(contents).value;
       RootBounds(v).Some? && RunScan(Inner(v), Top()) == Top() && NoStray(Inner(v), Top())
  }

  /** The text of a section to write: one balanced element without comments or trailing commas. */
  ghost predicate IsSection(e: string) {
    && IsElement(e) && Open(e, Top()) && NoStray(e, Top())
    && CommentFree(e) && Commaless(e, Plain, None) == e
  }

  /** Without its comments, one file is the other with a part of its array replaced. */
  ghost predicate Recut(contents: string, contents': string, from: nat, to: nat, e: string)
    requires Balanced(contents) && Balanced(contents')
  {
    var u, v, v' := Strip(contents).value, Sanitize(contents).value, Sanitize(contents').value;
    var n := InnerStart(v);
    && from <= to <= |Inner(v)| && n + |Inner(v)| <= |u|
    && Strip(contents') == Some(Spliced(u, n + from, n + to, e))
    && InnerStart(v') == n && |Inner(v')| == |Inner(v)| - (to - from) + |e|
  }

  /** So it is when sanitised. */
  ghost predicate SplicedBy(contents: string, contents': string, from: nat, to: nat, e: string)
    requires Balanced(contents) && Balanced(contents')
  {
    && Recut(contents, contents', from, to, e)
    && Inner(Sanitize(contents').value) == Spliced(Inner(Sanitize(contents).value), from, to, e)
  }

  /** A part of the array can be replaced: each pass respects the splice, and the new array is balanced. */
  ghost predicate CanSplice(contents: string, from: nat, to: nat, e: string)
    requires Balanced(contents)
  {
    var u, v := Strip(contents).value, Sanitize(contents).value;
    var n, body := InnerStart(v), Inner(v);
    && from <= to <= |body| && n + to <= |contents|
    && CutAt(contents, n + from) && CutAt(contents, n + to) && CommentFree(e)
    && (Run(contents[..n + from], Normal) == Slash ==> !OpensComment(Peek(e + contents[n + to..], None)))
    && RunScan(body[..from], Top()) == Top() && RunScan(body[..to], Top()) == Top()
    && RunScan(e, Top()) == Top() && Open(e, Top()) && NoStray(e, Top())
    && Commaless(u[..n + from], Plain, Solid(e + u[n + to..], None))
       == Commaless(u[..n + from], Plain, Solid(u[n + from..], None))
    && Commaless(e, Plain, Solid(u[n + to..], None)) == e
    && RunScan(Spliced(body, from, to, e), Top()) == Top()
  }

  /** The file with that part replaced. */
  ghost function SplicedFile(contents: string, from: nat, to: nat, e: string): string
    requires Balanced(contents) && CanSplice(contents, from, to, e)
  {
    var n := InnerStart(Sanitize(contents).value);
    Spliced(contents, n + from, n + to, e)
  }

  lemma PassesSpliced(contents: string, from: nat, to: nat, e: string)
    requires Balanced(contents) && CanSplice(contents, from, to, e)
    ensures var u, v := Strip(contents).value, Sanitize(contents).value;
      var p, q := InnerStart(v) + from, InnerStart(v) + to;
      && from <= to <= |Inner(v)| && q <= |contents|
      && Strip(Spliced(contents, p, q, e)) == Some(Spliced(u, p, q, e))
      && Sanitize(Spliced(contents, p, q, e)) == Some(Spliced(v, p, q, e))
  {
    hide Run, Stripped, Commaless, RunScan, RunStr, Solid, Open, NoStray, CutAt, CommentFree, RootBounds, Spliced,
      Sanitize, Strip, OpensComment;
    var v := Sanitize(contents).value;
    SanitizedStrip(contents);
    ModeInside(v, from);
    ModeInside(v, to);
    RunScanMode(e, Top());
    SanitizeSpliced(contents, InnerStart(v) + from, InnerStart(v) + to, e);
  }

  lemma CanSpliceArray(contents: string, from: nat, to: nat, e: string)
    requires Balanced(contents) && CanSplice(contents, from, to, e)
    ensures var body := Inner(Sanitize(contents).value);
      && from <= to <= |body|
      && RunScan(body[..from], Top()) == Top() && RunScan(body[..to], Top()) == Top()
      && RunScan(e, Top()) == Top() && Open(e, Top()) && NoStray(e, Top())
      && RunScan(Spliced(body, from, to, e), Top()) == Top()
  {
    hide Run, Stripped, Commaless, RunScan, Solid, Open, NoStray, CutAt, CommentFree, RootBounds, Spliced, Sanitize,
      Strip, OpensComment, Inner, InnerStart;
  }

  lemma OpenInner(v: string)
    requires RootBounds(v).Some?
    ensures Open(Inner(v), Top())
  {
    hide Open, RunScan, RootBounds;
    RootFacts(v);
  }

  /** Sections of a spliced file. */
  lemma SectionsSpliced(contents: string, from: nat, to: nat, e: string)
    requires Balanced(contents) && CanSplice(contents, from, to, e)
    ensures InnerStart(Sanitize(contents).value) + to <= |contents|
    ensures var contents' := SplicedFile(contents, from, to, e);
      && Balanced(contents') && SplicedBy(contents, contents', from, to, e)
      && Sections(contents') == Ok(Texts(Inner(Sanitize(contents').value)))
  {
    hide CanSplice, RunScan, Open, NoStray, Texts, RootBounds, Spliced, Sanitize, Strip, Inner, InnerStart, Sections;
    SanitizedStrip(contents);
    InnerAt(Sanitize(contents).value, 0);
    StripSize(contents);
    PassesSpliced(contents, from, to, e);
    var v := Sanitize(contents).value;
    SplicedSize(Inner(v), from, to, e);
    CanSpliceArray(contents, from, to, e);
    OpenInner(v);
    OpenSpliced(Inner(v), from, to, e);
    RootSpliced(v, from, to, e);
    SectionsOf(SplicedFile(contents, from, to, e));
  }

  lemma SectionsOf(contents: string)
    requires Sanitize(contents).Some? && RootBounds(Sanitize(contents).value).Some?
    ensures Sections(contents) == Ok(Texts(Inner(Sanitize(contents).value)))
  {
    hide Sanitize, RootBounds, Texts;
  }

  lemma StripSize(s: string)
    requires Sanitize(s).Some?
    ensures |Strip(s).value| == |Sanitize(s).value| == |s|
  {}

  /** Sanitising commutes with a splice at places outside strings where both passes can be cut. */
  lemma SanitizeSpliced(contents: string, p: nat, q: nat, e: string)
    requires Strip(contents).Some? && p <= q <= |contents|
    requires CutAt(contents, p) && CutAt(contents, q) && CommentFree(e)
    requires Run(contents[..p], Normal) == Slash ==> !OpensComment(Peek(e + contents[q..], None))
    requires RunStr(Sanitize(contents).value[..p], Plain) == Plain
      && RunStr(Sanitize(contents).value[..q], Plain) == Plain && RunStr(e, Plain) == Plain
    requires var u := Strip(contents).value;
      && Commaless(u[..p], Plain, Solid(e + u[q..], None)) == Commaless(u[..p], Plain, Solid(u[p..], None))
      && Commaless(e, Plain, Solid(u[q..], None)) == e
    ensures Sanitize(Spliced(contents, p, q, e)) == Some(Spliced(Sanitize(contents).value, p, q, e))
    ensures Strip(Spliced(contents, p, q, e)) == Some(Spliced(Strip(contents).value, p, q, e))
  {
    hide Run, Stripped, Commaless, RunStr, Solid, CutAt, CommentFree, Spliced, OpensComment;
    StripSpliced(contents, p, q, e);
    StrModeOfStripped(contents, p);
    StrModeOfStripped(contents, q);
    CommalessSpliced(Strip(contents).value, p, q, e);
  }

  /** What is known at the two ends of a section, in the file and in both sanitised texts. */
  ghost predicate SectionEnds(contents: string, r: Range)
    requires Balanced(contents)
  {
    var u, v := Strip(contents).value, Sanitize(contents).value;
    var n := InnerStart(v);
    && Edges(Inner(v), r) && n + r.end <= |contents|
    && Run(contents[..n + r.start], Normal) == Normal
    && CutAt(contents, n + r.start) && CutAt(contents, n + r.end)
    && !IsSpace(u[n + r.start]) && !Closer(Some(u[n + r.start]))
    && !IsSpace(u[n + r.end - 1]) && u[n + r.end - 1] != ','
  }

  lemma InnerAt(v: string, k: nat)
    requires RootBounds(v).Some?
    ensures InnerStart(v) + |Inner(v)| < |v|
    ensures k < |Inner(v)| ==> v[InnerStart(v) + k] == Inner(v)[k]
    ensures InnerStart(v) > 0 && v[InnerStart(v) - 1] == '[' && v[InnerStart(v) + |Inner(v)|] == ']'
  {
    hide RootBounds, Open, RunScan;
    RootFacts(v);
  }

  lemma SectionEndsHold(contents: string, i: nat)
    requires Balanced(contents) && i < |Elements(Inner(Sanitize(contents).value), 0)|
    ensures SectionEnds(contents, Elements(Inner(Sanitize(contents).value), 0)[i])
  {
    hide Run, Stripped, Commaless, RunScan, RunStr, Elements, Open, NoStray, RootBounds, Sanitize, Strip, InnerStart,
      Inner;
    var v := Sanitize(contents).value;
    var n, body := InnerStart(v), Inner(v);
    ElementEdges(body, i);
    var r := Elements(body, 0)[i];
    InnerAt(v, r.start);
    InnerAt(v, r.end - 1);
    InnerAt(v, if r.start > 0 then r.start - 1 else 0);
    ModeInside(v, r.start);
    ModeInside(v, r.end);
    NotCloser(v, r.start);
    SanitizedStrip(contents);
    CutBefore(contents, n + r.start);
    CutAfter(contents, n + r.end);
    VisibleAt(contents, n + r.start);
    VisibleAt(contents, n + r.end - 1);
  }

  lemma SanitizedStrip(s: string)
    ensures Sanitize(s).Some? <==> Strip(s).Some?
  {
  }

  /** An element of a balanced array does not start with a closing bracket or brace. */
  lemma NotCloser(v: string, k: nat)
    requires RootBounds(v).Some? && k < |Inner(v)| && NoStray(Inner(v), Top()) && RunScan(Inner(v)[..k], Top()) == Top()
    ensures !Closer(Some(Inner(v)[k]))
  {
    hide RootBounds, RunScan;
    RootFacts(v);
    var body := Inner(v);
    assert body == body[..k] + body[k..];
    OpenConcat(body[..k], body[k..], Top());
    NoStrayConcat(body[..k], body[k..], Top());
  }

  /** What precedes a place sees only whether the next visible character closes something. */
  lemma SolidAt(u: string, k: nat)
    requires k < |u| && !IsSpace(u[k])
    ensures Solid(u[k..], None) == Some(u[k])
  {
  }

  /** Replacing a section of a balanced file replaces it in the list of sections. */
  lemma ReplaceActsOnList(contents: string, i: nat, e: string)
    requires Balanced(contents) && IsSection(e) && i < |Sections(contents).value|
    ensures ReplaceSection(contents, i, e).Ok?
    ensures Sections(ReplaceSection(contents, i, e).value) == Ok(Sections(contents).value[i := e])
    ensures Balanced(ReplaceSection(contents, i, e).value)
    ensures var all := Elements(Inner(Sanitize(contents).value), 0);
      i < |all| && SplicedBy(contents, ReplaceSection(contents, i, e).value, all[i].start, all[i].end, e)
  {
    hide Recut, CanSplice, RunScan, Elements, Texts, NoStray, RootBounds, Sanitize, InnerStart, Inner, Sections,
      Located, Spliced, IsSection, IsElement;
    LocatedIn(contents);
    var v := Sanitize(contents).value;
    var r := Elements(Inner(v), 0)[i];
    SectionIsElement(e);
    ReplaceInBody(Inner(v), i, e);
    CanReplace(contents, i, e);
    SectionsSpliced(contents, r.start, r.end, e);
  }

  lemma SectionIsElement(e: string)
    requires IsSection(e)
    ensures IsElement(e)
  {
    hide IsElement;
  }

  lemma CanReplace(contents: string, i: nat, e: string)
    requires Balanced(contents) && IsSection(e) && i < |Elements(Inner(Sanitize(contents).value), 0)|
    requires var body := Inner(Sanitize(contents).value);
      var r := Elements(body, 0)[i];
      r.start <= r.end <= |body| && RunScan(Spliced(body, r.start, r.end, e), Top()) == Top()
    ensures var r := Elements(Inner(Sanitize(contents).value), 0)[i]; CanSplice(contents, r.start, r.end, e)
  {
    hide Run, Stripped, Commaless, RunScan, RunStr, Elements, Texts, Open, NoStray, RootBounds, Sanitize, Strip,
      InnerStart, Inner, CutAt, Solid, Spliced, Edges, Closer;
    SanitizedStrip(contents);
    var v := Sanitize(contents).value;
    var r := Elements(Inner(v), 0)[i];
    var n := InnerStart(v);
    SectionEndsHold(contents, i);
    EdgesTop(Inner(v), r);
    ReplaceCommas(contents, n + r.start, n + r.end, e);
  }

  lemma EdgesTop(body: string, r: Range)
    requires Edges(body, r)
    ensures r.start < r.end <= |body|
    ensures RunScan(body[..r.start], Top()) == Top() && RunScan(body[..r.end], Top()) == Top()
  {
  }

  lemma ReplaceCommas(contents: string, p: nat, q: nat, e: string)
    requires Strip(contents).Some? && p <= q <= |contents| && p < |contents| && IsSection(e)
    requires !IsSpace(Strip(contents).value[p]) && !Closer(Some(Strip(contents).value[p]))
    ensures var u := Strip(contents).value;
      && Commaless(u[..p], Plain, Solid(e + u[q..], None)) == Commaless(u[..p], Plain, Solid(u[p..], None))
      && Commaless(e, Plain, Solid(u[q..], None)) == e
  {
    hide Run, Stripped, Commaless, RunScan, Strip;
    var u := Strip(contents).value;
    SolidAt(u, p);
    SolidAt(e + u[q..], 0);
    assert (e + u[q..])[0..] == e + u[q..];
    SectionStart(e);
    AheadIgnored(u[..p], Plain, Solid(e + u[q..], None), Solid(u[p..], None));
    PieceEndsNoComma(e);
    AheadPastEnd(e, Plain, None, Solid(u[q..], None));
  }

  lemma SectionStart(e: string)
    requires IsSection(e)
    ensures !IsSpace(e[0]) && !Closer(Some(e[0]))
  {
  }

  // ----- Removing

  lemma NothingToInsert()
    ensures CommentFree([]) && RunScan([], Top()) == Top() && Open([], Top()) && NoStray([], Top())
    ensures forall a: Option<char> :: Commaless([], Plain, a) == []
  {
  }

  lemma RemoveCommas(contents: string, p: nat, q: nat)
    requires Strip(contents).Some? && p <= q < |contents|
    requires !IsSpace(Strip(contents).value[p]) && !Closer(Some(Strip(contents).value[p]))
    requires !IsSpace(Strip(contents).value[q]) && !Closer(Some(Strip(contents).value[q]))
    ensures var u := Strip(contents).value;
      Commaless(u[..p], Plain, Solid([] + u[q..], None)) == Commaless(u[..p], Plain, Solid(u[p..], None))
  {
    hide Run, Stripped, Commaless, Strip;
    var u := Strip(contents).value;
    SolidAt(u, p);
    SolidAt(u, q);
    assert [] + u[q..] == u[q..];
    AheadIgnored(u[..p], Plain, Solid([] + u[q..], None), Solid(u[p..], None));
  }

  /** Removing a section that another follows removes it from the list. */
  lemma RemoveBeforeNext(contents: string, i: nat)
    requires Balanced(contents) && i + 1 < |Sections(contents).value|
    ensures RemoveSection(contents, i).Ok?
    ensures Sections(RemoveSection(contents, i).value) == Ok(RemoveAt(Sections(contents).value, i))
    ensures Balanced(RemoveSection(contents, i).value)
    ensures var all := Elements(Inner(Sanitize(contents).value), 0);
      i + 1 < |all| && SplicedBy(contents, RemoveSection(contents, i).value, all[i].start, all[i + 1].start, [])
  {
    hide Recut, CanSplice, RunScan, Elements, Texts, NoStray, RootBounds, Sanitize, InnerStart, Inner, Sections,
      Located, Spliced;
    LocatedIn(contents);
    var v := Sanitize(contents).value;
    var r, s := Elements(Inner(v), 0)[i], Elements(Inner(v), 0)[i + 1];
    RemoveNextInBody(Inner(v), i);
    CanRemoveNext(contents, i);
    SectionsSpliced(contents, r.start, s.start, []);
  }

  lemma CanRemoveNext(contents: string, i: nat)
    requires Balanced(contents) && i + 1 < |Elements(Inner(Sanitize(contents).value), 0)|
    requires var body := Inner(Sanitize(contents).value);
      var r, s := Elements(body, 0)[i], Elements(body, 0)[i + 1];
      r.start <= s.start <= |body| && RunScan(Spliced(body, r.start, s.start, []), Top()) == Top()
    ensures var all := Elements(Inner(Sanitize(contents).value), 0);
      CanSplice(contents, all[i].start, all[i + 1].start, [])
  {
    hide Run, Stripped, Commaless, RunScan, RunStr, Elements, Texts, Open, NoStray, RootBounds, Sanitize, Strip,
      InnerStart, Inner, CutAt, Solid, Spliced, Edges, Closer, OpensComment, CommentFree;
    SanitizedStrip(contents);
    var v := Sanitize(contents).value;
    var r, s := Elements(Inner(v), 0)[i], Elements(Inner(v), 0)[i + 1];
    var n := InnerStart(v);
    SectionEndsHold(contents, i);
    SectionEndsHold(contents, i + 1);
    EdgesTop(Inner(v), r);
    EdgesTop(Inner(v), s);
    NothingToInsert();
    RemoveCommas(contents, n + r.start, n + s.start);
  }

  /**
   The one place where removing the last section can go wrong: the section before it ends in a
   slash, and a comment mark follows the removed text directly.
   */
  ghost predicate SlashMeetsComment(contents: string, i: nat)
    requires Balanced(contents) && 0 < i < |Elements(Inner(Sanitize(contents).value), 0)|
  {
    var v := Sanitize(contents).value;
    var r, s := Elements(Inner(v), 0)[i - 1], Elements(Inner(v), 0)[i];
    var n := InnerStart(v);
    && n + r.end <= |contents| && n + s.end <= |contents|
    && Run(contents[..n + r.end], Normal) == Slash && OpensComment(Peek(contents[n + s.end..], None))
  }

  lemma NoSlashMeets(contents: string, i: nat)
    requires Balanced(contents) && 0 < i < |Elements(Inner(Sanitize(contents).value), 0)|
      && !SlashMeetsComment(contents, i)
    ensures var v := Sanitize(contents).value; var n := InnerStart(v);
      var r, s := Elements(Inner(v), 0)[i - 1], Elements(Inner(v), 0)[i];
      n + r.end <= |contents| && n + s.end <= |contents|
      && (Run(contents[..n + r.end], Normal) == Slash ==> !OpensComment(Peek(contents[n + s.end..], None)))
  {
    hide Run, Stripped, Commaless, RunScan, Elements, NoStray, RootBounds, Sanitize, Strip, InnerStart, Inner, CutAt,
      Edges, OpensComment;
    SectionEndsHold(contents, i - 1);
    SectionEndsHold(contents, i);
  }

  lemma LastCommas(contents: string, p: nat, q: nat)
    requires Strip(contents).Some? && 0 < p <= q <= |contents|
    requires !IsSpace(Strip(contents).value[p - 1]) && Strip(contents).value[p - 1] != ','
    ensures var u := Strip(contents).value;
      Commaless(u[..p], Plain, Solid([] + u[q..], None)) == Commaless(u[..p], Plain, Solid(u[p..], None))
  {
    hide Run, Stripped, Commaless, Strip, Solid;
    var u := Strip(contents).value;
    var a := u[..p];
    assert a[|a| - 1] == u[p - 1];
    AheadPastEnd(a, Plain, Solid([] + u[q..], None), Solid(u[p..], None));
  }

  /** Otherwise removing the last of several sections removes it from the list. */
  lemma RemoveLast(contents: string, i: nat)
    requires Balanced(contents) && 0 < i && i + 1 == |Sections(contents).value|
    requires i < |Elements(Inner(Sanitize(contents).value), 0)| && !SlashMeetsComment(contents, i)
    ensures RemoveSection(contents, i).Ok?
    ensures Sections(RemoveSection(contents, i).value) == Ok(RemoveAt(Sections(contents).value, i))
    ensures Balanced(RemoveSection(contents, i).value)
    ensures var all := Elements(Inner(Sanitize(contents).value), 0);
      SplicedBy(contents, RemoveSection(contents, i).value, all[i - 1].end, all[i].end, [])
  {
    hide Recut, CanSplice, RunScan, Elements, Texts, NoStray, RootBounds, Sanitize, InnerStart, Inner, Sections,
      Located, Spliced, SlashMeetsComment;
    LocatedIn(contents);
    var v := Sanitize(contents).value;
    var r, s := Elements(Inner(v), 0)[i - 1], Elements(Inner(v), 0)[i];
    RemoveLastInBody(Inner(v));
    CanRemoveLast(contents, i);
    SectionsSpliced(contents, r.end, s.end, []);
  }

  lemma CanRemoveLast(contents: string, i: nat)
    requires Balanced(contents) && 0 < i && i + 1 == |Elements(Inner(Sanitize(contents).value), 0)|
    requires !SlashMeetsComment(contents, i)
    requires var body := Inner(Sanitize(contents).value);
      var r, s := Elements(body, 0)[i - 1], Elements(body, 0)[i];
      r.end <= s.end <= |body| && RunScan(Spliced(body, r.end, s.end, []), Top()) == Top()
    ensures var all := Elements(Inner(Sanitize(contents).value), 0);
      CanSplice(contents, all[i - 1].end, all[i].end, [])
  {
    hide Run, Stripped, Commaless, RunScan, RunStr, Elements, Texts, Open, NoStray, RootBounds, Sanitize, Strip,
      InnerStart, Inner, CutAt, Solid, Spliced, Edges, Closer, SlashMeetsComment, OpensComment, CommentFree;
    SanitizedStrip(contents);
    NoSlashMeets(contents, i);
    var v := Sanitize(contents).value;
    var r, s := Elements(Inner(v), 0)[i - 1], Elements(Inner(v), 0)[i];
    var n := InnerStart(v);
    SectionEndsHold(contents, i - 1);
    SectionEndsHold(contents, i);
    EdgesTop(Inner(v), r);
    EdgesTop(Inner(v), s);
    NothingToInsert();
    LastCommas(contents, n + r.end, n + s.end);
    assert [] + contents[n + s.end..] == contents[n + s.end..];
  }
}
