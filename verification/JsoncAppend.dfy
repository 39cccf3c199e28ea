/** Appending a section, and removing the only one. */
module JsoncAppend {
  import opened Wrappers
  import opened Sequences
  import opened JsoncText
  import opened JsoncArray
  import opened JsoncLists
  import opened JsoncEdits

  // ----- Removing the only section

  /** Text of blanks and commas. */
  predicate Light(s: string) {
    forall i :: 0 <= i < |s| ==> IsSpace(s[i]) || s[i] == ','
  }

  lemma {:induction false} LightBody(w: string)
    requires Light(w)
    ensures RunScan(w, Top()) == Top() && Open(w, Top()) && NoStray(w, Top())
  {
    if w != [] {
      LightBody(w[1..]);
    }
  }

  lemma {:induction false} LightTexts(w: string)
    requires Light(w)
    ensures Texts(w) == []
    decreases |w|
  {
    hide PieceEnd, RunScan, Trim;
    var k := PieceEnd(w, Top());
    PieceIsBlank(w);
    TrimAgrees(w[..k], 0);
    if k < |w| {
      LightTexts(w[k + 1..]);
    }
  }

  lemma {:induction false} PieceIsBlank(w: string)
    requires Light(w)
    ensures Blank(w[..PieceEnd(w, Top())])
  {
    if w != [] && w[0] != ',' {
      PieceIsBlank(w[1..]);
      assert NextScan(Top(), w[0]) == Top();
      assert w[..PieceEnd(w, Top())] == [w[0]] + w[1..][..PieceEnd(w[1..], Top())];
    }
  }

  lemma LightJoin(x: string, more: bool, y: string)
    requires Blank(x) && (more ==> Light(y))
    ensures Light(if more then x + [','] + y else x)
  {
  }

  lemma {:induction false} NoElementsLight(body: string)
    requires RunScan(body, Top()) == Top() && Elements(body, 0) == []
    ensures Light(body)
    decreases |body|
  {
    hide PieceEnd, RunScan, Texts, Trim, Elements, Trimmed, IsPiece, Light, Blank;
    var x, more, y := Uncons(body);
    SplitTexts(body, x, more, y);
    if more {
      NoElementsLight(y);
    }
    LightJoin(x, more, y);
  }

  /** Around its only element a body holds blanks and commas. */
  lemma {:induction false} OnlyElementLight(body: string)
    requires RunScan(body, Top()) == Top() && |Elements(body, 0)| == 1
    ensures var r := Elements(body, 0)[0];
      r.start <= r.end <= |body| && Light(body[..r.start]) && Light(body[r.end..])
    decreases |body|
  {
    hide PieceEnd, RunScan, Texts, Trim, Elements, Trimmed, Lead, Trail, IsPiece;
    var x, more, y := Uncons(body);
    SplitTexts(body, x, more, y);
    if Blank(x) {
      OnlyElementLight(y);
      var s := Elements(y, 0)[0];
      assert body[..|x| + 1 + s.start] == x + [','] + y[..s.start] && body[|x| + 1 + s.end..] == y[s.end..];
    } else {
      FirstRange(x);
      SolidPiece(x);
      if more {
        NoElementsLight(y);
      }
      assert body[..Lead(x)] == x[..Lead(x)];
      assert body[Trail(x)..] == x[Trail(x)..] + if more then [','] + y else [];
    }
  }

  lemma LightSlice(s: string, p: nat, q: nat)
    requires p <= q <= |s|
    ensures Light(s[p..q]) <==> forall k :: p <= k < q ==> IsSpace(s[k]) || s[k] == ','
  {
    var a := s[p..q];
    if Light(a) {
      forall k | p <= k < q ensures IsSpace(s[k]) || s[k] == ',' {
        assert a[k - p] == s[k];
      }
    }
  }

  /** Blanks and commas after sanitising were blanks and commas before the commas were removed. */
  lemma LightBefore(u: string, p: nat, q: nat)
    requires p <= q <= |u| && Light(Commaless(u, Plain, None)[p..q])
    ensures Light(u[p..q])
  {
    hide Commaless, RunStr, Solid, Closer, Light;
    var v := Commaless(u, Plain, None);
    LightSlice(v, p, q);
    forall k | p <= k < q ensures IsSpace(u[k]) || u[k] == ',' {
      CommalessAt(u, k);
    }
    LightSlice(u, p, q);
  }

  lemma {:induction false} CommalessLight(s: string, m: StrMode, ahead: Option<char>)
    requires Light(s)
    ensures Light(Commaless(s, m, ahead))
  {
    hide Solid, NextStr;
    if s != [] {
      CommalessLight(s[1..], NextStr(m, s[0]), ahead);
    }
  }

  /** RemoveAt the only element, sanitising leaves a light inner text between the same brackets. */
  lemma OnlyRemoved(u: string, n: nat, p: nat, q: nat, close: nat) returns (body': string)
    requires 0 < n <= p <= q <= close < |u| && u[n - 1] == '[' && RunStr(u[..n], Plain) == Plain
      && RunStr(u[..q], Plain) == Plain
    requires RunStr(u[..p], Plain) == Plain
    requires Light(u[n..p]) && Light(Commaless(u, Plain, None)[q..close])
    ensures Light(body') && |body'| == (p - n) + (close - q)
    ensures Blank(u[n..p]) && Blank(Commaless(u, Plain, None)[q..close]) ==> Blank(body')
    ensures Commaless(Spliced(u, p, q, []), Plain, None)
         == Commaless(u, Plain, None)[..n] + body' + Commaless(u, Plain, None)[close..]
  {
    hide RunStr, Commaless, Solid, Light, Blank;
    var a, mid, z := u[..n], u[n..p], u[q..];
    var v := Commaless(u, Plain, None);
    var ahead := Solid(z, None);
    assert u == a + u[n..] && u == u[..q] + z;
    CommalessConcat(a, u[n..], Plain, None);
    CommalessConcat(u[..q], z, Plain, None);
    assert Spliced(u, p, q, []) == a + (mid + z);
    CommalessConcat(a, mid + z, Plain, None);
    CommalessConcat(mid, z, Plain, None);
    assert u[..p] == a + mid;
    RunStrConcat(a, mid, Plain);
    assert a[|a| - 1] == '[';
    AheadPastEnd(a, Plain, Solid(u[n..], None), Solid(mid + z, None));
    CommalessLight(mid, Plain, ahead);
    var c := Commaless(mid, Plain, ahead);
    body' := c + v[q..close];
    assert Light(body') by {
      LightConcat(c, v[q..close]);
    }
    if Blank(mid) && Blank(v[q..close]) {
      CommalessBlank(mid, Plain, ahead);
      BlankJoin(mid, v[q..close]);
    }
    assert v[..n] == Commaless(a, Plain, Solid(u[n..], None)) && v[q..] == Commaless(z, Plain, None);
    assert v[q..] == v[q..close] + v[close..];
  }

  lemma LightConcat(a: string, b: string)
    requires Light(a) && Light(b)
    ensures Light(a + b)
  {
  }

  /** The only section is cut out. If nothing but blanks is around it, nothing but blanks is left. */
  ghost predicate OnlyCut(contents: string, contents': string, r: Range)
    requires Balanced(contents) && Balanced(contents')
  {
    var u, v, v' := Strip(contents).value, Sanitize(contents).value, Sanitize(contents').value;
    var n := InnerStart(v);
    && Recut(contents, contents', r.start, r.end, [])
    && (Blank(u[n..n + r.start]) && Blank(Inner(v)[r.end..]) ==> Blank(Inner(v')))
  }

  /** Removing the only section leaves an array without sections. */
  lemma RemoveOnly(contents: string)
    requires Balanced(contents) && |Sections(contents).value| == 1
    ensures RemoveSection(contents, 0).Ok?
    ensures Sections(RemoveSection(contents, 0).value) == Ok([])
    ensures Balanced(RemoveSection(contents, 0).value)
    ensures var all := Elements(Inner(Sanitize(contents).value), 0);
      |all| == 1 && OnlyCut(contents, RemoveSection(contents, 0).value, all[0])
  {
    hide OnlyCut, Run, Stripped, Commaless, RunScan, RunStr, Elements, Texts, Open, NoStray, RootBounds, Sanitize,
      Strip, InnerStart, Inner, CutAt, Solid, Sections, Located, Spliced, Edges, Closer, Light;
    LocatedIn(contents);
    SanitizedStrip(contents);
    var v := Sanitize(contents).value;
    var r, n := Elements(Inner(v), 0)[0], InnerStart(v);
    SectionEndsHold(contents, 0);
    EdgesTop(Inner(v), r);
    NothingToInsert();
    StripSpliced(contents, n + r.start, n + r.end, []);
    StripEnds(contents);
    OnlySanitized(contents, r);
  }

  lemma StripEnds(s: string)
    requires Strip(s).Some?
    ensures !InBlock(Run(s, Normal)) && Strip(s).value == Stripped(s, Normal, None)
  {
  }

  /** This is the one section, and both of its ends are places where the passes can be cut. */
  ghost predicate OnlyAt(contents: string, r: Range)
    requires Balanced(contents)
  {
    var v := Sanitize(contents).value;
    var n, body := InnerStart(v), Inner(v);
    && Elements(body, 0) == [r] && r.start <= r.end <= |body| && n + r.end <= |contents|
    && RunScan(body[..r.start], Top()) == Top() && RunScan(body[..r.end], Top()) == Top()
    && var contents' := Spliced(contents, n + r.start, n + r.end, []);
       && Stripped(contents', Normal, None) == Spliced(Stripped(contents, Normal, None), n + r.start, n + r.end, [])
       && !InBlock(Run(contents', Normal))
  }

  /** The file without the range. */
  ghost function CutFrom(contents: string, r: Range): string
    requires Balanced(contents) && OnlyAt(contents, r)
  {
    var n := InnerStart(Sanitize(contents).value);
    Spliced(contents, n + r.start, n + r.end, [])
  }

  /** Without its only section, the file has this text between its brackets. */
  ghost predicate OnlyPasses(contents: string, r: Range, body': string)
    requires Balanced(contents) && OnlyAt(contents, r)
  {
    var u, v, contents' := Strip(contents).value, Sanitize(contents).value, CutFrom(contents, r);
    var n, body := InnerStart(v), Inner(v);
    && n + |body| <= |v| && |v| == |u| && |body'| == |body| - (r.end - r.start)
    && Strip(contents') == Some(Spliced(u, n + r.start, n + r.end, []))
    && Sanitize(contents') == Some(v[..n] + body' + v[n + |body|..])
    && (Blank(u[n..n + r.start]) && Blank(body[r.end..]) ==> Blank(body'))
  }

  lemma OnlySanitized(contents: string, r: Range)
    requires Balanced(contents) && OnlyAt(contents, r)
    ensures var contents' := CutFrom(contents, r);
      Balanced(contents') && Sections(contents') == Ok([]) && OnlyCut(contents, contents', r)
  {
    hide Run, Stripped, Commaless, RunScan, RunStr, Elements, Texts, Open, NoStray, RootBounds, Sanitize, Strip,
      Spliced, Light, Blank;
    SanitizedStrip(contents);
    StripSize(contents);
    var v := Sanitize(contents).value;
    InnerAt(v, 0);
    var body' := OnlyPassed(contents, r);
    LightBody(body');
    LightTexts(body');
    RebuiltRoot(v, body');
  }

  /** What the two passes make of a file without its only section. */
  lemma OnlyPassed(contents: string, r: Range) returns (body': string)
    requires Balanced(contents) && OnlyAt(contents, r)
    ensures Light(body')
    ensures OnlyPasses(contents, r, body')
  {
    hide Run, Stripped, Commaless, RunScan, RunStr, Elements, NoStray, RootBounds, Solid, Spliced, Closer, Light,
      Blank;
    var u, v := Strip(contents).value, Sanitize(contents).value;
    var n, body := InnerStart(v), Inner(v);
    var p, q, close := n + r.start, n + r.end, n + |body|;
    OnlyElementLight(body);
    InnerAt(v, 0);
    BracketVisible(contents, n);
    InnerSlices(v, r.start, r.end);
    LightBefore(u, n, p);
    assert body[..0] == [];
    NothingToInsert();
    InnerModes(contents, 0);
    InnerModes(contents, r.start);
    InnerModes(contents, r.end);
    body' := OnlyRemoved(u, n, p, q, close);
  }

  lemma InnerSlices(v: string, from: nat, to: nat)
    requires RootBounds(v).Some? && from <= to <= |Inner(v)|
    ensures InnerStart(v) + |Inner(v)| <= |v|
    ensures v[InnerStart(v)..InnerStart(v) + from] == Inner(v)[..from]
    ensures v[InnerStart(v) + to..InnerStart(v) + |Inner(v)|] == Inner(v)[to..]
  {
    hide RootBounds;
    var b := RootBounds(v).value;
    SlicesOfSlice(v, b.start + 1, b.end, from, to);
  }

  lemma SlicesOfSlice(v: string, start: nat, end: nat, from: nat, to: nat)
    requires start <= end <= |v| && from <= to <= end - start
    ensures v[start..start + from] == v[start..end][..from] && v[start + to..end] == v[start..end][to..]
  {}

  lemma InnerModes(contents: string, k: nat)
    requires Sanitize(contents).Some? && RootBounds(Sanitize(contents).value).Some?
    requires k <= |Inner(Sanitize(contents).value)|
      && RunScan(Inner(Sanitize(contents).value)[..k], Top()).mode == Plain
    ensures InnerStart(Sanitize(contents).value) + k <= |contents|
    ensures RunStr(Strip(contents).value[..InnerStart(Sanitize(contents).value) + k], Plain) == Plain
  {
    hide Run, Stripped, Commaless, RunScan, RunStr, RootBounds;
    var v := Sanitize(contents).value;
    ModeInside(v, k);
    StrModeOfStripped(contents, InnerStart(v) + k);
  }

  lemma BracketVisible(contents: string, n: nat)
    requires Sanitize(contents).Some? && 0 < n <= |contents| && Sanitize(contents).value[n - 1] == '['
    ensures Strip(contents).value[n - 1] == '['
  {
    hide Run, Stripped, Commaless;
    VisibleAt(contents, n - 1);
  }

  /** New inner text between the old brackets. */
  lemma RebuiltRoot(v: string, body': string)
    requires RootBounds(v).Some? && Open(body', Top()) && Closes(RunScan(body', Top()), ']')
    ensures var n, close := InnerStart(v), InnerStart(v) + |Inner(v)|;
      && close < |v|
      && var v' := v[..n] + body' + v[close..];
         RootBounds(v').Some? && InnerStart(v') == n && Inner(v') == body'
  {
    hide RootBounds, Open, RunScan, Spliced;
    InnerAt(v, 0);
    var body := Inner(v);
    SplicedAll(body, body');
    RootSpliced(v, 0, |body|, body');
    SplicedIs(v, InnerStart(v), InnerStart(v) + |body|, body');
  }

  lemma SplicedAll(body: string, e: string)
    ensures Spliced(body, 0, |body|, e) == e
  {
  }

  lemma SplicedIs(v: string, p: nat, q: nat, e: string)
    requires p <= q <= |v|
    ensures Spliced(v, p, q, e) == v[..p] + e + v[q..]
  {
  }

  /**
   Removing a section of any balanced text removes it from the list, unless a slash before it then
   meets a comment.
   */
  lemma RemoveUnlessSlash(contents: string, i: nat)
    requires Balanced(contents) && i < |Sections(contents).value|
    requires i < |Elements(Inner(Sanitize(contents).value), 0)|
    requires i > 0 && i + 1 == |Sections(contents).value| ==> !SlashMeetsComment(contents, i)
    ensures RemoveSection(contents, i).Ok?
    ensures Sections(RemoveSection(contents, i).value) == Ok(RemoveAt(Sections(contents).value, i))
    ensures Balanced(RemoveSection(contents, i).value)
  {
    hide Sections, RemoveSection, Elements, RunScan, NoStray, Sanitize, RootBounds, Texts;
    LocatedIn(contents);
    if i + 1 < |Sections(contents).value| {
      RemoveBeforeNext(contents, i);
    } else if i > 0 {
      RemoveLast(contents, i);
    } else {
      RemoveOnly(contents);
      assert RemoveAt(Sections(contents).value, 0) == [];
    }
  }

  predicate EndsInSlash(section: string) {
    section != [] && section[|section| - 1] == '/'
  }

  /** A slash that could meet a comment is the last character of the section before. */
  lemma SlashIsSeen(contents: string, i: nat)
    requires Balanced(contents) && 0 < i < |Elements(Inner(Sanitize(contents).value), 0)|
      && SlashMeetsComment(contents, i)
    ensures i < |Sections(contents).value| && EndsInSlash(Sections(contents).value[i - 1])
  {
    hide Run, Stripped, Commaless, RunScan, Elements, Texts, NoStray, RootBounds, Sanitize, Strip, InnerStart, Inner,
      Sections, Located, Edges;
    LocatedIn(contents);
    SanitizedStrip(contents);
    var v := Sanitize(contents).value;
    var n, body := InnerStart(v), Inner(v);
    var r := Elements(body, 0)[i - 1];
    SectionEndsHold(contents, i - 1);
    EdgesTop(body, r);
    SlashShows(contents, n + r.end);
    InnerAt(v, r.end - 1);
    assert body[0..0 + |body|] == body;
    ElementsAreTexts(body, body, 0);
    LastOfSlice(body, r.start, r.end);
  }

  lemma LastOfSlice(s: string, p: nat, q: nat)
    requires p < q <= |s|
    ensures s[p..q] != [] && s[p..q][|s[p..q]| - 1] == s[q - 1]
  {}

  /**
   Removing a section removes it from the list, as long as the section before a removed last one does
   not end in a slash.
   */
  lemma RemoveActsOnList(contents: string, i: nat)
    requires Balanced(contents) && i < |Sections(contents).value|
    requires i > 0 && i + 1 == |Sections(contents).value| ==> !EndsInSlash(Sections(contents).value[i - 1])
    ensures RemoveSection(contents, i).Ok?
    ensures Sections(RemoveSection(contents, i).value) == Ok(RemoveAt(Sections(contents).value, i))
    ensures Balanced(RemoveSection(contents, i).value)
  {
    hide Sections, RemoveSection, Elements, RunScan, NoStray, Sanitize, RootBounds, Texts, EndsInSlash,
      SlashMeetsComment, Balanced;
    BalancedHasRoot(contents);
    LocatedIn(contents);
    if i > 0 && i + 1 == |Sections(contents).value| && SlashMeetsComment(contents, i) {
      SlashIsSeen(contents, i);
    }
    RemoveUnlessSlash(contents, i);
  }

  lemma BalancedHasRoot(contents: string)
    requires Balanced(contents)
    ensures HasRoot(contents) && RunScan(Inner(Sanitize(contents).value), Top()) == Top()
  {}

  // ----- Appending

  lemma {:induction false} SolidBlank(w: string, ahead: Option<char>)
    requires Blank(w)
    ensures Solid(w, ahead) == ahead
  {
    if w != [] {
      assert IsSpace(w[0]);
      SolidBlank(w[1..], ahead);
    }
  }

  lemma {:induction false} CommalessBlank(w: string, m: StrMode, ahead: Option<char>)
    requires Blank(w)
    ensures Commaless(w, m, ahead) == w
  {
    hide Solid, Closer, NextStr;
    if w != [] {
      assert IsSpace(w[0]);
      CommalessBlank(w[1..], NextStr(m, w[0]), ahead);
    }
  }

  /** What lies ahead does not matter to a text whose last visible character is not a comma. */
  lemma AheadPastBlank(s: string, a: Option<char>, b: Option<char>)
    requires Trail(s) > 0 && s[Trail(s) - 1] != ','
    ensures Commaless(s, Plain, a) == Commaless(s, Plain, b)
  {
    hide Commaless, Solid, RunStr, Trail;
    TrailCorrect(s);
    var x, w := s[..Trail(s)], s[Trail(s)..];
    assert s == x + w;
    CommalessConcat(x, w, Plain, a);
    CommalessConcat(x, w, Plain, b);
    CommalessBlank(w, RunStr(x, Plain), a);
    CommalessBlank(w, RunStr(x, Plain), b);
    assert x[|x| - 1] == s[Trail(s) - 1];
    AheadPastEnd(x, Plain, Solid(w, a), Solid(w, b));
  }

  lemma CommentFreeConcat(a: string, b: string)
    requires CommentFree(a) && CommentFree(b)
    ensures CommentFree(a + b)
  {
    hide Run, Stripped;
    StrippedConcat(a, b, Normal, None);
    RunConcat(a, b, Normal);
    AfterIgnored(a, Normal, Peek(b, None), None);
  }

  lemma Punctuation()
    ensures CommentFree([','])
    ensures CommentFree(['\n']) && Blank(['\n'])
    ensures RunStr([','], Plain) == Plain
    ensures RunScan([','], Top()) == Top() && Open([','], Top()) && NoStray([','], Top())
  {
  }

  /** The insertion: a comma or not, blanks, the section and blanks again. */
  function Insertion(comma: bool, w: string, e: string, z: string): string {
    (if comma then [','] else []) + (w + e + z)
  }

  /** What an insertion is to each of the scanners. */
  lemma InsertionFacts(comma: bool, w: string, e: string, z: string, ahead: Option<char>)
    requires Blank(w) && Blank(z) && IsSection(e)
    ensures RunStr(Insertion(comma, w, e, z), Plain) == Plain
    ensures Commaless(Insertion(comma, w, e, z), Plain, ahead) == Insertion(comma, w, e, z)
    ensures RunScan(Insertion(comma, w, e, z), Top()) == Top() && Open(Insertion(comma, w, e, z), Top())
  {
    hide RunStr, Commaless, Solid, RunScan, Open, NoStray, CommentFree, IsElement, Blank, Closer;
    PaddedFacts(w, e, z, ahead);
    var p := w + e + z;
    Punctuation();
    if comma {
      RunStrConcat([','], p, Plain);
      CommalessConcat([','], p, Plain, ahead);
      CommaKept(Solid(p, ahead));
      RunScanConcat([','], p, Top());
      OpenConcat([','], p, Top());
    } else {
      assert [] + p == p;
    }
  }

  lemma CommaKept(ahead: Option<char>)
    requires !Closer(ahead)
    ensures Commaless([','], Plain, ahead) == [',']
  {
  }

  lemma PaddedFacts(w: string, e: string, z: string, ahead: Option<char>)
    requires Blank(w) && Blank(z) && IsSection(e)
    ensures var p := w + e + z;
      && RunStr(p, Plain) == Plain && Commaless(p, Plain, ahead) == p && !Closer(Solid(p, ahead))
      && RunScan(p, Top()) == Top() && Open(p, Top())
  {
    hide RunStr, Commaless, Solid, RunScan, Open, NoStray, CommentFree, Blank, PieceEnd;
    var ez := e + z;
    assert w + e + z == w + ez;
    SectionStart(e);
    PieceEndsNoComma(e);
    SolidConcat(w, ez, ahead);
    SolidConcat(e, z, ahead);
    SolidBlank(w, Solid(ez, ahead));
    SolidFirst(e, Solid(z, ahead));
    CommalessConcat(w, ez, Plain, ahead);
    CommalessConcat(e, z, Plain, ahead);
    BlankStr(w);
    BlankStr(z);
    RunScanMode(e, Top());
    RunStrConcat(w, ez, Plain);
    RunStrConcat(e, z, Plain);
    CommalessBlank(w, Plain, Solid(ez, ahead));
    CommalessBlank(z, Plain, ahead);
    AheadPastEnd(e, Plain, Solid(z, ahead), None);
    RunScanConcat(w, ez, Top());
    RunScanConcat(e, z, Top());
    RunScanBlank(w, Top());
    RunScanBlank(z, Top());
    OpenConcat(w, ez, Top());
    OpenConcat(e, z, Top());
    OpenBlank(w, Top());
    OpenBlank(z, Top());
  }

  lemma SolidFirst(e: string, ahead: Option<char>)
    requires e != [] && !IsSpace(e[0])
    ensures Solid(e, ahead) == Some(e[0])
  {
  }

  /** The file has a root array, whatever the objects in it. */
  ghost predicate HasRoot(contents: string) {
    Sanitize(contents).Some? && RootBounds(Sanitize(contents).value).Some?
  }

  lemma InsertionCommentFree(comma: bool, e: string, z: string)
    requires IsSection(e) && (z == [] || z == ['\n'])
    ensures CommentFree(Insertion(comma, ['\n'], e, z))
    ensures Insertion(comma, ['\n'], e, z) != [] && !OpensComment(Some(Insertion(comma, ['\n'], e, z)[0]))
  {
    hide CommentFree, IsElement, Open, NoStray, Commaless;
    Punctuation();
    NothingToInsert();
    CommentFreeConcat(['\n'], e);
    CommentFreeConcat(['\n'] + e, z);
    CommentFreeConcat([','], ['\n'] + e + z);
    assert [] + (['\n'] + e + z) == ['\n'] + e + z;
  }

  /** The closing bracket is a place where both passes can be cut. */
  lemma AppendStrip(contents: string, comma: bool, e: string, z: string)
    requires HasRoot(contents) && IsSection(e) && (z == [] || z == ['\n'])
    ensures var v := Sanitize(contents).value;
      var close, ins := InnerStart(v) + |Inner(v)|, Insertion(comma, ['\n'], e, z);
      && close < |contents|
      && Strip(Spliced(contents, close, close, ins)) == Some(Spliced(Strip(contents).value, close, close, ins))
      && RunStr(Strip(contents).value[..close], Plain) == Plain
      && Strip(contents).value[close] == ']'
  {
    hide Run, Stripped, Commaless, RunScan, RunStr, RootBounds, CutAt, IsSection, Insertion;
    var v := Sanitize(contents).value;
    var body, n := Inner(v), InnerStart(v);
    var close, ins := n + |body|, Insertion(comma, ['\n'], e, z);
    InnerAt(v, 0);
    RootFacts(v);
    assert body[..|body|] == body;
    ModeInside(v, |body|);
    InnerModes(contents, |body|);
    CutBefore(contents, close);
    VisibleAt(contents, close);
    InsertionCommentFree(comma, e, z);
    assert (ins + contents[close..])[0] == ins[0];
    StripSpliced(contents, close, close, ins);
  }

  /** With no comma before the bracket, the second pass leaves the insertion and the rest alone. */
  lemma AppendAfterElement(u: string, close: nat, comma: bool, w: string, e: string, z: string)
    requires close <= |u| && RunStr(u[..close], Plain) == Plain && Trail(u[..close]) > 0
      && LastSolid(u[..close]) != Some(',')
    requires Blank(w) && Blank(z) && IsSection(e)
    ensures var ins := Insertion(comma, w, e, z);
      Commaless(Spliced(u, close, close, ins), Plain, None) == Spliced(Commaless(u, Plain, None), close, close, ins)
  {
    hide RunStr, Commaless, Solid, IsSection, Insertion, Trail, Blank;
    var ins := Insertion(comma, w, e, z);
    InsertionFacts(comma, w, e, z, Solid(u[close..], None));
    AheadPastBlank(u[..close], Solid(ins + u[close..], None), Solid(u[close..], None));
    CommalessSpliced(u, close, close, ins);
  }

  /** A comma before the bracket, blank until now, separates the new section from the ones before it. */
  lemma AppendAfterComma(u: string, close: nat, e: string, z: string) returns (m: nat)
    requires close < |u| && u[close] == ']' && RunStr(u[..close], Plain) == Plain && LastSolid(u[..close]) == Some(',')
    requires Blank(z) && IsSection(e)
    ensures m + 1 == Trail(u[..close]) && m < close && u[m] == ',' && Blank(u[m + 1..close])
      && Blank(Commaless(u, Plain, None)[m..close])
    ensures var ins := Insertion(true, u[m + 1..close] + ['\n'], e, z);
      Commaless(Spliced(u, close, close, Insertion(false, ['\n'], e, z)), Plain, None)
      == Spliced(Commaless(u, Plain, None), m, close, ins)
  {
    hide RunStr, Commaless, Solid, IsSection, Trail;
    var s := u[..close];
    m := Trail(s) - 1;
    TrailCorrect(s);
    var w := u[m + 1..close];
    assert s[m + 1..] == w;
    Punctuation();
    var ins := Insertion(true, w + ['\n'], e, z);
    TrailingComma(u, m, close);
    InsertionFacts(true, w + ['\n'], e, z, Solid(u[close..], None));
    SolidFirst(u[m..], None);
    SolidFirst(ins + u[close..], None);
    CommalessSpliced(u, m, close, ins);
    assert u[..m] + ins + u[close..] == u[..close] + Insertion(false, ['\n'], e, z) + u[close..] by {
      assert u[..close] == u[..m] + [','] + w;
    }
  }

  lemma TrailingComma(u: string, m: nat, close: nat)
    requires m < close < |u| && u[m] == ',' && u[close] == ']' && Blank(u[m + 1..close])
      && RunStr(u[..close], Plain) == Plain
    ensures RunStr(u[..m], Plain) == Plain && Blank(Commaless(u, Plain, None)[m..close])
  {
    hide RunStr, Commaless, Solid;
    var w, v := u[m + 1..close], Commaless(u, Plain, None);
    assert u[..close] == u[..m + 1] + w;
    RunStrConcat(u[..m + 1], w, Plain);
    BlankKeepsMode(w, RunStr(u[..m + 1], Plain));
    CommalessAt(u, m);
    assert u[m + 1..] == w + u[close..];
    SolidConcat(w, u[close..], None);
    SolidBlank(w, Solid(u[close..], None));
    SolidFirst(u[close..], None);
    forall i | 0 <= i < close - m ensures IsSpace(v[m..close][i]) {
      CommalessAt(u, m + i);
      if i > 0 {
        assert w[i - 1] == u[m + i];
        assert IsSpace(w[i - 1]);
      }
    }
  }

  /** The sanitised text of a file with a section appended. */
  lemma AppendShape(contents: string, e: string) returns (k: nat, comma: bool, w: string, z: string)
    requires HasRoot(contents) && IsSection(e)
    ensures AppendSection(contents, e).Ok?
    ensures var v := Sanitize(contents).value;
      var n, body := InnerStart(v), Inner(v);
      && k <= |body| && Blank(body[k..]) && Blank(w) && Blank(z)
      && (!Blank(body) ==> comma && z == [])
      && n + |body| < |v|
      && (comma <==> !Blank(body) || LastSolid(Strip(contents).value[..n + |body|]) == Some(','))
      && Sanitize(AppendSection(contents, e).value) == Some(Spliced(v, n + k, n + |body|, Insertion(comma, w, e, z)))
  {
    hide Run, Stripped, Commaless, RunScan, RunStr, RootBounds, IsSection, Solid, Lead, Trail, Blank, Trim, Trimmed,
      Elements, Insertion, Spliced, AppendSection, LastSolid, OpensComment;
    var u, v := Strip(contents).value, Sanitize(contents).value;
    var n, body := InnerStart(v), Inner(v);
    var close := n + |body|;
    InnerAt(v, 0);
    BracketVisible(contents, n);
    OpenIsSolid(u, n, close);
    var has := !Blank(body);
    z := if has then [] else ['\n'];
    BlankOnes();
    HasElementsIs(body);
    if LastSolid(u[..close]) == Some(',') {
      AppendStrip(contents, false, e, z);
      var m := AppendAfterComma(u, close, e, z);
      CommaInside(u, n, m);
      comma, k, w := true, m - n, u[m + 1..close] + ['\n'];
      assert body[k..] == v[m..close];
      BlankJoin(u[m + 1..close], ['\n']);
      InsertionText(contents, e, has, true);
    } else {
      AppendStrip(contents, has, e, z);
      AppendAfterElement(u, close, has, ['\n'], e, z);
      comma, k, w := has, |body|, ['\n'];
      assert body[k..] == [];
      InsertionText(contents, e, has, false);
    }
  }

  lemma BlankOnes()
    ensures Blank(['\n']) && Blank([])
  {
  }

  lemma BlankJoin(a: string, b: string)
    requires Blank(a) && Blank(b)
    ensures Blank(a + b)
  {
  }

  lemma HasElementsIs(body: string)
    ensures Lead(body) < |body| <==> !Blank(body)
  {
    TrimmedBlank(body, 0);
  }

  lemma CommaInside(u: string, n: nat, m: nat)
    requires 0 < n <= |u| && u[n - 1] == '[' && m < |u| && u[m] == ',' && m >= n - 1
    ensures m >= n
  {
  }

  lemma OpenIsSolid(u: string, n: nat, close: nat)
    requires 0 < n <= close <= |u| && u[n - 1] == '['
    ensures Trail(u[..close]) >= n
  {
    SolidBeforeTrail(u[..close], n - 1);
  }

  /** The insertion the editor computes, in the form used here. */
  lemma InsertionText(contents: string, e: string, has: bool, trailing: bool)
    requires HasRoot(contents)
    requires has == !Blank(Inner(Sanitize(contents).value))
    requires var v := Sanitize(contents).value;
      && InnerStart(v) + |Inner(v)| <= |contents|
      && trailing == (LastSolid(Strip(contents).value[..InnerStart(v) + |Inner(v)|]) == Some(','))
    ensures var v := Sanitize(contents).value;
      var close := InnerStart(v) + |Inner(v)|;
      AppendSection(contents, e)
      == Ok(Spliced(contents, close, close, Insertion(has && !trailing, ['\n'], e, if has then [] else ['\n'])))
  {
    hide Stripped, Run, Commaless, RootBounds, LastSolid, Spliced;
    var v := Sanitize(contents).value;
    HasElementsIs(Inner(v));
    assert [',', '\n'] == [','] + ['\n'];
    assert [','] + ['\n'] + e == [','] + (['\n'] + e + []);
    assert [] + ['\n'] + e == [] + (['\n'] + e + []);
    assert ['\n'] + e + ['\n'] == [] + (['\n'] + e + ['\n']);
  }

  /** A body and the same body without blanks at its end leave the scanner alike. */
  lemma PrefixScan(x: string, w: string)
    requires Blank(w) && RunScan(x + w, Top()).mode == Plain
    ensures RunScan(x, Top()) == RunScan(x + w, Top())
  {
    hide RunScan, RunStr;
    RunScanConcat(x, w, Top());
    RunScanMode(w, RunScan(x, Top()));
    BlankKeepsMode(w, RunScan(x, Top()).mode);
    RunScanBlank(w, RunScan(x, Top()));
  }

  lemma AppendedTexts(x: string, comma: bool, w: string, e: string, z: string)
    requires RunScan(x, Top()) == Top() && Blank(w) && Blank(z) && IsElement(e) && (!comma ==> Blank(x))
    ensures Texts(x + Insertion(comma, w, e, z)) == Texts(x) + [e]
    ensures RunScan(x + Insertion(comma, w, e, z), Top()) == Top()
  {
    hide RunScan, Texts, Blank, IsElement;
    var p := w + e + z;
    if comma {
      assert x + Insertion(comma, w, e, z) == x + [','] + p;
      AppendToBody(x, p);
      OneElement(w, e, z);
    } else {
      BlankJoin(x, w);
      assert x + Insertion(comma, w, e, z) == (x + w) + e + z;
      OneElement(x + w, e, z);
      BlankTexts(x);
    }
  }

  lemma BlankTexts(x: string)
    requires Blank(x)
    ensures Texts(x) == []
  {
    hide RunScan, Trim;
    PieceEndBlank(x, Top());
    TrimAgrees(x, 0);
    PieceTexts(x);
  }

  lemma {:induction false} OpenIgnoresObjects(w: string, s: Scan, objects: nat)
    requires Open(w, s)
    ensures Open(w, s.(objects := objects))
  {
    if w != [] {
      var t := NextScan(s.(objects := objects), w[0]);
      OpenIgnoresObjects(w[1..], NextScan(s, w[0]), t.objects);
      assert t == NextScan(s, w[0]).(objects := t.objects);
    }
  }

  /** Text appended inside an open object neither closes the array nor leaves the object. */
  lemma AppendedInside(x: string, w: string, e: string)
    requires Open(x, Top()) && Closes(RunScan(x, Top()), ']') && RunScan(x, Top()).objects > 0
    requires Blank(w) && IsSection(e)
    ensures var body' := x + Insertion(true, w, e, []);
      Open(body', Top()) && Closes(RunScan(body', Top()), ']')
  {
    hide RunScan, Open, NoStray, Commaless, CommentFree;
    var s := RunScan(x, Top());
    var body' := x + Insertion(true, w, e, []);
    assert body' == x + ([','] + (w + e));
    OpenConcat(x, [','] + (w + e), Top());
    RunScanConcat(x, [','] + (w + e), Top());
    OpenConcat([','], w + e, s);
    RunScanConcat([','], w + e, s);
    CommaInsideScan(s);
    OpenConcat(w, e, s);
    RunScanConcat(w, e, s);
    RunScanBlank(w, s);
    OpenBlank(w, s);
    OpenIgnoresObjects(e, Top(), s.objects);
    InsideObject(e, Top(), s.objects);
  }

  lemma CommaInsideScan(s: Scan)
    requires s.mode == Plain
    ensures RunScan([','], s) == s && Open([','], s)
  {
  }

  /**
   Appending a section extends the list by it, exactly when no object is left open at the closing
   bracket. Otherwise the text joins the last element.
   */
  lemma AppendExtendsIff(contents: string, e: string)
    requires HasRoot(contents) && IsSection(e)
    ensures AppendSection(contents, e).Ok?
    ensures Sections(AppendSection(contents, e).value) == Ok(Sections(contents).value + [e])
      <==> RunScan(Inner(Sanitize(contents).value), Top()).objects == 0
  {
    hide Run, Stripped, Commaless, RunScan, RunStr, RootBounds, Texts, Open, NoStray, CommentFree, Lead, Trail, Blank,
      IsElement, Spliced, AppendSection, Insertion, Sanitize;
    var v := Sanitize(contents).value;
    var n, body := InnerStart(v), Inner(v);
    var k, comma, w, z := AppendShape(contents, e);
    var x, ins := body[..k], Insertion(comma, w, e, z);
    assert body == x + body[k..];
    RootFacts(v);
    PrefixScan(x, body[k..]);
    OpenConcat(x, body[k..], Top());
    PadBack(x, body[k..]);
    AppendedRoot(v, k, comma, w, e, z);
    var body' := x + ins;
    if RunScan(body, Top()).objects == 0 {
      BlankPrefix(x, body[k..]);
      AppendedTexts(x, comma, w, e, z);
    } else {
      if Blank(body) {
        BlankScan(body);
      }
      InsideTexts(x, w, e);
    }
  }

  lemma InsertionNoStray(comma: bool, w: string, e: string, z: string)
    requires Blank(w) && Blank(z) && IsSection(e)
    ensures NoStray(Insertion(comma, w, e, z), Top())
  {
    hide RunScan, NoStray, Open, CommentFree, Commaless, Blank, PieceEnd;
    Punctuation();
    NothingToInsert();
    var p := w + e + z;
    RunScanBlank(w, Top());
    RunScanConcat(w, e, Top());
    NoStrayBlank(w);
    NoStrayBlank(z);
    NoStrayConcat(w, e, Top());
    NoStrayConcat(w + e, z, Top());
    NoStrayConcat([','], p, Top());
    assert [] + p == p;
  }

  lemma {:induction false} NoStrayBlank(w: string)
    requires Blank(w)
    ensures NoStray(w, Top())
  {
    if w != [] {
      assert IsSpace(w[0]);
      NoStrayBlank(w[1..]);
    }
  }

  /** A balanced file stays balanced, so edits can follow one another. */
  lemma AppendKeepsBalanced(contents: string, e: string)
    requires Balanced(contents) && IsSection(e)
    ensures AppendSection(contents, e).Ok? && Balanced(AppendSection(contents, e).value)
    ensures Sections(AppendSection(contents, e).value) == Ok(Sections(contents).value + [e])
  {
    hide Run, Stripped, Commaless, RunScan, RunStr, RootBounds, Texts, Open, NoStray, CommentFree, Lead, Trail, Blank,
      IsElement, Spliced, AppendSection, Insertion, Sanitize, Sections;
    AppendExtendsIff(contents, e);
    var v := Sanitize(contents).value;
    var n, body := InnerStart(v), Inner(v);
    var k, comma, w, z := AppendShape(contents, e);
    var x, ins := body[..k], Insertion(comma, w, e, z);
    assert body == x + body[k..];
    PrefixScan(x, body[k..]);
    BlankPrefix(x, body[k..]);
    AppendedRoot(v, k, comma, w, e, z);
    AppendedTexts(x, comma, w, e, z);
    NoStrayConcat(x, body[k..], Top());
    InsertionNoStray(comma, w, e, z);
    NoStrayConcat(x, ins, Top());
  }

  /**
   Appending a section inserts it before the closing bracket and changes no other text. It extends the
   list exactly when no object is left open there, as in every balanced file, which stays balanced.
   */
  lemma AppendActsOnList(contents: string, e: string)
    requires HasRoot(contents) && IsSection(e)
    ensures AppendSection(contents, e).Ok?
    ensures Sections(AppendSection(contents, e).value) == Ok(Sections(contents).value + [e])
      <==> RunScan(Inner(Sanitize(contents).value), Top()).objects == 0
    ensures Balanced(contents) ==>
      Balanced(AppendSection(contents, e).value)
        && Sections(AppendSection(contents, e).value) == Ok(Sections(contents).value + [e])
    ensures var close := RootBounds(Sanitize(contents).value).value.end; var t := AppendSection(contents, e).value;
      close <= |contents| && close < |t| && |t| > |contents|
      && t[..close] == contents[..close] && t[close + (|t| - |contents|)..] == contents[close..]
  {
    hide Balanced, Sections, RunScan, Sanitize, RootBounds, AppendSection, IsSection, HasRoot;
    AppendExtendsIff(contents, e);
    if Balanced(contents) {
      AppendKeepsBalanced(contents, e);
    }
    AppendKeepsRest(contents, e);
  }

  lemma BlankScan(body: string)
    requires Blank(body)
    ensures RunScan(body, Top()) == Top()
  {
    RunScanBlank(body, Top());
  }

  lemma BlankPrefix(x: string, y: string)
    ensures Blank(x + y) ==> Blank(x)
  {
    assert forall i :: 0 <= i < |x| ==> x[i] == (x + y)[i];
  }

  lemma InsideTexts(x: string, w: string, e: string)
    requires Closes(RunScan(x, Top()), ']') && RunScan(x, Top()).objects > 0 && Blank(w) && IsSection(e)
    ensures |Texts(x + Insertion(true, w, e, []))| == |Texts(x)|
  {
    hide RunScan, Texts, Open, NoStray, Commaless, CommentFree, IsElement, Blank;
    AppendInsideObject(x, w, e);
    assert x + [','] + w + e == x + Insertion(true, w, e, []);
  }

  /** The root array after the insertion. */
  lemma AppendedRoot(v: string, k: nat, comma: bool, w: string, e: string, z: string)
    requires RootBounds(v).Some? && k <= |Inner(v)| && Blank(Inner(v)[k..]) && Blank(w) && Blank(z) && IsSection(e)
    requires !Blank(Inner(v)) ==> comma && z == []
    ensures InnerStart(v) + |Inner(v)| < |v|
    ensures var v' := Spliced(v, InnerStart(v) + k, InnerStart(v) + |Inner(v)|, Insertion(comma, w, e, z));
      && RootBounds(v').Some? && InnerStart(v') == InnerStart(v)
      && Inner(v') == Inner(v)[..k] + Insertion(comma, w, e, z)
  {
    hide RunScan, RootBounds, Open, NoStray, Commaless, CommentFree, Blank, Insertion, IsElement;
    InnerAt(v, 0);
    RootFacts(v);
    var body := Inner(v);
    var x, ins := body[..k], Insertion(comma, w, e, z);
    assert body == x + body[k..];
    PrefixScan(x, body[k..]);
    OpenConcat(x, body[k..], Top());
    assert Spliced(body, k, |body|, ins) == x + ins;
    if RunScan(x, Top()).objects == 0 {
      InsertionFacts(comma, w, e, z, None);
      OpenConcat(x, ins, Top());
      RunScanConcat(x, ins, Top());
    } else {
      if Blank(body) {
        BlankScan(body);
      }
      AppendedInside(x, w, e);
    }
    RootSpliced(v, k, |body|, ins);
  }
}
