/**
 Whether the commas of the root array stand between sections, as JSON wants them. The parser that
 runs before every edit refuses an array with a blank piece before or after a comma, so an edit
 should never leave one.
 */
module JsoncCommas {
  import opened Wrappers
  import opened Sequences
  import opened JsoncText
  import opened JsoncArray
  import opened JsoncLists
  import opened JsoncEdits
  import opened JsoncAppend

  /** No piece between the commas is blank. */
  predicate NoBlankPiece(body: string)
    decreases |body|
  {
    var k := PieceEnd(body, Top());
    !Blank(body[..k]) && (k == |body| || NoBlankPiece(body[k + 1..]))
  }

  /** The array is empty, or its commas separate elements. */
  predicate WellSeparated(body: string) {
    Blank(body) || NoBlankPiece(body)
  }

  ghost predicate Separated(contents: string) {
    Balanced(contents) && WellSeparated(Inner(Sanitize(contents).value))
  }

  /** But for comments, the last character before the closing bracket is a comma. */
  ghost predicate Trailing(contents: string)
    requires Balanced(contents)
  {
    var v := Sanitize(contents).value;
    var close := InnerStart(v) + |Inner(v)|;
    close <= |contents| && LastSolid(Strip(contents).value[..close]) == Some(',')
  }

  // ----- Counting

  /** The number of separating commas. */
  function Commas(w: string, s: Scan): nat {
    if w == [] then 0 else (if Separates(s, w[0]) then 1 else 0) + Commas(w[1..], NextScan(s, w[0]))
  }

  lemma {:induction false} CommasConcat(x: string, y: string, s: Scan)
    ensures Commas(x + y, s) == Commas(x, s) + Commas(y, RunScan(x, s))
  {
    hide NextScan, Separates;
    if x == [] {
      assert x + y == y;
    } else {
      CommasConcat(x[1..], y, NextScan(s, x[0]));
      assert (x + y)[1..] == x[1..] + y;
    }
  }

  lemma {:induction false} NoCommas(x: string, s: Scan)
    requires PieceEnd(x, s) == |x|
    ensures Commas(x, s) == 0
  {
    hide NextScan;
    if x != [] {
      NoCommas(x[1..], NextScan(s, x[0]));
    }
  }

  lemma OneComma(y: string)
    ensures Commas([','] + y, Top()) == 1 + Commas(y, Top())
  {
    assert ([','] + y)[1..] == y;
  }

  /** The commas and pieces of a body, from its first piece and the rest. */
  lemma SplitCommas(body: string, x: string, more: bool, y: string)
    requires IsPiece(x) && body == if more then x + [','] + y else x
    ensures Commas(body, Top()) == if more then 1 + Commas(y, Top()) else 0
    ensures NoBlankPiece(body) <==> !Blank(x) && (more ==> NoBlankPiece(y))
  {
    hide Commas, RunScan, Blank, PieceEnd;
    NoCommas(x, Top());
    if more {
      assert body == x + ([','] + y);
      CommasConcat(x, [','] + y, Top());
      OneComma(y);
      PieceEndConcat(x, [','] + y, Top());
      CommaEnds(y);
      assert body[..|x|] == x && body[|x| + 1..] == y;
    } else {
      assert body[..|x|] == x;
    }
  }

  lemma CommaEnds(y: string)
    ensures PieceEnd([','] + y, Top()) == 0
  {}

  lemma BlankTail(x: string, y: string)
    ensures !Blank(x + [','] + y)
  {
    assert (x + [','] + y)[|x|] == ',';
  }

  /** A body is well separated exactly when it has no comma, or one comma less than elements. */
  lemma {:induction false} Counts(body: string)
    requires RunScan(body, Top()) == Top()
    ensures |Texts(body)| <= Commas(body, Top()) + 1
    ensures NoBlankPiece(body) <==> |Texts(body)| == Commas(body, Top()) + 1
    ensures Blank(body) <==> Texts(body) == [] && Commas(body, Top()) == 0
    decreases |body|
  {
    hide PieceEnd, RunScan, Texts, Trim, Elements, Lead, Trail, IsPiece, Blank, Commas, NoBlankPiece;
    var x, more, y := Uncons(body);
    FirstPlace(body, x, more, y);
    SplitCommas(body, x, more, y);
    if more {
      Counts(y);
      BlankTail(x, y);
    }
  }

  /** In a well separated body, as many commas stand before an element as elements. */
  lemma {:induction false} CommasBefore(body: string, i: nat)
    requires RunScan(body, Top()) == Top() && NoBlankPiece(body) && i < |Elements(body, 0)|
    ensures var r := Elements(body, 0)[i];
      r.start <= r.end <= |body| && Commas(body[..r.start], Top()) == i && Commas(body[..r.end], Top()) == i
    decreases |body|
  {
    hide PieceEnd, RunScan, Texts, Trim, Elements, Lead, Trail, IsPiece, Blank, Commas, NoBlankPiece;
    var x, more, y := Uncons(body);
    FirstPlace(body, x, more, y);
    SplitCommas(body, x, more, y);
    if i == 0 {
      FrontOfBody(body, x, more, y);
      CommasInFirst(body, x, Lead(x));
      CommasInFirst(body, x, Trail(x));
    } else {
      CommasBefore(y, i - 1);
      PlaceInRest(x, y, i - 1);
      var s := Elements(y, 0)[i - 1];
      CommasInRest(x, y, s.start);
      CommasInRest(x, y, s.end);
    }
  }

  lemma FrontOfBody(body: string, x: string, more: bool, y: string)
    requires body == if more then x + [','] + y else x
    ensures |x| <= |body| && body[..|x|] == x
  {}

  lemma CommasInFirst(body: string, x: string, k: nat)
    requires IsPiece(x) && |x| <= |body| && body[..|x|] == x && k <= |x|
    ensures Commas(body[..k], Top()) == 0
  {
    hide Commas, RunScan, PieceEnd;
    assert x == body[..k] + x[k..];
    NoCommas(x, Top());
    CommasConcat(body[..k], x[k..], Top());
  }

  lemma CommasInRest(x: string, y: string, k: nat)
    requires IsPiece(x) && k <= |y|
    ensures Commas((x + [','] + y)[..|x| + 1 + k], Top()) == 1 + Commas(y[..k], Top())
  {
    hide Commas, RunScan, PieceEnd;
    assert (x + [','] + y)[..|x| + 1 + k] == x + ([','] + y[..k]);
    NoCommas(x, Top());
    CommasConcat(x, [','] + y[..k], Top());
    OneComma(y[..k]);
  }

  lemma SplicedCommas(body: string, from: nat, to: nat, e: string)
    requires from <= to <= |body| && PieceEnd(e, Top()) == |e| && RunScan(e, Top()) == Top()
    requires RunScan(body[..from], Top()) == Top() && RunScan(body[..to], Top()) == Top()
    ensures Commas(Spliced(body, from, to, e), Top()) + Commas(body[..to], Top())
      == Commas(body, Top()) + Commas(body[..from], Top())
  {
    hide Commas, RunScan, PieceEnd;
    var a, b := body[..from], body[to..];
    assert body == body[..to] + b && Spliced(body, from, to, e) == a + (e + b);
    CommasConcat(body[..to], b, Top());
    CommasConcat(a, e + b, Top());
    CommasConcat(e, b, Top());
    NoCommas(e, Top());
  }

  /** A splice that takes out as many commas as elements keeps a body separated. */
  lemma StaysSeparated(body: string, from: nat, to: nat, e: string)
    requires from <= to <= |body| && PieceEnd(e, Top()) == |e| && RunScan(e, Top()) == Top()
    requires RunScan(body, Top()) == Top() && RunScan(Spliced(body, from, to, e), Top()) == Top()
    requires RunScan(body[..from], Top()) == Top() && RunScan(body[..to], Top()) == Top()
    requires NoBlankPiece(body)
    requires |Texts(Spliced(body, from, to, e))| + Commas(body[..to], Top())
      == |Texts(body)| + Commas(body[..from], Top())
    ensures NoBlankPiece(Spliced(body, from, to, e))
  {
    hide Commas, RunScan, PieceEnd, Texts, NoBlankPiece, Spliced;
    SplicedCommas(body, from, to, e);
    Counts(body);
    Counts(Spliced(body, from, to, e));
  }

  // ----- The comma before the bracket

  lemma LastSolidConcat(a: string, t: string)
    ensures LastSolid(a + t) == if Blank(t) then LastSolid(a) else LastSolid(t)
  {
    hide Trail;
    TrailCorrect(a);
    TrailCorrect(t);
    var s := a + t;
    if Blank(t) {
      assert s[Trail(a)..] == a[Trail(a)..] + t;
      TrailIs(s, Trail(a));
    } else {
      NotBlankTrail(t);
      assert s[|a| + Trail(t)..] == t[Trail(t)..];
      TrailIs(s, |a| + Trail(t));
    }
  }

  lemma NotBlankTrail(t: string)
    requires !Blank(t)
    ensures Trail(t) > 0
  {
    hide Trail;
    TrailCorrect(t);
    assert t[0..] == t;
  }

  lemma LastSolidIs(s: string)
    requires s != [] && !IsSpace(s[|s| - 1])
    ensures LastSolid(s) == Some(s[|s| - 1])
  {}

  /** Whether a comma stands last does not change, if it stands behind the splice or is not there on either side. */
  lemma TrailingKept(contents: string, contents': string, from: nat, to: nat, e: string)
    requires Balanced(contents) && Balanced(contents') && Recut(contents, contents', from, to, e)
    requires var u, v := Strip(contents).value, Sanitize(contents).value;
      var n := InnerStart(v);
      Blank(u[n + to..n + |Inner(v)|]) ==>
        LastSolid(u[..n + to]) != Some(',') && LastSolid(u[..n + from] + e) != Some(',')
    ensures Trailing(contents') <==> Trailing(contents)
  {
    hide LastSolid, Balanced, Inner, InnerStart, Sanitize, Strip, Blank, Spliced;
    BalancedHasRoot(contents);
    BalancedHasRoot(contents');
    SanitizedStrip(contents);
    SanitizedStrip(contents');
    StripSize(contents);
    StripSize(contents');
    var n := InnerStart(Sanitize(contents).value);
    LastKept(Strip(contents).value, n + from, n + to, n + |Inner(Sanitize(contents).value)|, e);
  }

  lemma LastKept(u: string, p: nat, q: nat, close: nat, e: string)
    requires p <= q <= close <= |u|
    requires Blank(u[q..close]) ==> LastSolid(u[..q]) != Some(',') && LastSolid(u[..p] + e) != Some(',')
    ensures var n := close - (q - p) + |e|;
      && n <= |Spliced(u, p, q, e)|
      && (LastSolid(Spliced(u, p, q, e)[..n]) == Some(',') <==> LastSolid(u[..close]) == Some(','))
  {
    hide LastSolid, Blank, Spliced;
    var tail := u[q..close];
    assert u[..close] == u[..q] + tail;
    FrontOfSplice(u, p, q, close, e);
    LastSolidConcat(u[..q], tail);
    LastSolidConcat(u[..p] + e, tail);
  }

  lemma FrontOfSplice(u: string, p: nat, q: nat, close: nat, e: string)
    requires p <= q <= close <= |u|
    ensures var n := close - (q - p) + |e|;
      n <= |Spliced(u, p, q, e)| && Spliced(u, p, q, e)[..n] == (u[..p] + e) + u[q..close]
  {
    var s := (u[..p] + e) + u[q..close];
    assert Spliced(u, p, q, e) == s + u[close..];
  }

  // ----- Replacing and removing

  /** A separated file with a section has no blank piece. */
  lemma SectionsSeparate(contents: string)
    requires Separated(contents) && Sections(contents).Ok? && Sections(contents).value != []
    ensures NoBlankPiece(Inner(Sanitize(contents).value))
  {
    hide NoBlankPiece, RunScan, NoStray, Texts, Blank, Sections, Sanitize, RootBounds, Elements, Commas;
    LocatedIn(contents);
    Counts(Inner(Sanitize(contents).value));
  }

  /** After a splice the file is separated, if as many commas as sections went out. */
  lemma FileStaysSeparated(contents: string, contents': string, from: nat, to: nat, e: string)
    requires Separated(contents) && Balanced(contents') && SplicedBy(contents, contents', from, to, e)
    requires PieceEnd(e, Top()) == |e| && RunScan(e, Top()) == Top()
    requires var body := Inner(Sanitize(contents).value);
      && NoBlankPiece(body)
      && RunScan(body[..from], Top()) == Top() && RunScan(body[..to], Top()) == Top()
      && |Sections(contents').value| + Commas(body[..to], Top())
         == |Sections(contents).value| + Commas(body[..from], Top())
    ensures Separated(contents')
  {
    hide NoBlankPiece, RunScan, NoStray, Texts, Blank, Sections, Sanitize, RootBounds, Elements, Commas, PieceEnd,
      Spliced, Inner, InnerStart, Strip;
    LocatedIn(contents);
    LocatedIn(contents');
    StaysSeparated(Inner(Sanitize(contents).value), from, to, e);
  }

  lemma ReplaceSeparates(contents: string, i: nat, e: string)
    requires Separated(contents) && IsSection(e) && Sections(contents).Ok? && i < |Sections(contents).value|
    ensures ReplaceSection(contents, i, e).Ok? && Separated(ReplaceSection(contents, i, e).value)
    ensures Trailing(ReplaceSection(contents, i, e).value) <==> Trailing(contents)
  {
    hide NoBlankPiece, RunScan, NoStray, Texts, Blank, Sections, Sanitize, RootBounds, Elements, Commas, PieceEnd,
      Spliced, Inner, InnerStart, Strip, ReplaceSection, WellSeparated, Trailing, Recut, Edges, CutAt, Run, Closer,
      LastSolid, Open, CommentFree, Commaless;
    SanitizedStrip(contents);
    ReplaceActsOnList(contents, i, e);
    LocatedIn(contents);
    SectionsSeparate(contents);
    var v, contents' := Sanitize(contents).value, ReplaceSection(contents, i, e).value;
    var r := Elements(Inner(v), 0)[i];
    SectionEndsHold(contents, i);
    EdgesTop(Inner(v), r);
    CommasBefore(Inner(v), i);
    FileStaysSeparated(contents, contents', r.start, r.end, e);
    EndsSolid(contents, r);
    SectionLast(Strip(contents).value[..InnerStart(v) + r.start], e);
    TrailingKept(contents, contents', r.start, r.end, e);
  }

  /** What ends in a section does not end in a comma. */
  lemma SectionLast(a: string, e: string)
    requires IsSection(e)
    ensures LastSolid(a + e) != Some(',')
  {
    hide LastSolid, Open, NoStray, CommentFree, Commaless, PieceEnd, RunScan;
    PieceEndsNoComma(e);
    assert (a + e)[|a + e| - 1] == e[|e| - 1];
    LastSolidIs(a + e);
  }

  /** Up to the end of a section, the file does not end in a comma. */
  lemma EndsSolid(contents: string, r: Range)
    requires Balanced(contents) && SectionEnds(contents, r)
    ensures var u, n := Strip(contents).value, InnerStart(Sanitize(contents).value);
      n + r.end <= |u| && LastSolid(u[..n + r.end]) != Some(',')
  {
    hide RunScan, NoStray, Sanitize, RootBounds, Inner, InnerStart, Strip, CutAt, Run, Closer, LastSolid;
    SanitizedStrip(contents);
    StripSize(contents);
    var u, n := Strip(contents).value, InnerStart(Sanitize(contents).value);
    LastSolidIs(u[..n + r.end]);
  }

  lemma RemoveNextSeparates(contents: string, i: nat)
    requires Separated(contents) && Sections(contents).Ok? && i + 1 < |Sections(contents).value|
    ensures RemoveSection(contents, i).Ok? && Separated(RemoveSection(contents, i).value)
    ensures Trailing(RemoveSection(contents, i).value) <==> Trailing(contents)
  {
    hide NoBlankPiece, RunScan, NoStray, Texts, Blank, Sections, Sanitize, RootBounds, Elements, Commas, Spliced,
      Inner, InnerStart, Strip, RemoveSection, WellSeparated, Trailing, Recut, Edges, CutAt, Run, Closer, LastSolid;
    SanitizedStrip(contents);
    StripSize(contents);
    RemoveBeforeNext(contents, i);
    LocatedIn(contents);
    SectionsSeparate(contents);
    var v, contents' := Sanitize(contents).value, RemoveSection(contents, i).value;
    var r, s := Elements(Inner(v), 0)[i], Elements(Inner(v), 0)[i + 1];
    SectionEndsHold(contents, i);
    SectionEndsHold(contents, i + 1);
    EdgesTop(Inner(v), r);
    EdgesTop(Inner(v), s);
    CommasBefore(Inner(v), i);
    CommasBefore(Inner(v), i + 1);
    NothingToInsert();
    FileStaysSeparated(contents, contents', r.start, s.start, []);
    InnerAt(v, 0);
    NotBlankFrom(Strip(contents).value, InnerStart(v) + s.start, InnerStart(v) + |Inner(v)|);
    TrailingKept(contents, contents', r.start, s.start, []);
  }

  lemma NotBlankFrom(u: string, p: nat, q: nat)
    requires p < q <= |u| && !IsSpace(u[p])
    ensures !Blank(u[p..q])
  {
    assert u[p..q][0] == u[p];
  }

  lemma RemoveLastSeparates(contents: string, i: nat)
    requires Separated(contents) && Sections(contents).Ok? && 0 < i && i + 1 == |Sections(contents).value|
    requires i < |Elements(Inner(Sanitize(contents).value), 0)| && !SlashMeetsComment(contents, i)
    ensures RemoveSection(contents, i).Ok? && Separated(RemoveSection(contents, i).value)
    ensures Trailing(RemoveSection(contents, i).value) <==> Trailing(contents)
  {
    hide NoBlankPiece, RunScan, NoStray, Texts, Blank, Sections, Sanitize, RootBounds, Elements, Commas, Spliced,
      Inner, InnerStart, Strip, RemoveSection, WellSeparated, Trailing, Recut, Edges, CutAt, Run, Closer, LastSolid,
      SlashMeetsComment;
    SanitizedStrip(contents);
    RemoveLast(contents, i);
    LocatedIn(contents);
    SectionsSeparate(contents);
    var u, v, contents' := Strip(contents).value, Sanitize(contents).value, RemoveSection(contents, i).value;
    var r, s := Elements(Inner(v), 0)[i - 1], Elements(Inner(v), 0)[i];
    SectionEndsHold(contents, i - 1);
    SectionEndsHold(contents, i);
    EdgesTop(Inner(v), r);
    EdgesTop(Inner(v), s);
    CommasBefore(Inner(v), i - 1);
    CommasBefore(Inner(v), i);
    NothingToInsert();
    FileStaysSeparated(contents, contents', r.end, s.end, []);
    EndsSolid(contents, r);
    EndsSolid(contents, s);
    assert u[..InnerStart(v) + r.end] + [] == u[..InnerStart(v) + r.end];
    TrailingKept(contents, contents', r.end, s.end, []);
  }

  /** Around the only element of a separated body there are blanks. */
  lemma OnlyPiece(body: string)
    requires RunScan(body, Top()) == Top() && NoBlankPiece(body) && |Elements(body, 0)| == 1
    ensures var r := Elements(body, 0)[0];
      r.start <= r.end <= |body| && Blank(body[..r.start]) && Blank(body[r.end..])
  {
    hide PieceEnd, RunScan, Texts, Trim, Elements, Lead, Trail, IsPiece, Blank, Commas, NoBlankPiece;
    var x, more, y := Uncons(body);
    FirstPlace(body, x, more, y);
    Counts(body);
    SplitCommas(body, x, more, y);
    LeadCorrect(body);
    TrailCorrect(body);
  }

  /** Before a visible character that closes nothing, a blank after sanitising was one before. */
  lemma {:induction false} BlankBefore(u: string, n: nat, p: nat)
    requires n <= p < |u| && !IsSpace(u[p]) && !Closer(Some(u[p]))
    requires forall k :: n <= k < p ==> IsSpace(Commaless(u, Plain, None)[k])
    ensures Blank(u[n..p])
    decreases p - n
  {
    hide Commaless, RunStr, Solid, Closer;
    if n < p {
      BlankBefore(u, n + 1, p);
      var w := u[n + 1..p];
      assert u[n + 1..] == w + u[p..];
      SolidConcat(w, u[p..], None);
      SolidBlank(w, Solid(u[p..], None));
      SolidAt(u, p);
      CommalessAt(u, n);
      assert u[n..p] == [u[n]] + w;
    }
  }

  lemma RemoveOnlySeparates(contents: string)
    requires Separated(contents) && Sections(contents).Ok? && |Sections(contents).value| == 1
    ensures RemoveSection(contents, 0).Ok? && Separated(RemoveSection(contents, 0).value)
    ensures Trailing(RemoveSection(contents, 0).value) <==> Trailing(contents)
  {
    hide NoBlankPiece, RunScan, NoStray, Texts, Blank, Sections, Sanitize, RootBounds, Elements, Commas, Spliced,
      Inner, InnerStart, Strip, RemoveSection, Trailing, Recut, Edges, CutAt, Run, Closer, LastSolid;
    SanitizedStrip(contents);
    RemoveOnly(contents);
    LocatedIn(contents);
    SectionsSeparate(contents);
    var v, contents' := Sanitize(contents).value, RemoveSection(contents, 0).value;
    var r := Elements(Inner(v), 0)[0];
    OnlyPiece(Inner(v));
    SectionEndsHold(contents, 0);
    BlankFront(contents, r);
    EndsSolid(contents, r);
    TrailingKept(contents, contents', r.start, r.end, []);
  }

  /** In front of an only section there are blanks and the bracket. */
  lemma BlankFront(contents: string, r: Range)
    requires Balanced(contents) && SectionEnds(contents, r) && Blank(Inner(Sanitize(contents).value)[..r.start])
    ensures var u, n := Strip(contents).value, InnerStart(Sanitize(contents).value);
      && n + r.start <= |u| && Blank(u[n..n + r.start])
      && LastSolid(u[..n + r.start] + []) != Some(',')
  {
    hide RunScan, NoStray, Blank, Sanitize, RootBounds, Inner, InnerStart, Strip, CutAt, Run, Closer, LastSolid;
    SanitizedStrip(contents);
    StripSize(contents);
    var u, v := Strip(contents).value, Sanitize(contents).value;
    var n := InnerStart(v);
    var p := n + r.start;
    InnerAt(v, 0);
    BracketVisible(contents, n);
    BlankInside(v, r.start);
    SanitizeIs(contents);
    BlankBefore(u, n, p);
    assert u[..p] + [] == u[..n] + u[n..p];
    LastSolidConcat(u[..n], u[n..p]);
    LastSolidIs(u[..n]);
  }

  lemma SanitizeIs(contents: string)
    requires Strip(contents).Some?
    ensures Sanitize(contents) == Some(Commaless(Strip(contents).value, Plain, None))
  {}

  lemma BlankInside(v: string, k: nat)
    requires RootBounds(v).Some? && k <= |Inner(v)| && Blank(Inner(v)[..k])
    ensures InnerStart(v) + k <= |v|
    ensures forall j :: InnerStart(v) <= j < InnerStart(v) + k ==> IsSpace(v[j])
  {
    hide RootBounds;
    InnerAt(v, 0);
    var n := InnerStart(v);
    forall j | n <= j < n + k ensures IsSpace(v[j]) {
      InnerAt(v, j - n);
      assert Inner(v)[..k][j - n] == v[j];
    }
  }

  /** Removing a section leaves the commas between sections, under the condition of RemoveActsOnList. */
  lemma RemoveSeparates(contents: string, i: nat)
    requires Separated(contents) && Sections(contents).Ok? && i < |Sections(contents).value|
    requires i > 0 && i + 1 == |Sections(contents).value| ==> !EndsInSlash(Sections(contents).value[i - 1])
    ensures RemoveSection(contents, i).Ok? && Separated(RemoveSection(contents, i).value)
    ensures Trailing(RemoveSection(contents, i).value) <==> Trailing(contents)
  {
    hide Sections, RemoveSection, Elements, RunScan, NoStray, Sanitize, RootBounds, Texts, EndsInSlash,
      SlashMeetsComment, Balanced, WellSeparated, Trailing;
    BalancedHasRoot(contents);
    LocatedIn(contents);
    if i + 1 < |Sections(contents).value| {
      RemoveNextSeparates(contents, i);
    } else if i > 0 {
      if SlashMeetsComment(contents, i) {
        SlashIsSeen(contents, i);
      }
      RemoveLastSeparates(contents, i);
    } else {
      RemoveOnlySeparates(contents);
    }
  }

  // ----- Appending

  /** The commas of a body with a section put behind it. */
  lemma AppendedCommas(body: string, k: nat, comma: bool, w: string, e: string, z: string)
    requires RunScan(body, Top()) == Top() && k <= |body| && Blank(body[k..])
    requires Blank(w) && Blank(z) && IsElement(e)
    ensures Commas(body[..k] + Insertion(comma, w, e, z), Top()) == Commas(body, Top()) + if comma then 1 else 0
  {
    hide Commas, RunScan, PieceEnd, Blank, IsElement;
    var x, t, p := body[..k], body[k..], w + e + z;
    assert body == x + t;
    PrefixScan(x, t);
    CommasConcat(x, t, Top());
    BlankPiece(t);
    NoCommas(t, Top());
    PaddedPiece(w, e, z);
    NoCommas(p, Top());
    CommasConcat(x, Insertion(comma, w, e, z), Top());
    if comma {
      OneComma(p);
    } else {
      assert [] + p == p;
    }
  }

  /** Appending leaves the commas between sections, unless the array is empty but for a comma. */
  lemma AppendSeparates(contents: string, e: string)
    requires Separated(contents) && IsSection(e) && Sections(contents).Ok?
    ensures AppendSection(contents, e).Ok? && Balanced(AppendSection(contents, e).value)
    ensures Separated(AppendSection(contents, e).value) <==> !(Sections(contents).value == [] && Trailing(contents))
    ensures !Trailing(AppendSection(contents, e).value)
  {
    hide NoBlankPiece, RunScan, NoStray, Texts, Blank, Sections, Sanitize, RootBounds, Elements, Commas, PieceEnd,
      Spliced, Strip, AppendSection, LastSolid, IsElement, Open, CommentFree, Commaless, Insertion;
    AppendKeepsBalanced(contents, e);
    LocatedIn(contents);
    LocatedIn(AppendSection(contents, e).value);
    var v := Sanitize(contents).value;
    var body := Inner(v);
    var k, comma, w, z := AppendShape(contents, e);
    AppendedRoot(v, k, comma, w, e, z);
    AppendedCommas(body, k, comma, w, e, z);
    Counts(body);
    Counts(body[..k] + Insertion(comma, w, e, z));
    StripSize(contents);
    AppendEndsSolid(contents, e);
  }

  lemma AppendEndsSolid(contents: string, e: string)
    requires Balanced(contents) && IsSection(e)
    requires AppendSection(contents, e).Ok? && Balanced(AppendSection(contents, e).value)
    ensures !Trailing(AppendSection(contents, e).value)
  {
    hide RunScan, NoStray, Blank, Sanitize, RootBounds, Spliced, Strip, AppendSection, LastSolid, IsSection,
      Insertion;
    SanitizedStrip(contents);
    StripSize(contents);
    var u, v, contents' := Strip(contents).value, Sanitize(contents).value, AppendSection(contents, e).value;
    var n, body := InnerStart(v), Inner(v);
    var close := n + |body|;
    InnerAt(v, 0);
    var has, trailing := !Blank(body), LastSolid(u[..close]) == Some(',');
    var z := if has then [] else ['\n'];
    var ins := Insertion(has && !trailing, ['\n'], e, z);
    InsertionText(contents, e, has, trailing);
    AppendStrip(contents, has && !trailing, e, z);
    var k, comma, w, z' := AppendShape(contents, e);
    AppendedRoot(v, k, comma, w, e, z');
    SplicedSize(v, n + k, close, Insertion(comma, w, e, z'));
    SplicedSize(contents, close, close, ins);
    StripSize(contents');
    FrontOfSplice(u, close, close, close, ins);
    assert (u[..close] + ins) + u[close..close] == u[..close] + ins;
    InsertionLast(u[..close], has && !trailing, e, z);
  }

  lemma InsertionLast(a: string, comma: bool, e: string, z: string)
    requires IsSection(e) && (z == [] || z == ['\n'])
    ensures LastSolid(a + Insertion(comma, ['\n'], e, z)) != Some(',')
  {
    hide LastSolid, IsSection;
    var front := a + (if comma then [','] else []) + ['\n'];
    assert a + Insertion(comma, ['\n'], e, z) == (front + e) + z;
    LastSolidConcat(front + e, z);
    SectionLast(front, e);
  }
}
