/**
 Edits of the text between the root brackets act as list edits: replacing, removing or appending
 text at the ranges of the elements replaces, removes or appends an element.
 */
module JsoncLists {
  import opened Wrappers
  import opened Sequences
  import opened JsoncText
  import opened JsoncArray

  /** The text of a piece without the blanks around it; nothing if it is blank. */
  function Trim(s: string): seq<string> {
    if Lead(s) == |s| || Trail(s) < Lead(s) then [] else [s[Lead(s)..Trail(s)]]
  }

  /** The texts of the elements. */
  function Texts(body: string): seq<string>
    decreases |body|
  {
    var k := PieceEnd(body, Top());
    Trim(body[..k]) + if k == |body| then [] else Texts(body[k + 1..])
  }

  lemma TrimAgrees(s: string, start: nat)
    ensures |Trim(s)| == |Trimmed(s, start)|
    ensures Trim(s) != [] ==>
      Lead(s) < Trail(s) && Trim(s) == [s[Lead(s)..Trail(s)]]
        && Trimmed(s, start) == [Range(start + Lead(s), start + Trail(s))]
    ensures Trim(s) == [] <==> Blank(s)
  {
    TrimmedBlank(s, start);
    if !Blank(s) {
      TrimmedNonBlank(s, start);
    }
  }

  lemma SliceOf(v: string, body: string, start: nat, p: nat, q: nat)
    requires start + |body| <= |v| && v[start..start + |body|] == body && p <= q <= |body|
    ensures v[start + p..start + q] == body[p..q]
  {
    forall i | 0 <= i < q - p ensures v[start + p..start + q][i] == body[p..q][i] {
      assert v[start..start + |body|][p + i] == v[start + p + i];
    }
  }

  /** The ranges, all within lo and hi, are those of the texts. */
  ghost predicate Describes(v: string, r: seq<Range>, t: seq<string>, lo: nat, hi: nat) {
    && |r| == |t| && hi <= |v|
    && forall i :: 0 <= i < |r| ==> lo <= r[i].start < r[i].end <= hi && v[r[i].start..r[i].end] == t[i]
  }

  lemma DescribesConcat(v: string, r: seq<Range>, t: seq<string>, r': seq<Range>, t': seq<string>, lo: nat, hi: nat,
                        lo': nat)
    requires Describes(v, r, t, lo, hi) && Describes(v, r', t', lo', hi) && lo <= lo'
    ensures Describes(v, r + r', t + t', lo, hi)
  {
  }

  lemma DescribesOne(v: string, body: string, start: nat, k: nat)
    requires start + |body| <= |v| && v[start..start + |body|] == body && k <= |body|
    ensures Describes(v, Trimmed(body[..k], start), Trim(body[..k]), start, start + |body|)
  {
    hide Lead, Trail, Trim, Trimmed;
    var x := body[..k];
    TrimAgrees(x, start);
    if Trim(x) != [] {
      SliceOf(v, body, start, Lead(x), Trail(x));
      assert x[Lead(x)..Trail(x)] == body[Lead(x)..Trail(x)];
    }
  }

  lemma {:induction false} ElementsAreTexts(v: string, body: string, start: nat)
    requires start + |body| <= |v| && v[start..start + |body|] == body
    ensures Describes(v, Elements(body, start), Texts(body), start, start + |body|)
    decreases |body|
  {
    hide PieceEnd, Trimmed, Trim, Describes;
    var k := PieceEnd(body, Top());
    DescribesOne(v, body, start, k);
    if k < |body| {
      SliceOf(v, body, start, k + 1, |body|);
      ElementsAreTexts(v, body[k + 1..], start + k + 1);
      DescribesConcat(v, Trimmed(body[..k], start), Trim(body[..k]),
                      Elements(body[k + 1..], start + k + 1), Texts(body[k + 1..]), start, start + |body|, start + k
                        + 1);
    } else {
      assert Trimmed(body[..k], start) + [] == Trimmed(body[..k], start) && Trim(body[..k]) + [] == Trim(body[..k]);
    }
  }

  function Moved(r: seq<Range>, d: nat): (t: seq<Range>)
    ensures |t| == |r| && forall i :: 0 <= i < |r| ==> t[i] == Range(r[i].start + d, r[i].end + d)
  {
    seq(|r|, i requires 0 <= i < |r| => Range(r[i].start + d, r[i].end + d))
  }

  lemma {:induction false} ElementsShift(body: string, start: nat, d: nat)
    ensures Elements(body, start + d) == Moved(Elements(body, start), d)
    decreases |body|
  {
    hide PieceEnd, Trimmed;
    var k := PieceEnd(body, Top());
    var x := body[..k];
    TrimmedShift(x, start, d);
    if k < |body| {
      var y, next := body[k + 1..], start + k + 1;
      ElementsShift(y, next, d);
      MovedConcat(Trimmed(x, start), Elements(y, next), d);
      assert start + d + k + 1 == next + d;
    } else {
      assert Trimmed(x, start) + [] == Trimmed(x, start);
    }
  }

  lemma TrimmedShift(x: string, start: nat, d: nat)
    ensures Trimmed(x, start + d) == Moved(Trimmed(x, start), d)
  {
  }

  lemma MovedConcat(a: seq<Range>, b: seq<Range>, d: nat)
    ensures Moved(a + b, d) == Moved(a, d) + Moved(b, d)
  {
  }

  // ----- Pieces

  /** A text that begins and ends at the top and holds no separating comma. */
  predicate IsPiece(x: string) {
    PieceEnd(x, Top()) == |x| && RunScan(x, Top()) == Top()
  }

  lemma CommaStays()
    ensures RunScan([','], Top()) == Top()
  {
  }

  lemma PieceTexts(x: string)
    requires PieceEnd(x, Top()) == |x|
    ensures Texts(x) == Trim(x) && Elements(x, 0) == Trimmed(x, 0)
  {
    hide NextScan, Trim, Trimmed;
    assert x[..|x|] == x;
  }

  lemma ConsTexts(x: string, y: string)
    requires IsPiece(x)
    ensures Texts(x + [','] + y) == Trim(x) + Texts(y)
    ensures Elements(x + [','] + y, 0) == Trimmed(x, 0) + Elements(y, |x| + 1)
  {
    hide NextScan, Trim, Trimmed;
    FirstPiece(x, y, 0);
    var w := x + [','] + y;
    assert w == x + ([','] + y);
    PieceEndConcat(x, [','] + y, Top());
    assert PieceEnd([','] + y, Top()) == 0;
    assert w[..|x|] == x && w[|x| + 1..] == y;
  }

  /** A body that ends at the top is one piece, or a piece, a comma and a shorter such body. */
  lemma Uncons(body: string) returns (x: string, more: bool, y: string)
    requires RunScan(body, Top()) == Top()
    ensures IsPiece(x)
    ensures body == if more then x + [','] + y else x
    ensures more ==> RunScan(y, Top()) == Top() && |y| < |body|
  {
    hide NextScan, PieceEnd, RunScan;
    var k := PieceEnd(body, Top());
    PieceEndSeparates(body, Top());
    x := body[..k];
    more := k < |body|;
    y := body[if more then k + 1 else k..];
    assert body == x + body[k..];
    PieceEndConcat(x, body[k..], Top());
    if more {
      assert body == x + [','] + y;
      RunScanConcat(x + [','], y, Top());
      RunScanConcat(x, [','], Top());
      CommaStays();
    } else {
      assert x == body;
    }
  }

  lemma BlankPiece(w: string)
    requires Blank(w)
    ensures IsPiece(w) && Trim(w) == []
  {
    hide PieceEnd, RunScan, Trim;
    PieceEndBlank(w, Top());
    RunScanBlank(w, Top());
    TrimAgrees(w, 0);
  }

  lemma JoinPieces(x: string, y: string)
    requires IsPiece(x)
    ensures PieceEnd(x + y, Top()) == |x| + PieceEnd(y, Top())
    ensures RunScan(x + y, Top()) == RunScan(y, Top())
  {
    hide PieceEnd, RunScan;
    PieceEndConcat(x, y, Top());
    RunScanConcat(x, y, Top());
  }

  /** An element as it may be written into the array: one piece that neither starts nor ends blank. */
  predicate IsElement(e: string) {
    e != [] && !IsSpace(e[0]) && !IsSpace(e[|e| - 1]) && IsPiece(e)
  }

  lemma PaddedPiece(a: string, e: string, b: string)
    requires Blank(a) && Blank(b) && IsElement(e)
    ensures IsPiece(a + e + b) && Trim(a + e + b) == [e]
  {
    hide PieceEnd, RunScan, Lead, Trail;
    BlankPiece(a);
    BlankPiece(b);
    JoinPieces(a, e);
    JoinPieces(a + e, b);
    TrimmedPadded(a, e, b, 0);
    TrimAgrees(a + e + b, 0);
    assert (a + e + b)[|a|..|a| + |e|] == e;
  }

  /** A piece that is not blank is an element with blanks around it. */
  lemma SolidPiece(x: string)
    requires IsPiece(x) && !Blank(x)
    ensures Lead(x) < Trail(x) && Blank(x[..Lead(x)]) && Blank(x[Trail(x)..])
    ensures IsElement(x[Lead(x)..Trail(x)])
  {
    hide PieceEnd, RunScan, Lead, Trail, Blank, IsPiece, Trimmed;
    TrimmedNonBlank(x, 0);
    LeadCorrect(x);
    TrailCorrect(x);
    MiddleOf(x, Lead(x), Trail(x));
    MiddlePiece(x[..Lead(x)], x[Lead(x)..Trail(x)], x[Trail(x)..]);
  }

  lemma MiddleOf(x: string, from: nat, to: nat)
    requires from < to <= |x|
    ensures x == x[..from] + (x[from..to] + x[to..])
    ensures var e := x[from..to]; e != [] && e[0] == x[from] && e[|e| - 1] == x[to - 1]
  {}

  lemma MiddlePiece(a: string, e: string, b: string)
    requires Blank(a) && Blank(b) && IsPiece(a + (e + b))
    ensures IsPiece(e)
  {
    hide PieceEnd, RunScan, Blank, RunStr;
    BlankPiece(a);
    JoinPieces(a, e + b);
    PieceEndConcat(e, b, Top());
    RunScanConcat(e, b, Top());
    RunScanMode(e, Top());
    RunScanMode(b, RunScan(e, Top()));
    BlankKeepsMode(b, RunScan(e, Top()).mode);
    RunScanBlank(b, RunScan(e, Top()));
  }

  lemma {:induction false} BlankKeepsMode(b: string, m: StrMode)
    requires Blank(b) && RunStr(b, m) == Plain
    ensures m == Plain
  {
    if b != [] {
      assert IsSpace(b[0]);
      BlankKeepsMode(b[1..], NextStr(m, b[0]));
    }
  }

  // ----- Replacing

  /** The body with the text of a range replaced. */
  function Spliced(body: string, from: nat, to: nat, e: string): string
    requires from <= to <= |body|
  {
    body[..from] + e + body[to..]
  }

  lemma SplicedInRest(x: string, y: string, from: nat, to: nat, e: string)
    requires from <= to <= |y|
    ensures var n := |x| + 1; Spliced(x + [','] + y, n + from, n + to, e) == x + [','] + Spliced(y, from, to, e)
  {
    var body, n := x + [','] + y, |x| + 1;
    assert body[..n + from] == x + [','] + y[..from] && body[n + to..] == y[to..];
  }

  lemma SplicedInFirst(x: string, rest: string, from: nat, to: nat, e: string)
    requires from <= to <= |x|
    ensures Spliced(x + rest, from, to, e) == Spliced(x, from, to, e) + rest
  {
    assert (x + rest)[..from] == x[..from] && (x + rest)[to..] == x[to..] + rest;
  }

  /** Bodies that end at the top, put after a piece and a comma, end at the top. */
  lemma ConsTop(x: string, y: string)
    requires IsPiece(x)
    ensures RunScan(x + [','] + y, Top()) == RunScan(y, Top())
  {
    JoinPieces(x, [','] + y);
    assert x + [','] + y == x + ([','] + y);
    RunScanConcat([','], y, Top());
    CommaStays();
  }

  lemma ReplaceInFirst(x: string, more: bool, y: string, e: string)
    requires IsPiece(x) && !Blank(x) && IsElement(e)
    ensures Lead(x) <= Trail(x)
    ensures var body := if more then x + [','] + y else x;
      var body' := Spliced(body, Lead(x), Trail(x), e);
      && Texts(body') == [e] + (if more then Texts(y) else [])
      && RunScan(body', Top()) == if more then RunScan(y, Top()) else Top()
  {
    SolidPiece(x);
    var x' := Spliced(x, Lead(x), Trail(x), e);
    PaddedPiece(x[..Lead(x)], e, x[Trail(x)..]);
    SplicedInFirst(x, [','] + y, Lead(x), Trail(x), e);
    assert x + [','] + y == x + ([','] + y) && x' + [','] + y == x' + ([','] + y);
    SplitCases(if more then x' + [','] + y else x', x', more, y);
    ConsTop(x', y);
  }

  /** Replacing the text of an element replaces it in the list. */
  lemma {:induction false} ReplaceInBody(body: string, i: nat, e: string)
    requires RunScan(body, Top()) == Top() && i < |Elements(body, 0)| && IsElement(e)
    ensures var r := Elements(body, 0)[i];
      && r.start <= r.end <= |body|
      && i < |Texts(body)|
      && Texts(Spliced(body, r.start, r.end, e)) == Texts(body)[i := e]
      && RunScan(Spliced(body, r.start, r.end, e), Top()) == Top()
    decreases |body|
  {
    hide PieceEnd, RunScan, Elements, Texts, Trimmed, Trim, Lead, Trail, IsPiece, Spliced, Blank, IsElement;
    var x, more, y := Uncons(body);
    FirstPlace(body, x, more, y);
    if |Trim(x)| == 1 && i == 0 {
      ReplaceInFirst(x, more, y, e);
      FirstReplaced(Trim(x), if more then Texts(y) else [], e);
    } else {
      var j := i - |Trim(x)|;
      assert more && body == x + [','] + y && Texts(body) == Trim(x) + Texts(y);
      PlaceInRest(x, y, j);
      ReplaceInBody(y, j, e);
      ReplaceInRest(x, y, Elements(y, 0)[j], j, e);
    }
  }

  lemma FirstReplaced(first: seq<string>, rest: seq<string>, e: string)
    requires |first| == 1
    ensures (first + rest)[0 := e] == [e] + rest
  {}

  lemma ReplaceInRest(x: string, y: string, s: Range, j: nat, e: string)
    requires IsPiece(x) && s.start <= s.end <= |y| && j < |Texts(y)|
    requires Texts(Spliced(y, s.start, s.end, e)) == Texts(y)[j := e]
      && RunScan(Spliced(y, s.start, s.end, e), Top()) == Top()
    ensures var body' := Spliced(x + [','] + y, s.start + (|x| + 1), s.end + (|x| + 1), e);
      Texts(body') == (Trim(x) + Texts(y))[|Trim(x)| + j := e] && RunScan(body', Top()) == Top()
  {
    hide PieceEnd, RunScan, Elements, Texts, Trimmed, Trim, IsPiece, Spliced;
    SplicedInRest(x, y, s.start, s.end, e);
    var y' := Spliced(y, s.start, s.end, e);
    SplitCases(x + [','] + y', x, true, y');
    ConsTop(x, y');
  }

  /** The texts and ranges of a body, from its first piece and the rest. */
  lemma SplitCases(body: string, x: string, more: bool, y: string)
    requires IsPiece(x) && body == if more then x + [','] + y else x
    ensures Texts(body) == Trim(x) + if more then Texts(y) else []
    ensures Elements(body, 0) == Trimmed(x, 0) + if more then Elements(y, |x| + 1) else []
    ensures |Trim(x)| == |Trimmed(x, 0)|
  {
    TrimAgrees(x, 0);
    if more {
      ConsTexts(x, y);
    } else {
      PieceTexts(x);
    }
  }

  // ----- Blanks around

  lemma TrimPad(a: string, x: string, b: string)
    requires Blank(a) && Blank(b)
    ensures Trim(a + x + b) == Trim(x)
  {
    hide Lead, Trail, Trim;
    TrimAgrees(x, 0);
    TrimAgrees(a + x + b, 0);
    if Blank(x) {
      assert Blank(a + x + b);
    } else {
      TrimmedNonBlank(x, 0);
      LeadCorrect(x);
      TrailCorrect(x);
      var p, e, q := x[..Lead(x)], x[Lead(x)..Trail(x)], x[Trail(x)..];
      assert a + x + b == (a + p) + e + (q + b);
      TrimmedPadded(a + p, e, q + b, 0);
      assert (a + x + b)[|a + p|..|a + p| + |e|] == e;
    }
  }

  /** Blanks in front of a body change nothing. */
  lemma PadFront(w: string, z: string)
    requires Blank(w) && RunScan(z, Top()) == Top()
    ensures Texts(w + z) == Texts(z) && RunScan(w + z, Top()) == Top()
  {
    hide PieceEnd, RunScan, Texts, Trim, Elements, Trimmed;
    var x, more, y := Uncons(z);
    BlankPiece(w);
    JoinPieces(w, x);
    JoinPieces(w, z);
    TrimPad(w, x, []);
    assert w + x + [] == w + x;
    SplitCases(z, x, more, y);
    assert w + z == if more then (w + x) + [','] + y else w + x;
    SplitCases(w + z, w + x, more, y);
  }

  /** A body without elements after a piece adds nothing to it. */
  lemma ExtendBlank(x: string, z: string)
    requires IsPiece(x) && RunScan(z, Top()) == Top() && Texts(z) == []
    ensures Texts(x + z) == Trim(x) && RunScan(x + z, Top()) == Top()
  {
    hide PieceEnd, RunScan, Texts, Trim, Elements, Trimmed;
    var x2, more, y := Uncons(z);
    SplitCases(z, x2, more, y);
    TrimAgrees(x2, 0);
    JoinPieces(x, x2);
    JoinPieces(x, z);
    TrimPad([], x, x2);
    assert [] + x + x2 == x + x2;
    assert x + z == if more then (x + x2) + [','] + y else x + x2;
    SplitCases(x + z, x + x2, more, y);
  }

  // ----- Removing

  lemma SplitTexts(body: string, x: string, more: bool, y: string)
    requires IsPiece(x) && body == if more then x + [','] + y else x
    ensures Texts(body) == Trim(x) + if more then Texts(y) else []
    ensures Elements(body, 0) == Trimmed(x, 0) + if more then Moved(Elements(y, 0), |x| + 1) else []
    ensures |Trim(x)| == |Trimmed(x, 0)| && |Elements(y, 0)| == |Texts(y)|
    ensures Trim(x) == [] <==> Blank(x)
  {
    hide PieceEnd, RunScan, Texts, Trim, Elements, Trimmed;
    SplitCases(body, x, more, y);
    TrimAgrees(x, 0);
    ElementsShift(y, 0, |x| + 1);
    assert y[0..0 + |y|] == y;
    ElementsAreTexts(y, y, 0);
  }

  /** How many elements a body has, and where one in its first piece lies. */
  lemma FirstPlace(body: string, x: string, more: bool, y: string)
    requires IsPiece(x) && body == if more then x + [','] + y else x
    ensures |Trim(x)| <= 1 && (Trim(x) == [] <==> Blank(x))
    ensures Texts(body) == Trim(x) + if more then Texts(y) else []
    ensures |Elements(body, 0)| == |Texts(body)| && |Elements(y, 0)| == |Texts(y)|
    ensures |Trim(x)| == 1 ==> Lead(x) < Trail(x) && Elements(body, 0)[0] == Range(Lead(x), Trail(x))
  {
    hide PieceEnd, RunScan, Texts, Trim, Elements, Trimmed, Lead, Trail, Blank;
    SplitTexts(body, x, more, y);
    if !Blank(x) {
      FirstRange(x);
    }
  }

  /** An element after the first piece lies where it lies in the rest, moved past the piece and its comma. */
  lemma PlaceInRest(x: string, y: string, k: nat)
    requires IsPiece(x) && k < |Elements(y, 0)|
    ensures var all := Elements(x + [','] + y, 0); var r := Elements(y, 0)[k];
      |Trim(x)| + k < |all| && all[|Trim(x)| + k] == Range(r.start + (|x| + 1), r.end + (|x| + 1))
  {
    hide PieceEnd, RunScan, Texts, Trim, Elements, Trimmed, Lead, Trail, Blank, IsPiece;
    SplitTexts(x + [','] + y, x, true, y);
    PlaceAfter(Trimmed(x, 0), Elements(y, 0), |x| + 1, k);
  }

  lemma PlaceAfter(first: seq<Range>, rest: seq<Range>, d: nat, k: nat)
    requires k < |rest|
    ensures (first + Moved(rest, d))[|first| + k] == Range(rest[k].start + d, rest[k].end + d)
  {}

  lemma FirstRange(x: string)
    requires !Blank(x)
    ensures Lead(x) < Trail(x) && Trimmed(x, 0) == [Range(Lead(x), Trail(x))] && Trim(x) == [x[Lead(x)..Trail(x)]]
  {
    hide Lead, Trail;
    TrimmedNonBlank(x, 0);
    TrimAgrees(x, 0);
  }

  /** Cutting a body off before its first element keeps its elements. */
  lemma {:induction false} DropBefore(y: string)
    requires RunScan(y, Top()) == Top() && Elements(y, 0) != []
    ensures var c := Elements(y, 0)[0].start;
      c <= |y| && Texts(y[c..]) == Texts(y) && RunScan(y[c..], Top()) == Top()
    decreases |y|
  {
    hide PieceEnd, RunScan, Texts, Trim, Elements, Trimmed, Lead, Trail, IsPiece;
    var x, more, z := Uncons(y);
    SplitTexts(y, x, more, z);
    if Blank(x) {
      DropBefore(z);
      var c := Elements(z, 0)[0].start;
      assert y[|x| + 1 + c..] == z[c..];
    } else {
      FirstRange(x);
      var c := Lead(x);
      SolidTail(x);
      var x' := x[c..];
      assert y[c..] == if more then x' + [','] + z else x';
      SplitTexts(y[c..], x', more, z);
      if more {
        ConsTop(x', z);
      }
    }
  }

  lemma ThreeParts(x: string, from: nat, to: nat)
    requires from <= to <= |x|
    ensures x[from..] == [] + x[from..to] + x[to..] && x[..to] == x[..from] + x[from..to] + []
  {
  }

  /** A piece cut off before or after its element is still a piece with that element. */
  lemma SolidTail(x: string)
    requires IsPiece(x) && !Blank(x)
    ensures IsPiece(x[Lead(x)..]) && Trim(x[Lead(x)..]) == Trim(x)
    ensures RunScan(x[Lead(x)..], Top()) == Top()
    ensures IsPiece(x[..Trail(x)]) && Trim(x[..Trail(x)]) == Trim(x)
    ensures IsPiece(x[Trail(x)..]) && Blank(x[Trail(x)..])
  {
    hide PieceEnd, RunScan, Trim, Trimmed, Lead, Trail;
    SolidPiece(x);
    FirstRange(x);
    var a, e, b := x[..Lead(x)], x[Lead(x)..Trail(x)], x[Trail(x)..];
    PaddedPiece([], e, b);
    PaddedPiece(a, e, []);
    ThreeParts(x, Lead(x), Trail(x));
    BlankPiece(b);
  }

  /** Removing the text from an element up to the next one removes the element. */
  lemma {:induction false} RemoveNextInBody(body: string, i: nat)
    requires RunScan(body, Top()) == Top() && i + 1 < |Elements(body, 0)|
    ensures var from, to := Elements(body, 0)[i].start, Elements(body, 0)[i + 1].start;
      && from <= to <= |body| && i < |Texts(body)|
      && Texts(Spliced(body, from, to, [])) == RemoveAt(Texts(body), i)
      && RunScan(Spliced(body, from, to, []), Top()) == Top()
    decreases |body|
  {
    hide PieceEnd, RunScan, Texts, Trim, Elements, Trimmed, Lead, Trail, IsPiece, Spliced, Blank;
    var x, more, y := Uncons(body);
    FirstPlace(body, x, more, y);
    var r := Elements(y, 0);
    if |Trim(x)| == 1 && i == 0 {
      PlaceInRest(x, y, 0);
      RemoveFirst(x, y);
      FirstRemoved(Trim(x), Texts(y));
    } else {
      var j := i - |Trim(x)|;
      PlaceInRest(x, y, j);
      PlaceInRest(x, y, j + 1);
      RemoveNextInBody(y, j);
      RemoveInRest(x, y, r[j].start, r[j + 1].start, j);
    }
  }

  lemma FirstRemoved(first: seq<string>, rest: seq<string>)
    requires |first| == 1
    ensures RemoveAt(first + rest, 0) == rest
  {}

  lemma RemoveFirst(x: string, y: string)
    requires IsPiece(x) && !Blank(x) && RunScan(y, Top()) == Top() && Elements(y, 0) != []
    ensures var to := Elements(y, 0)[0].start;
      && to <= |y|
      && Texts(Spliced(x + [','] + y, Lead(x), |x| + 1 + to, [])) == Texts(y)
      && RunScan(Spliced(x + [','] + y, Lead(x), |x| + 1 + to, []), Top()) == Top()
  {
    hide PieceEnd, RunScan, Texts, Trim, Elements, Trimmed, Lead, Trail, IsPiece;
    DropBefore(y);
    SolidPiece(x);
    var to := Elements(y, 0)[0].start;
    PadFront(x[..Lead(x)], y[to..]);
    var body := x + [','] + y;
    assert body[..Lead(x)] + [] + body[|x| + 1 + to..] == x[..Lead(x)] + y[to..];
  }

  lemma RemoveInRest(x: string, y: string, from: nat, to: nat, j: nat)
    requires IsPiece(x) && from <= to <= |y| && j < |Texts(y)|
    requires Texts(Spliced(y, from, to, [])) == RemoveAt(Texts(y), j)
      && RunScan(Spliced(y, from, to, []), Top()) == Top()
    ensures var body' := Spliced(x + [','] + y, from + (|x| + 1), to + (|x| + 1), []);
      Texts(body') == RemoveAt(Trim(x) + Texts(y), |Trim(x)| + j) && RunScan(body', Top()) == Top()
  {
    hide PieceEnd, RunScan, Elements, Texts, Trimmed, Trim, IsPiece, Spliced;
    SplicedInRest(x, y, from, to, []);
    var y' := Spliced(y, from, to, []);
    SplitCases(x + [','] + y', x, true, y');
    ConsTop(x, y');
  }

  lemma AfterComma(x: string, y: string, b: nat)
    requires b <= |y|
    ensures (x + [','] + y)[|x| + 1 + b..] == y[b..]
  {}

  lemma WithinFirst(x: string, y: string, b: nat)
    requires b <= |x|
    ensures (x + [','] + y)[b..] == x[b..] + [','] + y
  {}

  /** After its last element a body holds none. */
  lemma {:induction false} AfterLast(y: string)
    requires RunScan(y, Top()) == Top() && Elements(y, 0) != []
    ensures var b := Elements(y, 0)[|Elements(y, 0)| - 1].end;
      b <= |y| && Texts(y[b..]) == [] && RunScan(y[b..], Top()) == Top()
    decreases |y|
  {
    hide PieceEnd, RunScan, Texts, Trim, Elements, Trimmed, Lead, Trail, IsPiece, Blank;
    var x, more, z := Uncons(y);
    SplitTexts(y, x, more, z);
    if !Blank(x) {
      FirstRange(x);
    }
    if more && Elements(z, 0) != [] {
      AfterLast(z);
      AfterComma(x, z, Elements(z, 0)[|Elements(z, 0)| - 1].end);
    } else {
      AfterOnly(y, x, more, z);
    }
  }

  lemma AfterOnly(y: string, x: string, more: bool, z: string)
    requires IsPiece(x) && !Blank(x) && y == if more then x + [','] + z else x
    requires more ==> Texts(z) == [] && RunScan(z, Top()) == Top()
    ensures Trail(x) <= |x| && Texts(y[Trail(x)..]) == [] && RunScan(y[Trail(x)..], Top()) == Top()
  {
    hide PieceEnd, RunScan, Texts, Trim, Elements, Trimmed, Lead, Trail, IsPiece, Blank;
    FirstRange(x);
    SolidTail(x);
    var b := Trail(x);
    var x' := x[b..];
    BlankTop(x');
    if more {
      WithinFirst(x, z, b);
      SplitTexts(x' + [','] + z, x', true, z);
      ConsTop(x', z);
    } else {
      SplitTexts(x', x', false, z);
    }
  }

  lemma BlankTop(x: string)
    requires Blank(x)
    ensures RunScan(x, Top()) == Top()
  {
    RunScanBlank(x, Top());
  }

  /** Removing the text from the end of the last element but one to the end of the last removes the last. */
  lemma {:induction false} RemoveLastInBody(body: string)
    requires RunScan(body, Top()) == Top() && |Elements(body, 0)| >= 2
    ensures var n := |Elements(body, 0)|;
      var from, to := Elements(body, 0)[n - 2].end, Elements(body, 0)[n - 1].end;
      && from <= to <= |body| && n == |Texts(body)|
      && Texts(Spliced(body, from, to, [])) == RemoveAt(Texts(body), n - 1)
      && RunScan(Spliced(body, from, to, []), Top()) == Top()
    decreases |body|
  {
    hide PieceEnd, RunScan, Texts, Trim, Elements, Trimmed, Lead, Trail, IsPiece, Spliced, Blank;
    var x, more, y := Uncons(body);
    FirstPlace(body, x, more, y);
    var r := Elements(y, 0);
    var m := |r|;
    PlaceInRest(x, y, m - 1);
    if m == 1 {
      RemoveSecond(x, y);
      SecondRemoved(Trim(x), Texts(y));
    } else {
      PlaceInRest(x, y, m - 2);
      RemoveLastInBody(y);
      RemoveInRest(x, y, r[m - 2].end, r[m - 1].end, m - 1);
    }
  }

  lemma SecondRemoved(first: seq<string>, rest: seq<string>)
    requires |first| == |rest| == 1
    ensures RemoveAt(first + rest, 1) == first
  {}

  lemma RemoveSecond(x: string, y: string)
    requires IsPiece(x) && !Blank(x) && RunScan(y, Top()) == Top() && |Elements(y, 0)| == 1
    ensures var to := Elements(y, 0)[0].end;
      && to <= |y|
      && Texts(Spliced(x + [','] + y, Trail(x), |x| + 1 + to, [])) == Trim(x)
      && RunScan(Spliced(x + [','] + y, Trail(x), |x| + 1 + to, []), Top()) == Top()
  {
    hide PieceEnd, RunScan, Texts, Trim, Elements, Trimmed, Lead, Trail, IsPiece;
    AfterLast(y);
    SolidTail(x);
    var to := Elements(y, 0)[0].end;
    ExtendBlank(x[..Trail(x)], y[to..]);
    var body := x + [','] + y;
    assert body[..Trail(x)] + [] + body[|x| + 1 + to..] == x[..Trail(x)] + y[to..];
  }

  // ----- Appending

  lemma CommaAssoc(x: string, y: string, z: string)
    ensures (x + [','] + y) + [','] + z == x + [','] + (y + [','] + z)
  {
  }

  lemma {:induction false} AppendToBody(body: string, z: string)
    requires RunScan(body, Top()) == Top()
    ensures Texts(body + [','] + z) == Texts(body) + Texts(z)
    ensures RunScan(body + [','] + z, Top()) == RunScan(z, Top())
    decreases |body|
  {
    hide PieceEnd, RunScan, Texts, Trim, Elements, Trimmed, IsPiece;
    var x, more, y := Uncons(body);
    SplitCases(body, x, more, y);
    if more {
      AppendToBody(y, z);
      var y' := y + [','] + z;
      CommaAssoc(x, y, z);
      SplitCases(x + [','] + y', x, true, y');
      ConsTop(x, y');
      ConcatAssoc(Trim(x), Texts(y), Texts(z));
    } else {
      SplitCases(body + [','] + z, x, true, z);
      ConsTop(x, z);
    }
  }

  /** Blanks behind a body change nothing. */
  lemma {:induction false} PadBack(body: string, w: string)
    requires Blank(w)
    ensures Texts(body + w) == Texts(body)
    decreases |body|
  {
    hide RunScan, Trim, PieceEnd, Texts, Blank;
    var k := PieceEnd(body, Top());
    PieceEndConcat(body, w, Top());
    if k < |body| {
      PadBack(body[k + 1..], w);
      AroundPlace(body, w, k);
      TextsFrom(body);
      TextsFrom(body + w);
    } else {
      PieceEndBlank(w, RunScan(body, Top()));
      TrimBack(body, w);
      PieceTexts(body);
      PieceTexts(body + w);
    }
  }

  lemma TrimBack(x: string, w: string)
    requires Blank(w)
    ensures Trim(x + w) == Trim(x)
  {
    hide Trim;
    TrimPad([], x, w);
    assert [] + x + w == x + w;
  }

  lemma AroundPlace(body: string, w: string, k: nat)
    requires k < |body|
    ensures (body + w)[k + 1..] == body[k + 1..] + w && (body + w)[..k] == body[..k]
  {}

  lemma TextsFrom(body: string)
    requires PieceEnd(body, Top()) < |body|
    ensures var k := PieceEnd(body, Top()); Texts(body) == Trim(body[..k]) + Texts(body[k + 1..])
  {
    hide PieceEnd, Trim;
  }

  /** An element with blanks around it is a body of one element. */
  lemma OneElement(a: string, e: string, b: string)
    requires Blank(a) && Blank(b) && IsElement(e)
    ensures Texts(a + e + b) == [e] && RunScan(a + e + b, Top()) == Top()
  {
    hide RunScan, Texts, Trim, Elements, Trimmed, IsElement;
    PaddedPiece(a, e, b);
    PieceTexts(a + e + b);
  }

  /** No brace closes an object that was not opened in the text. */
  predicate NoStray(w: string, s: Scan) {
    w == [] || (!(s.mode == Plain && s.objects == 0 && w[0] == '}') && NoStray(w[1..], NextScan(s, w[0])))
  }

  /** Inside an open object a balanced text separates nothing and leaves the depth as it was. */
  lemma {:induction false} InsideObject(w: string, s: Scan, depth: nat)
    requires NoStray(w, s) && depth > 0
    ensures var inner := s.(objects := s.objects + depth);
      PieceEnd(w, inner) == |w| && RunScan(w, inner) == RunScan(w, s).(objects := RunScan(w, s).objects + depth)
    decreases |w|
  {
    if w != [] {
      InsideObject(w[1..], NextScan(s, w[0]), depth);
    }
  }

  /** Appended where an object is still open, the text joins the last element instead of adding one. */
  lemma {:induction false} AppendInsideObject(body: string, w: string, e: string)
    requires RunScan(body, Top()).mode == Plain && RunScan(body, Top()).objects > 0 && RunScan(body, Top()).arrays == 0
    requires Blank(w) && IsElement(e) && NoStray(e, Top())
    ensures |Texts(body + [','] + w + e)| == |Texts(body)|
    decreases |body|
  {
    hide PieceEnd, RunScan, Texts, Trim, Trimmed, Lead, Trail, NoStray, Blank, IsElement;
    var k := PieceEnd(body, Top());
    PieceEndSeparates(body, Top());
    var x := body[..k];
    assert body == x + body[k..];
    if k < |body| {
      var y := body[k + 1..];
      assert body == x + [','] + y;
      AddedAssoc(x, y, w, e);
      PieceBeforeComma(x, body[k..]);
      ConsTop(x, y);
      AppendInsideObject(y, w, e);
      ConsTexts(x, y);
      ConsTexts(x, y + [','] + w + e);
    } else {
      assert x == body;
      AppendInsideOnly(body, w, e);
    }
  }

  lemma AddedAssoc(x: string, y: string, w: string, e: string)
    ensures (x + [','] + y) + [','] + w + e == x + [','] + (y + [','] + w + e)
  {
  }

  lemma AppendInsideOnly(body: string, w: string, e: string)
    requires RunScan(body, Top()).mode == Plain && RunScan(body, Top()).objects > 0 && RunScan(body, Top()).arrays == 0
    requires PieceEnd(body, Top()) == |body|
    requires Blank(w) && IsElement(e) && NoStray(e, Top())
    ensures |Texts(body + [','] + w + e)| == |Texts(body)|
  {
    hide PieceEnd, RunScan, Texts, Trim, Trimmed, Lead, Trail, NoStray, Blank, IsElement;
    var added := [','] + w + e;
    assert body + [','] + w + e == body + added;
    StaysInside(body, w, e);
    PieceTexts(body);
    PieceTexts(body + added);
    NotBlankInside(body);
    EndsSolid(body, w, e);
    TrimAgrees(body, 0);
    TrimAgrees(body + added, 0);
  }

  lemma PieceBeforeComma(x: string, rest: string)
    requires PieceEnd(x + rest, Top()) == |x| && RunScan(x, Top()) == Top()
    ensures IsPiece(x)
  {
    hide NextScan;
    PieceEndConcat(x, rest, Top());
  }

  lemma CommaInObject(s: Scan)
    requires s.mode == Plain && s.objects > 0
    ensures PieceEnd([','], s) == 1 && RunScan([','], s) == s
  {
  }

  lemma StaysInside(body: string, w: string, e: string)
    requires PieceEnd(body, Top()) == |body|
    requires RunScan(body, Top()).mode == Plain && RunScan(body, Top()).objects > 0 && RunScan(body, Top()).arrays == 0
    requires Blank(w) && IsElement(e) && NoStray(e, Top())
    ensures PieceEnd(body + ([','] + w + e), Top()) == |body + ([','] + w + e)|
  {
    hide PieceEnd, RunScan, NoStray, Blank;
    var s := RunScan(body, Top());
    PieceEndConcat(body, [','] + w + e, Top());
    assert [','] + w + e == [','] + (w + e);
    PieceEndConcat([','], w + e, s);
    CommaInObject(s);
    PieceEndConcat(w, e, s);
    PieceEndBlank(w, s);
    RunScanBlank(w, s);
    InsideObject(e, Top(), s.objects);
  }

  lemma EndsSolid(body: string, w: string, e: string)
    requires IsElement(e)
    ensures !Blank(body + ([','] + w + e))
  {
    var t := body + ([','] + w + e);
    assert t[|t| - 1] == e[|e| - 1];
  }

  lemma NotBlankInside(body: string)
    requires RunScan(body, Top()) != Top()
    ensures !Blank(body)
  {
    if Blank(body) {
      RunScanBlank(body, Top());
    }
  }

  // ----- Where the elements lie

  lemma {:induction false} NoStrayConcat(x: string, y: string, s: Scan)
    ensures NoStray(x + y, s) <==> NoStray(x, s) && NoStray(y, RunScan(x, s))
  {
    hide NextScan;
    if x == [] {
      assert x + y == y;
    } else {
      NoStrayConcat(x[1..], y, NextScan(s, x[0]));
      assert (x + y)[1..] == x[1..] + y;
    }
  }

  /** The scanner is at the top where an element starts and where it ends. */
  ghost predicate Edges(body: string, r: Range) {
    && r.start < r.end <= |body|
    && RunScan(body[..r.start], Top()) == Top() && RunScan(body[..r.end], Top()) == Top()
    && !IsSpace(body[r.start]) && !IsSpace(body[r.end - 1]) && body[r.end - 1] != ','
    && (r.start > 0 ==> IsSpace(body[r.start - 1]) || body[r.start - 1] == ',')
  }

  lemma {:induction false} ElementEdges(body: string, i: nat)
    requires RunScan(body, Top()) == Top() && i < |Elements(body, 0)|
    ensures Edges(body, Elements(body, 0)[i])
    decreases |body|
  {
    hide PieceEnd, RunScan, Texts, Trim, Elements, Trimmed, Lead, Trail, IsPiece, Edges, Blank;
    var x, more, y := Uncons(body);
    SplitTexts(body, x, more, y);
    if !Blank(x) && i == 0 {
      FirstRange(x);
      FirstEdges(x, [','] + y);
      FirstEdges(x, []);
      assert x + ([','] + y) == x + [','] + y && x + [] == x;
    } else {
      if !Blank(x) {
        FirstRange(x);
      }
      var j := i - |Trim(x)|;
      ElementEdges(y, j);
      RestEdges(x, y, Elements(y, 0)[j]);
    }
  }

  lemma FirstEdges(x: string, rest: string)
    requires IsPiece(x) && !Blank(x)
    ensures Edges(x + rest, Range(Lead(x), Trail(x)))
  {
    hide PieceEnd, Lead, Trail, RunScan;
    SolidPiece(x);
    var a, e, body := x[..Lead(x)], x[Lead(x)..Trail(x)], x + rest;
    BlankPiece(a);
    JoinPieces(a, e);
    assert body[..Lead(x)] == a && body[..Trail(x)] == a + e;
    PieceEndsNoComma(e);
    if a != [] {
      assert IsSpace(a[|a| - 1]);
    }
  }

  lemma RestEdges(x: string, y: string, r: Range)
    requires IsPiece(x) && Edges(y, r)
    ensures Edges(x + [','] + y, Range(r.start + (|x| + 1), r.end + (|x| + 1)))
  {
    hide PieceEnd, RunScan, IsPiece;
    var body, n := x + [','] + y, |x| + 1;
    assert body[..r.start + n] == x + [','] + y[..r.start] && body[..r.end + n] == x + [','] + y[..r.end];
    ConsTop(x, y[..r.start]);
    ConsTop(x, y[..r.end]);
  }

  lemma PieceEndsNoComma(e: string)
    requires IsElement(e)
    ensures e[|e| - 1] != ','
  {
    hide PieceEnd, RunScan;
    var n := |e| - 1;
    assert e == e[..n] + [e[n]];
    PieceEndConcat(e[..n], [e[n]], Top());
    RunScanConcat(e[..n], [e[n]], Top());
    LastComma(e[n], RunScan(e[..n], Top()));
  }

  lemma LastComma(c: char, s: Scan)
    requires PieceEnd([c], s) == 1 && RunScan([c], s) == Top()
    ensures c != ','
  {
    assert RunScan([c], s) == NextScan(s, c);
  }

  /** Replacing text between two places at the top by text that returns to the top keeps the array open. */
  lemma OpenSpliced(body: string, from: nat, to: nat, e: string)
    requires from <= to <= |body| && Open(body, Top()) && Open(e, Top()) && RunScan(e, Top()) == Top()
    requires RunScan(body[..from], Top()) == Top() && RunScan(body[..to], Top()) == Top()
    ensures Open(Spliced(body, from, to, e), Top())
    ensures NoStray(body, Top()) && NoStray(e, Top()) ==> NoStray(Spliced(body, from, to, e), Top())
  {
    hide RunScan, Open, NoStray;
    var a, b := body[..from], body[to..];
    assert body == a + body[from..] && body == body[..to] + b;
    OpenConcat(a, body[from..], Top());
    OpenConcat(body[..to], b, Top());
    OpenConcat(a + e, b, Top());
    OpenConcat(a, e, Top());
    NoStrayConcat(a, body[from..], Top());
    NoStrayConcat(body[..to], b, Top());
    NoStrayConcat(a + e, b, Top());
    NoStrayConcat(a, e, Top());
    RunScanConcat(a, e, Top());
  }
}
