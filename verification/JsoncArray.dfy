/**
 The sections of a keymap file: where the elements of its root array lie in sanitised text, and how
 that list answers to edits of the text between the brackets.
 */
module JsoncArray {
  import opened Wrappers
  import opened Sequences
  import opened JsoncText

  datatype Range = Range(start: nat, end: nat)

  /** Where the element scanner stands: inside a string or not, and how deep in objects and arrays. */
  datatype Scan = Scan(mode: StrMode, objects: nat, arrays: nat)

  function Top(): Scan {
    Scan(Plain, 0, 0)
  }

  function NextScan(s: Scan, c: char): Scan {
    if s.mode != Plain || c == '\"' then s.(mode := NextStr(s.mode, c))
    else if c == '{' then s.(objects := s.objects + 1)
    else if c == '}' then s.(objects := if s.objects == 0 then 0 else s.objects - 1)
    else if c == '[' then s.(arrays := s.arrays + 1)
    else if c == ']' then s.(arrays := if s.arrays == 0 then 0 else s.arrays - 1)
    else s
  }

  function RunScan(w: string, s: Scan): Scan {
    if w == [] then s else RunScan(w[1..], NextScan(s, w[0]))
  }

  lemma {:induction false} RunScanConcat(x: string, y: string, s: Scan)
    ensures RunScan(x + y, s) == RunScan(y, RunScan(x, s))
  {
    hide NextScan;
    if x == [] {
      assert x + y == y;
    } else {
      RunScanConcat(x[1..], y, NextScan(s, x[0]));
      assert (x + y)[1..] == x[1..] + y;
    }
  }

  lemma {:induction false} RunScanMode(w: string, s: Scan)
    ensures RunScan(w, s).mode == RunStr(w, s.mode)
  {
    if w != [] {
      RunScanMode(w[1..], NextScan(s, w[0]));
    }
  }

  lemma {:induction false} RunScanBlank(w: string, s: Scan)
    requires Blank(w) && s.mode == Plain
    ensures RunScan(w, s) == s
  {
    if w != [] {
      assert IsSpace(w[0]);
      RunScanBlank(w[1..], s);
    }
  }

  // ----- The closing bracket

  predicate Closes(s: Scan, c: char) {
    s.mode == Plain && s.arrays == 0 && c == ']'
  }

  /** No bracket in w closes the array that was open before it. */
  predicate Open(w: string, s: Scan) {
    w == [] || (!Closes(s, w[0]) && Open(w[1..], NextScan(s, w[0])))
  }

  lemma {:induction false} OpenConcat(x: string, y: string, s: Scan)
    ensures Open(x + y, s) <==> Open(x, s) && Open(y, RunScan(x, s))
  {
    hide NextScan;
    if x == [] {
      assert x + y == y;
    } else {
      OpenConcat(x[1..], y, NextScan(s, x[0]));
      assert (x + y)[1..] == x[1..] + y;
    }
  }

  lemma {:induction false} OpenBlank(w: string, s: Scan)
    requires Blank(w)
    ensures Open(w, s)
  {
    if w != [] {
      assert IsSpace(w[0]);
      OpenBlank(w[1..], NextScan(s, w[0]));
    }
  }

  function CloseOffset(w: string, s: Scan): (r: Option<nat>)
    ensures r.Some? ==> r.value < |w|
  {
    if w == [] then None
    else if Closes(s, w[0]) then Some(0)
    else
      match CloseOffset(w[1..], NextScan(s, w[0]))
      case None => None
      case Some(k) => Some(k + 1)
  }

  /** The closing bracket is the first that the text before it leaves open. */
  lemma {:induction false} CloseOffsetIs(w: string, k: nat, s: Scan)
    requires k < |w| && w[k] == ']' && Open(w[..k], s) && Closes(RunScan(w[..k], s), ']')
    ensures CloseOffset(w, s) == Some(k)
  {
    hide NextScan;
    if k > 0 {
      assert w[..k][1..] == w[1..][..k - 1];
      CloseOffsetIs(w[1..], k - 1, NextScan(s, w[0]));
    }
  }

  lemma {:induction false} CloseOffsetFound(w: string, s: Scan)
    requires CloseOffset(w, s).Some?
    ensures var k := CloseOffset(w, s).value;
      w[k] == ']' && Open(w[..k], s) && Closes(RunScan(w[..k], s), ']')
  {
    hide NextScan;
    if !Closes(s, w[0]) {
      CloseOffsetFound(w[1..], NextScan(s, w[0]));
      var k := CloseOffset(w, s).value;
      assert w[..k][1..] == w[1..][..k - 1];
    }
  }

  // ----- Trimming

  /** The number of blanks at the front, and the length without those at the back. */
  function Lead(s: string): (n: nat)
    ensures n <= |s|
  {
    if s == [] || !IsSpace(s[0]) then 0 else 1 + Lead(s[1..])
  }

  function Trail(s: string): (n: nat)
    ensures n <= |s|
  {
    if s == [] || !IsSpace(s[|s| - 1]) then |s| else Trail(s[..|s| - 1])
  }

  lemma {:induction false} LeadCorrect(s: string)
    ensures Blank(s[..Lead(s)]) && (Lead(s) < |s| ==> !IsSpace(s[Lead(s)]))
  {
    if s != [] && IsSpace(s[0]) {
      LeadCorrect(s[1..]);
      assert s[..Lead(s)] == [s[0]] + s[1..][..Lead(s[1..])];
    }
  }

  lemma {:induction false} TrailCorrect(s: string)
    ensures Blank(s[Trail(s)..]) && (Trail(s) > 0 ==> !IsSpace(s[Trail(s) - 1]))
  {
    if s != [] && IsSpace(s[|s| - 1]) {
      var t := s[..|s| - 1];
      TrailCorrect(t);
      assert s[Trail(s)..] == t[Trail(t)..] + [s[|s| - 1]];
    }
  }

  function Trimmed(s: string, start: nat): seq<Range> {
    if Lead(s) == |s| then [] else [Range(start + Lead(s), start + Trail(s))]
  }

  lemma {:induction false} LeadIs(s: string, n: nat)
    requires n <= |s| && Blank(s[..n]) && (n < |s| ==> !IsSpace(s[n]))
    ensures Lead(s) == n
  {
    if n > 0 {
      assert IsSpace(s[..n][0]);
      assert s[1..][..n - 1] == s[..n][1..];
      LeadIs(s[1..], n - 1);
    }
  }

  lemma {:induction false} TrailIs(s: string, n: nat)
    requires n <= |s| && Blank(s[n..]) && (n > 0 ==> !IsSpace(s[n - 1]))
    ensures Trail(s) == n
  {
    if n < |s| {
      assert IsSpace(s[n..][|s| - 1 - n]);
      var t := s[..|s| - 1];
      assert t[n..] == s[n..][..|t| - n];
      TrailIs(t, n);
    }
  }

  lemma TrimmedBlank(s: string, start: nat)
    ensures Trimmed(s, start) == [] <==> Blank(s)
  {
    if Blank(s) {
      LeadIs(s, |s|);
    }
    LeadCorrect(s);
    assert s[..|s|] == s;
  }

  lemma TrimmedNonBlank(s: string, start: nat)
    requires !Blank(s)
    ensures Lead(s) < Trail(s) && Trimmed(s, start) == [Range(start + Lead(s), start + Trail(s))]
  {
    TrimmedBlank(s, start);
    LeadCorrect(s);
    SolidBeforeTrail(s, Lead(s));
  }

  lemma SolidBeforeTrail(s: string, i: nat)
    requires i < |s| && !IsSpace(s[i])
    ensures i < Trail(s)
  {
    TrailCorrect(s);
  }

  /** Blanks around a text that neither starts nor ends with one are what trimming takes away. */
  lemma TrimmedPadded(a: string, x: string, b: string, start: nat)
    requires Blank(a) && Blank(b) && x != [] && !IsSpace(x[0]) && !IsSpace(x[|x| - 1])
    ensures Trimmed(a + x + b, start) == [Range(start + |a|, start + |a| + |x|)]
  {
    var s := a + x + b;
    assert s[|a|] == x[0] && s[|a| + |x| - 1] == x[|x| - 1];
    assert s[..|a|] == a && s[|a| + |x|..] == b;
    LeadIs(s, |a|);
    TrailIs(s, |a| + |x|);
  }

  // ----- Elements

  predicate Separates(s: Scan, c: char) {
    s == Top() && c == ','
  }

  /** The length of the text before the first separating comma. */
  function PieceEnd(w: string, s: Scan): (k: nat)
    ensures k <= |w|
  {
    if w == [] || Separates(s, w[0]) then 0 else 1 + PieceEnd(w[1..], NextScan(s, w[0]))
  }

  lemma {:induction false} PieceEndSeparates(w: string, s: Scan)
    ensures var k := PieceEnd(w, s); k < |w| ==> w[k] == ',' && RunScan(w[..k], s) == Top()
  {
    hide NextScan;
    if w != [] && !Separates(s, w[0]) {
      PieceEndSeparates(w[1..], NextScan(s, w[0]));
      var k := PieceEnd(w, s);
      assert w[..k][1..] == w[1..][..k - 1];
    }
  }

  /** The part of w before its first separating comma, followed by anything, still has none. */
  lemma {:induction false} PieceEndConcat(x: string, y: string, s: Scan)
    ensures PieceEnd(x + y, s) == if PieceEnd(x, s) < |x| then PieceEnd(x, s) else |x| + PieceEnd(y, RunScan(x, s))
  {
    hide NextScan;
    if x == [] {
      assert x + y == y;
    } else if !Separates(s, x[0]) {
      PieceEndConcat(x[1..], y, NextScan(s, x[0]));
      assert (x + y)[1..] == x[1..] + y;
    }
  }

  lemma {:induction false} PieceEndBlank(w: string, s: Scan)
    requires Blank(w)
    ensures PieceEnd(w, s) == |w|
  {
    if w != [] {
      assert IsSpace(w[0]);
      PieceEndBlank(w[1..], NextScan(s, w[0]));
    }
  }

  /** The ranges of the elements of an array whose inner text is body and starts at start. */
  function Elements(body: string, start: nat): seq<Range>
    decreases |body|
  {
    var k := PieceEnd(body, Top());
    Trimmed(body[..k], start) + if k == |body| then [] else Elements(body[k + 1..], start + k + 1)
  }

  /** A piece that ends where it began is followed by the elements after its comma. */
  lemma FirstPiece(x: string, y: string, start: nat)
    requires PieceEnd(x, Top()) == |x| && RunScan(x, Top()) == Top()
    ensures Elements(x + [','] + y, start) == Trimmed(x, start) + Elements(y, start + |x| + 1)
  {
    hide Trimmed, NextScan;
    var w := x + [','] + y;
    assert w == x + ([','] + y);
    PieceEndConcat(x, [','] + y, Top());
    assert PieceEnd([','] + y, Top()) == 0;
    assert w[..|x|] == x && w[|x| + 1..] == y;
  }

  /** The brackets of the root array. */
  function RootBounds(v: string): (r: Option<Range>)
    ensures r.Some? ==> r.value.start < r.value.end < |v|
  {
    var open := Lead(v);
    if open == |v| || v[open] != '[' then None
    else
      match CloseOffset(v[open + 1..], Top())
      case None => None
      case Some(k) => Some(Range(open, open + 1 + k))
  }

  function RootElements(v: string): Option<seq<Range>> {
    match RootBounds(v)
    case None => None
    case Some(b) => Some(Elements(v[b.start + 1..b.end], b.start + 1))
  }

  // ----- The scanners as the editor runs them

  method MatchingDelimiter(v: string, open: nat) returns (close: Option<nat>)
    requires open < |v| && v[open] == '['
    ensures close == match CloseOffset(v[open + 1..], Top()) { case None => None case Some(k) => Some(open + 1 + k) }
  {
    hide CloseOffset, NextScan;
    var scan, index := Top(), open + 1;
    CloseOffsetStart(v, index);
    while index < |v|
      invariant open < index <= |v|
      invariant CloseOffset(v[open + 1..], Top()) == After(index - open - 1, CloseOffset(v[index..], scan))
    {
      CloseOffsetStep(v, index, scan);
      if Closes(scan, v[index]) {
        return Some(index);
      }
      scan := NextScan(scan, v[index]);
      index := index + 1;
    }
    CloseOffsetEnd(v, scan);
    close := None;
  }

  lemma CloseOffsetStart(v: string, index: nat)
    requires index <= |v|
    ensures CloseOffset(v[index..], Top()) == After(0, CloseOffset(v[index..], Top()))
  {
  }

  lemma CloseOffsetStep(v: string, index: nat, scan: Scan)
    requires index < |v|
    ensures CloseOffset(v[index..], scan)
         == if Closes(scan, v[index]) then Some(0) else After(1, CloseOffset(v[index + 1..], NextScan(scan, v[index])))
  {
    assert v[index..][1..] == v[index + 1..];
  }

  lemma CloseOffsetEnd(v: string, scan: Scan)
    ensures CloseOffset(v[|v|..], scan) == None
  {
  }

  ghost function After(n: nat, r: Option<nat>): Option<nat> {
    match r
    case None => None
    case Some(k) => Some(n + k)
  }

  method FindElements(v: string) returns (result: Option<seq<Range>>)
    ensures result == RootElements(v)
  {
    hide Lead, CloseOffset, Elements;
    var open := Lead(v);
    if open == |v| || v[open] != '[' {
      return None;
    }
    var found := MatchingDelimiter(v, open);
    if found.None? {
      return None;
    }
    var close := found.value;
    var elements := SplitElements(v, open + 1, close);
    result := Some(elements);
  }

  method SplitElements(v: string, first: nat, close: nat) returns (elements: seq<Range>)
    requires first <= close <= |v|
    ensures elements == Elements(v[first..close], first)
  {
    hide Splitting, PieceEnd, RunScan, Elements, Trimmed, NextScan;
    elements := [];
    var start, index, scan := first, first, Top();
    SplitBegins(v, first, close);
    while index < close
      invariant first <= start <= index <= close && Splitting(v, first, close, start, index, scan, elements)
    {
      if scan == Top() && v[index] == ',' {
        SplitComma(v, first, close, start, index, elements);
        elements := elements + Trimmed(v[start..index], start);
        start := index + 1;
      } else {
        SplitStep(v, first, close, start, index, scan, elements);
        scan := NextScan(scan, v[index]);
      }
      index := index + 1;
    }
    SplitEnds(v, first, close, start, scan, elements);
    elements := elements + Trimmed(v[start..close], start);
  }

  lemma SplitBegins(v: string, first: nat, close: nat)
    requires first <= close <= |v|
    ensures Splitting(v, first, close, first, first, Top(), [])
  {
    hide Elements;
    assert v[first..first] == [];
  }

  lemma SplitStep(v: string, first: nat, close: nat, start: nat, index: nat, scan: Scan, elements: seq<Range>)
    requires Splitting(v, first, close, start, index, scan, elements) && index < close && !Separates(scan, v[index])
    ensures Splitting(v, first, close, start, index + 1, NextScan(scan, v[index]), elements)
  {
    hide Elements;
    PieceStep(v, start, index, scan);
  }

  lemma SplitEnds(v: string, first: nat, close: nat, start: nat, scan: Scan, elements: seq<Range>)
    requires Splitting(v, first, close, start, close, scan, elements)
    ensures elements + Trimmed(v[start..close], start) == Elements(v[first..close], first)
  {
    hide Elements, Trimmed, RunScan;
    PieceLast(v, start, close);
  }

  /** What the splitting loop has done when it stands at index, in the piece that begins at start. */
  ghost predicate Splitting(v: string, first: nat, close: nat, start: nat, index: nat, scan: Scan,
                            elements: seq<Range>) {
    && first <= start <= index <= close <= |v|
    && PieceEnd(v[start..index], Top()) == index - start
    && RunScan(v[start..index], Top()) == scan
    && elements + Elements(v[start..close], start) == Elements(v[first..close], first)
  }

  lemma SplitComma(v: string, first: nat, close: nat, start: nat, index: nat, elements: seq<Range>)
    requires Splitting(v, first, close, start, index, Top(), elements) && index < close && v[index] == ','
    ensures Splitting(v, first, close, index + 1, index + 1, Top(), elements + Trimmed(v[start..index], start))
  {
    hide Elements, Trimmed;
    PieceBefore(v, start, index, close);
    ConcatAssoc(elements, Trimmed(v[start..index], start), Elements(v[index + 1..close], index + 1));
    var next := index + 1;
    assert v[next..next] == [];
  }

  lemma SliceSnoc(v: string, start: nat, index: nat)
    requires start <= index < |v|
    ensures v[start..index + 1] == v[start..index] + [v[index]]
  {
  }

  lemma PieceStep(v: string, start: nat, index: nat, st: Scan)
    requires start <= index < |v| && !Separates(st, v[index])
    requires PieceEnd(v[start..index], Top()) == index - start && RunScan(v[start..index], Top()) == st
    ensures PieceEnd(v[start..index + 1], Top()) == index + 1 - start
    ensures RunScan(v[start..index + 1], Top()) == NextScan(st, v[index])
  {
    hide NextScan;
    var x := v[start..index];
    SliceSnoc(v, start, index);
    PieceEndConcat(x, [v[index]], Top());
    RunScanConcat(x, [v[index]], Top());
  }

  lemma SliceAround(v: string, start: nat, index: nat, close: nat)
    requires start <= index < close <= |v|
    ensures v[start..close] == v[start..index] + [v[index]] + v[index + 1..close]
  {
  }

  lemma PieceBefore(v: string, start: nat, index: nat, close: nat)
    requires start <= index < close <= |v| && v[index] == ','
    requires PieceEnd(v[start..index], Top()) == index - start && RunScan(v[start..index], Top()) == Top()
    ensures Elements(v[start..close], start) == Trimmed(v[start..index], start)
      + Elements(v[index + 1..close], index + 1)
  {
    hide Elements, Trimmed, PieceEnd, RunScan;
    SliceAround(v, start, index, close);
    FirstPiece(v[start..index], v[index + 1..close], start);
  }

  lemma PieceLast(v: string, start: nat, close: nat)
    requires start <= close <= |v| && PieceEnd(v[start..close], Top()) == close - start
    ensures Elements(v[start..close], start) == Trimmed(v[start..close], start)
  {
    hide Trimmed, NextScan;
    assert v[start..close][..close - start] == v[start..close];
  }
}
