/**
 Validating, sanitising and reading saved terminal history. The walk over the text is tied to its
 items; sanitising is a projection onto the valid histories that keeps what is shown.
 */
module History {
  import opened Wrappers
  import opened Sequences
  import opened HistoryGrammar

  datatype HistoryError = TooLarge | NotPresentation

  type Parsed = Result<seq<string>, HistoryError>

  predicate AllPlain(s: string) {
    forall i :: 0 <= i < |s| ==> PlainChar(s[i])
  }

  /** What the walk pushes for a control. */
  function Pushed(c: Control, text: string, styled: bool): seq<string> {
    match c
    case Osc(_) => []
    case Gap(_, count) => [if styled then text else Spaces(count)]
    case Style(_) => if styled then [text] else []
  }

  function Concat(parts: seq<string>): string {
    if parts == [] then "" else parts[0] + Concat(parts[1..])
  }

  function Prepend(first: seq<string>, rest: Parsed): Parsed {
    if rest.Ok? then Ok(first + rest.value) else rest
  }

  /** The parts pushed from here on, when this many bytes have been pushed before. */
  function Walk(rest: string, strip: bool, styled: bool, size: nat): Parsed
    decreases |rest|
  {
    if rest == "" then Ok([])
    else
      var end := IndexOf(rest, ESC);
      var plain, controls := rest[..end], rest[end..];
      var pushed := size + Bytes(plain);
      if !AllPlain(plain) then Err(NotPresentation)
      else if pushed > MAX_BYTES then Err(TooLarge)
      else if controls == "" then Ok([plain])
      else
        match ControlAt(controls, strip)
        case None => Err(NotPresentation)
        case Some(c) =>
          var parts := Pushed(c, controls[..c.length], styled);
          var total := pushed + Bytes(Concat(parts));
          if total > MAX_BYTES then Err(TooLarge)
          else Prepend([plain] + parts, Walk(controls[c.length..], strip, styled, total))
  }

  function WalkAll(text: string, strip: bool, styled: bool): Parsed {
    if Bytes(text) > MAX_BYTES then Err(TooLarge) else Walk(text, strip, styled, 0)
  }

  method WalkHistory(text: string, strip: bool, styled: bool) returns (r: Parsed)
    ensures r == WalkAll(text, strip, styled)
  {
    hide AllPlain, ControlAt, Bytes, Pushed, Concat, Walk, IndexOf;
    if Bytes(text) > MAX_BYTES {
      return Err(TooLarge);
    }
    var parts: seq<string> := [];
    var size: nat := 0;
    var rest := text;
    PrependNone(Walk(rest, strip, styled, size));
    while rest != ""
      invariant WalkAll(text, strip, styled) == Prepend(parts, Walk(rest, strip, styled, size))
      decreases |rest|
    {
      WalkIs(rest, strip, styled, size);
      var end := IndexOf(rest, ESC);
      var plain, controls := rest[..end], rest[end..];
      if !AllPlain(plain) {
        return Err(NotPresentation);
      }
      size := size + Bytes(plain);
      if size > MAX_BYTES {
        return Err(TooLarge);
      }
      if controls == "" {
        return Ok(parts + [plain]);
      }
      var control := ControlAt(controls, strip);
      if control.None? {
        return Err(NotPresentation);
      }
      var pushed := Pushed(control.value, controls[..control.value.length], styled);
      size := size + Bytes(Concat(pushed));
      if size > MAX_BYTES {
        return Err(TooLarge);
      }
      PrependTwice(parts, [plain] + pushed, Walk(controls[control.value.length..], strip, styled, size));
      parts := parts + ([plain] + pushed);
      rest := controls[control.value.length..];
    }
    WalkOfNothing(strip, styled, size);
    assert parts + [] == parts;
    r := Ok(parts);
  }

  lemma WalkOfNothing(strip: bool, styled: bool, size: nat)
    ensures Walk("", strip, styled, size) == Ok([])
  {}

  /** The walk from a plain run and a control on. */
  lemma WalkIs(rest: string, strip: bool, styled: bool, size: nat)
    requires rest != ""
    ensures var end := IndexOf(rest, ESC); var plain, controls := rest[..end], rest[end..];
      var pushed := size + Bytes(plain);
      Walk(rest, strip, styled, size)
      == if !AllPlain(plain) then Err(NotPresentation)
         else if pushed > MAX_BYTES then Err(TooLarge)
         else if controls == "" then Ok([plain])
         else
           match ControlAt(controls, strip)
           case None => Err(NotPresentation)
           case Some(c) =>
             var parts := Pushed(c, controls[..c.length], styled);
             var total := pushed + Bytes(Concat(parts));
             if total > MAX_BYTES then Err(TooLarge)
             else Prepend([plain] + parts, Walk(controls[c.length..], strip, styled, total))
  {
    hide AllPlain, ControlAt, Bytes, Pushed, Concat, IndexOf;
  }

  lemma PrependNone(r: Parsed)
    ensures Prepend([], r) == r
  {
    if r.Ok? {
      assert [] + r.value == r.value;
    }
  }

  lemma PrependTwice(a: seq<string>, b: seq<string>, r: Parsed)
    ensures Prepend(a, Prepend(b, r)) == Prepend(a + b, r)
  {
    if r.Ok? {
      assert a + (b + r.value) == a + b + r.value;
    }
  }

  // ----- The walk and the items

  function Chars(s: string): (r: seq<Item>)
    ensures |r| == |s| && forall i :: 0 <= i < |s| ==> r[i] == Char(s[i])
  {
    seq(|s|, i requires 0 <= i < |s| => Char(s[i]))
  }

  lemma {:induction false} RenderChars(s: string, styled: bool)
    ensures Render(Chars(s), styled) == s
  {
    if s != "" {
      assert Chars(s)[1..] == Chars(s[1..]);
      RenderChars(s[1..], styled);
    }
  }

  function ConsAll(first: seq<Item>, rest: Option<seq<Item>>): Option<seq<Item>> {
    if rest.Some? then Some(first + rest.value) else None
  }

  /** Up to the next escape the items are the characters, if all of them are plain. */
  lemma {:induction false} ItemsOfPlain(s: string, end: nat, strip: bool)
    requires end <= |s| && forall i :: 0 <= i < end ==> s[i] != ESC
    ensures Items(s, strip) == if AllPlain(s[..end]) then ConsAll(Chars(s[..end]), Items(s[end..], strip)) else None
    decreases end
  {
    hide PlainChar, AllPlain, Items, Chars;
    if end == 0 {
      assert s[..0] == "" && s[0..] == s;
      NoChars(Items(s, strip));
    } else {
      var c, more := s[0], s[1..][..end - 1];
      ItemsOfPlain(s[1..], end - 1, strip);
      assert s[1..][end - 1..] == s[end..] && s[..end] == [c] + more;
      ItemsPlainHead(s, strip);
      ConsChars(c, more, Items(s[end..], strip));
      AllPlainCons(c, more);
    }
  }

  lemma ItemsPlainHead(s: string, strip: bool)
    requires s != "" && s[0] != ESC
    ensures Items(s, strip) == if PlainChar(s[0]) then Cons(Char(s[0]), Items(s[1..], strip)) else None
  {}

  lemma NoChars(rest: Option<seq<Item>>)
    ensures AllPlain("") && ConsAll(Chars(""), rest) == rest
  {
    assert rest.Some? ==> Chars("") + rest.value == rest.value;
  }

  lemma ConsChars(c: char, s: string, rest: Option<seq<Item>>)
    ensures ConsAll(Chars([c] + s), rest) == Cons(Char(c), ConsAll(Chars(s), rest))
  {
    assert Chars([c] + s) == [Char(c)] + Chars(s);
    if rest.Some? {
      ConcatAssoc([Char(c)], Chars(s), rest.value);
    }
  }

  lemma AllPlainCons(c: char, s: string)
    ensures AllPlain([c] + s) <==> PlainChar(c) && AllPlain(s)
  {
    hide PlainChar;
    if AllPlain([c] + s) {
      assert ([c] + s)[0] == c;
      assert forall i :: 0 <= i < |s| ==> ([c] + s)[i + 1] == s[i];
    }
  }

  lemma {:induction false} ConcatConcat(a: seq<string>, b: seq<string>)
    ensures Concat(a + b) == Concat(a) + Concat(b)
  {
    if a == [] {
      assert a + b == b;
    } else {
      assert (a + b)[1..] == a[1..] + b;
      ConcatConcat(a[1..], b);
    }
  }

  lemma ConcatOne(s: string)
    ensures Concat([s]) == s
  {
    assert [s][1..] == [];
    assert s + "" == s;
  }

  /** What is pushed for a control is what its item renders to. */
  lemma PushedIsRendered(c: Control, text: string, styled: bool)
    ensures Concat(Pushed(c, text, styled)) == RenderItem(Command(c, text), styled)
  {
    match c
    case Osc(_) =>
    case Gap(_, count) => ConcatOne(if styled then text else Spaces(count));
    case Style(_) => ConcatOne(text);
  }

  /** The walk succeeds exactly on texts that have items and render within the limit, and pushes what they render to. */
  ghost predicate WalkMatches(s: string, strip: bool, styled: bool, size: nat) {
    Matches(Walk(s, strip, styled, size), Items(s, strip), styled, size)
  }

  ghost predicate Matches(r: Parsed, items: Option<seq<Item>>, styled: bool, size: nat) {
    && (r.Ok? <==> items.Some? && size + Bytes(Render(items.value, styled)) <= MAX_BYTES)
    && (r.Ok? ==> Concat(r.value) == Render(items.value, styled))
  }

  lemma {:induction false} WalkIsItems(s: string, strip: bool, styled: bool, size: nat)
    requires size <= MAX_BYTES
    ensures WalkMatches(s, strip, styled, size)
    decreases |s|
  {
    hide AllPlain, ControlAt, Pushed, RenderItem, WalkMatches, Bytes, Concat;
    var end := IndexOf(s, ESC);
    var plain, controls := s[..end], s[end..];
    if s == "" {
      WalkNothing(strip, styled, size);
    } else if !AllPlain(plain) {
      WalkFails(s, strip, styled, size);
    } else if end == |s| {
      assert plain == s;
      WalkEndsPlain(s, strip, styled, size);
    } else if ControlAt(controls, strip).None? {
      WalkFails(s, strip, styled, size);
    } else {
      var c := ControlAt(controls, strip).value;
      var total := size + Bytes(plain) + Bytes(Concat(Pushed(c, controls[..c.length], styled)));
      if total <= MAX_BYTES {
        WalkIsItems(controls[c.length..], strip, styled, total);
      }
      WalkStep(s, end, c, strip, styled, size);
    }
  }

  lemma WalkNothing(strip: bool, styled: bool, size: nat)
    requires size <= MAX_BYTES
    ensures WalkMatches("", strip, styled, size)
  {}

  lemma WalkFails(s: string, strip: bool, styled: bool, size: nat)
    requires s != "" && size <= MAX_BYTES
    requires var end := IndexOf(s, ESC); !AllPlain(s[..end]) || (end < |s| && ControlAt(s[end..], strip).None?)
    ensures WalkMatches(s, strip, styled, size)
  {
    hide AllPlain, ControlAt, Bytes;
    ItemsOfPlain(s, IndexOf(s, ESC), strip);
  }

  lemma WalkEndsPlain(s: string, strip: bool, styled: bool, size: nat)
    requires s != "" && IndexOf(s, ESC) == |s| && AllPlain(s)
    ensures WalkMatches(s, strip, styled, size)
  {
    hide AllPlain, ControlAt;
    assert s[..|s|] == s && s[|s|..] == "";
    ItemsOfPlain(s, |s|, strip);
    RenderChars(s, styled);
    assert Chars(s) + [] == Chars(s);
    ConcatOne(s);
  }

  /** One plain run and one control, given the rest. */
  lemma StepMatches(plain: string, item: Item, pushed: seq<string>, walked: Parsed, rest: Option<seq<Item>>, size: nat,
                    styled: bool)
    requires Concat(pushed) == RenderItem(item, styled)
    requires var total := size + Bytes(plain) + Bytes(Concat(pushed));
      total <= MAX_BYTES ==> Matches(walked, rest, styled, total)
    ensures Matches(Stepped(plain, pushed, walked, size), ConsAll(Chars(plain), Cons(item, rest)), styled, size)
  {
    hide RenderItem, Bytes, Concat, Render, Chars;
    ConcatConcat([plain], pushed);
    ConcatOne(plain);
    if rest.Some? {
      StepRenders(plain, item, rest.value, styled);
      if walked.Ok? {
        ConcatConcat([plain] + pushed, walked.value);
      }
    }
  }

  function Stepped(plain: string, pushed: seq<string>, walked: Parsed, size: nat): Parsed {
    if size + Bytes(plain) > MAX_BYTES || size + Bytes(plain) + Bytes(Concat(pushed)) > MAX_BYTES then Err(TooLarge)
    else Prepend([plain] + pushed, walked)
  }

  lemma WalkUnfolds(s: string, end: nat, c: Control, strip: bool, styled: bool, size: nat)
    requires end == IndexOf(s, ESC) < |s| && AllPlain(s[..end]) && ControlAt(s[end..], strip) == Some(c)
    ensures var pushed := Pushed(c, s[end..][..c.length], styled);
      Walk(s, strip, styled, size)
      == Stepped(s[..end], pushed,
        Walk(s[end..][c.length..], strip, styled, size + Bytes(s[..end]) + Bytes(Concat(pushed))), size)
  {
    hide AllPlain, ControlAt, Pushed, Bytes, Concat, IndexOf;
  }

  lemma ItemsUnfold(s: string, end: nat, c: Control, strip: bool)
    requires end == IndexOf(s, ESC) < |s| && AllPlain(s[..end]) && ControlAt(s[end..], strip) == Some(c)
    ensures Items(s, strip)
      == ConsAll(Chars(s[..end]), Cons(Command(c, s[end..][..c.length]), Items(s[end..][c.length..], strip)))
  {
    hide AllPlain, ControlAt, IndexOf;
    ItemsOfPlain(s, end, strip);
  }

  lemma WalkStep(s: string, end: nat, c: Control, strip: bool, styled: bool, size: nat)
    requires end == IndexOf(s, ESC) < |s| && AllPlain(s[..end]) && ControlAt(s[end..], strip) == Some(c)
    requires var total := size + Bytes(s[..end]) + Bytes(Concat(Pushed(c, s[end..][..c.length], styled)));
      total <= MAX_BYTES ==> WalkMatches(s[end..][c.length..], strip, styled, total)
    ensures WalkMatches(s, strip, styled, size)
  {
    hide AllPlain, ControlAt, Pushed, RenderItem, Bytes, Concat, Walk, Items, Stepped, Render, Chars, Matches,
      IndexOf, ConsAll, Cons;
    var plain, text, after := s[..end], s[end..][..c.length], s[end..][c.length..];
    var pushed := Pushed(c, text, styled);
    WalkUnfolds(s, end, c, strip, styled, size);
    ItemsUnfold(s, end, c, strip);
    PushedIsRendered(c, text, styled);
    StepMatches(plain, Command(c, text), pushed,
      Walk(after, strip, styled, size + Bytes(plain) + Bytes(Concat(pushed))), Items(after, strip), size, styled);
  }

  lemma StepRenders(plain: string, item: Item, rest: seq<Item>, styled: bool)
    ensures var items := Chars(plain) + ([item] + rest);
      && Render(items, styled) == plain + RenderItem(item, styled) + Render(rest, styled)
      && Bytes(Render(items, styled)) == Bytes(plain) + Bytes(RenderItem(item, styled)) + Bytes(Render(rest, styled))
  {
    hide RenderItem, Bytes;
    RenderConcat(Chars(plain), [item] + rest, styled);
    RenderChars(plain, styled);
    assert ([item] + rest)[1..] == rest;
    BytesConcat(plain + RenderItem(item, styled), Render(rest, styled));
    BytesConcat(plain, RenderItem(item, styled));
    assert plain + RenderItem(item, styled) + Render(rest, styled) == plain
      + (RenderItem(item, styled) + Render(rest, styled));
  }

  // ----- Validating and reading

  function Validate(text: string): Result<(), HistoryError> {
    match WalkAll(text, false, true)
    case Ok(_) => Ok(())
    case Err(e) => Err(e)
  }

  function PlainText(text: string): Result<string, HistoryError> {
    match WalkAll(text, false, false)
    case Ok(parts) => Ok(Concat(parts))
    case Err(e) => Err(e)
  }

  /** The text has items and fits. */
  ghost predicate IsValid(text: string) {
    Items(text, false).Some? && Bytes(text) <= MAX_BYTES
  }

  lemma ValidateIff(text: string)
    ensures Validate(text).Ok? <==> IsValid(text)
    ensures IsValid(text) ==> Concat(WalkAll(text, false, true).value) == text
  {
    hide Walk, Items, Concat;
    WalkIsItems(text, false, true, 0);
    if Items(text, false).Some? {
      ItemsAreText(text);
    }
  }

  ghost predicate NoEscapes(s: string) {
    forall i :: 0 <= i < |s| ==> s[i] != ESC
  }

  lemma {:induction false} RenderedIsPlain(items: seq<Item>)
    requires forall i :: 0 <= i < |items| && items[i].Char? ==> PlainChar(items[i].ch)
    ensures AllPlain(Render(items, false)) && NoEscapes(Render(items, false))
  {
    if items != [] {
      RenderedIsPlain(items[1..]);
      assert forall i :: 0 <= i < |RenderItem(items[0], false)| ==> PlainChar(RenderItem(items[0], false)[i]);
    }
  }

  lemma {:induction false} ItemsArePlain(s: string, strip: bool)
    requires Items(s, strip).Some?
    ensures forall i :: 0 <= i < |Items(s, strip).value| && Items(s, strip).value[i].Char?
             ==> PlainChar(Items(s, strip).value[i].ch)
    decreases |s|
  {
    hide PlainChar, ControlAt;
    if s != "" {
      ItemsArePlain(s[if s[0] != ESC then 1 else ControlAt(s, strip).value.length..], strip);
    }
  }

  /** Readable text has no escapes, is valid, and is its own readable text. */
  lemma PlainTextIsPlain(text: string)
    requires PlainText(text).Ok?
    ensures var p := PlainText(text).value;
      NoEscapes(p) && AllPlain(p) && Validate(p).Ok? && PlainText(p) == Ok(p)
  {
    hide Walk, Items, Concat, Render, AllPlain, Bytes;
    var p := PlainText(text).value;
    WalkIsItems(text, false, false, 0);
    ItemsArePlain(text, false);
    RenderedIsPlain(Items(text, false).value);
    PlainStays(p);
    ValidateIff(p);
  }

  lemma PlainStays(p: string)
    requires NoEscapes(p) && AllPlain(p) && Bytes(p) <= MAX_BYTES
    ensures Items(p, false).Some? && PlainText(p) == Ok(p)
  {
    hide Walk, Concat, Render, AllPlain, Bytes;
    ItemsOfPlain(p, |p|, false);
    assert p[..|p|] == p && p[|p|..] == "";
    assert Items("", false) == Some([]);
    assert Chars(p) + [] == Chars(p);
    RenderChars(p, false);
    WalkIsItems(p, false, false, 0);
  }
}
