/**
 Sanitising a fresh capture: OSC records are dropped, and indexed colors are replaced by the ones the
 records define. The result shows the same text, and sanitising it again changes nothing.
 */
module HistorySanitize {
  import opened Wrappers
  import opened Sequences
  import opened HistoryGrammar
  import opened History

  // ----- The palette

  type Channel = n: int | 0 <= n < 256 witness 0

  datatype Rgb = Rgb(r: Channel, g: Channel, b: Channel)

  type Palette = map<nat, Rgb>

  /** The first OSC introducer from index i on, or the end. */
  function OscFrom(s: string, i: nat): (r: nat)
    requires i <= |s|
    ensures i <= r <= |s|
    ensures r < |s| ==> r + 1 < |s| && s[r] == ESC && s[r + 1] == ']'
    decreases |s| - i
  {
    if i == |s| then i
    else if s[i] == ESC && i + 1 < |s| && s[i + 1] == ']' then i
    else OscFrom(s, i + 1)
  }

  /** What follows each OSC introducer, up to the next one. */
  function Records(s: string): seq<string>
    decreases |s|
  {
    var start := OscFrom(s, 0);
    if start == |s| then []
    else
      var rest := s[start + 2..];
      [rest[..OscFrom(rest, 0)]] + Records(rest)
  }

  function HexDigit(c: char): Option<Channel> {
    if '0' <= c <= '9' then Some((c - '0') as int)
    else if 'a' <= c <= 'f' then Some(10 + (c - 'a') as int)
    else if 'A' <= c <= 'F' then Some(10 + (c - 'A') as int)
    else None
  }

  /** Two hexadecimal digits, the first of which may be a plus sign. */
  function ParseChannel(s: string): (r: Option<Channel>)
  {
    if |s| != 2 || HexDigit(s[1]).None? then None
    else if s[0] == '+' then HexDigit(s[1])
    else if HexDigit(s[0]).None? then None
    else
      var n := 16 * (HexDigit(s[0]).value as int) + (HexDigit(s[1]).value as int);
      if n < 256 then Some(n) else None
  }

  datatype Entry = Entry(index: nat, color: Rgb)

  function ParseColor(s: string): Option<Rgb> {
    if !StartsWith(s, "rgb:") then None
    else
      var channels := Split(s[4..], '/');
      if |channels| != 3 then None
      else
        var r, g, b := ParseChannel(channels[0]), ParseChannel(channels[1]), ParseChannel(channels[2]);
        if r.Some? && g.Some? && b.Some? then Some(Rgb(r.value, g.value, b.value)) else None
  }

  function ParseRecord(osc: string): Option<Entry> {
    var record := osc[..OscEnd(osc, 0)];
    if !StartsWith(record, "4;") then None
    else
      var body := record[2..];
      var i := IndexOf(body, ';');
      if i == |body| then None
      else
        var index, color := ParseByte(body[..i]), ParseColor(body[i + 1..]);
        if index.Some? && color.Some? then Some(Entry(index.value, color.value)) else None
  }

  function Defined(records: seq<string>, palette: Palette): Palette
    decreases |records|
  {
    if records == [] then palette
    else
      var entry := ParseRecord(records[0]);
      Defined(records[1..], if entry.Some? then palette[entry.value.index := entry.value.color] else palette)
  }

  function CapturePalette(text: string): Palette {
    Defined(Records(text), map[])
  }

  method CapturePaletteOf(text: string) returns (palette: Palette)
    ensures palette == CapturePalette(text)
  {
    hide ParseRecord, Records;
    palette := map[];
    var records := Records(text);
    while records != []
      invariant Defined(records, palette) == CapturePalette(text)
      decreases |records|
    {
      var entry := ParseRecord(records[0]);
      if entry.Some? {
        palette := palette[entry.value.index := entry.value.color];
      }
      records := records[1..];
    }
  }

  // ----- Resolving colors

  function Decimal(n: nat): string {
    if n < 10 then ['0' + n as char] else Decimal(n / 10) + ['0' + (n % 10) as char]
  }

  predicate ColorPrefix(s: string) {
    s == "38" || s == "48" || s == "58"
  }

  /** The parameters of a color in full. */
  function ColorParameters(prefix: string, color: Rgb): string {
    prefix + ";" + ("2" + ";" + (Decimal(color.r) + ";" + (Decimal(color.g) + ";" + Decimal(color.b))))
  }

  function StyleText(parameters: string): string {
    [ESC, '['] + parameters + ['m']
  }

  /** An indexed color alone in its style, replaced by the color the palette defines. */
  function ResolvedStyle(text: string, palette: Palette): Option<string> {
    if !(|text| >= 3 && text[0] == ESC && text[1] == '[' && text[|text| - 1] == 'm') then None
    else
      var parts := Split(text[2..|text| - 1], ';');
      if |parts| != 3 || !ColorPrefix(parts[0]) || parts[1] != "5" || ParseByte(parts[2]).None? then None
      else if ParseByte(parts[2]).value !in palette then None
      else Some(StyleText(ColorParameters(parts[0], palette[ParseByte(parts[2]).value])))
  }

  function Resolve(part: string, palette: Palette): string {
    if ResolvedStyle(part, palette).Some? then ResolvedStyle(part, palette).value else part
  }

  function ResolveAll(parts: seq<string>, palette: Palette): (r: seq<string>)
    ensures |r| == |parts| && forall i :: 0 <= i < |r| ==> r[i] == Resolve(parts[i], palette)
  {
    seq(|parts|, i requires 0 <= i < |parts| => Resolve(parts[i], palette))
  }

  function Sanitize(text: string): Result<string, HistoryError> {
    match WalkAll(text, true, true)
    case Err(e) => Err(e)
    case Ok(parts) =>
      var result := Concat(ResolveAll(parts, CapturePalette(text)));
      match Validate(result)
      case Err(e) => Err(e)
      case Ok(_) => Ok(result)
  }

  method SanitizeHistory(text: string) returns (r: Result<string, HistoryError>)
    ensures r == Sanitize(text)
  {
    hide Walk, CapturePalette, Resolve, Validate;
    var palette := CapturePaletteOf(text);
    var walked := WalkHistory(text, true, true);
    if walked.Err? {
      return Err(walked.error);
    }
    var parts, result := walked.value, "";
    var i := 0;
    while i < |parts|
      invariant 0 <= i <= |parts|
      invariant result == Concat(ResolveAll(parts[..i], palette))
    {
      assert parts[..i + 1] == parts[..i] + [parts[i]];
      ResolveAllConcat(parts[..i], [parts[i]], palette);
      assert ResolveAll([parts[i]], palette) == [Resolve(parts[i], palette)];
      ConcatConcat(ResolveAll(parts[..i], palette), [Resolve(parts[i], palette)]);
      ConcatOne(Resolve(parts[i], palette));
      result := result + Resolve(parts[i], palette);
      i := i + 1;
    }
    assert parts[..i] == parts;
    var valid := WalkHistory(result, false, true);
    ValidateIsWalk(result);
    r := if valid.Ok? then Ok(result) else Err(valid.error);
  }

  lemma ValidateIsWalk(text: string)
    ensures Validate(text) == match WalkAll(text, false, true) case Ok(_) => Ok(()) case Err(e) => Err(e)
  {}

  // ----- Decimal numbers and styles

  lemma {:induction false} DecimalRead(n: nat)
    ensures Decimal(n) != "" && AllDigits(Decimal(n)) && Value(Decimal(n)) == n
  {
    if n >= 10 {
      DecimalRead(n / 10);
      var s := Decimal(n);
      assert s[..|s| - 1] == Decimal(n / 10);
    }
  }

  lemma DecimalIsByte(n: Channel)
    ensures ParseByte(Decimal(n)) == Some(n) && AllDigits(Decimal(n))
  {
    hide Decimal, Value;
    DecimalRead(n);
  }

  lemma SplitFirst(a: string, rest: string)
    requires forall k :: 0 <= k < |a| ==> a[k] != ';'
    ensures Split(a + ";" + rest, ';') == [a] + Split(rest, ';')
  {
    var s := a + ";" + rest;
    assert forall k :: 0 <= k < |a| ==> s[k] == a[k];
    IndexOfIs(s, ';', |a|);
    assert s[..|a|] == a && s[|a| + 1..] == rest;
  }

  lemma SplitLast(a: string)
    requires forall k :: 0 <= k < |a| ==> a[k] != ';'
    ensures Split(a, ';') == [a]
  {
    IndexOfIs(a, ';', |a|);
  }

  lemma DigitsHaveNoSeparator(s: string)
    requires AllDigits(s)
    ensures forall k :: 0 <= k < |s| ==> s[k] != ';' && ParameterChar(s[k])
  {}

  lemma ColorSplits(prefix: string, color: Rgb)
    requires ColorPrefix(prefix)
    ensures Split(ColorParameters(prefix, color), ';')
      == [prefix, "2", Decimal(color.r), Decimal(color.g), Decimal(color.b)]
  {
    hide Split, Decimal, IndexOf;
    var r, g, b := Decimal(color.r), Decimal(color.g), Decimal(color.b);
    DecimalIsByte(color.r);
    DecimalIsByte(color.g);
    DecimalIsByte(color.b);
    DigitsHaveNoSeparator(r);
    DigitsHaveNoSeparator(g);
    DigitsHaveNoSeparator(b);
    SplitFirst(prefix, "2" + ";" + (r + ";" + (g + ";" + b)));
    SplitFirst("2", r + ";" + (g + ";" + b));
    SplitFirst(r, g + ";" + b);
    SplitFirst(g, b);
    SplitLast(b);
  }

  lemma PrefixIsColor(prefix: string)
    requires ColorPrefix(prefix)
    ensures prefix != "" && !IsUnderline(prefix) && ParseByte(prefix).Some? && ColorCode(ParseByte(prefix).value)
    ensures AllDigits(prefix)
  {
    assert |prefix| == 2 && prefix[1] == '8' && (prefix[0] == '3' || prefix[0] == '4' || prefix[0] == '5');
    assert prefix[..2][1] == '8' && "4:"[1] == ':';
    assert prefix[..1][..0] == "";
    assert Value(prefix[..1]) == (prefix[0] - '0') as nat;
    assert Value(prefix) == 10 * Value(prefix[..1]) + 8;
  }

  lemma ColorIsValid(prefix: string, color: Rgb)
    requires ColorPrefix(prefix)
    ensures ValidStyle(ColorParameters(prefix, color))
  {
    hide Split, Decimal, ParseNumber, IndexOf, AllDigits, ColorParameters;
    PrefixIsColor(prefix);
    ColorSplits(prefix, color);
    DecimalIsByte(color.r);
    DecimalIsByte(color.g);
    DecimalIsByte(color.b);
    FiveParts(prefix, Decimal(color.r), Decimal(color.g), Decimal(color.b));
  }

  lemma FiveParts(prefix: string, r: string, g: string, b: string)
    requires prefix != "" && !IsUnderline(prefix) && ParseByte(prefix).Some? && ColorCode(ParseByte(prefix).value)
    requires ParseByte(r).Some? && ParseByte(g).Some? && ParseByte(b).Some?
    ensures ValidParts([prefix, "2", r, g, b])
  {
    hide ParseNumber, IsUnderline;
    var parts := [prefix, "2", r, g, b];
    assert parts[2..] == [r, g, b];
    assert parts[5..] == [];
    assert ValidParts([]);
  }

  lemma {:induction false} ParametersEndIs(s: string, i: nat, r: nat)
    requires i <= r < |s| && (forall k :: i <= k < r ==> ParameterChar(s[k])) && !ParameterChar(s[r])
    ensures ParametersEnd(s, i) == r
    decreases r - i
  {
    hide ParameterChar;
    if i < r {
      ParametersEndIs(s, i + 1, r);
    }
  }

  lemma ColorParametersAreParameters(prefix: string, color: Rgb)
    requires ColorPrefix(prefix)
    ensures forall k :: 0 <= k < |ColorParameters(prefix, color)| ==> ParameterChar(ColorParameters(prefix, color)[k])
  {
    hide Decimal, Value, ColorPrefix;
    PrefixIsColor(prefix);
    DecimalRead(color.r);
    DecimalRead(color.g);
    DecimalRead(color.b);
  }

  /** The text is one command and nothing else. */
  ghost predicate Alone(text: string, c: Control) {
    |text| > 2 && text[0] == ESC && c.length == |text| && ControlAt(text, false) == Some(c)
  }

  lemma StyleIsAlone(parameters: string)
    requires ValidStyle(parameters) && forall k :: 0 <= k < |parameters| ==> ParameterChar(parameters[k])
    ensures Alone(StyleText(parameters), Style(|parameters| + 3))
  {
    hide ValidStyle, AllDigits, Value;
    var s := StyleText(parameters);
    assert forall k :: 2 <= k < |s| - 1 ==> s[k] == parameters[k - 2];
    ParametersEndIs(s, 2, |s| - 1);
    assert s[2..|s| - 1] == parameters;
  }

  lemma ResolvedIsAlone(text: string, palette: Palette)
    requires ResolvedStyle(text, palette).Some?
    ensures var r := ResolvedStyle(text, palette).value; Alone(r, Style(|r|))
  {
    hide Split, Decimal, ParseNumber, ValidStyle, Alone, ColorParameters, ColorPrefix, ParameterChar;
    var parts := Split(text[2..|text| - 1], ';');
    var color := palette[ParseByte(parts[2]).value];
    ColorIsValid(parts[0], color);
    ColorParametersAreParameters(parts[0], color);
    StyleIsAlone(ColorParameters(parts[0], color));
  }

  lemma AloneIsItem(text: string, c: Control)
    requires Alone(text, c)
    ensures Items(text, false) == Some([Command(c, text)])
  {
    hide ControlAt;
    assert text[..c.length] == text && text[c.length..] == "";
    assert Items("", false) == Some([]);
    assert [Command(c, text)] + [] == [Command(c, text)];
  }

  // ----- What sanitising makes of the items

  /** Each item as the parser finds it, taken by itself. */
  ghost predicate Good(item: Item) {
    match item
    case Char(c) => PlainChar(c) && c != ESC
    case Command(c, text) => c.Osc? || Alone(text, c)
  }

  lemma ControlIsAlone(s: string, c: Control, strip: bool)
    requires s != "" && s[0] == ESC && ControlAt(s, strip) == Some(c) && !c.Osc?
    ensures Alone(s[..c.length], c)
  {
    hide ValidStyle, AllDigits, Value;
    var text := s[..c.length];
    var end := ParametersEnd(s, 2);
    assert c.length == end + 1;
    assert forall k :: 2 <= k <= end ==> text[k] == s[k];
    ParametersEndIs(text, 2, end);
    assert text[2..end] == s[2..end];
  }

  lemma {:induction false} ItemsAreGood(s: string, strip: bool, i: nat)
    requires Items(s, strip).Some? && i < |Items(s, strip).value|
    ensures Good(Items(s, strip).value[i])
    decreases |s|
  {
    hide PlainChar, ControlAt, Alone;
    var n := if s[0] != ESC then 1 else ControlAt(s, strip).value.length;
    if i > 0 {
      ItemsAreGood(s[n..], strip, i - 1);
    } else if s[0] == ESC && !ControlAt(s, strip).value.Osc? {
      ControlIsAlone(s, ControlAt(s, strip).value, strip);
    }
  }

  /** The item after sanitising: records are gone, and colors resolved. */
  function Sanitized(item: Item, palette: Palette): seq<Item> {
    match item
    case Char(_) => [item]
    case Command(Osc(_), _) => []
    case Command(Gap(_, _), _) => [item]
    case Command(Style(_), text) => [Command(Style(|Resolve(text, palette)|), Resolve(text, palette))]
  }

  function SanitizedAll(items: seq<Item>, palette: Palette): seq<Item> {
    if items == [] then [] else Sanitized(items[0], palette) + SanitizedAll(items[1..], palette)
  }

  lemma SanitizedIsText(item: Item, palette: Palette)
    requires Good(item)
    ensures Items(Render(Sanitized(item, palette), true), false) == Some(Sanitized(item, palette))
    ensures Render(Sanitized(item, palette), false) == RenderItem(item, false)
  {
    hide ControlAt, ResolvedStyle, PlainChar;
    match item
    case Char(c) =>
      CharIsItem(c);
      RenderOne(item, true);
      RenderOne(item, false);
    case Command(Osc(_), _) =>
    case Command(Gap(n, k), text) =>
      AloneIsItem(text, Gap(n, k));
      RenderOne(item, true);
      RenderOne(item, false);
    case Command(Style(n), text) =>
      var resolved := Resolve(text, palette);
      if ResolvedStyle(text, palette).Some? {
        ResolvedIsAlone(text, palette);
      }
      AloneIsItem(resolved, Style(|resolved|));
      RenderOne(Command(Style(|resolved|), resolved), true);
      RenderOne(Command(Style(|resolved|), resolved), false);
  }

  lemma CharIsItem(c: char)
    requires PlainChar(c) && c != ESC
    ensures Items([c], false) == Some([Char(c)])
  {
    assert [c][1..] == "";
    assert Items("", false) == Some([]);
    assert [Char(c)] + [] == [Char(c)];
  }

  lemma RenderOne(item: Item, styled: bool)
    ensures Render([item], styled) == RenderItem(item, styled)
  {
    assert [item][1..] == [];
  }

  /** The sanitised text has the sanitised items, and shows what the items show. */
  lemma {:induction false} SanitizedReads(items: seq<Item>, palette: Palette)
    requires forall i :: 0 <= i < |items| ==> Good(items[i])
    ensures var kept := SanitizedAll(items, palette);
      Items(Render(kept, true), false) == Some(kept) && Render(kept, false) == Render(items, false)
  {
    hide Good, Sanitized, RenderItem;
    if items == [] {
      assert Items("", false) == Some([]);
    } else {
      var first, rest := Sanitized(items[0], palette), SanitizedAll(items[1..], palette);
      SanitizedReads(items[1..], palette);
      SanitizedIsText(items[0], palette);
      RenderConcat(first, rest, true);
      RenderConcat(first, rest, false);
      ItemsConcat(Render(first, true), Render(rest, true));
    }
  }

  // ----- The walk's parts, resolved

  lemma ResolveAllConcat(a: seq<string>, b: seq<string>, palette: Palette)
    ensures ResolveAll(a + b, palette) == ResolveAll(a, palette) + ResolveAll(b, palette)
  {
    hide Resolve;
  }

  lemma PlainIsUnresolved(plain: string, palette: Palette)
    requires plain == "" || plain[0] != ESC
    ensures Resolve(plain, palette) == plain
  {
    hide Split, ParseNumber, ColorParameters;
  }

  lemma GapIsUnresolved(text: string, n: nat, k: nat, palette: Palette)
    requires Alone(text, Gap(n, k))
    ensures Resolve(text, palette) == text
  {
    hide Split, ParseNumber, ColorParameters, ValidStyle, AllDigits, Value;
  }

  /** Resolving what is pushed for a control gives its sanitised item's text. */
  lemma PushedResolves(c: Control, text: string, palette: Palette)
    requires c.Osc? || Alone(text, c)
    ensures Concat(ResolveAll(Pushed(c, text, true), palette)) == Render(Sanitized(Command(c, text), palette), true)
  {
    hide Resolve, Alone;
    match c
    case Osc(_) =>
    case Gap(n, k) =>
      GapIsUnresolved(text, n, k, palette);
      assert ResolveAll([text], palette) == [text];
      ConcatOne(text);
      RenderOne(Command(c, text), true);
    case Style(_) =>
      var resolved := Resolve(text, palette);
      assert ResolveAll([text], palette) == [resolved];
      ConcatOne(resolved);
      RenderOne(Command(Style(|resolved|), resolved), true);
  }

  lemma SanitizedOfChar(c: char, rest: seq<Item>, palette: Palette)
    ensures SanitizedAll([Char(c)] + rest, palette) == [Char(c)] + SanitizedAll(rest, palette)
  {
    assert ([Char(c)] + rest)[1..] == rest;
  }

  lemma {:induction false} SanitizedOfChars(s: string, rest: seq<Item>, palette: Palette)
    ensures SanitizedAll(Chars(s) + rest, palette) == Chars(s) + SanitizedAll(rest, palette)
  {
    hide Resolve, SanitizedAll, Chars;
    if s == "" {
      assert Chars(s) + rest == rest;
      assert Chars(s) + SanitizedAll(rest, palette) == SanitizedAll(rest, palette);
    } else {
      SanitizedOfChars(s[1..], rest, palette);
      assert Chars(s) == [Char(s[0])] + Chars(s[1..]);
      ConcatAssoc([Char(s[0])], Chars(s[1..]), rest);
      SanitizedOfChar(s[0], Chars(s[1..]) + rest, palette);
      ConcatAssoc([Char(s[0])], Chars(s[1..]), SanitizedAll(rest, palette));
    }
  }

  lemma {:induction false} WalkResolves(s: string, size: nat, palette: Palette)
    requires size <= MAX_BYTES && Walk(s, true, true, size).Ok?
    ensures Items(s, true).Some?
    ensures Concat(ResolveAll(Walk(s, true, true, size).value, palette))
      == Render(SanitizedAll(Items(s, true).value, palette), true)
    decreases |s|
  {
    hide AllPlain, ControlAt, Pushed, Bytes, Concat, Items, Render, SanitizedAll, ResolveAll, Resolve, IndexOf, Walk;
    WalkIsItems(s, true, true, size);
    if s == "" {
      WalkOfNothing(true, true, size);
      NothingResolves(palette);
    } else {
      WalkIs(s, true, true, size);
      var end := IndexOf(s, ESC);
      var plain, controls := s[..end], s[end..];
      PlainIsUnresolved(plain, palette);
      if end == |s| {
        assert plain == s;
        PlainResolves(s, palette);
      } else {
        var c := ControlAt(controls, true).value;
        var total := size + Bytes(plain) + Bytes(Concat(Pushed(c, controls[..c.length], true)));
        WalkResolves(controls[c.length..], total, palette);
        ItemsUnfold(s, end, c, true);
        ControlOrOsc(controls, c);
        ResolveStep(plain, c, controls[..c.length], Walk(controls[c.length..], true, true, total).value,
          Items(controls[c.length..], true).value, palette);
      }
    }
  }

  lemma ControlOrOsc(s: string, c: Control)
    requires s != "" && s[0] == ESC && ControlAt(s, true) == Some(c)
    ensures c.Osc? || Alone(s[..c.length], c)
  {
    hide ControlAt, Alone;
    if !c.Osc? {
      ControlIsAlone(s, c, true);
    }
  }

  lemma NothingResolves(palette: Palette)
    ensures Items("", true) == Some([]) && Concat(ResolveAll([], palette)) == Render(SanitizedAll([], palette), true)
  {}

  lemma PlainResolves(s: string, palette: Palette)
    requires IndexOf(s, ESC) == |s| && AllPlain(s) && Resolve(s, palette) == s
    ensures Items(s, true).Some?
    ensures Concat(ResolveAll([s], palette)) == Render(SanitizedAll(Items(s, true).value, palette), true)
  {
    hide AllPlain, Resolve;
    ItemsOfPlain(s, |s|, true);
    assert s[..|s|] == s && s[|s|..] == "";
    assert Items("", true) == Some([]);
    assert Chars(s) + [] == Chars(s);
    SanitizedOfChars(s, [], palette);
    RenderChars(s, true);
    assert ResolveAll([s], palette) == [s];
    ConcatOne(s);
  }

  lemma ResolveStep(plain: string, c: Control, text: string, walked: seq<string>, rest: seq<Item>, palette: Palette)
    requires Resolve(plain, palette) == plain && (c.Osc? || Alone(text, c))
    requires Concat(ResolveAll(walked, palette)) == Render(SanitizedAll(rest, palette), true)
    ensures Concat(ResolveAll([plain] + Pushed(c, text, true) + walked, palette))
      == Render(SanitizedAll(Chars(plain) + ([Command(c, text)] + rest), palette), true)
  {
    hide Alone, Resolve, Pushed, Sanitized, Concat, Render, Chars;
    var pushed, item := Pushed(c, text, true), Command(c, text);
    PushedResolves(c, text, palette);
    ResolveAllConcat([plain] + pushed, walked, palette);
    ResolveAllConcat([plain], pushed, palette);
    assert ResolveAll([plain], palette) == [plain];
    ConcatConcat([plain] + ResolveAll(pushed, palette), ResolveAll(walked, palette));
    ConcatConcat([plain], ResolveAll(pushed, palette));
    ConcatOne(plain);
    SanitizedOfChars(plain, [item] + rest, palette);
    assert ([item] + rest)[1..] == rest;
    RenderConcat(Chars(plain), Sanitized(item, palette) + SanitizedAll(rest, palette), true);
    RenderConcat(Sanitized(item, palette), SanitizedAll(rest, palette), true);
    RenderChars(plain, true);
  }

  // ----- Sanitising is a projection

  /**
   Sanitising succeeds exactly when the capture has items and both it and its result fit, and the
   result shows what the capture shows.
   */
  lemma SanitizeIs(text: string)
    ensures var items := Items(text, true); var palette := CapturePalette(text);
      && (Sanitize(text).Ok? <==>
          && items.Some? && Bytes(text) <= MAX_BYTES && Bytes(Render(items.value, true)) <= MAX_BYTES
          && Bytes(Render(SanitizedAll(items.value, palette), true)) <= MAX_BYTES)
      && (Sanitize(text).Ok? ==>
          && Sanitize(text).value == Render(SanitizedAll(items.value, palette), true)
          && Validate(Sanitize(text).value).Ok?
          && Items(Sanitize(text).value, false) == Some(SanitizedAll(items.value, palette))
          && Render(SanitizedAll(items.value, palette), false) == Render(items.value, false))
  {
    hide Walk, Items, Concat, Render, Bytes, SanitizedAll, CapturePalette, ResolveAll, Good, Validate;
    var items, palette := Items(text, true), CapturePalette(text);
    WalkIsItems(text, true, true, 0);
    if items.Some? {
      forall i | 0 <= i < |items.value| ensures Good(items.value[i]) {
        ItemsAreGood(text, true, i);
      }
      SanitizedReads(items.value, palette);
      var r := Render(SanitizedAll(items.value, palette), true);
      ValidateIff(r);
      if WalkAll(text, true, true).Ok? {
        WalkResolves(text, 0, palette);
      }
    }
  }

  lemma {:induction false} NoRecords(s: string, i: nat)
    requires i <= |s| && EscapesAreCommands(s)
    ensures OscFrom(s, i) == |s|
    decreases |s| - i
  {
    if i < |s| {
      NoRecords(s, i + 1);
    }
  }

  lemma NoPalette(s: string)
    requires EscapesAreCommands(s)
    ensures CapturePalette(s) == map[]
  {
    hide ParseRecord;
    NoRecords(s, 0);
  }

  lemma {:induction false} NothingToResolve(items: seq<Item>)
    ensures Render(SanitizedAll(items, map[]), true) == Render(items, true)
  {
    hide ResolvedStyle;
    if items != [] {
      NothingToResolve(items[1..]);
      RenderConcat(Sanitized(items[0], map[]), SanitizedAll(items[1..], map[]), true);
      Unresolved(items[0]);
    }
  }

  lemma Unresolved(item: Item)
    ensures Render(Sanitized(item, map[]), true) == RenderItem(item, true)
  {
    hide Split, ParseNumber, ColorParameters;
    match item
    case Char(_) => RenderOne(item, true);
    case Command(Osc(_), _) =>
    case Command(Gap(_, _), _) => RenderOne(item, true);
    case Command(Style(_), text) => RenderOne(Command(Style(|text|), text), true);
  }

  /** The valid histories are exactly what sanitising leaves as it is. */
  lemma FixedPointsAreValid(text: string)
    ensures Sanitize(text) == Ok(text) <==> Validate(text).Ok?
  {
    hide Items, Render, Bytes, SanitizedAll, CapturePalette, Sanitize, Validate;
    SanitizeIs(text);
    ValidateIff(text);
    if IsValid(text) {
      ValidHasOnlyCommands(text);
      StrippingFindsNothing(text);
      NoPalette(text);
      ItemsAreText(text);
      NothingToResolve(Items(text, false).value);
    }
  }

  /** What sanitising returns is valid and sanitises to itself. */
  lemma SanitizeProjects(text: string)
    requires Sanitize(text).Ok?
    ensures Validate(Sanitize(text).value).Ok? && Sanitize(Sanitize(text).value) == Sanitize(text)
  {
    hide Sanitize, Items, Render, SanitizedAll, CapturePalette, Bytes, Validate;
    SanitizeIs(text);
    FixedPointsAreValid(Sanitize(text).value);
  }

  /** The readable text of a sanitised capture is what the capture shows. */
  lemma SanitizeKeepsShown(text: string)
    requires Sanitize(text).Ok? && PlainText(Sanitize(text).value).Ok?
    ensures Items(text, true).Some? && PlainText(Sanitize(text).value).value == Render(Items(text, true).value, false)
  {
    hide Sanitize, Items, Render, SanitizedAll, CapturePalette, Bytes, Validate, Walk, Concat;
    SanitizeIs(text);
    WalkIsItems(Sanitize(text).value, false, false, 0);
  }
}
