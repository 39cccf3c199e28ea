/**
 The two passes that turn a commented keymap file into text of the same length that a JSON parser
 reads: comments become blanks, and so do trailing commas.

 Text is a sequence of bytes, written as characters. Every character the passes look at is ASCII,
 and a comment character of n bytes becomes n blanks, so working on bytes gives the same text.
 */
module JsoncText {
  import opened Wrappers
  import opened Sequences

  /** Where the comment scanner stands. Slash and BlockStar have seen half of a two-character mark. */
  datatype Mode = Normal | Slash | Line | Block | BlockStar | InString | Escaped

  function NextMode(m: Mode, c: char): Mode {
    match m
    case Normal => if c == '\"' then InString else if c == '/' then Slash else Normal
    case Slash => if c == '/' then Line else if c == '*' then Block else if c == '\"' then InString else Normal
    case Line => if c == '\n' then Normal else Line
    case Block => if c == '*' then BlockStar else Block
    case BlockStar => if c == '/' then Normal else if c == '*' then BlockStar else Block
    case InString => if c == '\\' then Escaped else if c == '\"' then Normal else InString
    case Escaped => InString
  }

  function Run(s: string, m: Mode): Mode {
    if s == [] then m else Run(s[1..], NextMode(m, s[0]))
  }

  function Peek(s: string, after: Option<char>): Option<char> {
    if s == [] then after else Some(s[0])
  }

  predicate OpensComment(next: Option<char>) {
    next == Some('/') || next == Some('*')
  }

  /** What a character becomes, given the one that follows it. */
  function Shown(m: Mode, c: char, next: Option<char>): char {
    match m
    case Normal => if c == '/' && OpensComment(next) then ' ' else c
    case Slash => if c == '/' || c == '*' then ' ' else c
    case Line | Block | BlockStar => if c == '\n' then '\n' else ' '
    case InString | Escaped => c
  }

  /** The text without comments, read from mode m and followed by the character after. */
  function Stripped(s: string, m: Mode, after: Option<char>): (r: string)
    ensures |r| == |s|
  {
    if s == [] then [] else [Shown(m, s[0], Peek(s[1..], after))] + Stripped(s[1..], NextMode(m, s[0]), after)
  }

  predicate InBlock(m: Mode) {
    m == Block || m == BlockStar
  }

  /** The text without comments; None if a block comment does not end. */
  function Strip(s: string): (r: Option<string>)
    ensures r.Some? ==> |r.value| == |s|
  {
    if InBlock(Run(s, Normal)) then None else Some(Stripped(s, Normal, None))
  }

  lemma RunEmpty(s: string)
    ensures Run(s[..0], Normal) == Normal && RunStr(s[..0], Plain) == Plain
  {
  }

  lemma {:induction false} RunConcat(s: string, t: string, m: Mode)
    ensures Run(s + t, m) == Run(t, Run(s, m))
  {
    hide NextMode;
    if s == [] {
      assert s + t == t;
    } else {
      RunConcat(s[1..], t, NextMode(m, s[0]));
      assert (s + t)[1..] == s[1..] + t;
    }
  }

  lemma {:induction false} StrippedConcat(s: string, t: string, m: Mode, after: Option<char>)
    ensures Stripped(s + t, m, after) == Stripped(s, m, Peek(t, after)) + Stripped(t, Run(s, m), after)
  {
    hide Shown, NextMode;
    if s == [] {
      assert s + t == t;
    } else {
      var m' := NextMode(m, s[0]);
      var head := Shown(m, s[0], Peek(s[1..], Peek(t, after)));
      StrippedConcat(s[1..], t, m', after);
      assert (s + t)[1..] == s[1..] + t && (s + t)[0] == s[0];
      assert Peek(s[1..] + t, after) == Peek(s[1..], Peek(t, after));
      assert Stripped(s + t, m, after) == [head] + Stripped(s[1..] + t, m', after);
      assert Stripped(s, m, Peek(t, after)) == [head] + Stripped(s[1..], m', Peek(t, after));
      ConcatAssoc([head], Stripped(s[1..], m', Peek(t, after)), Stripped(t, Run(s[1..], m'), after));
    }
  }

  lemma SplitAround(s: string, i: nat)
    requires i < |s|
    ensures s == s[..i] + ([s[i]] + s[i + 1..]) && s[..i + 1] == s[..i] + [s[i]]
  {
  }

  lemma OneStep(c: char, t: string, m: Mode, after: Option<char>)
    ensures Run([c], m) == NextMode(m, c)
    ensures Stripped([c] + t, m, after) == [Shown(m, c, Peek(t, after))] + Stripped(t, NextMode(m, c), after)
  {
    hide Shown, NextMode;
    assert ([c] + t)[1..] == t;
  }

  lemma StrippedBetween(a: string, c: char, t: string)
    ensures Stripped(a + ([c] + t), Normal, None)[|a|] == Shown(Run(a, Normal), c, Peek(t, None))
    ensures Run(a + [c], Normal) == NextMode(Run(a, Normal), c)
  {
    hide Shown, NextMode, Run, Stripped, Peek;
    StrippedConcat(a, [c] + t, Normal, None);
    RunConcat(a, [c], Normal);
    OneStep(c, t, Run(a, Normal), None);
  }

  /** A character of the result, from the mode before it. */
  lemma StrippedAt(s: string, i: nat)
    requires i < |s|
    ensures Stripped(s, Normal, None)[i] == Shown(Run(s[..i], Normal), s[i], Peek(s[i + 1..], None))
    ensures Run(s[..i + 1], Normal) == NextMode(Run(s[..i], Normal), s[i])
  {
    hide Shown, NextMode, Run, Stripped, Peek;
    SplitAround(s, i);
    StrippedBetween(s[..i], s[i], s[i + 1..]);
  }

  /** The character after a text matters only if the text ends in half a comment mark. */
  lemma {:induction false} AfterIgnored(s: string, m: Mode, a: Option<char>, b: Option<char>)
    requires Run(s, m) != Slash || !(OpensComment(a) || OpensComment(b))
    ensures Stripped(s, m, a) == Stripped(s, m, b)
  {
    if s != [] {
      AfterIgnored(s[1..], NextMode(m, s[0]), a, b);
    }
  }

  /** A slash that opened no comment leaves the scanner as if it had not been there. */
  lemma PlainSlash(t: string, after: Option<char>)
    requires !OpensComment(Peek(t, after))
    ensures Stripped(t, Slash, after) == Stripped(t, Normal, after)
    ensures t != [] ==> Run(t, Slash) == Run(t, Normal)
  {
  }

  /** The scanner as the keymap editor runs it, with one character of lookahead. */
  method StripComments(contents: string) returns (result: Option<string>)
    ensures result == Strip(contents)
  {
    hide Run, Stripped;
    ghost var whole := Stripped(contents, Normal, None);
    var output: string := [];
    var inString, escaped := false, false;
    var i := 0;
    RunEmpty(contents);
    while i < |contents|
      invariant 0 <= i <= |contents| && output == whole[..i]
      invariant inString ==> Run(contents[..i], Normal) == if escaped then Escaped else InString
      invariant !inString ==> !escaped && ReadyAt(contents, i)
      decreases |contents| - i
    {
      StrippedAt(contents, i);
      var character := contents[i];
      if inString {
        output := output + [character];
        inString := escaped || character != '\"';
        escaped := !escaped && character == '\\';
        i := i + 1;
      } else if character != '/' {
        output := output + [character];
        inString := character == '\"';
        i := i + 1;
      } else if i + 1 < |contents| && contents[i + 1] == '/' {
        output, i := SkipLine(contents, output, i);
      } else if i + 1 < |contents| && contents[i + 1] == '*' {
        var closed;
        output, i, closed := SkipBlock(contents, output, i);
        if !closed {
          return None;
        }
      } else {
        output := output + [character];
        i := i + 1;
      }
    }
    assert contents[..i] == contents && whole[..i] == whole;
    result := Some(output);
  }

  /** Blanks a line comment that opens at start, up to and including its newline. */
  method SkipLine(contents: string, before: string, start: nat) returns (output: string, i: nat)
    requires start + 1 < |contents| && before == Stripped(contents, Normal, None)[..start]
    requires ReadyAt(contents, start) && contents[start] == '/' && contents[start + 1] == '/'
    ensures start < i <= |contents| && output == Stripped(contents, Normal, None)[..i] && ReadyAt(contents, i)
  {
    hide Run, Stripped;
    ghost var whole := Stripped(contents, Normal, None);
    StrippedAt(contents, start);
    StrippedAt(contents, start + 1);
    output, i := before + [' ', ' '], start + 2;
    while i < |contents|
      invariant start < i <= |contents| && output == whole[..i] && Run(contents[..i], Normal) == Line
    {
      StrippedAt(contents, i);
      if contents[i] == '\n' {
        return output + ['\n'], i + 1;
      }
      output, i := output + [' '], i + 1;
    }
    assert contents[..i] == contents && whole[..i] == whole;
  }

  /** Blanks a block comment that opens at start; closed tells whether it ends. */
  method SkipBlock(contents: string, before: string, start: nat) returns (output: string, i: nat, closed: bool)
    requires start + 1 < |contents| && before == Stripped(contents, Normal, None)[..start]
    requires ReadyAt(contents, start) && contents[start] == '/' && contents[start + 1] == '*'
    ensures closed ==> start < i <= |contents| && ReadyAt(contents, i)
    ensures closed ==> output == Stripped(contents, Normal, None)[..i]
    ensures !closed ==> InBlock(Run(contents, Normal))
  {
    hide Run, Stripped;
    ghost var whole := Stripped(contents, Normal, None);
    StrippedAt(contents, start);
    StrippedAt(contents, start + 1);
    output, i := before + [' ', ' '], start + 2;
    while i < |contents|
      invariant start < i <= |contents| && output == whole[..i] && BlockAt(contents, i)
    {
      StrippedAt(contents, i);
      if contents[i] == '*' && i + 1 < |contents| && contents[i + 1] == '/' {
        StrippedAt(contents, i + 1);
        return output + [' ', ' '], i + 2, true;
      }
      output := output + [if contents[i] == '\n' then '\n' else ' '];
      i := i + 1;
      assert Peek(contents[i..], None) == if i < |contents| then Some(contents[i]) else None;
    }
    assert contents[..i] == contents;
    closed := false;
  }

  /** Outside strings and comments, or past a line comment that ends the text; a slash just passed opened no comment. */
  ghost predicate ReadyAt(s: string, i: nat)
    requires i <= |s|
  {
    var m := Run(s[..i], Normal);
    m == Normal || (m == Slash && !OpensComment(Peek(s[i..], None))) || (m == Line && i == |s|)
  }

  /** Inside a block comment that the next character does not close. */
  ghost predicate BlockAt(s: string, i: nat)
    requires i <= |s|
  {
    var m := Run(s[..i], Normal);
    m == Block || (m == BlockStar && Peek(s[i..], None) != Some('/'))
  }

  // ----- Trailing commas

  predicate Blank(s: string) {
    forall i :: 0 <= i < |s| ==> IsSpace(s[i])
  }

  /** The string automaton shared by the passes over comment-free text. */
  datatype StrMode = Plain | Str | Esc

  function NextStr(m: StrMode, c: char): StrMode {
    match m
    case Plain => if c == '\"' then Str else Plain
    case Str => if c == '\\' then Esc else if c == '\"' then Plain else Str
    case Esc => Str
  }

  function RunStr(s: string, m: StrMode): StrMode {
    if s == [] then m else RunStr(s[1..], NextStr(m, s[0]))
  }

  /** The first character that is not white space, looking past the end to ahead. */
  function Solid(s: string, ahead: Option<char>): Option<char> {
    if s == [] then ahead else if IsSpace(s[0]) then Solid(s[1..], ahead) else Some(s[0])
  }

  predicate Closer(c: Option<char>) {
    c == Some(']') || c == Some('}')
  }

  /** What a character becomes, given the first solid one after it. */
  function Uncomma(m: StrMode, c: char, next: Option<char>): char {
    if m == Plain && c == ',' && Closer(next) then ' ' else c
  }

  function Commaless(s: string, m: StrMode, ahead: Option<char>): (r: string)
    ensures |r| == |s|
  {
    if s == [] then []
    else [Uncomma(m, s[0], Solid(s[1..], ahead))] + Commaless(s[1..], NextStr(m, s[0]), ahead)
  }

  lemma {:induction false} RunStrConcat(s: string, t: string, m: StrMode)
    ensures RunStr(s + t, m) == RunStr(t, RunStr(s, m))
  {
    hide NextStr;
    if s == [] {
      assert s + t == t;
    } else {
      RunStrConcat(s[1..], t, NextStr(m, s[0]));
      assert (s + t)[1..] == s[1..] + t;
    }
  }

  lemma {:induction false} SolidConcat(s: string, t: string, ahead: Option<char>)
    ensures Solid(s + t, ahead) == Solid(s, Solid(t, ahead))
  {
    hide IsSpace;
    if s == [] {
      assert s + t == t;
    } else {
      SolidConcat(s[1..], t, ahead);
      assert (s + t)[1..] == s[1..] + t;
    }
  }

  lemma {:induction false} CommalessConcat(s: string, t: string, m: StrMode, ahead: Option<char>)
    ensures Commaless(s + t, m, ahead) == Commaless(s, m, Solid(t, ahead)) + Commaless(t, RunStr(s, m), ahead)
  {
    hide Solid, Uncomma, NextStr;
    if s == [] {
      assert s + t == t;
    } else {
      var m' := NextStr(m, s[0]);
      var head := Uncomma(m, s[0], Solid(s[1..], Solid(t, ahead)));
      CommalessConcat(s[1..], t, m', ahead);
      SolidConcat(s[1..], t, ahead);
      assert (s + t)[1..] == s[1..] + t && (s + t)[0] == s[0];
      assert Commaless(s + t, m, ahead) == [head] + Commaless(s[1..] + t, m', ahead);
      assert Commaless(s, m, Solid(t, ahead)) == [head] + Commaless(s[1..], m', Solid(t, ahead));
      ConcatAssoc([head], Commaless(s[1..], m', Solid(t, ahead)), Commaless(t, RunStr(s[1..], m'), ahead));
    }
  }

  lemma OneComma(c: char, t: string, m: StrMode, ahead: Option<char>)
    ensures RunStr([c], m) == NextStr(m, c)
    ensures Commaless([c] + t, m, ahead) == [Uncomma(m, c, Solid(t, ahead))] + Commaless(t, NextStr(m, c), ahead)
  {
    hide Solid, Uncomma, NextStr;
    assert ([c] + t)[1..] == t;
  }

  lemma CommalessBetween(a: string, c: char, t: string)
    ensures Commaless(a + ([c] + t), Plain, None)[|a|] == Uncomma(RunStr(a, Plain), c, Solid(t, None))
    ensures RunStr(a + [c], Plain) == NextStr(RunStr(a, Plain), c)
  {
    hide Solid, Uncomma, NextStr, RunStr, Commaless;
    CommalessConcat(a, [c] + t, Plain, None);
    RunStrConcat(a, [c], Plain);
    OneComma(c, t, RunStr(a, Plain), None);
  }

  /** A character of the result, from the text around it. */
  lemma CommalessAt(s: string, i: nat)
    requires i < |s|
    ensures Commaless(s, Plain, None)[i]
         == if RunStr(s[..i], Plain) == Plain && s[i] == ',' && Closer(Solid(s[i + 1..], None)) then ' ' else s[i]
    ensures RunStr(s[..i + 1], Plain) == NextStr(RunStr(s[..i], Plain), s[i])
  {
    hide Solid, Closer, NextStr, RunStr, Commaless;
    SplitAround(s, i);
    CommalessBetween(s[..i], s[i], s[i + 1..]);
  }

  /** What lies ahead matters to a text only by whether it is a closer. */
  lemma {:induction false} AheadIgnored(s: string, m: StrMode, a: Option<char>, b: Option<char>)
    requires Closer(a) == Closer(b)
    ensures Commaless(s, m, a) == Commaless(s, m, b)
    ensures Closer(Solid(s, a)) == Closer(Solid(s, b))
  {
    if s != [] {
      AheadIgnored(s[1..], NextStr(m, s[0]), a, b);
    }
  }

  method RemoveTrailingCommas(contents: string) returns (output: string)
    ensures output == Commaless(contents, Plain, None)
  {
    hide RunStr, Commaless;
    ghost var whole := Commaless(contents, Plain, None);
    output := [];
    var inString, escaped := false, false;
    var i := 0;
    RunEmpty(contents);
    while i < |contents|
      invariant 0 <= i <= |contents| && output == whole[..i]
      invariant RunStr(contents[..i], Plain) == if !inString then Plain else if escaped then Esc else Str
      invariant !inString ==> !escaped
    {
      CommalessAt(contents, i);
      var character := contents[i];
      i := i + 1;
      if inString {
        output := output + [character];
        if escaped {
          escaped := false;
        } else if character == '\\' {
          escaped := true;
        } else if character == '\"' {
          inString := false;
        }
        continue;
      }
      if character == '\"' {
        inString := true;
      } else if character == ',' && Closer(Solid(contents[i..], None)) {
        output := output + [' '];
        continue;
      }
      output := output + [character];
    }
    assert whole[..i] == whole;
  }

  /** The text a JSON parser reads; None if a block comment does not end. */
  function Sanitize(s: string): (r: Option<string>)
    ensures r.Some? ==> |r.value| == |s|
  {
    match Strip(s)
    case None => None
    case Some(u) => Some(Commaless(u, Plain, None))
  }

  // ----- The passes agree on strings

  function StrOf(m: Mode): StrMode {
    if m == InString then Str else if m == Escaped then Esc else Plain
  }

  lemma ShownKeepsStrings(m: Mode, c: char, next: Option<char>)
    ensures NextStr(StrOf(m), Shown(m, c, next)) == StrOf(NextMode(m, c))
  {
  }

  lemma {:induction false} StrippedKeepsStrings(s: string, m: Mode, after: Option<char>)
    ensures RunStr(Stripped(s, m, after), StrOf(m)) == StrOf(Run(s, m))
  {
    hide Shown, NextMode, NextStr, StrOf;
    if s != [] {
      StrippedKeepsStrings(s[1..], NextMode(m, s[0]), after);
      ShownKeepsStrings(m, s[0], Peek(s[1..], after));
      assert Stripped(s, m, after)[1..] == Stripped(s[1..], NextMode(m, s[0]), after);
    }
  }

  lemma {:induction false} CommalessKeepsStrings(s: string, m: StrMode, ahead: Option<char>)
    ensures RunStr(Commaless(s, m, ahead), m) == RunStr(s, m)
  {
    if s != [] {
      CommalessKeepsStrings(s[1..], NextStr(m, s[0]), ahead);
      assert Commaless(s, m, ahead)[1..] == Commaless(s[1..], NextStr(m, s[0]), ahead);
    }
  }

  lemma StrModeOfStripped(s: string, k: nat)
    requires Strip(s).Some? && k <= |s|
    ensures RunStr(Strip(s).value[..k], Plain) == RunStr(Sanitize(s).value[..k], Plain)
  {
    hide Run, Stripped, Commaless, RunStr, Solid;
    var u, v := Strip(s).value, Sanitize(s).value;
    assert u == u[..k] + u[k..];
    CommalessConcat(u[..k], u[k..], Plain, None);
    assert v[..k] == Commaless(u[..k], Plain, Solid(u[k..], None));
    CommalessKeepsStrings(u[..k], Plain, Solid(u[k..], None));
  }

  lemma StrModeAt(s: string, k: nat)
    requires Strip(s).Some? && k <= |s|
    ensures StrOf(Run(s[..k], Normal)) == RunStr(Sanitize(s).value[..k], Plain)
  {
    hide Run, Stripped, Commaless, RunStr;
    var u := Strip(s).value;
    var v := Sanitize(s).value;
    assert s == s[..k] + s[k..];
    StrippedConcat(s[..k], s[k..], Normal, None);
    assert u[..k] == Stripped(s[..k], Normal, Peek(s[k..], None));
    StrippedKeepsStrings(s[..k], Normal, Peek(s[k..], None));
    assert u == u[..k] + u[k..];
    CommalessConcat(u[..k], u[k..], Plain, None);
    assert v[..k] == Commaless(u[..k], Plain, Solid(u[k..], None));
    CommalessKeepsStrings(u[..k], Plain, Solid(u[k..], None));
  }

  /**
   Sanitising keeps every byte but those of comments, which turn blank, and commas outside strings that
   a closing bracket or brace follows.
   */
  lemma SanitizeKeepsText(s: string, i: nat)
    requires Strip(s).Some? && i < |s|
    ensures Sanitize(s).Some? && |Sanitize(s).value| == |s|
    ensures Sanitize(s).value[i] == s[i] || IsSpace(Sanitize(s).value[i])
    ensures Sanitize(s).value[i] != s[i] ==>
      var m := Run(s[..i], Normal);
      || m == Line || InBlock(m)                                                 // inside a comment
      || (m == Slash && (s[i] == '/' || s[i] == '*'))                            // its second mark
      || (m == Normal && s[i] == '/' && OpensComment(Peek(s[i + 1..], None)))    // its first mark
      || (s[i] == ',' && StrOf(m) == Plain && Closer(Solid(Strip(s).value[i + 1..], None)))   // a trailing comma
  {
    hide Run, Stripped, Commaless, RunStr, Solid, Closer;
    StrippedAt(s, i);
    CommalessAt(Strip(s).value, i);
    StrModeAt(s, i);
    StrModeOfStripped(s, i);
  }
}
