/**
 Unique session names, on the bytes of UTF-8 text. The search for a free suffix ends because distinct
 suffixes give distinct names even after truncation.
 */
module SessionNames {
  import opened Sequences

  type Text = seq<Byte>

  const MAX_BYTES: nat := 256
  const DASH: Byte := 45
  const SLASH: Byte := 47
  const LAST_SUFFIX: nat := 0xFFFF_FFFF_FFFF_FFFF_FFFF_FFFF_FFFF_FFFF

  // ----- Truncation

  /** A place between characters: not before a continuation byte. */
  predicate Boundary(s: Text, i: nat)
    requires i <= |s|
  {
    i == 0 || i == |s| || s[i] < 0x80 || s[i] >= 0xC0
  }

  /** The last boundary up to this place. */
  function BoundaryBefore(s: Text, end: nat): (r: nat)
    requires end <= |s|
    ensures r <= end && Boundary(s, r)
    ensures forall i :: r < i <= end ==> !Boundary(s, i)
  {
    if Boundary(s, end) then end else BoundaryBefore(s, end - 1)
  }

  function TruncatedLength(s: Text, max: nat): (r: nat)
    ensures r <= |s| && r <= max
  {
    BoundaryBefore(s, if |s| < max then |s| else max)
  }

  method Truncate(name: Text, max: nat) returns (r: Text)
    ensures r == name[..TruncatedLength(name, max)]
    ensures |r| <= max && |r| <= |name| && r == name[..|r|] && Boundary(name, |r|)
    ensures forall i :: |r| < i <= |name| && i <= max ==> !Boundary(name, i)
  {
    var end := if |name| < max then |name| else max;
    while !Boundary(name, end)
      invariant 0 <= end <= |name| && TruncatedLength(name, max) == BoundaryBefore(name, end)
      decreases end
    {
      end := end - 1;
    }
    r := name[..end];
  }

  // ----- Suffixes

  function Digits(n: nat): (r: Text)
    ensures |r| > 0 && forall i :: 0 <= i < |r| ==> 48 <= r[i] < 58
  {
    if n < 10 then [48 + n] else Digits(n / 10) + [48 + n % 10]
  }

  function Suffix(n: nat): Text {
    [DASH] + Digits(n)
  }

  function Room(n: nat): nat {
    if |Suffix(n)| <= MAX_BYTES then MAX_BYTES - |Suffix(n)| else 0
  }

  /** The base, cut to leave room, with this suffix. */
  function Named(base: Text, n: nat): Text {
    base[..TruncatedLength(base, Room(n))] + Suffix(n)
  }

  lemma {:induction false} DigitsInjective(n: nat, m: nat)
    requires Digits(n) == Digits(m)
    ensures n == m
    decreases n
  {
    var a, b := Digits(n), Digits(m);
    assert a[|a| - 1] == b[|b| - 1];
    if n >= 10 && m >= 10 {
      assert a[..|a| - 1] == Digits(n / 10) && b[..|b| - 1] == Digits(m / 10);
      DigitsInjective(n / 10, m / 10);
    }
  }

  /** A suffix has its only dash in front. */
  lemma LastDash(p: Text, n: nat)
    ensures var s := p + Suffix(n); |p| < |s| && s[|p|] == DASH && forall i :: |p| < i < |s| ==> s[i] != DASH
  {
    hide Digits;
    var s := p + Suffix(n);
    forall i | |p| < i < |s| ensures s[i] != DASH {
      assert s[i] == Digits(n)[i - |p| - 1];
    }
  }

  /** So the end of a name tells the suffix. */
  lemma SuffixTells(p: Text, q: Text, n: nat, m: nat)
    requires p + Suffix(n) == q + Suffix(m)
    ensures Suffix(n) == Suffix(m)
  {
    hide Suffix;
    LastDash(p, n);
    LastDash(q, m);
    assert |p| == |q|;
    assert (p + Suffix(n))[|p|..] == Suffix(n) && (q + Suffix(m))[|q|..] == Suffix(m);
  }

  /** Distinct suffixes give distinct names. */
  lemma NamedInjective(base: Text, n: nat, m: nat)
    ensures Named(base, n) == Named(base, m) ==> n == m
  {
    hide Suffix, Digits, TruncatedLength;
    if Named(base, n) == Named(base, m) {
      SuffixTells(base[..TruncatedLength(base, Room(n))], base[..TruncatedLength(base, Room(m))], n, m);
      SameDigits(n, m);
      DigitsInjective(n, m);
    }
  }

  lemma SameDigits(n: nat, m: nat)
    requires Suffix(n) == Suffix(m)
    ensures Digits(n) == Digits(m)
  {
    assert Suffix(n)[1..] == Digits(n) && Suffix(m)[1..] == Digits(m);
  }

  function Power(k: nat): nat {
    if k == 0 then 1 else 10 * Power(k - 1)
  }

  lemma {:induction false} DigitsShort(n: nat, k: nat)
    requires k > 0 && n < Power(k)
    ensures |Digits(n)| <= k
    decreases k
  {
    if n >= 10 {
      DigitsShort(n / 10, k - 1);
    }
  }

  lemma SuffixFits(n: nat)
    requires n <= LAST_SUFFIX
    ensures |Suffix(n)| <= MAX_BYTES
  {
    assert Power(5) == 100_000;
    assert Power(10) == 10_000_000_000;
    assert Power(15) == 1_000_000_000_000_000;
    assert Power(20) == 100_000_000_000_000_000_000;
    assert Power(25) == 10_000_000_000_000_000_000_000_000;
    assert Power(30) == 1_000_000_000_000_000_000_000_000_000_000;
    assert Power(35) == 100_000_000_000_000_000_000_000_000_000_000_000;
    assert Power(39) == 1_000_000_000_000_000_000_000_000_000_000_000_000_000;
    DigitsShort(n, 39);
  }

  // ----- Unique names

  /** The last slash, or the end. */
  function LastSlash(s: Text): (r: nat)
    ensures r <= |s|
    ensures r < |s| ==> s[r] == SLASH && SLASH !in s[r + 1..]
    ensures r == |s| <==> SLASH !in s
  {
    if s == [] then 0
    else
      var rest := LastSlash(s[1..]);
      assert s == [s[0]] + s[1..];
      if rest < |s| - 1 then rest + 1
      else if s[0] == SLASH then 0
      else |s|
  }

  function GroupPart(s: Text): Text {
    if LastSlash(s) == |s| then [] else s[..LastSlash(s)]
  }

  function Leaf(s: Text): Text {
    if LastSlash(s) == |s| then s else s[LastSlash(s) + 1..]
  }

  function BaseOf(candidate: Text): Text {
    if GroupPart(candidate) == [] then Leaf(candidate) else candidate
  }

  /**
   A free name: the candidate, or else the base with the first free suffix. There are more 128-bit
   suffixes than names: with as many names as suffixes all could be taken.
   */
  method UniqueSessionName(candidate: Text, existing: set<Text>) returns (name: Text)
    requires |existing| <= LAST_SUFFIX - 2
    ensures name !in existing
    ensures candidate !in existing ==> name == candidate
    ensures candidate in existing ==> |name| <= MAX_BYTES && FirstFree(BaseOf(candidate), existing, name)
  {
    if candidate !in existing {
      return candidate;
    }
    hide Digits, TruncatedLength, Suffix, BaseOf, Named, AllTried, FirstFree;
    var base := BaseOf(candidate);
    var suffix: int := 2;
    ghost var tried: set<Text> := {};
    NoneTried(base);
    while true
      invariant 2 <= suffix && AllTried(base, suffix, tried) && tried <= existing
      decreases |existing| - |tried|
    {
      TriedFit(base, suffix, tried, existing);
      SuffixFits(suffix);
      var tail := Suffix(suffix);
      var short := Truncate(base, if |tail| <= MAX_BYTES then MAX_BYTES - |tail| else 0);
      name := short + tail;
      NamedIs(base, suffix, short);
      if name !in existing {
        FirstFreeIs(base, suffix, tried, existing);
        return name;
      }
      TriedMore(base, suffix, tried);
      tried := tried + {name};
      TriedFit(base, suffix + 1, tried, existing);
      suffix := if suffix < LAST_SUFFIX then suffix + 1 else suffix;
    }
  }

  /** The names with the suffixes from two up to this one, as many as there are suffixes. */
  ghost predicate AllTried(base: Text, suffix: nat, tried: set<Text>) {
    && |tried| == suffix - 2
    && (forall m :: 2 <= m < suffix ==> Named(base, m) in tried)
    && (forall t :: t in tried ==> exists m :: 2 <= m < suffix && t == Named(base, m))
  }

  lemma NoneTried(base: Text)
    ensures AllTried(base, 2, {})
  {}

  lemma TriedMore(base: Text, suffix: nat, tried: set<Text>)
    requires suffix >= 2 && AllTried(base, suffix, tried)
    ensures Named(base, suffix) !in tried && AllTried(base, suffix + 1, tried + {Named(base, suffix)})
  {
    hide Named;
    forall m | 2 <= m < suffix ensures Named(base, m) != Named(base, suffix) {
      NamedInjective(base, suffix, m);
    }
  }

  lemma FirstFreeIs(base: Text, suffix: nat, tried: set<Text>, existing: set<Text>)
    requires suffix >= 2 && AllTried(base, suffix, tried) && tried <= existing
    ensures FirstFree(base, existing, Named(base, suffix))
  {
    hide Named;
  }

  ghost predicate FirstFree(base: Text, existing: set<Text>, name: Text) {
    exists n: nat :: 2 <= n && name == Named(base, n) && forall m :: 2 <= m < n ==> Named(base, m) in existing
  }

  lemma TriedFit(base: Text, suffix: nat, tried: set<Text>, existing: set<Text>)
    requires AllTried(base, suffix, tried) && tried <= existing
    ensures |tried| == suffix - 2 <= |existing|
  {
    hide Named;
    assert existing == tried + (existing - tried);
  }

  lemma NamedIs(base: Text, n: nat, short: Text)
    requires |Suffix(n)| <= MAX_BYTES && short == base[..TruncatedLength(base, MAX_BYTES - |Suffix(n)|)]
    ensures short + Suffix(n) == Named(base, n) && |Named(base, n)| <= MAX_BYTES
  {}

  // ----- Recognising them

  predicate IsDigits(s: Text) {
    s != [] && forall i :: 0 <= i < |s| ==> 48 <= s[i] < 58
  }

  predicate IsUniquified(name: Text, base: Text) {
    || name == base
    || (var group := GroupPart(base);
        var separator := if group == [] then [] else [SLASH];
        && StartsWith(name, group)
        && StartsWith(name[|group|..], separator)
        && (var leaf := name[|group|..][|separator|..];
            && StartsWith(leaf, Leaf(base))
            && StartsWith(leaf[|Leaf(base)|..], [DASH])
            && IsDigits(leaf[|Leaf(base)|..][1..])))
  }

  /** The three prefixes are together the base that suffixes are put to. */
  lemma UniquifiedIs(name: Text, base: Text)
    requires name != base
    ensures IsUniquified(name, base) <==>
      (&& StartsWith(name, BaseOf(base)) && |name| > |BaseOf(base)|
       && name[|BaseOf(base)|] == DASH && IsDigits(name[|BaseOf(base)| + 1..]))
  {
    hide LastSlash, IsDigits, GroupPart, Leaf, BaseOf, StartsWith;
    BaseSplits(base);
    var group, leaf, whole := GroupPart(base), Leaf(base), BaseOf(base);
    var separator := if group == [] then [] else [SLASH];
    assert whole == group + separator + leaf;
    PrefixSplits(name, group, separator, leaf);
    if StartsWith(name, whole) {
      TailAfter(name, group, separator, leaf);
      TailIs(name, whole);
    }
  }

  lemma TailAfter(name: Text, a: Text, b: Text, c: Text)
    requires StartsWith(name, a + b + c)
    ensures name[|a|..][|b|..][|c|..] == name[|a + b + c|..]
  {
    assert name[|a|..][|b|..] == name[|a + b|..];
  }

  lemma BaseSplits(base: Text)
    ensures BaseOf(base) == if GroupPart(base) == [] then Leaf(base) else GroupPart(base) + [SLASH] + Leaf(base)
  {
    if GroupPart(base) != [] {
      var k := LastSlash(base);
      assert base == base[..k] + [base[k]] + base[k + 1..];
    }
  }

  lemma PrefixSplits(name: Text, a: Text, b: Text, c: Text)
    ensures StartsWith(name, a + b + c)
      <==> StartsWith(name, a) && StartsWith(name[|a|..], b) && StartsWith(name[|a|..][|b|..], c)
  {
    if StartsWith(name, a + b + c) {
      var s := a + b + c;
      assert forall i :: 0 <= i < |s| ==> name[i] == s[i];
      assert name[..|a|] == a;
      assert name[|a|..][..|b|] == b;
      assert name[|a|..][|b|..][..|c|] == c;
    }
    if StartsWith(name, a) && StartsWith(name[|a|..], b) && StartsWith(name[|a|..][|b|..], c) {
      assert name == a + (b + (c + name[|a|..][|b|..][|c|..]));
      assert name[..|a + b + c|] == a + b + c;
    }
  }

  lemma TailIs(name: Text, whole: Text)
    requires StartsWith(name, whole)
    ensures StartsWith(name[|whole|..], [DASH]) <==> |name| > |whole| && name[|whole|] == DASH
    ensures |name| > |whole| ==> name[|whole|..][1..] == name[|whole| + 1..]
  {
    if |name| > |whole| {
      assert name[|whole|..][..1] == [name[|whole|]];
    }
  }

  /** A suffixed name other than the candidate itself is recognised exactly when the base was not cut. */
  lemma RecognisedIffWhole(candidate: Text, n: nat)
    requires Named(BaseOf(candidate), n) != candidate
    ensures IsUniquified(Named(BaseOf(candidate), n), candidate) <==> |BaseOf(candidate)| <= Room(n)
  {
    hide BaseOf, IsUniquified, Digits, Room, TruncatedLength, IsDigits;
    var base := BaseOf(candidate);
    var name := Named(base, n);
    var k := TruncatedLength(base, Room(n));
    UniquifiedIs(name, candidate);
    if |base| <= Room(n) {
      WholeIsKept(base, Room(n));
      assert name == base + Suffix(n);
      assert name[|base| + 1..] == Digits(n);
      DigitsAreDigits(n);
    } else if |name| > |base| {
      assert name[|base|] == Suffix(n)[|base| - k] == Digits(n)[|base| - k - 1];
    }
  }

  lemma WholeIsKept(base: Text, max: nat)
    requires |base| <= max
    ensures TruncatedLength(base, max) == |base|
  {}

  lemma DigitsAreDigits(n: nat)
    ensures IsDigits(Digits(n))
  {}
}
