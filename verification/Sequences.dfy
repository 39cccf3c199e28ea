/** Sequences, and the bytes and characters in them: what several modules share. */
module Sequences {
  type Byte = b: int | 0 <= b < 256 witness 0

  /** ASCII white space. */
  predicate IsSpace(c: char) {
    c == ' ' || c == '\t' || c == '\n' || c == '\r' || c == '\U{C}'
  }

  predicate StartsWith<T(==)>(s: seq<T>, prefix: seq<T>) {
    |prefix| <= |s| && s[..|prefix|] == prefix
  }

  predicate Distinct<T(==)>(s: seq<T>) {
    forall i, j :: 0 <= i < j < |s| ==> s[i] != s[j]
  }

  ghost function SetOf<T>(s: seq<T>): set<T> {
    set x | x in s
  }

  function RemoveAt<T>(s: seq<T>, i: nat): (r: seq<T>)
    requires i < |s|
    ensures |r| == |s| - 1
  {
    s[..i] + s[i + 1..]
  }

  lemma RemoveAtCounts<T>(s: seq<T>, i: nat)
    requires i < |s|
    ensures multiset(RemoveAt(s, i)) == multiset(s) - multiset{s[i]}
  {
    assert s == s[..i] + [s[i]] + s[i + 1..];
  }

  lemma ConcatAssoc<T>(a: seq<T>, b: seq<T>, c: seq<T>)
    ensures a + (b + c) == (a + b) + c
  {
  }

  /** The entries of a sequence that are in the set, in order. */
  function Keep<T(==)>(s: seq<T>, kept: set<T>): seq<T> {
    if s == [] then [] else (if s[0] in kept then [s[0]] else []) + Keep(s[1..], kept)
  }

  lemma KeepCons<T>(x: T, s: seq<T>, kept: set<T>)
    ensures Keep([x] + s, kept) == (if x in kept then [x] else []) + Keep(s, kept)
  {
    assert ([x] + s)[1..] == s;
  }

  /** The first place of the character, or the end. */
  function IndexOf(s: string, c: char): (r: nat)
    ensures r <= |s|
    ensures forall k :: 0 <= k < r ==> s[k] != c
    ensures r < |s| ==> s[r] == c
  {
    if s == "" || s[0] == c then 0 else 1 + IndexOf(s[1..], c)
  }

  lemma IndexOfIs(s: string, c: char, r: nat)
    requires r <= |s| && (forall k :: 0 <= k < r ==> s[k] != c) && (r < |s| ==> s[r] == c)
    ensures IndexOf(s, c) == r
  {}
}
