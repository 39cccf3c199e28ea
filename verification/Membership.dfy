/**
 The sessions a Space claims, in sidebar order. Claiming, releasing and moving keep identities
 distinct and every named group in one run; a step is a swap inside a group, or two whole blocks
 that change places.
 */
module Membership {
  import opened Wrappers
  import opened Sequences
  import opened GroupOrder

  function Position(s: seq<Member>, identity: string): (r: Option<nat>)
    ensures r.Some? ==> r.value < |s| && s[r.value].identity == identity
    ensures r.Some? ==> forall i :: 0 <= i < r.value ==> s[i].identity != identity
    ensures r.None? <==> forall i :: 0 <= i < |s| ==> s[i].identity != identity
  {
    if s == [] then None
    else if s[0].identity == identity then Some(0)
    else
      var rest := Position(s[1..], identity);
      if rest.Some? then Some(rest.value + 1) else None
  }

  // ----- Claiming and releasing

  /** The place after the last member of the group among the first n, or the start. */
  function AfterGroup(s: seq<Member>, group: string, n: nat): (r: nat)
    requires n <= |s|
    ensures r <= n
    ensures forall i :: r <= i < n ==> Group(s[i]) != group
    ensures r == 0 || Group(s[r - 1]) == group
  {
    hide Group;
    if n == 0 || Group(s[n - 1]) == group then n else AfterGroup(s, group, n - 1)
  }

  function ClaimAt(s: seq<Member>, m: Member): (r: nat)
    ensures r <= |s|
  {
    var after := AfterGroup(s, Group(m), |s|);
    if Group(m) == "" || after == 0 then |s| else after
  }

  function Claim(s: seq<Member>, m: Member): Option<seq<Member>> {
    if m.identity == "" || Position(s, m.identity).Some? then None
    else Some(s[..ClaimAt(s, m)] + [m] + s[ClaimAt(s, m)..])
  }

  function Release(s: seq<Member>, identity: string): Option<seq<Member>> {
    match Position(s, identity)
    case None => None
    case Some(i) => Some(RemoveAt(s, i))
  }

  // ----- Blocks

  ghost predicate AllIn(s: seq<Member>, group: string, from: nat, to: nat)
    requires from <= to <= |s|
  {
    forall j :: from <= j < to ==> Group(s[j]) == group
  }

  lemma AllInNone(s: seq<Member>, group: string, i: nat)
    requires i <= |s|
    ensures AllIn(s, group, i, i)
  {}

  lemma AllInMore(s: seq<Member>, group: string, from: nat, i: nat)
    requires from <= i < |s| && AllIn(s, group, from, i) && Group(s[i]) == group
    ensures AllIn(s, group, from, i + 1)
  {
    hide Group;
  }

  function StartOf(s: seq<Member>, group: string, i: nat): (r: nat)
    requires i <= |s|
    ensures r <= i && AllIn(s, group, r, i) && (r == 0 || Group(s[r - 1]) != group)
  {
    hide Group, AllIn;
    AllInNone(s, group, i);
    if i > 0 && Group(s[i - 1]) == group then
      var r := StartOf(s, group, i - 1);
      AllInMore(s, group, r, i - 1);
      r
    else i
  }

  function EndOf(s: seq<Member>, group: string, i: nat): (r: nat)
    requires i <= |s|
    ensures i <= r <= |s| && AllIn(s, group, i, r) && (r == |s| || Group(s[r]) != group)
    decreases |s| - i
  {
    hide Group;
    if i < |s| && Group(s[i]) == group then EndOf(s, group, i + 1) else i
  }

  datatype Span = Span(start: nat, end: nat)

  /** A group's run around this place, or the one ungrouped session there. */
  function BlockOf(s: seq<Member>, i: nat): (r: Span)
    requires i < |s|
    ensures r.start <= i < r.end <= |s|
  {
    var group := Group(s[i]);
    if group == "" then Span(i, i + 1) else Span(StartOf(s, group, i), EndOf(s, group, i))
  }

  // ----- Moving

  function MoveBlock(s: seq<Member>, from: nat, anchor: Option<nat>): Option<seq<Member>>
    requires from < |s| && (anchor.Some? ==> anchor.value < |s|)
  {
    var block := BlockOf(s, from);
    var at := if anchor.Some? then BlockOf(s, anchor.value).start else |s|;
    if block.start <= at <= block.end then None
    else if at > block.end then Some(Exchange(s, block.start, block.end, at))
    else Some(Exchange(s, at, block.start, block.end))
  }

  function MoveWithin(s: seq<Member>, from: nat, to: nat): Option<seq<Member>>
    requires from < |s| && to < |s|
  {
    if to == from || to == from + 1 then None
    else if to > from then Some(Exchange(s, from, from + 1, to))
    else Some(Exchange(s, to, from, from + 1))
  }

  function MoveBefore(s: seq<Member>, source: string, before: Option<string>): Option<seq<Member>> {
    var from := Position(s, source);
    var anchor := if before.Some? then Position(s, before.value) else None;
    if from.None? || (before.Some? && anchor.None?) then None
    else if Group(s[from.value]) != "" && anchor.Some? && Group(s[anchor.value]) == Group(s[from.value]) then
      MoveWithin(s, from.value, anchor.value)
    else MoveBlock(s, from.value, anchor)
  }

  function BlockEnd(s: seq<Member>, i: nat): (r: Option<nat>)
    requires i < |s|
    ensures r.Some? ==> r.value < |s|
  {
    if BlockOf(s, i).end < |s| then Some(BlockOf(s, i).end) else None
  }

  function MoveBy(s: seq<Member>, identity: string, delta: int): Option<seq<Member>> {
    var from := Position(s, identity);
    if delta == 0 || from.None? then None
    else
      var neighbour := if delta < 0 then from.value - 1 else from.value + 1;
      if neighbour < 0 || neighbour >= |s| then None
      else if Group(s[from.value]) != "" && Group(s[neighbour]) == Group(s[from.value]) then
        Some(s[from.value := s[neighbour]][neighbour := s[from.value]])
      else
        MoveBlock(s, from.value, if delta < 0 then Some(BlockOf(s, neighbour).start) else BlockEnd(s, neighbour))
  }

  // ----- Blocks of a contiguous list

  /** A whole group, or one ungrouped session. */
  ghost predicate IsBlock(s: seq<Member>, a: nat, b: nat) {
    && a < b <= |s| && Cut(s, a) && Cut(s, b)
    && (if Group(s[a]) == "" then b == a + 1 else forall i :: a <= i < b ==> Group(s[i]) == Group(s[a]))
  }

  lemma CutAtChange(s: seq<Member>, at: nat)
    requires Contiguous(s) && at <= |s|
    requires at == 0 || at == |s| || Group(s[at - 1]) == "" || Group(s[at - 1]) != Group(s[at])
    ensures Cut(s, at)
  {
    hide Group;
    forall j, k | 0 <= j < at <= k < |s| && Group(s[j]) != "" ensures Group(s[j]) != Group(s[k]) {
      NoGroupAcross(s, at, j, k);
    }
  }

  lemma NoGroupAcross(s: seq<Member>, at: nat, j: int, k: int)
    requires Contiguous(s) && 0 <= j < at <= k < |s| && Group(s[j]) != ""
    requires Group(s[at - 1]) == "" || Group(s[at - 1]) != Group(s[at])
    ensures Group(s[j]) != Group(s[k])
  {
    hide Group;
  }

  lemma CutSeparates(s: seq<Member>, at: nat)
    requires 0 < at < |s| && Cut(s, at)
    ensures Group(s[at]) == "" || Group(s[at - 1]) != Group(s[at])
  {
    hide Group;
    assert s[..at][at - 1] == s[at - 1] && s[at..][0] == s[at];
  }

  lemma BlockIsBlock(s: seq<Member>, i: nat)
    requires Contiguous(s) && i < |s|
    ensures IsBlock(s, BlockOf(s, i).start, BlockOf(s, i).end)
  {
    hide Group, Contiguous, Cut;
    var block := BlockOf(s, i);
    if Group(s[i]) == "" {
      CutAtChange(s, i);
      CutAtChange(s, i + 1);
    } else {
      CutAtChange(s, block.start);
      CutAtChange(s, block.end);
    }
  }

  /** The block found at a cut starts there. */
  lemma BlockAtCut(s: seq<Member>, at: nat)
    requires at < |s| && Cut(s, at)
    ensures BlockOf(s, at).start == at
  {
    hide Group, Cut;
    if at > 0 {
      CutSeparates(s, at);
    }
  }

  // ----- What the moves are

  /** An exchange of neighbouring parts that keeps the order sound. */
  ghost predicate Rearranges(s: seq<Member>, t: seq<Member>) {
    multiset(t) == multiset(s) && DistinctIds(t) && Contiguous(t)
  }

  lemma MoveBlockRearranges(s: seq<Member>, from: nat, anchor: Option<nat>)
    requires from < |s| && (anchor.Some? ==> anchor.value < |s|)
    requires DistinctIds(s) && Contiguous(s) && MoveBlock(s, from, anchor).Some?
    ensures Rearranges(s, MoveBlock(s, from, anchor).value)
  {
    hide Contiguous, DistinctIds, Cut, BlockOf, Exchange, Group;
    var block := BlockOf(s, from);
    var at := if anchor.Some? then BlockOf(s, anchor.value).start else |s|;
    BlockIsBlock(s, from);
    if anchor.Some? {
      BlockIsBlock(s, anchor.value);
    } else {
      CutAtChange(s, |s|);
    }
    var a, b, c := if at > block.end then block.start else at, if at > block.end then block.end else block.start,
      if at > block.end then at else block.end;
    ExchangePermutes(s, a, b, c);
    ExchangeKeepsDistinct(s, a, b, c);
    ExchangeKeepsContiguous(s, a, b, c);
  }

  /** An exchange inside one group leaves the groups in every place as they were. */
  lemma ExchangeWithinGroup(s: seq<Member>, a: nat, b: nat, c: nat)
    requires a <= b <= c <= |s| && Contiguous(s)
    requires forall i, j :: a <= i < c && a <= j < c ==> Group(s[i]) == Group(s[j])
    ensures Contiguous(Exchange(s, a, b, c))
  {
    hide Group;
    var t := Exchange(s, a, b, c);
    forall i | 0 <= i < |t| ensures Group(t[i]) == Group(s[i]) {
      ExchangeAt(s, a, b, c, i);
    }
  }

  lemma ExchangeAt(s: seq<Member>, a: nat, b: nat, c: nat, i: nat)
    requires a <= b <= c <= |s| && i < |s|
    ensures |Exchange(s, a, b, c)| == |s|
    ensures Exchange(s, a, b, c)[i] == if i < a
      || i >= c then s[i] else if i < a + (c - b) then s[b + (i - a)] else s[i - (c - b)]
  {}

  lemma GroupBetween(s: seq<Member>, x: nat, y: nat)
    requires Contiguous(s) && x <= y < |s| && Group(s[x]) != "" && Group(s[x]) == Group(s[y])
    ensures forall i :: x <= i <= y ==> Group(s[i]) == Group(s[x])
  {
    hide Group;
  }

  lemma MoveWithinRearranges(s: seq<Member>, from: nat, to: nat)
    requires from < |s| && to < |s| && DistinctIds(s) && Contiguous(s)
    requires Group(s[from]) != "" && Group(s[from]) == Group(s[to]) && MoveWithin(s, from, to).Some?
    ensures Rearranges(s, MoveWithin(s, from, to).value)
  {
    hide Contiguous, DistinctIds, Exchange, Group;
    var a := if to > from then from else to;
    var b := if to > from then from + 1 else from;
    var c := if to > from then to else from + 1;
    GroupBetween(s, if from < to then from else to, if from < to then to else from);
    ExchangePermutes(s, a, b, c);
    ExchangeKeepsDistinct(s, a, b, c);
    ExchangeWithinGroup(s, a, b, c);
  }

  lemma MoveBeforeRearranges(s: seq<Member>, source: string, before: Option<string>)
    requires DistinctIds(s) && Contiguous(s) && MoveBefore(s, source, before).Some?
    ensures Rearranges(s, MoveBefore(s, source, before).value)
  {
    hide Contiguous, DistinctIds, Group, MoveWithin, MoveBlock, Rearranges;
    var from := Position(s, source).value;
    var anchor := if before.Some? then Position(s, before.value) else None;
    if Group(s[from]) != "" && anchor.Some? && Group(s[anchor.value]) == Group(s[from]) {
      MoveWithinRearranges(s, from, anchor.value);
    } else {
      MoveBlockRearranges(s, from, anchor);
    }
  }

  /** What is to move is already where it should go. */
  ghost predicate InPlace(s: seq<Member>, from: nat, to: Option<nat>)
    requires from < |s| && (to.Some? ==> to.value < |s|)
  {
    match to
    case None => BlockOf(s, from).end == |s|
    case Some(i) =>
      || i == from
      || (if Group(s[from]) != "" && Group(s[i]) == Group(s[from]) then i == from + 1
          else BlockOf(s, i).start == BlockOf(s, from).end)
  }

  /** A block that starts inside another one is that block. */
  lemma BlockInside(s: seq<Member>, from: nat, i: nat)
    requires from < |s| && i < |s| && BlockOf(s, from).start <= BlockOf(s, i).start < BlockOf(s, from).end
    ensures i == from || (Group(s[from]) != "" && Group(s[i]) == Group(s[from]))
  {
    hide Group;
    StartIsMember(s, i);
    StartIsMember(s, from);
    var a := BlockOf(s, i).start;
    assert Group(s[a]) == Group(s[i]) && Group(s[a]) == Group(s[from]);
  }

  /** The members of a block have one group. */
  lemma StartIsMember(s: seq<Member>, i: nat)
    requires i < |s|
    ensures forall k :: BlockOf(s, i).start <= k < BlockOf(s, i).end ==> Group(s[k]) == Group(s[i])
    ensures Group(s[i]) == "" ==> BlockOf(s, i) == Span(i, i + 1)
  {
    hide Group;
  }

  /** A move before a session fails exactly when one of the two is missing, or what is to move is already in place. */
  lemma MoveBeforeFailsIff(s: seq<Member>, source: string, before: Option<string>)
    ensures var from := Position(s, source); var to := if before.Some? then Position(s, before.value) else None;
      MoveBefore(s, source, before).None?
      <==> from.None? || (before.Some? && to.None?) || InPlace(s, from.value, to)
  {
    hide MoveWithin, MoveBlock, InPlace, Group;
    var from := Position(s, source);
    var to := if before.Some? then Position(s, before.value) else None;
    if from.Some? && (before.Some? ==> to.Some?) {
      MoveFailsIff(s, from.value, to);
    }
  }

  lemma MoveFailsIff(s: seq<Member>, from: nat, to: Option<nat>)
    requires from < |s| && (to.Some? ==> to.value < |s|)
    ensures InPlace(s, from, to) <==>
      if Group(s[from]) != "" && to.Some? && Group(s[to.value]) == Group(s[from])
      then MoveWithin(s, from, to.value).None?
      else MoveBlock(s, from, to).None?
  {
    hide Group, BlockOf, Exchange;
    if to.Some? {
      var block, at := BlockOf(s, from), BlockOf(s, to.value).start;
      if block.start <= at < block.end {
        BlockInside(s, from, to.value);
      }
    }
  }

  /** The part stands at this place, and the member right after it. */
  ghost predicate FollowedBy(t: seq<Member>, p: nat, part: seq<Member>, m: Member) {
    p + |part| < |t| && t[p..p + |part|] == part && t[p + |part|] == m
  }

  lemma MoveWithinPlaces(s: seq<Member>, from: nat, to: nat) returns (p: nat)
    requires from < |s| && to < |s| && MoveWithin(s, from, to).Some?
    ensures 0 < p < |s| && var t := MoveWithin(s, from, to).value; |t| == |s| && t[p - 1] == s[from] && t[p] == s[to]
  {
    hide Exchange;
    if to > from {
      p := to;
      ExchangeAt(s, from, from + 1, to, p);
      ExchangeAt(s, from, from + 1, to, p - 1);
    } else {
      p := to + 1;
      ExchangeAt(s, to, from, from + 1, p);
      ExchangeAt(s, to, from, from + 1, p - 1);
    }
  }

  lemma MoveBlockPlaces(s: seq<Member>, from: nat, to: nat) returns (p: nat)
    requires from < |s| && to < |s| && MoveBlock(s, from, Some(to)).Some?
    ensures FollowedBy(MoveBlock(s, from, Some(to)).value, p, s[BlockOf(s, from).start..BlockOf(s, from).end],
      s[BlockOf(s, to).start])
  {
    hide Group, StartOf, EndOf, BlockOf;
    var block, at := BlockOf(s, from), BlockOf(s, to).start;
    p := if at > block.end then at - (block.end - block.start) else at;
    if at > block.end {
      ExchangeLands(s, block.start, block.end, at);
    } else {
      ExchangeLifts(s, at, block.start, block.end);
    }
  }

  lemma ExchangeLands(s: seq<Member>, a: nat, b: nat, c: nat)
    requires a <= b <= c < |s|
    ensures FollowedBy(Exchange(s, a, b, c), c - (b - a), s[a..b], s[c])
  {
    assert Exchange(s, a, b, c) == s[..a] + s[b..c] + (s[a..b] + s[c..]);
  }

  lemma ExchangeLifts(s: seq<Member>, a: nat, b: nat, c: nat)
    requires a < b <= c <= |s|
    ensures FollowedBy(Exchange(s, a, b, c), a, s[b..c], s[a])
  {
    assert Exchange(s, a, b, c) == s[..a] + (s[b..c] + (s[a..b] + s[c..]));
  }

  /** Where the moved session or block ends up: right before the anchor, or the anchor's block, or at the end. */
  lemma MoveBeforePlaces(s: seq<Member>, source: string, before: Option<string>)
    requires MoveBefore(s, source, before).Some?
    ensures var t := MoveBefore(s, source, before).value; var from := Position(s, source).value;
      if before.None? then
        t == s[..BlockOf(s, from).start] + s[BlockOf(s, from).end..] + s[BlockOf(s, from).start..BlockOf(s, from).end]
      else
        var to := Position(s, before.value).value;
        if Group(s[from]) != "" && Group(s[to]) == Group(s[from]) then
          exists p :: 0 < p < |t| && t[p - 1] == s[from] && t[p] == s[to]
        else
          exists p :: 0 <= p
            && FollowedBy(t, p, s[BlockOf(s, from).start..BlockOf(s, from).end], s[BlockOf(s, to).start])
  {
    hide Group, BlockOf, MoveWithin, FollowedBy;
    var from := Position(s, source).value;
    if before.Some? {
      var to := Position(s, before.value).value;
      if Group(s[from]) != "" && Group(s[to]) == Group(s[from]) {
        var p := MoveWithinPlaces(s, from, to);
      } else {
        var p := MoveBlockPlaces(s, from, to);
      }
    } else {
      MoveToEnd(s, from);
    }
  }

  lemma MoveToEnd(s: seq<Member>, from: nat)
    requires from < |s| && MoveBlock(s, from, None).Some?
    ensures MoveBlock(s, from, None).value
      == s[..BlockOf(s, from).start] + s[BlockOf(s, from).end..] + s[BlockOf(s, from).start..BlockOf(s, from).end]
  {
    hide Group, BlockOf;
    var block := BlockOf(s, from);
    assert s[block.end..|s|] == s[block.end..];
    assert s[|s|..] == [];
  }

  // ----- A step

  /** What a step does: two members of a group change places, or two neighbouring blocks do. */
  ghost predicate StepsOnce(s: seq<Member>, t: seq<Member>) {
    || (exists i :: 0 <= i < |s| - 1 && Group(s[i]) != "" && Group(s[i]) == Group(s[i + 1])
         && t == s[i := s[i + 1]][i + 1 := s[i]])
    || (exists a: nat, b: nat, c: nat :: a < b < c <= |s| && IsBlock(s, a, b) && IsBlock(s, b, c)
         && t == Exchange(s, a, b, c))
  }

  /**
   The step of the session at this place: up past its neighbour in the group or the block above, or
   down past the one below.
   */
  ghost predicate StepsFrom(s: seq<Member>, t: seq<Member>, from: nat, up: bool)
    requires from < |s|
  {
    var block := BlockOf(s, from);
    if up then
      || (from > 0 && Group(s[from]) != "" && Group(s[from - 1]) == Group(s[from])
         && t == s[from - 1 := s[from]][from := s[from - 1]])
      || (exists a: nat :: a < block.start && IsBlock(s, a, block.start) && IsBlock(s, block.start, block.end)
           && t == Exchange(s, a, block.start, block.end))
    else
      || (from + 1 < |s| && Group(s[from]) != "" && Group(s[from + 1]) == Group(s[from])
         && t == s[from := s[from + 1]][from + 1 := s[from]])
      || (exists c: nat :: block.end < c <= |s| && IsBlock(s, block.start, block.end) && IsBlock(s, block.end, c)
           && t == Exchange(s, block.start, block.end, c))
  }

  lemma StepIsOnce(s: seq<Member>, t: seq<Member>, from: nat, up: bool)
    requires from < |s| && StepsFrom(s, t, from, up)
    ensures StepsOnce(s, t)
  {
    hide Group, BlockOf, IsBlock, Exchange;
    if up && from > 0 && Group(s[from - 1]) == Group(s[from]) && t == s[from - 1 := s[from]][from := s[from - 1]] {
      assert Group(s[from]) != "" ==> StepsOnce(s, t) by {
        var i := from - 1;
        assert t == s[i := s[i + 1]][i + 1 := s[i]];
      }
    }
  }

  lemma NeighbourBlocks(s: seq<Member>, i: nat)
    requires Contiguous(s) && i + 1 < |s| && (Group(s[i]) == "" || Group(s[i]) != Group(s[i + 1]))
    ensures BlockOf(s, i).end == i + 1 == BlockOf(s, i + 1).start
    ensures IsBlock(s, BlockOf(s, i).start, i + 1) && IsBlock(s, i + 1, BlockOf(s, i + 1).end)
  {
    hide Contiguous, Cut, Group;
    BlockIsBlock(s, i);
    BlockIsBlock(s, i + 1);
  }

  lemma StepUp(s: seq<Member>, from: nat)
    requires Contiguous(s) && 0 < from < |s| && (Group(s[from]) == "" || Group(s[from - 1]) != Group(s[from]))
    ensures var r := MoveBlock(s, from, Some(BlockOf(s, from - 1).start)); r.Some? && StepsFrom(s, r.value, from, true)
  {
    hide Contiguous, Cut, BlockOf, Exchange, Group;
    assert Group(s[from - 1]) == "" || Group(s[from - 1]) != Group(s[from]);
    NeighbourBlocks(s, from - 1);
    var c := BlockOf(s, from - 1).start;
    BlockAtCut(s, c);
  }

  lemma StepDown(s: seq<Member>, from: nat)
    requires Contiguous(s) && from + 1 < |s| && (Group(s[from]) == "" || Group(s[from + 1]) != Group(s[from]))
    ensures var r := MoveBlock(s, from, BlockEnd(s, from + 1)); r.Some? && StepsFrom(s, r.value, from, false)
  {
    hide Contiguous, Cut, BlockOf, Exchange, Group;
    NeighbourBlocks(s, from);
    var d := BlockOf(s, from + 1).end;
    if d < |s| {
      BlockAtCut(s, d);
    }
  }

  /**
   A step succeeds exactly when there is a session to move and a place to move it to. It then goes one
   place up or down, as asked: past its neighbour in the group, or with its whole block past the next block.
   */
  lemma MoveBySteps(s: seq<Member>, identity: string, delta: int)
    requires Contiguous(s)
    ensures MoveBy(s, identity, delta).None? <==>
      delta == 0 || Position(s, identity).None? || (delta < 0 && Position(s, identity).value == 0)
      || (delta > 0 && Position(s, identity).value + 1 == |s|)
    ensures MoveBy(s, identity, delta).Some?
      ==> StepsFrom(s, MoveBy(s, identity, delta).value, Position(s, identity).value, delta < 0)
  {
    hide Contiguous, Cut, BlockOf, Exchange, Group, MoveBlock, IsBlock, BlockEnd;
    var from := Position(s, identity);
    if delta != 0 && from.Some? {
      var i: int := from.value;
      var neighbour: int := if delta < 0 then i - 1 else i + 1;
      if 0 <= neighbour < |s| {
        if Group(s[i]) != "" && Group(s[neighbour]) == Group(s[i]) {
          if delta < 0 {
            assert s[i := s[i - 1]][i - 1 := s[i]] == s[i - 1 := s[i]][i := s[i - 1]];
          }
        } else if delta < 0 {
          StepUp(s, i);
        } else {
          StepDown(s, i);
        }
      }
    }
  }

  lemma SwapIsExchange(s: seq<Member>, i: nat)
    requires i + 1 < |s|
    ensures s[i := s[i + 1]][i + 1 := s[i]] == Exchange(s, i, i + 1, i + 2)
  {}

  lemma StepRearranges(s: seq<Member>, t: seq<Member>)
    requires DistinctIds(s) && Contiguous(s) && StepsOnce(s, t)
    ensures Rearranges(s, t)
  {
    hide Contiguous, DistinctIds, Cut, Exchange, Group;
    if i :| 0 <= i < |s| - 1 && Group(s[i]) != "" && Group(s[i]) == Group(s[i + 1])
          && t == s[i := s[i + 1]][i + 1 := s[i]] {
      SwapIsExchange(s, i);
      ExchangePermutes(s, i, i + 1, i + 2);
      ExchangeKeepsDistinct(s, i, i + 1, i + 2);
      ExchangeWithinGroup(s, i, i + 1, i + 2);
    } else {
      var a: nat, b: nat, c: nat :| a < b < c <= |s| && IsBlock(s, a, b) && IsBlock(s, b, c)
        && t == Exchange(s, a, b, c);
      ExchangePermutes(s, a, b, c);
      ExchangeKeepsDistinct(s, a, b, c);
      ExchangeKeepsContiguous(s, a, b, c);
    }
  }

  // ----- Claiming and releasing keep the order sound

  lemma ClaimPlace(s: seq<Member>, m: Member)
    requires Contiguous(s)
    ensures Cut(s, ClaimAt(s, m))
    ensures forall i :: ClaimAt(s, m) <= i < |s| ==> Group(s[i]) != Group(m)
    ensures Group(m) != "" && (exists i :: 0 <= i < |s| && Group(s[i]) == Group(m)) ==>
      ClaimAt(s, m) > 0 && Group(s[ClaimAt(s, m) - 1]) == Group(m)
    ensures ClaimAt(s, m) < |s| ==> ClaimAt(s, m) > 0 && Group(s[ClaimAt(s, m) - 1]) == Group(m)
    ensures ClaimAt(s, m) == |s| && (|s| == 0 || Group(s[|s| - 1]) != Group(m)) ==>
      Group(m) == "" || forall i :: 0 <= i < |s| ==> Group(s[i]) != Group(m)
  {
    hide Group, Contiguous, Cut;
    CutAtChange(s, ClaimAt(s, m));
  }

  /** A member joins at the end of a list: next to its group, or as the first of it. */
  lemma ContiguousPush(left: seq<Member>, m: Member)
    requires Contiguous(left)
    requires Group(m) == "" || (left != [] && Group(left[|left| - 1]) == Group(m)) || forall i :: 0 <= i < |left|
                                                                                       ==> Group(left[i]) != Group(m)
    ensures Contiguous(left + [m])
  {
    hide Group;
    var s := left + [m];
    forall i, j, k | 0 <= i < j < k < |s| && Group(s[i]) != "" && Group(s[i]) == Group(s[k])
      ensures Group(s[j]) == Group(s[i])
    {
      if k < |left| {
        assert s[k] == left[k] && s[i] == left[i] && s[j] == left[j];
      } else {
        assert s[i] == left[i] && s[j] == left[j] && s[k] == m;
        assert i < |left| - 1 && Group(left[|left| - 1]) == Group(left[i]);
      }
    }
  }

  /** A claimed session joins its group, and nothing else moves. */
  lemma ClaimKeepsOrder(s: seq<Member>, m: Member)
    requires DistinctIds(s) && Contiguous(s) && Claim(s, m).Some?
    ensures DistinctIds(Claim(s, m).value) && Contiguous(Claim(s, m).value)
    ensures multiset(Claim(s, m).value) == multiset(s) + multiset{m}
    ensures Group(m) != "" && (exists i :: 0 <= i < |s| && Group(s[i]) == Group(m)) ==>
      ClaimAt(s, m) > 0 && Group(s[ClaimAt(s, m) - 1]) == Group(m)
  {
    hide Group, Contiguous, DistinctIds, Apart, ClaimAt;
    var at := ClaimAt(s, m);
    var left, right := s[..at], s[at..];
    assert s == left + right;
    ClaimPlace(s, m);
    ContiguousSlice(s, 0, at);
    ContiguousSlice(s, at, |s|);
    assert s[0..at] == left && s[at..|s|] == right;
    assert at == |s| ==> left == s;
    ContiguousPush(left, m);
    ApartFromClaimed(s, m, at);
    ContiguousConcat(left + [m], right);
    InsertKeepsDistinct(s, m, at);
  }

  lemma ApartFromClaimed(s: seq<Member>, m: Member, at: nat)
    requires at <= |s| && Cut(s, at) && forall i :: at <= i < |s| ==> Group(s[i]) != Group(m)
    ensures Apart(s[..at] + [m], s[at..])
  {
    hide Group;
    ApartConcat(s[..at], [m], s[at..]);
  }

  lemma InsertKeepsDistinct(s: seq<Member>, m: Member, at: nat)
    requires DistinctIds(s) && at <= |s| && forall i :: 0 <= i < |s| ==> s[i].identity != m.identity
    ensures DistinctIds(s[..at] + [m] + s[at..])
  {
    var t := s[..at] + [m] + s[at..];
    assert forall i :: 0 <= i < at ==> t[i] == s[i];
    assert t[at] == m;
    assert forall i :: at < i < |t| ==> t[i] == s[i - 1];
  }

  lemma RemovedEntries(s: seq<Member>, p: nat)
    requires p < |s|
    ensures forall i :: 0 <= i < |s| - 1 ==> RemoveAt(s, p)[i] == s[if i < p then i else i + 1]
  {}

  lemma RemoveKeepsDistinct(s: seq<Member>, p: nat)
    requires DistinctIds(s) && p < |s|
    ensures DistinctIds(RemoveAt(s, p))
    ensures forall m :: m in RemoveAt(s, p) ==> m.identity != s[p].identity
  {
    RemovedEntries(s, p);
  }

  lemma RemoveKeepsContiguous(s: seq<Member>, p: nat)
    requires Contiguous(s) && p < |s|
    ensures Contiguous(RemoveAt(s, p))
  {
    hide Group;
    var t := RemoveAt(s, p);
    RemovedEntries(s, p);
    forall i, j, k | 0 <= i < j < k < |t| && Group(t[i]) != "" && Group(t[i]) == Group(t[k])
      ensures Group(t[j]) == Group(t[i])
    {
      var x, y, z := if i < p then i else i + 1, if j < p then j else j + 1, if k < p then k else k + 1;
      assert t[i] == s[x] && t[j] == s[y] && t[k] == s[z];
    }
  }

  /** A released session leaves, and nothing else moves. */
  lemma ReleaseKeepsOrder(s: seq<Member>, identity: string)
    requires DistinctIds(s) && Contiguous(s) && Release(s, identity).Some?
    ensures var t := Release(s, identity).value; var m := s[Position(s, identity).value];
      DistinctIds(t) && Contiguous(t) && multiset(s) == multiset(t) + multiset{m} && Position(t, identity).None?
  {
    hide Group, Contiguous, DistinctIds, Position;
    var p := Position(s, identity).value;
    RemoveAtCounts(s, p);
    assert s[p] in multiset(s);
    RemoveKeepsDistinct(s, p);
    RemoveKeepsContiguous(s, p);
  }

  // ----- Runs of edits

  datatype Edit =
    | DoClaim(m: Member)
    | DoRelease(identity: string)
    | DoMoveBefore(source: string, before: Option<string>)
    | DoMoveBy(identity: string, delta: int)

  function Try(s: seq<Member>, edit: Edit): Option<seq<Member>> {
    match edit
    case DoClaim(m) => Claim(s, m)
    case DoRelease(identity) => Release(s, identity)
    case DoMoveBefore(source, before) => MoveBefore(s, source, before)
    case DoMoveBy(identity, delta) => MoveBy(s, identity, delta)
  }

  function Apply(s: seq<Member>, edit: Edit): seq<Member> {
    if Try(s, edit).Some? then Try(s, edit).value else s
  }

  function Run(s: seq<Member>, edits: seq<Edit>): seq<Member>
    decreases |edits|
  {
    if edits == [] then s else Run(Apply(s, edits[0]), edits[1..])
  }

  lemma ApplyKeepsOrder(s: seq<Member>, edit: Edit)
    requires DistinctIds(s) && Contiguous(s)
    ensures DistinctIds(Apply(s, edit)) && Contiguous(Apply(s, edit))
    ensures (edit.DoMoveBefore? || edit.DoMoveBy?) ==> multiset(Apply(s, edit)) == multiset(s)
  {
    hide DistinctIds, Contiguous, Claim, Release, MoveBefore, MoveBy, StepsOnce, StepsFrom, Group;
    if Try(s, edit).Some? {
      match edit
      case DoClaim(m) => ClaimKeepsOrder(s, m);
      case DoRelease(identity) => ReleaseKeepsOrder(s, identity);
      case DoMoveBefore(source, before) => MoveBeforeRearranges(s, source, before);
      case DoMoveBy(identity, delta) =>
        MoveBySteps(s, identity, delta);
        StepIsOnce(s, MoveBy(s, identity, delta).value, Position(s, identity).value, delta < 0);
        StepRearranges(s, MoveBy(s, identity, delta).value);
    }
  }

  /** Every run of edits keeps identities distinct and every group in one run. */
  lemma {:induction false} EveryRunKeepsOrder(s: seq<Member>, edits: seq<Edit>)
    requires DistinctIds(s) && Contiguous(s)
    ensures DistinctIds(Run(s, edits)) && Contiguous(Run(s, edits))
    decreases |edits|
  {
    hide DistinctIds, Contiguous, Apply;
    if edits != [] {
      ApplyKeepsOrder(s, edits[0]);
      EveryRunKeepsOrder(Apply(s, edits[0]), edits[1..]);
    }
  }
}
