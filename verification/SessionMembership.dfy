/** The membership list that the methods edit in place, against the edits they make. */
module SessionMemberships {
  import opened Wrappers
  import opened GroupOrder
  import opened Membership

  class SessionMembership {
    var sessions: seq<Member>

    /** Identities are distinct and every named group is one run. */
    ghost predicate Sound()
      reads this
    {
      DistinctIds(sessions) && Contiguous(sessions)
    }

    constructor (sessions: seq<Member>)
      ensures this.sessions == sessions
    {
      this.sessions := sessions;
    }

    method Claim(m: Member) returns (claimed: bool)
      modifies this
      ensures sessions == Apply(old(sessions), DoClaim(m)) && claimed == Try(old(sessions), DoClaim(m)).Some?
      ensures old(Sound()) ==> Sound()
    {
      hide DistinctIds, Contiguous, Group;
      ghost var before := sessions;
      if m.identity == "" || Position(sessions, m.identity).Some? {
        return false;
      }
      var group, at := Group(m), |sessions|;
      if group != "" {
        var last := |sessions|;
        while last > 0 && Group(sessions[last - 1]) != group
          invariant 0 <= last <= |sessions|
          invariant AfterGroup(sessions, group, |sessions|) == AfterGroup(sessions, group, last)
        {
          last := last - 1;
        }
        if last > 0 {
          at := last;
        }
      }
      sessions := sessions[..at] + [m] + sessions[at..];
      Keeps(before, DoClaim(m));
      claimed := true;
    }

    method Release(identity: string) returns (released: Option<Member>)
      modifies this
      ensures sessions == Apply(old(sessions), DoRelease(identity))
      ensures released.Some? <==> Try(old(sessions), DoRelease(identity)).Some?
      ensures released.Some? ==> released.value in old(sessions) && released.value.identity == identity
      ensures old(Sound()) ==> Sound()
    {
      hide DistinctIds, Contiguous, Group;
      ghost var before := sessions;
      var position := Position(sessions, identity);
      if position.None? {
        return None;
      }
      released := Some(sessions[position.value]);
      sessions := sessions[..position.value] + sessions[position.value + 1..];
      Keeps(before, DoRelease(identity));
    }

    method MoveWithinGroup(from: nat, to: nat) returns (moved: bool)
      requires from < |sessions| && to < |sessions|
      modifies this
      ensures moved == MoveWithin(old(sessions), from, to).Some?
      ensures sessions == if moved then MoveWithin(old(sessions), from, to).value else old(sessions)
    {
      var at := if to > from then to - 1 else to;
      if at == from {
        return false;
      }
      var session := sessions[from];
      sessions := sessions[..from] + sessions[from + 1..];
      sessions := sessions[..at] + [session] + sessions[at..];
      moved := true;
    }

    /** Lifts the block at this place out and puts it back at the anchor's block, or at the end. */
    method LiftBlock(from: nat, anchor: Option<nat>) returns (moved: bool)
      requires from < |sessions| && (anchor.Some? ==> anchor.value < |sessions|)
      modifies this
      ensures moved == MoveBlock(old(sessions), from, anchor).Some?
      ensures sessions == if moved then MoveBlock(old(sessions), from, anchor).value else old(sessions)
    {
      hide BlockOf, Exchange;
      var block := BlockOf(sessions, from);
      var at := if anchor.Some? then BlockOf(sessions, anchor.value).start else |sessions|;
      if block.start <= at <= block.end {
        return false;
      }
      var lifted := sessions[block.start..block.end];
      ghost var before := sessions;
      sessions := sessions[..block.start] + sessions[block.end..];
      if at > block.start {
        at := at - |lifted|;
        DropDown(before, block.start, block.end, at + |lifted|);
      } else {
        LiftUp(before, at, block.start, block.end);
      }
      sessions := sessions[..at] + lifted + sessions[at..];
      moved := true;
    }

    method MoveBefore(source: string, before: Option<string>) returns (moved: bool)
      modifies this
      ensures sessions == Apply(old(sessions), DoMoveBefore(source, before))
        && moved == Try(old(sessions), DoMoveBefore(source, before)).Some?
      ensures old(Sound()) ==> Sound()
    {
      hide DistinctIds, Contiguous, Group, MoveWithin, MoveBlock;
      Keeps(sessions, DoMoveBefore(source, before));
      var from := Position(sessions, source);
      if from.None? {
        return false;
      }
      var anchor := None;
      if before.Some? {
        anchor := Position(sessions, before.value);
        if anchor.None? {
          return false;
        }
      }
      var group := Group(sessions[from.value]);
      if group != "" && anchor.Some? && Group(sessions[anchor.value]) == group {
        moved := MoveWithinGroup(from.value, anchor.value);
      } else {
        moved := LiftBlock(from.value, anchor);
      }
    }

    method MoveBy(identity: string, delta: int) returns (moved: bool)
      modifies this
      ensures sessions == Apply(old(sessions), DoMoveBy(identity, delta))
        && moved == Try(old(sessions), DoMoveBy(identity, delta)).Some?
      ensures old(Sound()) ==> Sound()
    {
      hide DistinctIds, Contiguous, Group, MoveBlock, BlockOf;
      Keeps(sessions, DoMoveBy(identity, delta));
      if delta == 0 {
        return false;
      }
      var position := Position(sessions, identity);
      if position.None? {
        return false;
      }
      var from: int := position.value;
      var neighbour := if delta < 0 then from - 1 else from + 1;
      if neighbour < 0 || neighbour >= |sessions| {
        return false;
      }
      var group := Group(sessions[from]);
      if group != "" && Group(sessions[neighbour]) == group {
        sessions := sessions[from := sessions[neighbour]][neighbour := sessions[from]];
        return true;
      }
      moved := LiftBlock(from, if delta < 0 then Some(BlockOf(sessions, neighbour).start)
        else BlockEnd(sessions, neighbour));
    }
  }

  lemma Keeps(s: seq<Member>, edit: Edit)
    ensures DistinctIds(s) && Contiguous(s) ==> DistinctIds(Apply(s, edit)) && Contiguous(Apply(s, edit))
  {
    hide DistinctIds, Contiguous, Apply;
    if DistinctIds(s) && Contiguous(s) {
      ApplyKeepsOrder(s, edit);
    }
  }

  lemma DropDown(s: seq<Member>, a: nat, b: nat, c: nat)
    requires a < b < c <= |s|
    ensures var rest, at := s[..a] + s[b..], c - (b - a); rest[..at] + s[a..b] + rest[at..] == Exchange(s, a, b, c)
  {
    var rest, at := s[..a] + s[b..], c - (b - a);
    assert rest[..at] == s[..a] + s[b..c] && rest[at..] == s[c..];
  }

  lemma LiftUp(s: seq<Member>, a: nat, b: nat, c: nat)
    requires a < b < c <= |s|
    ensures var rest := s[..b] + s[c..]; rest[..a] + s[b..c] + rest[a..] == Exchange(s, a, b, c)
  {
    var rest := s[..b] + s[c..];
    assert rest[..a] == s[..a] && rest[a..] == s[a..b] + s[c..];
  }
}
