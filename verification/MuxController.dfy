/** The controller object, and its methods against the steps they take. */
module MuxControllers {
  import opened Wrappers
  import opened Sessions
  import opened Controllers

  /** The generations when the keys done so far have been looked at. */
  ghost predicate Bumped(before: map<Key, nat>, observed: map<Key, Occupant>, current: map<Key, Occupant>,
                         done: set<Key>, after: map<Key, nat>)
    requires done <= current.Keys
  {
    && after.Keys == before.Keys + done
    && forall k :: k in after
        ==> after[k] == if k in done then NextGeneration(before, observed, k, current[k]) else before[k]
  }

  lemma BumpedMore(before: map<Key, nat>, observed: map<Key, Occupant>, current: map<Key, Occupant>, done: set<Key>,
                   after: map<Key, nat>, key: Key)
    requires done <= current.Keys && key in current.Keys - done && Bumped(before, observed, current, done, after)
    ensures Bumped(before, observed, current, done + {key},
      after[key := NextGeneration(after, observed, key, current[key])])
  {}

  lemma TakeKey(all: set<Key>, done: set<Key>, left: set<Key>, key: Key)
    requires done + left == all && done !! left && key in left
    ensures (done + {key}) + (left - {key}) == all && (done + {key}) !! (left - {key}) && |left - {key}| < |left|
  {}

  lemma BumpedNone(before: map<Key, nat>, observed: map<Key, Occupant>, current: map<Key, Occupant>)
    ensures Bumped(before, observed, current, {}, before)
  {}

  lemma BumpedCases(after: map<Key, nat>, observed: map<Key, Occupant>, key: Key, occupant: Occupant)
    ensures after[key := NextGeneration(after, observed, key, occupant)]
      == if key !in after then after[key := 1]
         else if key !in observed || observed[key] != occupant then after[key := after[key] + 1]
         else after
  {}

  lemma BumpedAll(c: Controller, current: map<Key, Occupant>, after: map<Key, nat>)
    requires current == WithSessions(map[], c.sessions)
      && Bumped(c.generations, c.observed, current, current.Keys, after)
    ensures Record(c) == c.(generations := after, observed := current)
  {
    hide WithSessions, NextGeneration;
    assert after == Record(c).generations;
  }

  lemma RetainOne(left: seq<Submitted>, rest: seq<Submitted>, ready: set<nat>)
    requires rest != []
    ensures left + Awaited(rest, ready) == (if rest[0].ticket in ready then left else left + [rest[0]])
      + Awaited(rest[1..], ready)
  {}

  lemma RetainNothing(ready: set<nat>, left: seq<Submitted>)
    ensures left + Awaited([], ready) == left && [] + left == left
  {}

  class MuxController {
    var binding: nat
    var serverGeneration: Option<nat>
    var serverRevision: Option<nat>
    var generations: map<Key, nat>
    var observed: map<Key, Occupant>
    var sessions: seq<MuxSession>
    var allSessions: seq<MuxSession>
    var selectedSession: Option<string>
    var previousSession: Option<string>
    var selectedWindow: Option<string>
    var pending: seq<Submitted>

    ghost function State(): Controller
      reads this
    {
      Controller(binding, serverGeneration, serverRevision, generations, observed, sessions, allSessions,
        selectedSession, previousSession, selectedWindow, pending)
    }

    constructor (binding: nat)
      ensures State() == Init(binding)
    {
      this.binding := binding;
      serverGeneration, serverRevision, generations, observed := None, None, map[], map[];
      sessions, allSessions, selectedSession, previousSession, selectedWindow, pending := [], [], None, None, None, [];
    }

    method CurrentResources() returns (current: map<Key, Occupant>)
      ensures current == WithSessions(map[], sessions)
    {
      hide WithWindows, WithPanes;
      current := map[];
      var i := 0;
      while i < |sessions|
        invariant 0 <= i <= |sessions|
        invariant WithSessions(map[], sessions) == WithSessions(current, sessions[i..])
      {
        var session := sessions[i];
        current := current[SessionKey(session.id) := Present];
        current := AddWindows(current, session.id, session.windows);
        assert sessions[i..][1..] == sessions[i + 1..];
        i := i + 1;
      }
    }

    static method AddWindows(seen: map<Key, Occupant>, session: string, windows: seq<MuxWindow>)
        returns (current: map<Key, Occupant>)
      ensures current == WithWindows(seen, session, windows)
    {
      hide WithPanes;
      current := seen;
      var i := 0;
      while i < |windows|
        invariant 0 <= i <= |windows|
        invariant WithWindows(seen, session, windows) == WithWindows(current, session, windows[i..])
      {
        var window := windows[i];
        current := current[WindowKey(session, window.id) := Present];
        current := AddPanes(current, session, window.id, [window.anchor] + window.panes);
        assert windows[i..][1..] == windows[i + 1..];
        i := i + 1;
      }
    }

    static method AddPanes(seen: map<Key, Occupant>, session: string, window: string, panes: seq<PaneAnchor>)
        returns (current: map<Key, Occupant>)
      ensures current == WithPanes(seen, session, window, panes)
    {
      current := seen;
      var i := 0;
      while i < |panes|
        invariant 0 <= i <= |panes|
        invariant WithPanes(seen, session, window, panes) == WithPanes(current, session, window, panes[i..])
      {
        if panes[i].paneId.Some? {
          current := current[PaneKey(session, window, panes[i].paneId.value) := OccupantOf(panes[i])];
        }
        assert panes[i..][1..] == panes[i + 1..];
        i := i + 1;
      }
    }

    /** The generations after a snapshot, one key at a time. */
    static method BumpGenerations(before: map<Key, nat>, observed: map<Key, Occupant>, current: map<Key, Occupant>)
        returns (after: map<Key, nat>)
      ensures Bumped(before, observed, current, current.Keys, after)
    {
      hide NextGeneration, Bumped;
      after := before;
      ghost var done: set<Key> := {};
      var left := current.Keys;
      BumpedNone(before, observed, current);
      while left != {}
        invariant done + left == current.Keys && done !! left
        invariant Bumped(before, observed, current, done, after)
        decreases |left|
      {
        var key :| key in left;
        BumpedMore(before, observed, current, done, after, key);
        var reappeared := key !in observed;
        var occupantChanged := key in observed && observed[key] != current[key];
        BumpedCases(after, observed, key, current[key]);
        if key !in after {
          after := after[key := 1];
        } else if reappeared || occupantChanged {
          after := after[key := after[key] + 1];
        }
        TakeKey(current.Keys, done, left, key);
        done, left := done + {key}, left - {key};
      }
    }

    method RecordResourceSnapshot()
      modifies this`generations, this`observed
      ensures State() == Record(old(State()))
    {
      hide WithSessions, NextGeneration, Bumped, Record;
      var current := CurrentResources();
      generations := BumpGenerations(generations, observed, current);
      BumpedAll(old(State()), current, generations);
      observed := current;
    }

    method SetSelectedSession(session: Option<string>)
      modifies this`selectedSession, this`previousSession
      ensures State() == SetSelected(old(State()), session)
    {
      if selectedSession == session {
        return;
      }
      if selectedSession.Some? {
        previousSession := selectedSession;
      }
      selectedSession := session;
    }

    method ObserveServerGeneration(generation: nat, newBinding: nat)
      modifies this`binding, this`observed, this`pending, this`serverRevision, this`serverGeneration
      ensures State() == ObserveServer(old(State()), generation, newBinding)
    {
      if serverGeneration.Some? && serverGeneration.value != generation {
        binding := newBinding;
        observed := map[];
        pending := [];
      }
      if serverGeneration != Some(generation) {
        serverRevision := None;
      }
      serverGeneration := Some(generation);
    }

    method ApplyMuxSnapshot(reported: seq<MuxSession>, session: Option<string>, window: Option<string>)
      modifies this
      ensures State() == ApplySnapshot(old(State()), reported, session, window)
    {
      hide StableOrder, SelectionAfterRefresh, WindowAfterRefresh;
      var ordered := StableSessionOrder(sessions, reported);
      SetSelectedSession(SelectionAfterRefresh(session, ordered));
      selectedWindow := WindowAfterRefresh(selectedSession, window, ordered);
      allSessions := ordered;
      sessions := allSessions;
    }

    method ApplyServerSnapshot(t: Topology, session: Option<string>, window: Option<string>, peer: Option<nat>,
                               newBinding: nat) returns (applied: bool)
      modifies this
      ensures applied == Accepts(old(State()), t, peer)
      ensures State() == ApplyServer(old(State()), t, session, window, peer, newBinding)
    {
      hide ApplySnapshot;
      var expected := if peer.Some? then peer else serverGeneration;
      if (expected.Some? && expected.value != t.generation)
        || (serverGeneration == Some(t.generation) && serverRevision.Some? && serverRevision.value > t.revision)
      {
        return false;
      }
      ObserveServerGeneration(t.generation, newBinding);
      serverRevision := Some(t.revision);
      ApplyMuxSnapshot(t.sessions, session, window);
      applied := true;
    }

    method AcceptServerSnapshot(t: Topology, peer: Option<nat>, newBinding: nat)
      modifies this
      ensures State() == Next(old(State()), Push(t, peer, newBinding))
    {
      hide ApplyServer, Record, Accepts;
      var applied := ApplyServerSnapshot(t, selectedSession, selectedWindow, peer, newBinding);
      if applied {
        RecordResourceSnapshot();
      } else {
        Refusal(old(State()), t, old(selectedSession), old(selectedWindow), peer, newBinding);
      }
    }

    method RefreshSessions(t: Topology, peer: Option<nat>, newBinding: nat) returns (applied: bool)
      modifies this
      ensures applied == Accepts(old(State()), t, peer)
      ensures State() == Next(old(State()), Refresh(t, peer, newBinding))
    {
      hide ApplyServer, Record, Accepts;
      applied := ApplyServerSnapshot(t, selectedSession, selectedWindow, peer, newBinding);
      RecordResourceSnapshot();
    }

    method CompleteAuthoritativeCommand(result: Result<Completion, CommandError>, config: Config, peer: Option<nat>,
                                        newBinding: nat)
      returns (outcome: Result<Completion, CommandError>)
      modifies this
      ensures State() == Next(old(State()), Complete(result, config, peer, newBinding))
      ensures outcome == if result.Ok? && IsStale(result.value, config) then Err(Stale) else result
    {
      hide ApplyServer, Record, Accepts;
      if result.Err? {
        return result;
      }
      var done := result.value;
      if done.snapshot.Some? {
        if done.snapshot.value.config != config {
          return Err(Stale);
        }
        var session := if done.preserve then selectedSession else done.selectedSession;
        var window := if done.preserve then selectedWindow else done.selectedWindow;
        var _ := ApplyServerSnapshot(done.snapshot.value.topology, session, window, peer, newBinding);
      } else if !done.preserve {
        if done.selectedSession.Some? {
          SetSelectedSession(done.selectedSession);
          selectedWindow := done.selectedWindow;
        } else if done.selectedWindow.Some? {
          selectedWindow := done.selectedWindow;
        }
      }
      RecordResourceSnapshot();
      outcome := result;
    }

    /** Selects what the command names if it is there, sends the command and awaits its result. */
    method ExecuteInline(session: Option<string>, window: Option<string>, ticket: nat)
      modifies this`selectedSession, this`previousSession, this`selectedWindow, this`pending
      ensures State() == Next(old(State()), Submit(session, window, ticket))
    {
      hide HasWindow, FindSession, SessionMatches, Record, ApplyServer, CompleteCommand, ApplyOrder, Awaited, Accepts;
      if session.Some? && FindSession(sessions, session.value).Some? {
        SetSelectedSession(session);
        if window.Some? && exists i :: 0 <= i < |sessions| && SessionMatches(sessions[i], session.value)
                            && HasWindow(sessions[i], window.value) {
          selectedWindow := window;
        }
      }
      pending := pending + [Submitted(ticket, binding)];
    }

    method ExecuteCommand(session: Option<string>, window: Option<string>, ticket: nat)
      modifies this
      ensures State() == Next(old(State()), Execute(session, window, ticket))
    {
      hide SelectOptimistic, Record;
      ExecuteInline(session, window, ticket);
      RecordResourceSnapshot();
    }

    /** Takes the results that are in; the others stay awaited. */
    method CollectReady(ready: set<nat>)
      modifies this`pending
      ensures State() == Next(old(State()), Collect(ready))
    {
      pending := Retain(pending, ready);
    }

    static method Retain(submitted: seq<Submitted>, ready: set<nat>) returns (left: seq<Submitted>)
      ensures left == Awaited(submitted, ready)
    {
      hide Awaited;
      left := [];
      var rest := submitted;
      RetainNothing(ready, Awaited(submitted, ready));
      while rest != []
        invariant Awaited(submitted, ready) == left + Awaited(rest, ready)
        decreases |rest|
      {
        RetainOne(left, rest, ready);
        if rest[0].ticket !in ready {
          left := left + [rest[0]];
        }
        rest := rest[1..];
      }
      RetainNothing(ready, left);
    }

    method ApplySessionOrder(names: seq<string>)
      modifies this
      ensures State() == Next(old(State()), Order(names))
    {
      hide OrderByNames, FindSession;
      sessions := OrderSessionsByNames(if allSessions == [] then sessions else allSessions, names);
      if sessions == [] {
        return;
      }
      if selectedSession.None? || FindSession(sessions, selectedSession.value).None? {
        SetSelectedSession(Some(sessions[0].id));
        selectedWindow := None;
      }
    }
  }

  lemma Refusal(c: Controller, t: Topology, session: Option<string>, window: Option<string>, peer: Option<nat>,
                newBinding: nat)
    requires !Accepts(c, t, peer)
    ensures ApplyServer(c, t, session, window, peer, newBinding) == c
  {}
}
