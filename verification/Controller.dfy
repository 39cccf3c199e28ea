/**
 What a binding knows of its server: the snapshot it applied, the resources it observed, and a
 generation for each resource. Snapshots that are pushed, refreshed or returned by commands arrive
 in any order. Equal generations at two moments are shown to mean that nothing was replaced in between.
 */
module Controllers {
  import opened Wrappers
  import opened Sessions

  datatype Key =
    | SessionKey(session: string)
    | WindowKey(session: string, window: string)
    | PaneKey(session: string, window: string, pane: string)

  /** What tells one occupant of a key from the next. */
  datatype Occupant = Present | Pid(pid: nat) | Process(process: Option<string>)

  datatype Topology = Topology(generation: nat, revision: nat, sessions: seq<MuxSession>,
    activeSessionId: Option<string>)

  /** An inline command whose result is awaited, with the binding generation it was submitted under. */
  datatype Submitted = Submitted(ticket: nat, binding: nat)

  datatype Controller = Controller(
    binding: nat,
    serverGeneration: Option<nat>,
    serverRevision: Option<nat>,
    generations: map<Key, nat>,
    observed: map<Key, Occupant>,
    sessions: seq<MuxSession>,
    allSessions: seq<MuxSession>,
    selectedSession: Option<string>,
    previousSession: Option<string>,
    selectedWindow: Option<string>,
    pending: seq<Submitted>)

  function Init(binding: nat): Controller {
    Controller(binding, None, None, map[], map[], [], [], None, None, None, [])
  }

  // ----- Observed resources

  function OccupantOf(pane: PaneAnchor): Occupant {
    if pane.pid.Some? then Pid(pane.pid.value) else Process(pane.process)
  }

  function WithPanes(seen: map<Key, Occupant>, session: string, window: string,
                     panes: seq<PaneAnchor>): map<Key, Occupant>
    decreases |panes|
  {
    if panes == [] then seen
    else if panes[0].paneId.None? then WithPanes(seen, session, window, panes[1..])
    else WithPanes(seen[PaneKey(session, window, panes[0].paneId.value) := OccupantOf(panes[0])], session, window,
      panes[1..])
  }

  function WithWindows(seen: map<Key, Occupant>, session: string, windows: seq<MuxWindow>): map<Key, Occupant>
    decreases |windows|
  {
    if windows == [] then seen
    else
      var w := windows[0];
      WithWindows(WithPanes(seen[WindowKey(session, w.id) := Present], session, w.id, [w.anchor] + w.panes), session,
        windows[1..])
  }

  function WithSessions(seen: map<Key, Occupant>, sessions: seq<MuxSession>): map<Key, Occupant>
    decreases |sessions|
  {
    if sessions == [] then seen
    else WithSessions(WithWindows(seen[SessionKey(sessions[0].id) := Present], sessions[0].id, sessions[0].windows),
      sessions[1..])
  }

  /** The window's anchor or one of its panes has this id. */
  ghost predicate HasPane(w: MuxWindow, pane: string) {
    exists i :: 0 <= i <= |w.panes| && ([w.anchor] + w.panes)[i].paneId == Some(pane)
  }

  /** The key names a session, window or pane of the session. */
  ghost predicate NamedIn(key: Key, session: MuxSession) {
    match key
    case SessionKey(s) => session.id == s
    case WindowKey(s, w) => session.id == s && exists i :: 0 <= i < |session.windows| && session.windows[i].id == w
    case PaneKey(s, w, p) =>
      session.id == s
      && exists i :: 0 <= i < |session.windows| && session.windows[i].id == w
          && HasPane(session.windows[i], p)
  }

  lemma {:induction false} WithPanesHas(seen: map<Key, Occupant>, session: string, window: string,
                                        panes: seq<PaneAnchor>, key: Key)
    ensures key in WithPanes(seen, session, window, panes)
      <==> key in seen || (key.PaneKey? && key.session == session && key.window == window
                           && exists i :: 0 <= i < |panes| && panes[i].paneId == Some(key.pane))
    decreases |panes|
  {
    if panes != [] {
      var next := if panes[0].paneId.None? then seen
        else seen[PaneKey(session, window, panes[0].paneId.value) := OccupantOf(panes[0])];
      WithPanesHas(next, session, window, panes[1..], key);
    }
  }

  lemma {:induction false} WithWindowsHas(seen: map<Key, Occupant>, session: string, windows: seq<MuxWindow>, key: Key)
    ensures key in WithWindows(seen, session, windows)
      <==> key in seen || (!key.SessionKey? && key.session == session
                           && exists i :: 0 <= i < |windows| && windows[i].id == key.window
                               && (key.PaneKey? ==> HasPane(windows[i], key.pane)))
    decreases |windows|
  {
    hide WithPanes;
    if windows != [] {
      var w := windows[0];
      var first := seen[WindowKey(session, w.id) := Present];
      WithPanesHas(first, session, w.id, [w.anchor] + w.panes, key);
      WithWindowsHas(WithPanes(first, session, w.id, [w.anchor] + w.panes), session, windows[1..], key);
    }
  }

  lemma {:induction false} WithSessionsHas(seen: map<Key, Occupant>, sessions: seq<MuxSession>, key: Key)
    ensures key in WithSessions(seen, sessions) <==> key in seen || exists i :: 0 <= i < |sessions|
                                                                     && NamedIn(key, sessions[i])
    decreases |sessions|
  {
    hide WithWindows, HasPane;
    if sessions != [] {
      var s := sessions[0];
      var first := seen[SessionKey(s.id) := Present];
      WithWindowsHas(first, s.id, s.windows, key);
      WithSessionsHas(WithWindows(first, s.id, s.windows), sessions[1..], key);
      assert key in WithWindows(first, s.id, s.windows) <==> key in seen || NamedIn(key, s);
    }
  }

  /** A recorded snapshot observes exactly the resources that its sessions have. */
  lemma RecordObserves(c: Controller, key: Key)
    ensures key in Record(c).observed <==> exists i :: 0 <= i < |c.sessions| && NamedIn(key, c.sessions[i])
  {
    WithSessionsHas(map[], c.sessions, key);
  }

  /** The generation of a key after a snapshot: a new one when the key appears, or its occupant is another. */
  function NextGeneration(generations: map<Key, nat>, observed: map<Key, Occupant>, key: Key, occupant: Occupant): nat {
    if key !in generations then 1
    else if key !in observed || observed[key] != occupant then generations[key] + 1
    else generations[key]
  }

  function Record(c: Controller): Controller {
    var current := WithSessions(map[], c.sessions);
    c.(generations := map k | k in c.generations.Keys + current.Keys ::
                        if k in current then NextGeneration(c.generations, c.observed, k, current[k])
                          else c.generations[k],
       observed := current)
  }

  // ----- Server snapshots

  function SetSelected(c: Controller, session: Option<string>): Controller {
    if c.selectedSession == session then c
    else c.(previousSession := if c.selectedSession.Some? then c.selectedSession else c.previousSession,
      selectedSession := session)
  }

  function ObserveServer(c: Controller, generation: nat, newBinding: nat): Controller {
    var changed := c.serverGeneration.Some? && c.serverGeneration.value != generation;
    c.(binding := if changed then newBinding else c.binding,
       observed := if changed then map[] else c.observed,
       pending := if changed then [] else c.pending,
       serverRevision := if c.serverGeneration != Some(generation) then None else c.serverRevision,
       serverGeneration := Some(generation))
  }

  /** The snapshot comes from the server we talk to, and is not older than the one applied. */
  predicate Accepts(c: Controller, t: Topology, peer: Option<nat>) {
    var expected := if peer.Some? then peer else c.serverGeneration;
    && (expected.Some? ==> expected.value == t.generation)
    && (c.serverGeneration == Some(t.generation) && c.serverRevision.Some? ==> c.serverRevision.value <= t.revision)
  }

  function ApplySnapshot(c: Controller, sessions: seq<MuxSession>, session: Option<string>,
                         window: Option<string>): Controller {
    var ordered := StableOrder(c.sessions, sessions);
    var selected := SetSelected(c, SelectionAfterRefresh(session, ordered));
    selected.(selectedWindow := WindowAfterRefresh(selected.selectedSession, window, ordered), allSessions := ordered,
      sessions := ordered)
  }

  function ApplyServer(c: Controller, t: Topology, session: Option<string>, window: Option<string>, peer: Option<nat>,
                       newBinding: nat): Controller {
    if !Accepts(c, t, peer) then c
    else ApplySnapshot(ObserveServer(c, t.generation, newBinding).(serverRevision := Some(t.revision)), t.sessions,
      session, window)
  }

  // ----- Steps

  datatype Config = Config(name: string)

  datatype Published = Published(config: Config, topology: Topology)

  datatype Completion = Completion(selectedSession: Option<string>, selectedWindow: Option<string>, preserve: bool,
    snapshot: Option<Published>)

  datatype CommandError = Stale | Failed(message: string)

  /**
   What happens to a controller. Each step brings what the outside decides: the peer now connected, and
   a fresh binding generation.
   */
  datatype Step =
    | Push(topology: Topology, peer: Option<nat>, newBinding: nat)
    | Refresh(topology: Topology, peer: Option<nat>, newBinding: nat)
    | Complete(result: Result<Completion, CommandError>, config: Config, peer: Option<nat>, newBinding: nat)
    | Execute(session: Option<string>, window: Option<string>, ticket: nat)
    | Submit(session: Option<string>, window: Option<string>, ticket: nat)
    | Collect(ready: set<nat>)
    | Order(names: seq<string>)

  function SelectCompleted(c: Controller, done: Completion): Controller {
    if done.preserve then c
    else
      match (done.selectedSession, done.selectedWindow)
      case (Some(s), Some(w)) => SetSelected(c, Some(s)).(selectedWindow := Some(w))
      case (Some(s), None) => SetSelected(c, Some(s)).(selectedWindow := None)
      case (None, Some(w)) => c.(selectedWindow := Some(w))
      case (None, None) => c
  }

  predicate IsStale(done: Completion, config: Config) {
    done.snapshot.Some? && done.snapshot.value.config != config
  }

  function CompleteCommand(c: Controller, done: Completion, peer: Option<nat>, newBinding: nat): Controller {
    if done.snapshot.Some? then
      ApplyServer(c, done.snapshot.value.topology,
                  if done.preserve then c.selectedSession else done.selectedSession,
                  if done.preserve then c.selectedWindow else done.selectedWindow, peer, newBinding)
    else SelectCompleted(c, done)
  }

  /** A command selects its session and window at once when the snapshot has them. */
  function SelectOptimistic(c: Controller, session: Option<string>, window: Option<string>): Controller {
    if session.None? || FindSession(c.sessions, session.value).None? then c
    else
      var selected := SetSelected(c, session);
      if window.Some? && exists i :: 0 <= i < |c.sessions| && SessionMatches(c.sessions[i], session.value)
                          && HasWindow(c.sessions[i], window.value)
      then selected.(selectedWindow := window)
      else selected
  }

  /** An inline command is sent off, and its result awaited. */
  function Await(c: Controller, ticket: nat): Controller {
    c.(pending := c.pending + [Submitted(ticket, c.binding)])
  }

  /** The commands whose results are not in yet. */
  function Awaited(pending: seq<Submitted>, ready: set<nat>): seq<Submitted> {
    if pending == [] then []
    else (if pending[0].ticket in ready then [] else [pending[0]]) + Awaited(pending[1..], ready)
  }

  function ApplyOrder(c: Controller, names: seq<string>): Controller {
    var ordered := OrderByNames(if c.allSessions == [] then c.sessions else c.allSessions, names);
    var next := c.(sessions := ordered);
    if ordered == [] || (c.selectedSession.Some? && FindSession(ordered, c.selectedSession.value).Some?) then next
    else SetSelected(next, Some(ordered[0].id)).(selectedWindow := None)
  }

  function Next(c: Controller, step: Step): Controller {
    match step
    case Push(t, peer, newBinding) =>
      if Accepts(c, t, peer) then Record(ApplyServer(c, t, c.selectedSession, c.selectedWindow, peer, newBinding))
      else c
    case Refresh(t, peer, newBinding) =>
      Record(ApplyServer(c, t, c.selectedSession, c.selectedWindow, peer, newBinding))
    case Complete(Err(_), _, _, _) => c
    case Complete(Ok(done), config, peer, newBinding) =>
      if IsStale(done, config) then c
      else Record(CompleteCommand(c, done, peer, newBinding))
    case Execute(session, window, ticket) => Record(Await(SelectOptimistic(c, session, window), ticket))
    case Submit(session, window, ticket) => Await(SelectOptimistic(c, session, window), ticket)
    case Collect(ready) => c.(pending := Awaited(c.pending, ready))
    case Order(names) => ApplyOrder(c, names)
  }

  /** The counter of binding generations never gives one twice. */
  predicate Allowed(c: Controller, step: Step) {
    match step
    case Push(_, _, newBinding) => newBinding > c.binding
    case Refresh(_, _, newBinding) => newBinding > c.binding
    case Complete(_, _, _, newBinding) => newBinding > c.binding
    case _ => true
  }

  // ----- Invariants of one step

  ghost predicate Inv(c: Controller) {
    && c.observed.Keys <= c.generations.Keys
    && (c.serverGeneration.Some? <==> c.serverRevision.Some?)
    && multiset(c.sessions) <= multiset(c.allSessions)
  }

  /** What a step may do to a key: its generation never falls, and stays exactly when the occupant does. */
  ghost predicate Tracks(c: Controller, d: Controller, key: Key) {
    && c.binding <= d.binding
    && (key in c.generations ==> key in d.generations && c.generations[key] <= d.generations[key])
    && (key in c.generations && key in d.observed && d.generations[key] == c.generations[key] ==>
          key in c.observed && c.observed[key] == d.observed[key] && c.binding == d.binding)
    && (key in c.observed && key in d.observed && c.observed[key] == d.observed[key] && c.binding == d.binding ==>
          key in c.generations && key in d.generations && d.generations[key] == c.generations[key])
  }

  lemma RecordTracks(c: Controller, mid: Controller, key: Key)
    requires c.observed.Keys <= c.generations.Keys && mid.generations == c.generations
    requires (mid.binding == c.binding && mid.observed == c.observed)
      || (mid.binding > c.binding && mid.observed == map[])
    ensures Record(mid).observed.Keys <= Record(mid).generations.Keys && Tracks(c, Record(mid), key)
  {
    hide WithSessions;
  }

  /** Applying a snapshot changes neither generations nor, but for a new server, what was observed. */
  lemma ApplyTouches(c: Controller, t: Topology, session: Option<string>, window: Option<string>, peer: Option<nat>,
                     newBinding: nat)
    requires newBinding > c.binding
    ensures var d := ApplyServer(c, t, session, window, peer, newBinding);
      && d.generations == c.generations
      && ((d.binding == c.binding && d.observed == c.observed) || (d.binding > c.binding && d.observed == map[]))
  {
    hide ApplySnapshot, Accepts;
    var seen := ObserveServer(c, t.generation, newBinding).(serverRevision := Some(t.revision));
    SnapshotTouches(seen, t.sessions, session, window);
  }

  lemma SnapshotTouches(c: Controller, sessions: seq<MuxSession>, session: Option<string>, window: Option<string>)
    ensures var d := ApplySnapshot(c, sessions, session, window);
      && d.generations == c.generations
      && d.binding == c.binding && d.observed == c.observed
  {
    hide StableOrder, SelectionAfterRefresh, WindowAfterRefresh;
  }

  ghost predicate SameServerState(c: Controller, d: Controller) {
    d.serverGeneration == c.serverGeneration && d.serverRevision == c.serverRevision && d.allSessions == c.allSessions
      && d.binding == c.binding
  }

  lemma AppliedTracks(c: Controller, t: Topology, session: Option<string>, window: Option<string>, peer: Option<nat>,
                      newBinding: nat, key: Key)
    requires c.observed.Keys <= c.generations.Keys && newBinding > c.binding
    ensures var d := Record(ApplyServer(c, t, session, window, peer, newBinding));
      d.observed.Keys <= d.generations.Keys && Tracks(c, d, key)
  {
    hide Record, ApplyServer, Tracks;
    ApplyTouches(c, t, session, window, peer, newBinding);
    RecordTracks(c, ApplyServer(c, t, session, window, peer, newBinding), key);
  }

  lemma CompletedTouches(c: Controller, done: Completion)
    ensures var d := SelectCompleted(c, done);
      SameServerState(c, d) && d.generations == c.generations && d.observed == c.observed && d.sessions == c.sessions
  {}

  lemma OptimisticTouches(c: Controller, session: Option<string>, window: Option<string>)
    ensures var d := SelectOptimistic(c, session, window);
      SameServerState(c, d) && d.generations == c.generations && d.observed == c.observed && d.sessions == c.sessions
  {
    hide HasWindow, FindSession, SessionMatches;
  }

  lemma OrderTouches(c: Controller, names: seq<string>)
    ensures var d := ApplyOrder(c, names);
      && SameServerState(c, d)
      && d.generations == c.generations && d.observed == c.observed
  {
    hide OrderByNames;
  }

  lemma StepTracks(c: Controller, step: Step, key: Key)
    requires Inv(c) && Allowed(c, step)
    ensures Next(c, step).observed.Keys <= Next(c, step).generations.Keys && Tracks(c, Next(c, step), key)
  {
    hide Record, ApplyServer, ApplyOrder, SelectCompleted, SelectOptimistic, Accepts;
    match step
    case Push(t, peer, newBinding) =>
      AppliedTracks(c, t, c.selectedSession, c.selectedWindow, peer, newBinding, key);
    case Refresh(t, peer, newBinding) =>
      AppliedTracks(c, t, c.selectedSession, c.selectedWindow, peer, newBinding, key);
    case Complete(Ok(done), config, peer, newBinding) =>
      if done.snapshot.Some? {
        AppliedTracks(c, done.snapshot.value.topology, if done.preserve then c.selectedSession
          else done.selectedSession,
                      if done.preserve then c.selectedWindow else done.selectedWindow, peer, newBinding, key);
      } else {
        CompletedTouches(c, done);
        RecordTracks(c, SelectCompleted(c, done), key);
      }
    case Execute(session, window, ticket) =>
      OptimisticTouches(c, session, window);
      RecordTracks(c, Await(SelectOptimistic(c, session, window), ticket), key);
    case Submit(session, window, ticket) =>
      OptimisticTouches(c, session, window);
    case Order(names) =>
      OrderTouches(c, names);
    case _ =>
  }

  /** The sessions are those of this snapshot, whose revision is the applied one. */
  ghost predicate Holds(c: Controller, t: Topology) {
    c.serverGeneration == Some(t.generation) && c.serverRevision == Some(t.revision)
      && multiset(c.allSessions) == multiset(t.sessions)
  }

  function Offered(step: Step): Option<Topology> {
    match step
    case Push(t, _, _) => Some(t)
    case Refresh(t, _, _) => Some(t)
    case Complete(Ok(done), _, _, _) => if done.snapshot.Some? then Some(done.snapshot.value.topology) else None
    case _ => None
  }

  /** An applied snapshot is no older than the one it replaces, or comes from another server. */
  ghost predicate Advances(c: Controller, d: Controller, t: Topology) {
    && Holds(d, t)
    && (c.serverGeneration == Some(t.generation) ==>
          d.binding == c.binding && (c.serverRevision.Some? ==> c.serverRevision.value <= t.revision))
    && (c.serverGeneration.Some? && c.serverGeneration.value != t.generation ==> d.binding > c.binding)
    && (c.serverGeneration.None? ==> d.binding == c.binding)
  }

  lemma ApplyAdvances(c: Controller, t: Topology, session: Option<string>, window: Option<string>, peer: Option<nat>,
                      newBinding: nat)
    requires Inv(c) && newBinding > c.binding
    ensures var d := ApplyServer(c, t, session, window, peer, newBinding);
      && multiset(d.sessions) <= multiset(d.allSessions)
      && if Accepts(c, t, peer) then Advances(c, d, t) else d == c
  {
    hide StableOrder, SelectionAfterRefresh, WindowAfterRefresh;
    if Accepts(c, t, peer) {
      StableOrderPermutes(c.sessions, t.sessions);
    }
  }

  lemma RecordKeepsServer(c: Controller)
    ensures SameServerState(c, Record(c)) && Record(c).sessions == c.sessions
  {
    hide WithSessions;
  }

  lemma OrderKeepsServer(c: Controller, names: seq<string>)
    requires Inv(c)
    ensures multiset(ApplyOrder(c, names).sessions) <= multiset(c.allSessions)
  {
    hide OrderByNames;
    OrderByNamesSelects(if c.allSessions == [] then c.sessions else c.allSessions, names);
  }

  lemma AppliedAdvances(c: Controller, t: Topology, session: Option<string>, window: Option<string>, peer: Option<nat>,
                        newBinding: nat)
    requires Inv(c) && newBinding > c.binding
    ensures var d := Record(ApplyServer(c, t, session, window, peer, newBinding));
      && multiset(d.sessions) <= multiset(d.allSessions)
      && (SameServerState(c, d) || Advances(c, d, t))
  {
    hide Record, ApplyServer, Inv, Accepts;
    ApplyAdvances(c, t, session, window, peer, newBinding);
    RecordKeepsServer(ApplyServer(c, t, session, window, peer, newBinding));
  }

  lemma StepAdvances(c: Controller, step: Step)
    requires Inv(c) && Allowed(c, step)
    ensures Inv(Next(c, step))
    ensures SameServerState(c, Next(c, step))
      || (Offered(step).Some? && Advances(c, Next(c, step), Offered(step).value))
  {
    hide Record, ApplyServer, ApplyOrder, SelectCompleted, SelectOptimistic, Accepts, Tracks;
    StepTracks(c, step, SessionKey(""));
    match step
    case Push(t, peer, newBinding) =>
      AppliedAdvances(c, t, c.selectedSession, c.selectedWindow, peer, newBinding);
    case Refresh(t, peer, newBinding) =>
      AppliedAdvances(c, t, c.selectedSession, c.selectedWindow, peer, newBinding);
    case Complete(Ok(done), config, peer, newBinding) =>
      if done.snapshot.Some? {
        AppliedAdvances(c, done.snapshot.value.topology, if done.preserve then c.selectedSession
          else done.selectedSession,
                        if done.preserve then c.selectedWindow else done.selectedWindow, peer, newBinding);
      } else {
        CompletedTouches(c, done);
        RecordKeepsServer(SelectCompleted(c, done));
      }
    case Execute(session, window, ticket) =>
      OptimisticTouches(c, session, window);
      RecordKeepsServer(Await(SelectOptimistic(c, session, window), ticket));
    case Submit(session, window, ticket) =>
      OptimisticTouches(c, session, window);
    case Order(names) =>
      OrderTouches(c, names);
      OrderKeepsServer(c, names);
    case _ =>
  }

  // ----- Runs

  ghost predicate IsRun(states: seq<Controller>, steps: seq<Step>) {
    && |states| == |steps| + 1 && states[0] == Init(states[0].binding)
    && forall i :: 0 <= i < |steps| ==> Allowed(states[i], steps[i]) && states[i + 1] == Next(states[i], steps[i])
  }

  lemma {:induction false} RunInv(states: seq<Controller>, steps: seq<Step>, i: nat)
    requires IsRun(states, steps) && i < |states|
    ensures Inv(states[i])
    decreases i
  {
    hide Next, Allowed;
    if i > 0 {
      RunInv(states, steps, i - 1);
      StepAdvances(states[i - 1], steps[i - 1]);
    }
  }

  lemma {:induction false} RunGrows(states: seq<Controller>, steps: seq<Step>, key: Key, i: nat, j: nat)
    requires IsRun(states, steps) && i <= j < |states|
    ensures states[i].binding <= states[j].binding
    ensures key in states[i].generations ==>
      key in states[j].generations && states[i].generations[key] <= states[j].generations[key]
    decreases j
  {
    hide Next, Allowed;
    if i < j {
      RunGrows(states, steps, key, i, j - 1);
      RunInv(states, steps, j - 1);
      StepTracks(states[j - 1], steps[j - 1], key);
    }
  }

  /** The key was observed in every state from i to j, with one occupant and one server. */
  ghost predicate Continuous(states: seq<Controller>, key: Key, i: nat, j: nat)
    requires i <= j < |states|
  {
    && key in states[i].observed
    && forall m :: i <= m <= j ==>
         key in states[m].observed && states[m].observed[key] == states[i].observed[key]
           && states[m].binding == states[i].binding
  }

  /**
   An observed resource has the same generation at two moments exactly when it was there, the same, all
   the time between.
   */
  lemma {:induction false} SameGenerationIsContinuous(states: seq<Controller>, steps: seq<Step>, key: Key, i: nat,
                                                      j: nat)
    requires IsRun(states, steps) && i <= j < |states|
    requires key in states[i].observed
    ensures key in states[i].generations
    ensures (key in states[j].observed && key in states[j].generations
      && states[j].generations[key] == states[i].generations[key])
      <==> Continuous(states, key, i, j)
    decreases j
  {
    hide Next, Allowed;
    RunInv(states, steps, i);
    RunInv(states, steps, j);
    if i < j {
      RunInv(states, steps, j - 1);
      RunGrows(states, steps, key, i, j - 1);
      StepTracks(states[j - 1], steps[j - 1], key);
      SameGenerationIsContinuous(states, steps, key, i, j - 1);
    }
  }

  /** Within one server generation the applied revision never falls. */
  lemma {:induction false} RevisionNeverFalls(states: seq<Controller>, steps: seq<Step>, i: nat, j: nat)
    requires IsRun(states, steps) && i <= j < |states|
    requires states[i].serverGeneration.Some? && states[i].binding == states[j].binding
    ensures states[j].serverGeneration == states[i].serverGeneration
    ensures states[i].serverRevision.Some? && states[j].serverRevision.Some?
      && states[i].serverRevision.value <= states[j].serverRevision.value
    decreases j
  {
    hide Next, Allowed;
    RunInv(states, steps, i);
    if i < j {
      var key := SessionKey("");
      RunGrows(states, steps, key, i, j - 1);
      RunGrows(states, steps, key, j - 1, j);
      RevisionNeverFalls(states, steps, i, j - 1);
      RunInv(states, steps, j - 1);
      StepAdvances(states[j - 1], steps[j - 1]);
    }
  }

  /** What is held is always one snapshot that was offered, whole. */
  lemma {:induction false} RunHoldsSnapshot(states: seq<Controller>, steps: seq<Step>, i: nat)
    requires IsRun(states, steps) && i < |states| && states[i].serverGeneration.Some?
    ensures exists k :: 0 <= k < i && Offered(steps[k]).Some? && Holds(states[i], Offered(steps[k]).value)
    decreases i
  {
    hide Next, Allowed;
    if i > 0 {
      RunInv(states, steps, i - 1);
      StepAdvances(states[i - 1], steps[i - 1]);
      if SameServerState(states[i - 1], states[i]) {
        RunHoldsSnapshot(states, steps, i - 1);
        var k :| 0 <= k < i - 1 && Offered(steps[k]).Some? && Holds(states[i - 1], Offered(steps[k]).value);
        assert Holds(states[i], Offered(steps[k]).value);
      } else {
        assert Holds(states[i], Offered(steps[i - 1]).value);
      }
    }
  }

  // ----- Inline commands

  /** Every result awaited is of a command sent to the server of now. */
  ghost predicate PendingIsCurrent(c: Controller) {
    forall i :: 0 <= i < |c.pending| ==> c.pending[i].binding == c.binding
  }

  lemma ApplyKeepsPending(c: Controller, t: Topology, session: Option<string>, window: Option<string>,
                          peer: Option<nat>, newBinding: nat)
    requires PendingIsCurrent(c)
    ensures PendingIsCurrent(ApplyServer(c, t, session, window, peer, newBinding))
  {
    hide StableOrder, SelectionAfterRefresh, WindowAfterRefresh;
  }

  lemma RecordKeepsPending(c: Controller)
    ensures Record(c).pending == c.pending && Record(c).binding == c.binding
  {
    hide WithSessions;
  }

  lemma {:induction false} AwaitedIsPending(pending: seq<Submitted>, ready: set<nat>, i: nat)
    requires i < |Awaited(pending, ready)|
    ensures Awaited(pending, ready)[i] in pending && Awaited(pending, ready)[i].ticket !in ready
  {
    var first := pending[0].ticket in ready;
    if first || i > 0 {
      AwaitedIsPending(pending[1..], ready, if first then i else i - 1);
    }
  }

  lemma CompletionKeepsPending(c: Controller, done: Completion)
    ensures SelectCompleted(c, done).pending == c.pending && SelectCompleted(c, done).binding == c.binding
  {}

  lemma OptimismKeepsPending(c: Controller, session: Option<string>, window: Option<string>)
    ensures SelectOptimistic(c, session, window).pending == c.pending
      && SelectOptimistic(c, session, window).binding == c.binding
  {
    hide HasWindow, FindSession, SessionMatches;
  }

  lemma OrderKeepsPending(c: Controller, names: seq<string>)
    ensures ApplyOrder(c, names).pending == c.pending && ApplyOrder(c, names).binding == c.binding
  {
    hide OrderByNames, FindSession;
  }

  lemma StepKeepsPending(c: Controller, step: Step)
    requires PendingIsCurrent(c)
    ensures PendingIsCurrent(Next(c, step))
  {
    hide Record, ApplyServer, ApplyOrder, SelectCompleted, SelectOptimistic, Accepts;
    match step
    case Push(t, peer, newBinding) =>
      ApplyKeepsPending(c, t, c.selectedSession, c.selectedWindow, peer, newBinding);
      RecordKeepsPending(ApplyServer(c, t, c.selectedSession, c.selectedWindow, peer, newBinding));
    case Refresh(t, peer, newBinding) =>
      ApplyKeepsPending(c, t, c.selectedSession, c.selectedWindow, peer, newBinding);
      RecordKeepsPending(ApplyServer(c, t, c.selectedSession, c.selectedWindow, peer, newBinding));
    case Complete(Ok(done), config, peer, newBinding) =>
      if done.snapshot.Some? {
        ApplyKeepsPending(c, done.snapshot.value.topology, if done.preserve then c.selectedSession
          else done.selectedSession,
                          if done.preserve then c.selectedWindow else done.selectedWindow, peer, newBinding);
      } else {
        CompletionKeepsPending(c, done);
      }
      RecordKeepsPending(CompleteCommand(c, done, peer, newBinding));
    case Execute(session, window, ticket) =>
      OptimismKeepsPending(c, session, window);
      RecordKeepsPending(Await(SelectOptimistic(c, session, window), ticket));
    case Submit(session, window, ticket) =>
      OptimismKeepsPending(c, session, window);
    case Collect(ready) =>
      forall i | 0 <= i < |Awaited(c.pending, ready)| ensures Awaited(c.pending, ready)[i].binding == c.binding {
        AwaitedIsPending(c.pending, ready, i);
      }
    case Order(names) =>
      OrderKeepsPending(c, names);
    case _ =>
  }

  /** In every run the results of commands sent to an earlier server are no longer awaited. */
  lemma {:induction false} OnlyCurrentIsAwaited(states: seq<Controller>, steps: seq<Step>, i: nat)
    requires IsRun(states, steps) && i < |states|
    ensures PendingIsCurrent(states[i])
    decreases i
  {
    hide Next, Allowed, PendingIsCurrent;
    if i > 0 {
      OnlyCurrentIsAwaited(states, steps, i - 1);
      StepKeepsPending(states[i - 1], steps[i - 1]);
    } else {
      NothingIsAwaited(states[0].binding);
    }
  }

  lemma NothingIsAwaited(binding: nat)
    ensures PendingIsCurrent(Init(binding))
  {}
}
