/**
 Opaque targets of mux resources. A target held by a caller is shown to resolve later exactly when its
 resource has been there, the same, ever since. The encoding of paths as text is a parameter.
 */
module Targets {
  import opened Wrappers
  import opened Sessions
  import opened Controllers

  datatype ResourceKind =
    | Instance | ApplicationWindow | BindingKind | SessionKind | MuxWindowKind | PaneKind | TerminalKind

  /** A wire target: its handle and generation are equality tokens. */
  datatype CommandTarget = CommandTarget(kind: ResourceKind, handle: string, generation: nat)

  datatype ExactTarget =
    | Binding(scope: int)
    | Session(scope: int, session: string)
    | Window(scope: int, session: string, window: string)
    | Pane(scope: int, session: string, window: string, pane: string)

  /** How paths are written in handles. */
  datatype Codec = Codec(encode: seq<string> -> string, decode: string -> Option<seq<string>>)

  ghost predicate Faithful(codec: Codec) {
    forall path :: codec.decode(codec.encode(path)) == Some(path)
  }

  function ActiveTerminal(): string {
    "active_terminal"
  }

  /** The generation of a resource that is observed. */
  function GenerationOf(c: Controller, key: Key): Option<nat> {
    if key in c.observed && key in c.generations then Some(c.generations[key]) else None
  }

  function PathTarget(kind: ResourceKind, path: seq<string>, generation: Option<nat>,
                      codec: Codec): Option<CommandTarget> {
    if generation.Some? then Some(CommandTarget(kind, codec.encode(path), generation.value)) else None
  }

  function TargetOf(t: ExactTarget, kind: ResourceKind, c: Controller, handle: string,
                    codec: Codec): Option<CommandTarget> {
    match (kind, t)
    case (BindingKind, Binding(_)) => Some(CommandTarget(kind, handle, c.binding))
    case (TerminalKind, Binding(_)) => PathTarget(kind, [handle, ActiveTerminal()], Some(c.binding), codec)
    case (SessionKind, Session(_, s)) => PathTarget(kind, [handle, s], GenerationOf(c, SessionKey(s)), codec)
    case (TerminalKind, Session(_, s)) => PathTarget(kind, [handle, s], GenerationOf(c, SessionKey(s)), codec)
    case (MuxWindowKind, Window(_, s, w)) => PathTarget(kind, [handle, s, w], GenerationOf(c, WindowKey(s, w)), codec)
    case (PaneKind, Pane(_, s, w, p)) => PathTarget(kind, [handle, s, w, p], GenerationOf(c, PaneKey(s, w, p)), codec)
    case (TerminalKind, Pane(_, s, w, p)) => PathTarget(kind, [handle, s, w, p], GenerationOf(c, PaneKey(s, w, p)),
      codec)
    case _ => None
  }

  /** The resource that a path of this kind could mean. */
  function Candidate(scope: int, kind: ResourceKind, path: seq<string>, handle: string): Option<ExactTarget> {
    if path == [] || path[0] != handle then None
    else if kind.TerminalKind? && |path| == 2 && path[1] == ActiveTerminal() then Some(Binding(scope))
    else if (kind.SessionKind? || kind.TerminalKind?) && |path| == 2 then Some(Session(scope, path[1]))
    else if kind.MuxWindowKind? && |path| == 3 then Some(Window(scope, path[1], path[2]))
    else if (kind.PaneKind? || kind.TerminalKind?) && |path| == 4 then Some(Pane(scope, path[1], path[2], path[3]))
    else None
  }

  function Resolve(scope: int, c: Controller, target: CommandTarget, handle: string,
                   codec: Codec): (r: Option<ExactTarget>)
    ensures r.Some? ==> r.value.scope == scope && TargetOf(r.value, target.kind, c, handle, codec) == Some(target)
  {
    var candidate :=
      if target.kind.BindingKind? then Some(Binding(scope))
      else
        match codec.decode(target.handle)
        case None => None
        case Some(path) => Candidate(scope, target.kind, path, handle);
    if candidate.Some?
      && TargetOf(candidate.value, target.kind, c, handle, codec) == Some(target) then candidate else None
  }

  // ----- The round trip

  /** A session whose terminal target is spelled like the binding's own. */
  predicate Shadowed(t: ExactTarget, kind: ResourceKind) {
    kind.TerminalKind? && t.Session? && t.session == ActiveTerminal()
  }

  /** A target resolves to what it was made from, unless the session's name shadows it. */
  lemma RoundTrip(t: ExactTarget, kind: ResourceKind, c: Controller, handle: string, codec: Codec)
    requires Faithful(codec) && TargetOf(t, kind, c, handle, codec).Some?
    ensures Resolve(t.scope, c, TargetOf(t, kind, c, handle, codec).value, handle, codec) == Some(t)
      <==> !Shadowed(t, kind)
  {
    hide ActiveTerminal;
  }

  /** One target belongs to one resource. */
  lemma TargetsAreUnique(t: ExactTarget, u: ExactTarget, kind: ResourceKind, c: Controller, d: Controller,
                         handle: string, codec: Codec)
    requires Faithful(codec) && t.scope == u.scope && !Shadowed(t, kind) && !Shadowed(u, kind)
    requires TargetOf(t, kind, c, handle, codec).Some?
      && TargetOf(t, kind, c, handle, codec) == TargetOf(u, kind, d, handle, codec)
    ensures t == u
  {
    hide ActiveTerminal;
  }

  // ----- Held targets

  function KeyOf(t: ExactTarget): Key
    requires !t.Binding?
  {
    match t
    case Session(_, s) => SessionKey(s)
    case Window(_, s, w) => WindowKey(s, w)
    case Pane(_, s, w, p) => PaneKey(s, w, p)
  }

  /** Nothing of the resource changed from i to j. */
  ghost predicate Unreplaced(states: seq<Controller>, t: ExactTarget, i: nat, j: nat)
    requires i <= j < |states|
  {
    if t.Binding? then states[j].binding == states[i].binding else Continuous(states, KeyOf(t), i, j)
  }

  /** Made from a controller, the target resolves in another exactly when it would be made there too. */
  lemma ResolvesIfRemade(t: ExactTarget, kind: ResourceKind, c: Controller, d: Controller, handle: string, codec: Codec)
    requires Faithful(codec) && !Shadowed(t, kind)
    requires TargetOf(t, kind, c, handle, codec).Some?
    ensures var target := TargetOf(t, kind, c, handle, codec).value;
      && (Resolve(t.scope, d, target, handle, codec) == Some(t)
         <==> TargetOf(t, kind, d, handle, codec) == Some(target))
      && (Resolve(t.scope, d, target, handle, codec).Some? ==> Resolve(t.scope, d, target, handle, codec) == Some(t))
  {
    hide ActiveTerminal;
  }

  /**
   A target held from moment i resolves at moment j, and to its own resource, exactly when nothing
   replaced the resource in between.
   */
  lemma HeldTargetResolves(states: seq<Controller>, steps: seq<Step>, t: ExactTarget, kind: ResourceKind,
                           handle: string, codec: Codec, i: nat, j: nat)
    requires IsRun(states, steps) && i <= j < |states|
    requires Faithful(codec) && !Shadowed(t, kind)
    requires TargetOf(t, kind, states[i], handle, codec).Some?
    ensures var resolved := Resolve(t.scope, states[j], TargetOf(t, kind, states[i], handle, codec).value, handle,
      codec);
      resolved == if Unreplaced(states, t, i, j) then Some(t) else None
  {
    hide ActiveTerminal, IsRun, Resolve, Candidate, Continuous;
    ResolvesIfRemade(t, kind, states[i], states[j], handle, codec);
    if !t.Binding? {
      SameGenerationIsContinuous(states, steps, KeyOf(t), i, j);
    }
  }

  /**
   The shadowed terminal target can resolve to the whole binding: when the session's generation happens
   to be the binding's.
   */
  lemma ShadowedResolvesToBinding(t: ExactTarget, c: Controller, d: Controller, handle: string, codec: Codec)
    requires Faithful(codec) && Shadowed(t, TerminalKind)
    requires TargetOf(t, TerminalKind, c, handle, codec).Some?
    ensures var generation := c.generations[SessionKey(t.session)];
      Resolve(t.scope, d, TargetOf(t, TerminalKind, c, handle, codec).value, handle, codec)
      == if generation == d.binding then Some(Binding(t.scope)) else None
  {
    hide ActiveTerminal;
  }

  /** A server whose first snapshot has one session, with this id. */
  function FirstSnapshot(id: string, name: string): Topology {
    Topology(1, 1, [MuxSession(id, name, true, None, [])], None)
  }

  /** The generations after it: both the binding's and the session's are the first. */
  lemma FirstGenerations(id: string, name: string)
    ensures var c := Next(Init(1), Push(FirstSnapshot(id, name), None, 2));
      c.binding == 1 && GenerationOf(c, SessionKey(id)) == Some(1)
  {
    hide WithSessions, StableOrder, SelectionAfterRefresh, WindowAfterRefresh;
    var t := FirstSnapshot(id, name);
    NoPreviousOrder(t.sessions);
    OneSession(t.sessions[0]);
  }

  lemma NoPreviousOrder(sessions: seq<MuxSession>)
    ensures StableOrder([], sessions) == sessions
  {}

  lemma OneSession(session: MuxSession)
    requires session.windows == []
    ensures SessionKey(session.id) in WithSessions(map[], [session])
  {
    assert [session][1..] == [];
    assert WithSessions(map[], [session]) == WithWindows(map[SessionKey(session.id) := Present], session.id, []);
  }

  /** That case is reached at once: with the first session of a new binding. */
  lemma ShadowedIsReached(scope: int, name: string, handle: string, codec: Codec)
    requires Faithful(codec)
    ensures var step := Push(FirstSnapshot(ActiveTerminal(), name), None, 2);
      var states := [Init(1), Next(Init(1), step)]; var t := Session(scope, ActiveTerminal());
      && IsRun(states, [step])
      && TargetOf(t, TerminalKind, states[1], handle, codec).Some?
      && Resolve(scope, states[1], TargetOf(t, TerminalKind, states[1], handle, codec).value, handle, codec)
         == Some(Binding(scope))
  {
    hide ActiveTerminal, Next, Resolve, Faithful;
    var step := Push(FirstSnapshot(ActiveTerminal(), name), None, 2);
    var c := Next(Init(1), step);
    FirstGenerations(ActiveTerminal(), name);
    ShadowedResolvesToBinding(Session(scope, ActiveTerminal()), c, c, handle, codec);
  }
}
