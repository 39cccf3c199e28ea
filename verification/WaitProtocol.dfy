/**
 A client that waits for a condition on server state: it subscribes, reads a snapshot, then waits
 for events and reads again when one concerns it. Modelled as a state machine over every
 interleaving of the client, the server's waiting request and the publishers.

 The server's changes are numbered. Each change is announced, some time after it happened, by an
 event on a subscribed topic that is not the completion of the client's own snapshot command;
 announcements may come in any order, among any other events. The snapshot command is read-only,
 so its completions announce no change.
 */
module WaitProtocol {
  import opened Wrappers
  import opened Subscriptions

  /** What an event says: the command it completes, if any, and the change it announces, if any. */
  datatype Payload = Payload(command: Option<string>, change: Option<nat>)

  const COMMAND_COMPLETED_TOPIC := "command.completed"

  datatype Request<!V> = Request(command: string, topics: set<string>, scope: string, meets: V -> bool)

  datatype Outcome<V> = Matched(value: V) | TimedOut(snapshot: Option<V>) | Cancelled(snapshot: Option<V>) | Failed

  /** Where the client stands. Polling and Blocked are inside its event.wait request on the server. */
  datatype Client<V> =
    | Subscribing
    | Looping
    | ReadDone(value: V)
    | ReadyToWait
    | Polling(seen: nat)
    | Blocked(seen: nat)
    | Answered(batch: Batch<Payload>)
    | ToldToRebase
    | Done(outcome: Outcome<V>)

  datatype System<V> = System(
    history: seq<V>,                       // the state after each change; history[0] is the first state
    pending: set<nat>,                     // changes that are not announced yet
    published: set<nat>,                   // changes that are
    version: nat,                          // counts notifications
    sub: Option<Subscription<Payload>>,    // the client's current subscription
    client: Client<V>,
    cursor: nat,
    refresh: bool,
    snapshot: Option<V>,
    seenChanges: nat)                      // changes the last snapshot includes

  /** The events that do not make the client read again: completions of its own snapshot command. */
  predicate IsOwnCompletion<V>(r: Request<V>, e: Event<Payload>) {
    e.topic == COMMAND_COMPLETED_TOPIC && e.payload.command == Some(r.command)
  }

  ghost predicate Init<V>(s: System<V>) {
    && |s.history| == 1 && s.pending == {} && s.published == {}
    && s.sub == None && s.client == Subscribing && s.snapshot == None && s.seenChanges == 0
  }

  function Changes<V>(s: System<V>): nat {
    if |s.history| == 0 then 0 else |s.history| - 1
  }

  // ----- Steps of the server

  ghost predicate Change<V>(s: System<V>, t: System<V>) {
    && |t.history| == |s.history| + 1
    && t == s.(history := s.history + [t.history[|s.history|]], pending := s.pending + {|s.history|})
  }

  /** Publishing an event reaches the client's subscription and wakes every waiter. */
  function Published<V>(s: System<V>, n: Notice<Payload>): System<V> {
    s.(version := s.version + 1, sub := if s.sub.Some? then Some(Publish(s.sub.value, n)) else None)
  }

  ghost predicate Announce<V>(r: Request<V>, s: System<V>, t: System<V>) {
    exists n: Notice<Payload>, c: nat ::
      && c in s.pending && n.payload.change == Some(c)
      && n.scope == r.scope && n.topic in r.topics && !IsOwnCompletion(r, Number(n, 0))
      && t == Published(s, n).(pending := s.pending - {c}, published := s.published + {c})
  }

  ghost predicate OtherEvent<V>(s: System<V>, t: System<V>) {
    exists n: Notice<Payload> :: n.payload.change == None && t == Published(s, n)
  }

  // ----- Steps of the client and of its request

  ghost predicate Subscribe<V>(r: Request<V>, s: System<V>, t: System<V>) {
    && (s.client.Subscribing? || s.client.ToldToRebase?)
    && t == s.(sub := Some(NewSubscription(r.topics, r.scope)), client := Looping, cursor := 0, refresh := true,
               version := t.version)
    && (t.version == s.version || t.version == s.version + 1)  // dropping the old subscription notifies
  }

  ghost predicate ReadSnapshot<V>(s: System<V>, t: System<V>) {
    && s.client.Looping? && s.refresh && s.history != []
    && t == s.(client := ReadDone(s.history[|s.history| - 1]), seenChanges := Changes(s))
  }

  ghost predicate SkipRead<V>(s: System<V>, t: System<V>) {
    s.client.Looping? && !s.refresh && t == s.(client := ReadyToWait)
  }

  ghost predicate CheckSnapshot<V>(r: Request<V>, s: System<V>, t: System<V>) {
    && s.client.ReadDone?
    && t == if r.meets(s.client.value) then s.(client := Done(Matched(s.client.value)))
            else s.(client := ReadyToWait, snapshot := Some(s.client.value))
  }

  /** With no time left the loop starts over and stops at its deadline check. */
  ghost predicate NoTimeLeft<V>(s: System<V>, t: System<V>) {
    s.client.ReadyToWait? && t == s.(client := Done(TimedOut(s.snapshot)))
  }

  ghost predicate BeginWait<V>(s: System<V>, t: System<V>) {
    s.client.ReadyToWait? && t == s.(client := Polling(s.version))
  }

  ghost predicate PollOnce<V>(s: System<V>, t: System<V>, size: Event<Payload> -> nat) {
    && s.client.Polling? && s.sub.Some?
    && var (next, result) := Poll(s.sub.value, s.cursor, size);
       t == s.(sub := Some(next),
               client := match result
                         case Err(_) => ToldToRebase
                         case Ok(batch) => if batch.events == [] then Blocked(s.client.seen) else Answered(batch))
  }

  ghost predicate Wake<V>(s: System<V>, t: System<V>) {
    s.client.Blocked? && s.version != s.client.seen && t == s.(client := Polling(s.version))
  }

  /** The request's own timeout answers with an empty batch. */
  ghost predicate WaitTimesOut<V>(s: System<V>, t: System<V>) {
    s.client.Blocked? && t == s.(client := Answered(Batch(s.cursor, [])))
  }

  ghost predicate Receive<V>(r: Request<V>, s: System<V>, t: System<V>) {
    && s.client.Answered?
    && var events := s.client.batch.events;
       t == s.(client := Looping, cursor := s.client.batch.cursor,
               refresh := exists i :: 0 <= i < |events| && !IsOwnCompletion(r, events[i]))
  }

  /** Cancellation, the deadline and transport errors end the wait from anywhere. */
  ghost predicate GiveUp<V>(s: System<V>, t: System<V>) {
    && !s.client.Done?
    && (t == s.(client := Done(Cancelled(s.snapshot))) || t == s.(client := Done(TimedOut(s.snapshot)))
       || t == s.(client := Done(Failed)))
  }

  ghost predicate Next<V>(r: Request<V>, s: System<V>, t: System<V>, size: Event<Payload> -> nat) {
    || Change(s, t) || Announce(r, s, t) || OtherEvent(s, t)
    || Subscribe(r, s, t) || ReadSnapshot(s, t) || SkipRead(s, t) || CheckSnapshot(r, s, t) || NoTimeLeft(s, t)
    || BeginWait(s, t) || PollOnce(s, t, size) || Wake(s, t) || WaitTimesOut(s, t) || Receive(r, s, t) || GiveUp(s, t)
  }

  // ----- The invariant

  /** An event in the list tells of a change and makes the client read again. */
  ghost predicate Tells<V>(r: Request<V>, events: seq<Event<Payload>>, c: nat) {
    exists i :: 0 <= i < |events| && events[i].payload.change == Some(c) && !IsOwnCompletion(r, events[i])
  }

  /** A published change is in the snapshot, will make the client read again, or is still to be delivered. */
  ghost predicate Noticed<V>(r: Request<V>, s: System<V>, c: nat) {
    || c <= s.seenChanges
    || (s.client.Looping? && s.refresh)
    || s.client.Subscribing? || s.client.ToldToRebase? || s.client.Done?
    || (s.sub.Some? && s.sub.value.gap.Some?)
    || (s.sub.Some? && Tells(r, s.sub.value.events, c))
    || (s.client.Answered? && Tells(r, s.client.batch.events, c))
  }

  ghost predicate Inv<V>(r: Request<V>, s: System<V>) {
    && s.history != []
    && (forall c :: c in s.pending || c in s.published ==> c <= Changes(s))
    && s.seenChanges <= Changes(s)
    && (s.client.Subscribing? || s.client.Done? || s.sub.Some?)
    && (s.sub.Some? ==> s.sub.value.topics == r.topics && s.sub.value.scope == r.scope)
    && (forall c :: c in s.published ==> Noticed(r, s, c))
    // a waiter that has seen the latest notification has an empty queue
    && (s.client.Blocked? && s.client.seen == s.version ==> s.sub.value.events == [] && s.sub.value.gap.None?)
    && ((s.client.Blocked? || s.client.Polling?) ==> s.client.seen <= s.version)
    // the client's cursor is the server's, but for a batch that is on its way
    && (s.sub.Some? && s.client.Answered? ==> s.client.batch.cursor == s.sub.value.cursor)
    && (s.sub.Some? && !s.client.Answered? && !s.client.Subscribing? && !s.client.Done?
       ==> s.cursor == s.sub.value.cursor)
    && (s.client.ToldToRebase? ==> s.sub.value.gap.Some?)
    // what the client holds was read from the server
    && (s.client.ReadDone? ==> s.client.value in s.history)
    && (s.snapshot.Some? ==> s.snapshot.value in s.history)
    && (s.client.Done? && s.client.outcome.Matched? ==>
          s.client.outcome.value in s.history && r.meets(s.client.outcome.value))
  }

  lemma InitInv<V>(r: Request<V>, s: System<V>)
    requires Init(s)
    ensures Inv(r, s)
  {
  }

  lemma TellsPush<V>(r: Request<V>, events: seq<Event<Payload>>, e: Event<Payload>, c: nat)
    ensures Tells(r, events, c) ==> Tells(r, events + [e], c)
    ensures e.payload.change == Some(c) && !IsOwnCompletion(r, e) ==> Tells(r, events + [e], c)
  {
    if Tells(r, events, c) {
      var i :| 0 <= i < |events| && events[i].payload.change == Some(c) && !IsOwnCompletion(r, events[i]);
      assert (events + [e])[i] == events[i];
    }
    assert (events + [e])[|events|] == e;
  }

  lemma PublishedKeepsNotice<V>(r: Request<V>, s: System<V>, n: Notice<Payload>, c: nat)
    requires Noticed(r, s, c)
    ensures Noticed(r, Published(s, n), c)
  {
    if s.sub.Some? && Tells(r, s.sub.value.events, c) {
      TellsPush(r, s.sub.value.events, Number(n, s.sub.value.sequence + 1), c);
    }
  }

  /** An announcement on a subscribed topic is queued, or opens a gap. */
  lemma AnnouncedIsNoticed<V>(r: Request<V>, s: System<V>, n: Notice<Payload>, c: nat)
    requires Inv(r, s) && n.payload.change == Some(c)
    requires n.scope == r.scope && n.topic in r.topics && !IsOwnCompletion(r, Number(n, 0))
    ensures Noticed(r, Published(s, n), c)
  {
    if s.sub.Some? {
      TellsPush(r, s.sub.value.events, Number(n, s.sub.value.sequence + 1), c);
    }
  }

  lemma AnnounceKeepsInv<V>(r: Request<V>, s: System<V>, t: System<V>)
    requires Inv(r, s) && Announce(r, s, t)
    ensures Inv(r, t)
  {
    var n: Notice<Payload>, c: nat :|
      && c in s.pending && n.payload.change == Some(c)
      && n.scope == r.scope && n.topic in r.topics && !IsOwnCompletion(r, Number(n, 0))
      && t == Published(s, n).(pending := s.pending - {c}, published := s.published + {c});
    AnnouncedIsNoticed(r, s, n, c);
    forall d | d in s.published ensures Noticed(r, t, d) {
      PublishedKeepsNotice(r, s, n, d);
    }
  }

  lemma OtherEventKeepsInv<V>(r: Request<V>, s: System<V>, t: System<V>)
    requires Inv(r, s) && OtherEvent(s, t)
    ensures Inv(r, t)
  {
    var n: Notice<Payload> :| n.payload.change == None && t == Published(s, n);
    forall d | d in s.published ensures Noticed(r, t, d) {
      PublishedKeepsNotice(r, s, n, d);
    }
  }

  lemma PollKeepsInv<V>(r: Request<V>, s: System<V>, t: System<V>, size: Event<Payload> -> nat)
    requires Inv(r, s) && PollOnce(s, t, size)
    ensures Inv(r, t)
  {
    var sub := s.sub.value;
    var n := Fitting(sub.events, size, 0);
    forall c | c in s.published ensures Noticed(r, t, c) {
      assert Noticed(r, s, c);
      if Tells(r, sub.events, c) {
        var i :| 0 <= i < |sub.events| && sub.events[i].payload.change == Some(c) && !IsOwnCompletion(r, sub.events[i]);
        if i < n {
          assert sub.events[..n][i] == sub.events[i];
        } else {
          assert sub.events[n..][i - n] == sub.events[i];
        }
      }
    }
  }

  lemma ReceiveKeepsInv<V>(r: Request<V>, s: System<V>, t: System<V>)
    requires Inv(r, s) && Receive(r, s, t)
    ensures Inv(r, t)
  {
    forall c | c in s.published ensures Noticed(r, t, c) {
      assert Noticed(r, s, c);
    }
  }

  lemma SnapshotStepKeepsInv<V>(r: Request<V>, s: System<V>, t: System<V>)
    requires Inv(r, s)
    requires Subscribe(r, s, t) || ReadSnapshot(s, t) || SkipRead(s, t) || CheckSnapshot(r, s, t)
    ensures Inv(r, t)
  {
    forall c | c in s.published ensures Noticed(r, t, c) {
      assert Noticed(r, s, c);
    }
  }

  lemma WaitingStepKeepsInv<V>(r: Request<V>, s: System<V>, t: System<V>)
    requires Inv(r, s)
    requires NoTimeLeft(s, t) || BeginWait(s, t) || Wake(s, t) || WaitTimesOut(s, t) || GiveUp(s, t)
    ensures Inv(r, t)
  {
    forall c | c in s.published ensures Noticed(r, t, c) {
      assert Noticed(r, s, c);
    }
  }

  lemma ChangeKeepsInv<V>(r: Request<V>, s: System<V>, t: System<V>)
    requires Inv(r, s) && Change(s, t)
    ensures Inv(r, t)
  {
    forall c | c in s.published ensures Noticed(r, t, c) {
      assert Noticed(r, s, c);
    }
  }

  lemma NextKeepsInv<V>(r: Request<V>, s: System<V>, t: System<V>, size: Event<Payload> -> nat)
    requires Inv(r, s) && Next(r, s, t, size)
    ensures Inv(r, t)
  {
    if Change(s, t) {
      ChangeKeepsInv(r, s, t);
    } else if Announce(r, s, t) {
      AnnounceKeepsInv(r, s, t);
    } else if OtherEvent(s, t) {
      OtherEventKeepsInv(r, s, t);
    } else if PollOnce(s, t, size) {
      PollKeepsInv(r, s, t, size);
    } else if Receive(r, s, t) {
      ReceiveKeepsInv(r, s, t);
    } else if Subscribe(r, s, t) || ReadSnapshot(s, t) || SkipRead(s, t) || CheckSnapshot(r, s, t) {
      SnapshotStepKeepsInv(r, s, t);
    } else {
      WaitingStepKeepsInv(r, s, t);
    }
  }

  // ----- Executions

  ghost predicate IsExecution<V>(r: Request<V>, states: seq<System<V>>, size: Event<Payload> -> nat) {
    && states != [] && Init(states[0])
    && forall i :: 0 <= i < |states| - 1 ==> Next(r, states[i], states[i + 1], size)
  }

  lemma {:induction false} ExecutionInv<V>(r: Request<V>, states: seq<System<V>>, size: Event<Payload> -> nat, i: nat)
    requires IsExecution(r, states, size) && i < |states|
    ensures Inv(r, states[i])
    decreases i
  {
    if i == 0 {
      InitInv(r, states[0]);
    } else {
      ExecutionInv(r, states, size, i - 1);
      NextKeepsInv(r, states[i - 1], states[i], size);
    }
  }

  /**
   No wake-up is lost: in every execution, while the client's request sleeps with no notification
   left to see, its last snapshot includes every change that has been announced.
   */
  lemma NeverSleepsOnStaleSnapshot<V>(r: Request<V>, states: seq<System<V>>, size: Event<Payload> -> nat, i: nat)
    requires IsExecution(r, states, size) && i < |states|
    ensures var s := states[i];
      s.client.Blocked? && s.version == s.client.seen ==> forall c :: c in s.published ==> c <= s.seenChanges
  {
    ExecutionInv(r, states, size, i);
    var s := states[i];
    if s.client.Blocked? && s.version == s.client.seen {
      forall c | c in s.published ensures c <= s.seenChanges {
        assert Noticed(r, s, c);
      }
    }
  }

  /** Every answer that claims a match carries a state the server was in and that meets the condition. */
  lemma MatchedIsGenuine<V>(r: Request<V>, states: seq<System<V>>, size: Event<Payload> -> nat, i: nat)
    requires IsExecution(r, states, size) && i < |states|
    requires states[i].client.Done? && states[i].client.outcome.Matched?
    ensures states[i].client.outcome.value in states[i].history && r.meets(states[i].client.outcome.value)
  {
    ExecutionInv(r, states, size, i);
  }

  /** The client is sent back to subscribe only when its subscription has a gap. */
  lemma RebaseOnlyOnGap<V>(r: Request<V>, states: seq<System<V>>, size: Event<Payload> -> nat, i: nat)
    requires IsExecution(r, states, size) && i < |states| && states[i].client.ToldToRebase?
    ensures states[i].sub.Some? && states[i].sub.value.gap.Some?
  {
    ExecutionInv(r, states, size, i);
  }

  // ----- Why the snapshot command must be read-only

  /**
   An announcement that carries the completion of the client's own snapshot command. The client refuses
   to wait with a command that is not read-only, so none of its steps is one.
   */
  ghost predicate AnnounceAsOwn<V>(r: Request<V>, s: System<V>, t: System<V>) {
    exists n: Notice<Payload>, c: nat ::
      && c in s.pending && n.payload.change == Some(c)
      && n.scope == r.scope && n.topic in r.topics && IsOwnCompletion(r, Number(n, 0))
      && t == Published(s, n).(pending := s.pending - {c}, published := s.published + {c})
  }

  function Waiting<V>(r: Request<V>, first: V, later: V, own: Notice<Payload>, step: nat): System<V> {
    var sub := NewSubscription(r.topics, r.scope);
    var told := Publish(sub, own);
    var start := System([first], {}, {}, 0, None, Subscribing, 0, true, None, 0);
    if step == 0 then start
    else if step == 1 then start.(sub := Some(sub), client := Looping)
    else if step == 2 then start.(sub := Some(sub), client := ReadDone(first))
    else
      var read := start.(sub := Some(sub), client := ReadyToWait, snapshot := Some(first));
      if step == 3 then read
      else if step == 4 then read.(history := [first, later], pending := {1})
      else
        var after := read.(history := [first, later], published := {1}, version := 1, sub := Some(told));
        if step == 5 then after
        else if step == 6 then after.(client := Polling(1))
        else
          var empty := after.(sub := Some(told.(events := [], cursor := 1)));
          if step == 7 then empty.(client := Answered(Batch(1, told.events)))
          else if step == 8 then empty.(client := Looping, cursor := 1, refresh := false)
          else if step == 9 then empty.(cursor := 1, refresh := false)
          else if step == 10 then empty.(client := Polling(1), cursor := 1, refresh := false)
          else empty.(client := Blocked(1), cursor := 1, refresh := false)
  }

  /**
   The refusal is needed. If a change could be announced by such a completion, the client could sleep
   on a stale snapshot: it would receive the event, take it for its own and wait on.
   */
  lemma OwnCompletionLosesWakeup<V>(r: Request<V>, first: V, later: V, size: Event<Payload> -> nat,
                                    own: Notice<Payload>)
    requires !r.meets(first) && COMMAND_COMPLETED_TOPIC in r.topics
    requires own == Notice(r.scope, 1, COMMAND_COMPLETED_TOPIC, Payload(Some(r.command), Some(1)))
    requires forall e :: size(e) <= REQUEST_LIMIT / 2
    ensures Init(Waiting(r, first, later, own, 0))
    ensures forall i :: 0 <= i < 11 ==>
      || Next(r, Waiting(r, first, later, own, i), Waiting(r, first, later, own, i + 1), size)
      || AnnounceAsOwn(r, Waiting(r, first, later, own, i), Waiting(r, first, later, own, i + 1))
    ensures var s := Waiting(r, first, later, own, 11);
      s.client == Blocked(s.version) && 1 in s.published && s.seenChanges == 0
  {
    forall i | 0 <= i < 11
      ensures || Next(r, Waiting(r, first, later, own, i), Waiting(r, first, later, own, i + 1), size)
              || AnnounceAsOwn(r, Waiting(r, first, later, own, i), Waiting(r, first, later, own, i + 1))
    {
      if i < 4 {
        WaitingReads(r, first, later, size, own, i);
      } else if i == 4 {
        WaitingIsTold(r, first, later, own);
      } else if i == 6 || i == 10 {
        WaitingPolls(r, first, later, size, own, i);
      } else {
        WaitingGoesOn(r, first, later, size, own, i);
      }
    }
  }

  lemma WaitingReads<V>(r: Request<V>, first: V, later: V, size: Event<Payload> -> nat, own: Notice<Payload>, i: nat)
    requires !r.meets(first) && i < 4
    ensures Next(r, Waiting(r, first, later, own, i), Waiting(r, first, later, own, i + 1), size)
  {
    var s, t := Waiting(r, first, later, own, i), Waiting(r, first, later, own, i + 1);
    if i == 0 {
      assert Subscribe(r, s, t);
    } else if i == 1 {
      assert ReadSnapshot(s, t);
    } else if i == 2 {
      assert CheckSnapshot(r, s, t);
    } else {
      assert [first] + [later] == [first, later];
      assert Change(s, t);
    }
  }

  lemma WaitingIsTold<V>(r: Request<V>, first: V, later: V, own: Notice<Payload>)
    requires COMMAND_COMPLETED_TOPIC in r.topics
    requires own == Notice(r.scope, 1, COMMAND_COMPLETED_TOPIC, Payload(Some(r.command), Some(1)))
    ensures AnnounceAsOwn(r, Waiting(r, first, later, own, 4), Waiting(r, first, later, own, 5))
  {
    var s, t := Waiting(r, first, later, own, 4), Waiting(r, first, later, own, 5);
    assert s.pending - {1} == {} && s.published + {1} == {1};
    assert t == Published(s, own).(pending := s.pending - {1}, published := s.published + {1});
  }

  lemma WaitingPolls<V>(r: Request<V>, first: V, later: V, size: Event<Payload> -> nat, own: Notice<Payload>, i: nat)
    requires COMMAND_COMPLETED_TOPIC in r.topics && (i == 6 || i == 10)
    requires own == Notice(r.scope, 1, COMMAND_COMPLETED_TOPIC, Payload(Some(r.command), Some(1)))
    requires forall e :: size(e) <= REQUEST_LIMIT / 2
    ensures PollOnce(Waiting(r, first, later, own, i), Waiting(r, first, later, own, i + 1), size)
  {
    var event := Number(own, 1);
    assert Publish(NewSubscription(r.topics, r.scope), own).events == [event];
    assert [event][..1] == [event] && [event][1..] == [];
    assert Fitting([event], size, 0) == 1;
  }

  lemma WaitingGoesOn<V>(r: Request<V>, first: V, later: V, size: Event<Payload> -> nat, own: Notice<Payload>, i: nat)
    requires COMMAND_COMPLETED_TOPIC in r.topics && (i == 5 || 7 <= i <= 9)
    requires own == Notice(r.scope, 1, COMMAND_COMPLETED_TOPIC, Payload(Some(r.command), Some(1)))
    ensures Next(r, Waiting(r, first, later, own, i), Waiting(r, first, later, own, i + 1), size)
  {
    var s, t := Waiting(r, first, later, own, i), Waiting(r, first, later, own, i + 1);
    if i == 5 || i == 9 {
      assert BeginWait(s, t);
    } else if i == 7 {
      assert Receive(r, s, t);
    } else {
      assert SkipRead(s, t);
    }
  }
}
