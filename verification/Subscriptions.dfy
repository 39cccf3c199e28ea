/**
 One event subscription of the control plane: a bounded queue with a sequence, a cursor and a
 sticky gap. The size of a serialised event is a parameter, so every statement holds for any
 encoding.
 */
module Subscriptions {
  import opened Wrappers

  const EVENT_QUEUE_LIMIT: nat := 64
  const REQUEST_LIMIT: nat := 1024 * 1024
  const U64_MAX: nat := 0xFFFF_FFFF_FFFF_FFFF

  datatype Event<P> = Event(sequence: nat, scope: string, revision: nat, topic: string, payload: P)

  /** An event before a subscription has numbered it. */
  datatype Notice<P> = Notice(scope: string, revision: nat, topic: string, payload: P)

  datatype Subscription<P> = Subscription(
    topics: set<string>,
    scope: string,
    sequence: nat,
    cursor: nat,
    events: seq<Event<P>>,
    gap: Option<nat>)

  datatype Batch<P> = Batch(cursor: nat, events: seq<Event<P>>)

  /** The error that asks a client to subscribe again and take a snapshot. */
  datatype Rebase = Rebase(cursor: nat, sequence: nat)

  function NewSubscription<P>(topics: set<string>, scope: string): Subscription<P> {
    Subscription(topics, scope, 0, 0, [], None)
  }

  predicate Matches<P>(s: Subscription<P>, n: Notice<P>) {
    s.scope == n.scope && n.topic in s.topics
  }

  function Number<P>(n: Notice<P>, sequence: nat): Event<P> {
    Event(sequence, n.scope, n.revision, n.topic, n.payload)
  }

  /** What publishing a notice does to one subscription. */
  function Publish<P>(s: Subscription<P>, n: Notice<P>): Subscription<P> {
    if !Matches(s, n) then s
    else if s.sequence == U64_MAX then s.(events := [], gap := Some(s.sequence))
    else
      var next := s.sequence + 1;
      if s.gap.Some? || |s.events| >= EVENT_QUEUE_LIMIT
      then s.(sequence := next, events := [], gap := Some(next))
      else s.(sequence := next, events := s.events + [Number(n, next)])
  }

  function Bytes<P>(events: seq<Event<P>>, size: Event<P> -> nat): nat {
    if events == [] then 0 else size(events[0]) + Bytes(events[1..], size)
  }

  /** How many queued events fit in one response, given the bytes already taken. */
  function Fitting<P>(events: seq<Event<P>>, size: Event<P> -> nat, taken: nat): (n: nat)
    ensures n <= |events|
  {
    if events == [] || taken + size(events[0]) > REQUEST_LIMIT / 2 then 0
    else 1 + Fitting(events[1..], size, taken + size(events[0]))
  }

  /** What a poll does: the subscription after it, and the batch or the rebase error. */
  function Poll<P>(s: Subscription<P>, cursor: nat, size: Event<P> -> nat): (Subscription<P>, Result<Batch<P>,
                   Rebase>) {
    if s.gap.Some? then (s, Err(Rebase(s.cursor, s.gap.value)))
    else if cursor != s.cursor then (s, Err(Rebase(s.cursor, s.sequence)))
    else
      var n := Fitting(s.events, size, 0);
      if n == 0 && s.events != [] then (s.(events := [], gap := Some(s.sequence)), Err(Rebase(s.cursor, s.sequence)))
      else
        var next := if n == 0 then s.cursor else s.events[n - 1].sequence;
        (s.(events := s.events[n..], cursor := next), Ok(Batch(next, s.events[..n])))
  }

  /** The loop that fills a batch from the front of the queue. */
  method TakeBatch<P>(queue: seq<Event<P>>, size: Event<P> -> nat) returns (batch: seq<Event<P>>, rest: seq<Event<P>>)
    ensures batch == queue[..Fitting(queue, size, 0)] && rest == queue[Fitting(queue, size, 0)..]
    ensures batch + rest == queue && Bytes(batch, size) <= REQUEST_LIMIT / 2
  {
    hide Bytes;
    batch, rest := [], queue;
    var bytes := 0;
    NoBytes(size);
    while rest != []
      invariant batch + rest == queue
      invariant bytes == Bytes(batch, size) <= REQUEST_LIMIT / 2
      invariant |batch| + Fitting(rest, size, bytes) == Fitting(queue, size, 0)
      decreases |rest|
    {
      var event := rest[0];
      var total := bytes + size(event);
      if total > REQUEST_LIMIT / 2 {
        break;
      }
      bytes := total;
      BytesPush(batch, event, size);
      batch, rest := batch + [event], rest[1..];
    }
  }

  lemma NoBytes<P>(size: Event<P> -> nat)
    ensures Bytes([], size) == 0
  {}

  lemma {:induction false} BytesPush<P>(events: seq<Event<P>>, e: Event<P>, size: Event<P> -> nat)
    ensures Bytes(events + [e], size) == Bytes(events, size) + size(e)
  {
    if events == [] {
      assert events + [e] == [e];
    } else {
      BytesPush(events[1..], e, size);
      assert (events + [e])[1..] == events[1..] + [e];
    }
  }

  // ----- Runs of one subscription

  datatype Op<P> = OnPublish(notice: Notice<P>) | OnPoll(cursor: nat)

  /** A subscription with the events it should have seen and those its polls have returned. */
  datatype Trace<P> = Trace(sub: Subscription<P>, matching: seq<Event<P>>, delivered: seq<Event<P>>)

  function Step<P>(t: Trace<P>, op: Op<P>, size: Event<P> -> nat): Trace<P> {
    match op
    case OnPublish(n) =>
      Trace(Publish(t.sub, n),
            if Matches(t.sub, n) then t.matching + [Number(n, |t.matching| + 1)] else t.matching,
            t.delivered)
    case OnPoll(cursor) =>
      var (sub, result) := Poll(t.sub, cursor, size);
      Trace(sub, t.matching, if result.Ok? then t.delivered + result.value.events else t.delivered)
  }

  function Run<P>(t: Trace<P>, ops: seq<Op<P>>, size: Event<P> -> nat): Trace<P>
    decreases |ops|
  {
    if ops == [] then t else Run(Step(t, ops[0], size), ops[1..], size)
  }

  /**
   The stream is exact. What was delivered is the beginning of what should be seen, and the cursor
   counts it. Without a gap the queue holds precisely the rest.
   */
  ghost predicate Exact<P>(t: Trace<P>) {
    && (forall i :: 0 <= i < |t.matching| ==> t.matching[i].sequence == i + 1)
    && t.delivered <= t.matching
    && t.sub.cursor == |t.delivered|
    && (t.sub.gap.None? ==>
          && t.delivered + t.sub.events == t.matching
          && t.sub.sequence == |t.matching| <= U64_MAX
          && |t.sub.events| <= EVENT_QUEUE_LIMIT)
    && (t.sub.gap.Some? ==> t.sub.events == [])
  }

  lemma StepKeepsExact<P>(t: Trace<P>, op: Op<P>, size: Event<P> -> nat)
    requires Exact(t)
    ensures Exact(Step(t, op, size))
  {
    match op {
      case OnPublish(n) => PublishKeepsExact(t, n, size);
      case OnPoll(cursor) => PollKeepsExact(t, cursor, size);
    }
  }

  lemma PublishKeepsExact<P>(t: Trace<P>, n: Notice<P>, size: Event<P> -> nat)
    requires Exact(t)
    ensures Exact(Step(t, OnPublish(n), size))
  {
    if Matches(t.sub, n) && t.sub.gap.None? {
      var next := Number(n, |t.matching| + 1);
      assert t.delivered + (t.sub.events + [next]) == (t.delivered + t.sub.events) + [next];
    }
  }

  lemma PollKeepsExact<P>(t: Trace<P>, cursor: nat, size: Event<P> -> nat)
    requires Exact(t)
    ensures Exact(Step(t, OnPoll(cursor), size))
  {
    hide Fitting;
    if t.sub.gap.None? && cursor == t.sub.cursor {
      var n := Fitting(t.sub.events, size, 0);
      var head, rest := t.sub.events[..n], t.sub.events[n..];
      assert t.delivered + t.sub.events == (t.delivered + head) + rest;
      if n > 0 {
        assert t.sub.events[n - 1] == t.matching[|t.delivered| + n - 1];
      }
    }
  }

  lemma {:induction false} RunKeepsExact<P>(t: Trace<P>, ops: seq<Op<P>>, size: Event<P> -> nat)
    requires Exact(t)
    ensures Exact(Run(t, ops, size))
    decreases |ops|
  {
    if ops != [] {
      StepKeepsExact(t, ops[0], size);
      RunKeepsExact(Step(t, ops[0], size), ops[1..], size);
    }
  }

  /** From its creation on, every run of a subscription delivers an exact stream. */
  lemma StreamExact<P>(topics: set<string>, scope: string, ops: seq<Op<P>>, size: Event<P> -> nat)
    ensures Exact(Run(Trace(NewSubscription(topics, scope), [], []), ops, size))
  {
    RunKeepsExact(Trace(NewSubscription(topics, scope), [], []), ops, size);
  }

  /** Once there is a gap it stays, nothing more is delivered and every poll asks for a rebase. */
  lemma {:induction false} GapIsSticky<P>(t: Trace<P>, ops: seq<Op<P>>, size: Event<P> -> nat)
    requires t.sub.gap.Some?
    ensures Run(t, ops, size).sub.gap.Some?
    ensures Run(t, ops, size).delivered == t.delivered
    ensures forall cursor :: Poll(Run(t, ops, size).sub, cursor, size).1.Err?
    decreases |ops|
  {
    if ops != [] {
      GapIsSticky(Step(t, ops[0], size), ops[1..], size);
    }
  }

  /**
   A poll at the cursor of a subscription without a gap either answers with events, or finds the
   queue empty, or meets an event too large to send and opens a gap.
   */
  lemma PollProgress<P>(s: Subscription<P>, size: Event<P> -> nat)
    requires s.gap.None?
    ensures var (next, result) := Poll(s, s.cursor, size);
      && (s.events == [] ==> result == Ok(Batch(s.cursor, [])) && next == s)
      && (s.events != [] && size(s.events[0]) <= REQUEST_LIMIT / 2 ==>
            result.Ok? && result.value.events != [] && result.value.events <= s.events && next.gap.None?)
      && (s.events != [] && size(s.events[0]) > REQUEST_LIMIT / 2 ==> result.Err? && next.gap.Some?)
  {
  }
}
