/**
 The shared state of the control server: detached tasks, event subscriptions, the revision of each
 scope and a counter that wakes waiting requests. Random capability ids are parameters; they are
 fresh because the server draws again while an id is taken.
 */
module ControlStates {
  import opened Wrappers
  import opened Subscriptions
  import Tasks

  const MAX_SUBSCRIPTIONS: nat := 64

  datatype RpcError = LimitReached | Unknown | RebaseRequired(rebase: Rebase)

  class ControlState<P> {
    var tasks: map<Tasks.TaskId, Tasks.TaskRecord>
    var completedTasks: seq<Tasks.TaskId>
    var subscriptions: map<string, Subscription<P>>
    var revisions: map<string, nat>
    /** Counts notifications; a waiter sleeps while it has seen the latest. */
    var changed: nat

    ghost function Table(): Tasks.TaskTable
      reads this
    {
      Tasks.TaskTable(tasks, completedTasks)
    }

    /** The bounds the server keeps on its subscriptions. */
    ghost predicate Valid()
      reads this
    {
      && |subscriptions| <= MAX_SUBSCRIPTIONS
      && forall id :: id in subscriptions ==> |subscriptions[id].events| <= EVENT_QUEUE_LIMIT
    }

    function Revision(scope: string): nat
      reads this
    {
      if scope in revisions then revisions[scope] else 0
    }

    constructor ()
      ensures Valid() && Table() == Tasks.TaskTable(map[], []) && subscriptions == map[] && revisions == map[]
    {
      tasks, completedTasks, subscriptions, revisions, changed := map[], [], map[], map[], 0;
    }

    method StartTask(id: Tasks.TaskId, ownerPid: nat) returns (result: Result<Tasks.TaskId, RpcError>)
      requires id !in Tasks.MakeRoom(Table()).tasks
      modifies this`tasks, this`completedTasks
      ensures Table() == Tasks.Step(old(Table()), Tasks.DoStart(id, ownerPid))
      ensures result == if Tasks.Start(old(Table()), id, ownerPid).Some? then Ok(id) else Err(LimitReached)
    {
      while |tasks| >= Tasks.MAX_TASKS
        invariant Tasks.MakeRoom(Table()) == Tasks.MakeRoom(old(Table()))
        decreases |completedTasks|
      {
        if completedTasks == [] {
          return Err(LimitReached);
        }
        tasks := tasks - {completedTasks[0]};
        completedTasks := completedTasks[1..];
      }
      tasks := tasks[id := Tasks.NewTask(ownerPid)];
      result := Ok(id);
    }

    method RemoveTask(id: Tasks.TaskId)
      modifies this`tasks
      ensures Table() == Tasks.Step(old(Table()), Tasks.DoRemove(id))
    {
      tasks := tasks - {id};
    }

    method FinishTask(id: Tasks.TaskId, outcome: Tasks.Outcome)
      modifies this`tasks, this`completedTasks
      ensures Table() == Tasks.Step(old(Table()), Tasks.DoFinish(id, outcome))
    {
      if id !in tasks {
        return;
      }
      if !tasks[id].state.Completed? {
        tasks := tasks[id := tasks[id].(state := Tasks.Completed(outcome))];
        completedTasks := completedTasks + [id];
      }
    }

    method CancelTask(id: Tasks.TaskId) returns (result: Result<Tasks.TaskRecord, RpcError>)
      modifies this`tasks
      ensures Table() == Tasks.Step(old(Table()), Tasks.DoCancel(id))
      ensures result == if id in tasks then Ok(tasks[id]) else Err(Unknown)
    {
      if id !in tasks {
        return Err(Unknown);
      }
      var record := tasks[id];
      if record.state.Running? && record.token.Pending? {
        record := record.(token := Tasks.Cancelled, state := Tasks.Cancelling);
      }
      tasks := tasks[id := record];
      result := Ok(record);
    }

    method CreateSubscription(id: string, topics: set<string>, scope: string) returns (result: Result<nat, RpcError>)
      requires Valid() && id !in subscriptions
      modifies this`subscriptions
      ensures Valid()
      ensures result == if |old(subscriptions)| >= MAX_SUBSCRIPTIONS then Err(LimitReached) else Ok(Revision(scope))
      ensures subscriptions == if result.Ok? then old(subscriptions)[id := NewSubscription(topics, scope)]
        else old(subscriptions)
    {
      if |subscriptions| >= MAX_SUBSCRIPTIONS {
        return Err(LimitReached);
      }
      subscriptions := subscriptions[id := NewSubscription(topics, scope)];
      assert subscriptions.Keys == old(subscriptions).Keys + {id};
      result := Ok(Revision(scope));
    }

    method PollSubscription(id: string, cursor: nat, size: Event<P> -> nat) returns (result: Result<Batch<P>, RpcError>)
      requires Valid()
      modifies this`subscriptions
      ensures Valid()
      ensures id !in old(subscriptions) ==> result == Err(Unknown) && subscriptions == old(subscriptions)
      ensures id in old(subscriptions) ==>
        var (next, polled) := Poll(old(subscriptions)[id], cursor, size);
        && subscriptions == old(subscriptions)[id := next]
        && result == match polled { case Ok(batch) => Ok(batch) case Err(rebase) => Err(RebaseRequired(rebase)) }
    {
      if id !in subscriptions {
        return Err(Unknown);
      }
      var record := subscriptions[id];
      assert subscriptions[id := record] == subscriptions;
      if record.gap.Some? {
        return Err(RebaseRequired(Rebase(record.cursor, record.gap.value)));
      }
      if cursor != record.cursor {
        return Err(RebaseRequired(Rebase(record.cursor, record.sequence)));
      }
      var events, rest := TakeBatch(record.events, size);
      record := record.(events := rest);
      if events == [] && rest != [] {
        record := record.(events := [], gap := Some(record.sequence));
        subscriptions := subscriptions[id := record];
        assert subscriptions.Keys == old(subscriptions).Keys;
        return Err(RebaseRequired(Rebase(record.cursor, record.sequence)));
      }
      if events != [] {
        record := record.(cursor := events[|events| - 1].sequence);
      }
      subscriptions := subscriptions[id := record];
      assert subscriptions.Keys == old(subscriptions).Keys;
      result := Ok(Batch(record.cursor, events));
    }

    method Unsubscribe(id: string) returns (result: Result<(), RpcError>)
      requires Valid()
      modifies this`subscriptions, this`changed
      ensures Valid() && subscriptions == old(subscriptions) - {id}
      ensures if id in old(subscriptions) then result == Ok(()) && changed == old(changed) + 1
              else result == Err(Unknown) && changed == old(changed)
    {
      if id !in subscriptions {
        assert subscriptions - {id} == subscriptions;
        return Err(Unknown);
      }
      assert (subscriptions - {id}).Keys == subscriptions.Keys - {id};
      subscriptions := subscriptions - {id};
      changed := changed + 1;
      result := Ok(());
    }

    /** Publishes an event: each subscription takes it as Publish says, then every waiter is woken. */
    method PublishEvent(scope: string, topic: string, payload: P)
      requires Valid()
      modifies this`subscriptions, this`revisions, this`changed
      ensures Valid() && changed == old(changed) + 1
      ensures revisions == old(revisions)[scope := (old(Revision(scope)) + 1) % (U64_MAX + 1)]
      ensures subscriptions.Keys == old(subscriptions).Keys
      ensures forall id :: id in subscriptions ==>
        subscriptions[id] == Publish(old(subscriptions)[id], Notice(scope, Revision(scope), topic, payload))
    {
      hide Publish;
      var revision := (Revision(scope) + 1) % (U64_MAX + 1);
      revisions := revisions[scope := revision];
      subscriptions := DeliverAll(subscriptions, scope, revision, topic, payload);
      assert |subscriptions| == |subscriptions.Keys| == |old(subscriptions)|;
      PublishBounded(old(subscriptions), subscriptions, Notice(scope, revision, topic, payload));
      changed := changed + 1;
    }
  }

  /** Every subscription with a published event delivered to it. */
  method DeliverAll<P>(before: map<string, Subscription<P>>, scope: string, revision: nat, topic: string, payload: P)
    returns (after: map<string, Subscription<P>>)
    ensures after.Keys == before.Keys
    ensures forall id :: id in after ==> after[id] == Publish(before[id], Notice(scope, revision, topic, payload))
  {
    hide Publish;
    after := before;
    var remaining := before.Keys;
    while remaining != {}
      invariant after.Keys == before.Keys && remaining <= before.Keys
      invariant forall id :: id in after ==>
        after[id] == if id in remaining then before[id]
          else Publish(before[id], Notice(scope, revision, topic, payload))
      decreases remaining
    {
      var id :| id in remaining;
      var next := Deliver(after[id], scope, revision, topic, payload);
      after := after[id := next];
      remaining := remaining - {id};
    }
  }

  /** What one subscription does with a published event. */
  method Deliver<P>(before: Subscription<P>, scope: string, revision: nat, topic: string, payload: P)
      returns (after: Subscription<P>)
    ensures after == Publish(before, Notice(scope, revision, topic, payload))
  {
    if before.scope != scope || topic !in before.topics {
      return before;
    }
    if before.sequence == U64_MAX {
      return before.(events := [], gap := Some(before.sequence));
    }
    var sequence := before.sequence + 1;
    if before.gap.Some? || |before.events| >= EVENT_QUEUE_LIMIT {
      return before.(sequence := sequence, events := [], gap := Some(sequence));
    }
    after := before.(sequence := sequence, events := before.events
      + [Event(sequence, scope, revision, topic, payload)]);
  }

  lemma PublishBounded<P>(before: map<string, Subscription<P>>, after: map<string, Subscription<P>>, notice: Notice<P>)
    requires after.Keys == before.Keys
    requires forall id :: id in before ==> |before[id].events| <= EVENT_QUEUE_LIMIT
    requires forall id :: id in after ==> after[id] == Publish(before[id], notice)
    ensures forall id :: id in after ==> |after[id].events| <= EVENT_QUEUE_LIMIT
  {}
}
