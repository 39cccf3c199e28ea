/** The bounded table of detached command tasks, and what every run of it keeps. */
module Tasks {
  import opened Wrappers
  import opened Sequences

  const MAX_TASKS: nat := 64

  type TaskId = string
  type Outcome = string

  /** The one-shot token shared with the worker: it is started or cancelled, never both. */
  datatype Token = Pending | Started | Cancelled

  datatype TaskState = Running | Cancelling | Completed(outcome: Outcome)

  datatype TaskRecord = TaskRecord(ownerPid: nat, token: Token, state: TaskState)

  datatype TaskTable = TaskTable(tasks: map<TaskId, TaskRecord>, completed: seq<TaskId>)

  /** Drops completed tasks, oldest first, until there is room. */
  function MakeRoom(t: TaskTable): TaskTable
    decreases |t.completed|
  {
    if |t.tasks| >= MAX_TASKS && t.completed != []
    then MakeRoom(TaskTable(t.tasks - {t.completed[0]}, t.completed[1..]))
    else t
  }

  function NewTask(ownerPid: nat): TaskRecord {
    TaskRecord(ownerPid, Pending, Running)
  }

  /** The table after a start request; None when it is refused for capacity. */
  function Start(t: TaskTable, id: TaskId, ownerPid: nat): Option<TaskTable> {
    var room := MakeRoom(t);
    if |room.tasks| >= MAX_TASKS then None
    else Some(room.(tasks := room.tasks[id := NewTask(ownerPid)]))
  }

  function RemoveTask(t: TaskTable, id: TaskId): TaskTable {
    t.(tasks := t.tasks - {id})
  }

  function Finish(t: TaskTable, id: TaskId, outcome: Outcome): TaskTable {
    if id in t.tasks && !t.tasks[id].state.Completed?
    then TaskTable(t.tasks[id := t.tasks[id].(state := Completed(outcome))], t.completed + [id])
    else t
  }

  function CancelRecord(r: TaskRecord): TaskRecord {
    if r.state.Running? && r.token.Pending? then r.(token := Cancelled, state := Cancelling) else r
  }

  function Cancel(t: TaskTable, id: TaskId): TaskTable {
    if id in t.tasks then t.(tasks := t.tasks[id := CancelRecord(t.tasks[id])]) else t
  }

  /** Shutting down marks every running task, even one whose command has already started. */
  function CancelAllRecord(r: TaskRecord): TaskRecord {
    if r.state.Running? then r.(token := if r.token.Pending? then Cancelled else r.token, state := Cancelling) else r
  }

  function CancelAll(t: TaskTable): TaskTable {
    t.(tasks := map id | id in t.tasks :: CancelAllRecord(t.tasks[id]))
  }

  /** The worker claims the command unless it was cancelled first. */
  function TryStart(t: TaskTable, id: TaskId): TaskTable {
    if id in t.tasks
      && t.tasks[id].token.Pending? then t.(tasks := t.tasks[id := t.tasks[id].(token := Started)]) else t
  }

  // ----- Runs

  datatype Op =
    | DoStart(id: TaskId, ownerPid: nat)
    | DoRemove(id: TaskId)
    | DoFinish(id: TaskId, outcome: Outcome)
    | DoCancel(id: TaskId)
    | DoCancelAll
    | DoTryStart(id: TaskId)

  /** New ids are fresh among the tasks held, and only unfinished tasks are removed directly. */
  predicate Allowed(t: TaskTable, op: Op) {
    match op
    case DoStart(id, _) => id !in MakeRoom(t).tasks
    case DoRemove(id) => id in t.tasks ==> !t.tasks[id].state.Completed?
    case _ => true
  }

  function Step(t: TaskTable, op: Op): TaskTable {
    match op
    case DoStart(id, ownerPid) =>
      (match Start(t, id, ownerPid)
       case None => MakeRoom(t)
       case Some(next) => next)
    case DoRemove(id) => RemoveTask(t, id)
    case DoFinish(id, outcome) => Finish(t, id, outcome)
    case DoCancel(id) => Cancel(t, id)
    case DoCancelAll => CancelAll(t)
    case DoTryStart(id) => TryStart(t, id)
  }

  /** The tasks that complete in a step, in order. */
  function Completes(t: TaskTable, op: Op): seq<TaskId> {
    if op.DoFinish? && op.id in t.tasks && !t.tasks[op.id].state.Completed? then [op.id] else []
  }

  ghost predicate Suffix(s: seq<TaskId>, log: seq<TaskId>) {
    |s| <= |log| && s == log[|log| - |s|..]
  }

  /**
   The queue lists each completed task still held exactly once, in the order of the completion
   log, and no more tasks are held than the limit allows.
   */
  ghost predicate Inv(t: TaskTable, log: seq<TaskId>) {
    && |t.tasks| <= MAX_TASKS
    && Distinct(t.completed)
    && (forall id :: id in t.completed <==> id in t.tasks && t.tasks[id].state.Completed?)
    && Suffix(t.completed, log)
  }

  lemma RemovedSize(tasks: map<TaskId, TaskRecord>, id: TaskId)
    requires id in tasks
    ensures |tasks - {id}| == |tasks| - 1
  {
    assert (tasks - {id}).Keys == tasks.Keys - {id};
  }

  lemma SizeAfterRemoval(tasks: map<TaskId, TaskRecord>, id: TaskId)
    ensures |tasks - {id}| <= |tasks|
  {
    if id in tasks {
      RemovedSize(tasks, id);
    } else {
      assert tasks - {id} == tasks;
    }
  }

  /** Under the invariant, making room drops at most one task: the oldest completed one, when full. */
  lemma MakeRoomDropsOldest(t: TaskTable, log: seq<TaskId>)
    requires Inv(t, log)
    ensures |t.tasks| < MAX_TASKS || t.completed == [] ==> MakeRoom(t) == t
    ensures |t.tasks| == MAX_TASKS && t.completed != [] ==>
      MakeRoom(t) == TaskTable(t.tasks - {t.completed[0]}, t.completed[1..]) && |MakeRoom(t).tasks| == MAX_TASKS - 1
  {
    if |t.tasks| == MAX_TASKS && t.completed != [] {
      assert t.completed[0] in t.completed;
      RemovedSize(t.tasks, t.completed[0]);
    }
  }

  lemma MakeRoomKeepsInv(t: TaskTable, log: seq<TaskId>)
    requires Inv(t, log)
    ensures Inv(MakeRoom(t), log)
  {
    MakeRoomDropsOldest(t, log);
    if |t.tasks| == MAX_TASKS && t.completed != [] {
      var oldest, rest := t.completed[0], t.completed[1..];
      assert t.completed == [oldest] + rest;
      assert oldest !in rest;
      assert Distinct(rest) by {
        forall i, j | 0 <= i < j < |rest| ensures rest[i] != rest[j] {
          assert rest[i] == t.completed[i + 1] && rest[j] == t.completed[j + 1];
        }
      }
    }
  }

  /** A start is refused for capacity exactly when all the tasks held are unfinished and fill the table. */
  lemma StartRefusedOnlyWhenBusy(t: TaskTable, log: seq<TaskId>, id: TaskId, ownerPid: nat)
    requires Inv(t, log)
    ensures Start(t, id, ownerPid).None? <==>
      |t.tasks| == MAX_TASKS && forall k :: k in t.tasks ==> !t.tasks[k].state.Completed?
  {
    MakeRoomDropsOldest(t, log);
    if t.completed != [] {
      assert t.completed[0] in t.completed;
    }
  }

  lemma StartKeepsInv(t: TaskTable, log: seq<TaskId>, id: TaskId, ownerPid: nat)
    requires Inv(t, log) && id !in MakeRoom(t).tasks && Start(t, id, ownerPid).Some?
    ensures Inv(Start(t, id, ownerPid).value, log)
  {
    MakeRoomKeepsInv(t, log);
    var room := MakeRoom(t);
    assert room.tasks[id := NewTask(ownerPid)].Keys == room.tasks.Keys + {id};
  }

  lemma FinishKeepsInv(t: TaskTable, log: seq<TaskId>, id: TaskId, outcome: Outcome)
    requires Inv(t, log) && id in t.tasks && !t.tasks[id].state.Completed?
    ensures Inv(Finish(t, id, outcome), log + [id])
  {
    assert t.tasks[id := t.tasks[id].(state := Completed(outcome))].Keys == t.tasks.Keys;
    assert id !in t.completed;
  }

  /** Changing records without completing or reopening any of them keeps the invariant. */
  lemma RelabelKeepsInv(t: TaskTable, log: seq<TaskId>, tasks: map<TaskId, TaskRecord>)
    requires Inv(t, log) && tasks.Keys == t.tasks.Keys
    requires forall id :: id in tasks ==> tasks[id].state.Completed? == t.tasks[id].state.Completed?
    ensures Inv(t.(tasks := tasks), log)
  {
    assert |tasks| == |tasks.Keys| == |t.tasks.Keys| == |t.tasks|;
  }

  lemma RemoveKeepsInv(t: TaskTable, log: seq<TaskId>, id: TaskId)
    requires Inv(t, log) && (id in t.tasks ==> !t.tasks[id].state.Completed?)
    ensures Inv(RemoveTask(t, id), log)
  {
    hide Suffix, Distinct;
    SizeAfterRemoval(t.tasks, id);
  }

  lemma StepKeepsInv(t: TaskTable, log: seq<TaskId>, op: Op)
    requires Inv(t, log) && Allowed(t, op)
    ensures Inv(Step(t, op), log + Completes(t, op))
  {
    hide MakeRoom, Inv;
    assert log + [] == log;
    match op {
      case DoStart(id, ownerPid) =>
        MakeRoomKeepsInv(t, log);
        if Start(t, id, ownerPid).Some? {
          StartKeepsInv(t, log, id, ownerPid);
        }
      case DoRemove(id) => RemoveKeepsInv(t, log, id);
      case DoFinish(id, outcome) =>
        if id in t.tasks && !t.tasks[id].state.Completed? {
          FinishKeepsInv(t, log, id, outcome);
        }
      case DoCancel(id) => RelabelKeepsInv(t, log, Cancel(t, id).tasks);
      case DoCancelAll => RelabelKeepsInv(t, log, CancelAll(t).tasks);
      case DoTryStart(id) => RelabelKeepsInv(t, log, TryStart(t, id).tasks);
    }
  }

  /** An operation never changes the outcome of a task that stays held, unless it starts a new one under its id. */
  lemma OutcomeIsFinal(t: TaskTable, log: seq<TaskId>, op: Op, id: TaskId)
    requires Inv(t, log) && Allowed(t, op)
    requires id in t.tasks && t.tasks[id].state.Completed?
    ensures id in Step(t, op).tasks && !(op.DoStart? && op.id == id)
      ==> Step(t, op).tasks[id].state == t.tasks[id].state
    ensures id !in Step(t, op).tasks ==> op.DoStart? && |t.tasks| == MAX_TASKS && t.completed[..1] == [id]
  {
    MakeRoomDropsOldest(t, log);
  }

  lemma StepKeepsOutcome(t: TaskTable, log: seq<TaskId>, op: Op, id: TaskId, state: TaskState)
    requires Inv(t, log) && Allowed(t, op) && state.Completed? && !(op.DoStart? && op.id == id)
    requires id in t.tasks ==> t.tasks[id].state == state
    ensures id in Step(t, op).tasks ==> Step(t, op).tasks[id].state == state
  {
    MakeRoomDropsOldest(t, log);
    if id in t.tasks {
      OutcomeIsFinal(t, log, op, id);
    }
  }

  /** The states and logs of a run. */
  ghost predicate IsRun(states: seq<TaskTable>, ops: seq<Op>) {
    && |states| == |ops| + 1
    && states[0] == TaskTable(map[], [])
    && forall i :: 0 <= i < |ops| ==> Allowed(states[i], ops[i]) && states[i + 1] == Step(states[i], ops[i])
  }

  function Log(states: seq<TaskTable>, ops: seq<Op>): seq<TaskId>
    requires |states| == |ops| + 1
  {
    if ops == [] then []
    else Log(states[..|states| - 1], ops[..|ops| - 1]) + Completes(states[|ops| - 1], ops[|ops| - 1])
  }

  /** Every run from the empty table keeps the invariant. */
  lemma {:induction false} EveryRunKeepsInv(states: seq<TaskTable>, ops: seq<Op>)
    requires IsRun(states, ops)
    ensures Inv(states[|ops|], Log(states, ops))
    decreases |ops|
  {
    if ops != [] {
      var n := |ops| - 1;
      EveryRunKeepsInv(states[..|states| - 1], ops[..n]);
      StepKeepsInv(states[n], Log(states[..|states| - 1], ops[..n]), ops[n]);
    }
  }

  /** A recorded outcome stays as it is for as long as the task is held. */
  lemma {:induction false} OutcomeNeverChanges(states: seq<TaskTable>, ops: seq<Op>, i: nat, id: TaskId)
    requires IsRun(states, ops) && i < |states|
    requires id in states[i].tasks && states[i].tasks[id].state.Completed?
    requires forall k :: i <= k < |ops| && ops[k].DoStart? ==> ops[k].id != id
    ensures id in states[|ops|].tasks ==> states[|ops|].tasks[id].state == states[i].tasks[id].state
    decreases |ops|
  {
    if i < |ops| {
      var n := |ops| - 1;
      OutcomeNeverChanges(states[..|states| - 1], ops[..n], i, id);
      EveryRunKeepsInv(states[..|states| - 1], ops[..n]);
      StepKeepsOutcome(states[n], Log(states[..|states| - 1], ops[..n]), ops[n], id, states[i].tasks[id].state);
    }
  }
}
