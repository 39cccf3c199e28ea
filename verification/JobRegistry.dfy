/**
 Retiring the owner of jobs while others start, finish, cancel and forget them. The flag is cleared
 outside the registry's lock, so a start that is past its check still inserts; retiring catches it.
 */
module JobRegistry {
  const RUNNING_LIMIT: nat := 8
  const HISTORY_LIMIT: nat := 64

  datatype JobState = JobState(finished: bool, requested: bool)

  /** Where a thread inside start stands: Checked holds the lock. */
  datatype Starter = Arriving | Checked | Refused | Inserted(job: nat)

  /** Where a thread inside retire stands, with the jobs still to cancel. */
  datatype Retirer = Active | Cleared | Cancelling(left: set<nat>) | Returned

  /** Every job ever made, and the registry with its lock. */
  datatype Registry = Registry(
    active: bool,
    jobs: map<nat, JobState>,
    listed: set<nat>,
    locked: bool,
    starters: map<nat, Starter>,
    retirers: map<nat, Retirer>)

  function Init(starters: set<nat>, retirers: set<nat>): Registry {
    Registry(true, map[], {}, false, map t | t in starters :: Arriving, map t | t in retirers :: Active)
  }

  datatype Step =
    | Check(t: nat)
    | Insert(t: nat, job: nat)
    | GiveUp(t: nat)
    | Finish(job: nat)
    | Cancel(job: nat)
    | Forget(job: nat)
    | Clear(t: nat)
    | List(t: nat)
    | CancelListed(t: nat, job: nat)
    | Return(t: nat)

  function Unfinished(r: Registry): set<nat> {
    set j | j in r.listed && j in r.jobs && !r.jobs[j].finished
  }

  predicate Enabled(r: Registry, step: Step) {
    match step
    case Check(t) => t in r.starters && r.starters[t].Arriving? && !r.locked
    case Insert(t, job) => t in r.starters && r.starters[t].Checked? && job !in r.jobs
    case GiveUp(t) => t in r.starters && r.starters[t].Checked?
    case Finish(job) => job in r.jobs
    case Cancel(job) => job in r.jobs
    case Forget(job) => job in r.listed && job in r.jobs && r.jobs[job].finished && !r.locked
    case Clear(t) => t in r.retirers && r.retirers[t].Active?
    case List(t) => t in r.retirers && r.retirers[t].Cleared? && !r.locked
    case CancelListed(t, job) => t in r.retirers && r.retirers[t].Cancelling? && job in r.retirers[t].left
      && job in r.jobs
    case Return(t) => t in r.retirers && r.retirers[t].Cancelling? && r.retirers[t].left == {}
  }

  function Cancelled(s: JobState): JobState {
    if s.finished then s else s.(requested := true)
  }

  predicate MayStart(r: Registry) {
    r.active && |Unfinished(r)| < RUNNING_LIMIT && |r.listed| < HISTORY_LIMIT
  }

  function Next(r: Registry, step: Step): Registry
    requires Enabled(r, step)
  {
    match step
    case Check(t) =>
      if MayStart(r) then r.(locked := true, starters := r.starters[t := Checked])
        else r.(starters := r.starters[t := Refused])
    case Insert(t, job) =>
      r.(locked := false, jobs := r.jobs[job := JobState(false, false)], listed := r.listed + {job},
        starters := r.starters[t := Inserted(job)])
    case GiveUp(t) => r.(locked := false, starters := r.starters[t := Refused])
    case Finish(job) => r.(jobs := r.jobs[job := r.jobs[job].(finished := true)])
    case Cancel(job) => r.(jobs := r.jobs[job := Cancelled(r.jobs[job])])
    case Forget(job) => r.(listed := r.listed - {job})
    case Clear(t) => r.(active := false, retirers := r.retirers[t := Cleared])
    case List(t) => r.(retirers := r.retirers[t := Cancelling(r.listed)])
    case CancelListed(t, job) =>
      r.(jobs := r.jobs[job := Cancelled(r.jobs[job])],
        retirers := r.retirers[t := Cancelling(r.retirers[t].left - {job})])
    case Return(t) => r.(retirers := r.retirers[t := Returned])
  }

  predicate Settled(s: JobState) {
    s.finished || s.requested
  }

  /** The listing has been taken: from then on nobody is about to insert. */
  predicate Listed(retirer: Retirer) {
    retirer.Cancelling? || retirer.Returned?
  }

  function Left(retirer: Retirer): set<nat> {
    if retirer.Cancelling? then retirer.left else {}
  }

  ghost predicate LockInv(r: Registry) {
    && (forall t :: t in r.starters && r.starters[t].Checked? ==> r.locked)
    && (forall t, u :: t in r.starters && u in r.starters && r.starters[t].Checked? && r.starters[u].Checked?
         ==> t == u)
    && (forall t :: t in r.starters && r.starters[t].Checked? ==>
          |Unfinished(r)| < RUNNING_LIMIT && |r.listed| < HISTORY_LIMIT)
  }

  ghost predicate RetireInv(r: Registry) {
    && (forall j :: j in r.listed ==> j in r.jobs)
    && (forall t :: t in r.retirers && !r.retirers[t].Active? ==> !r.active)
    && (forall t :: t in r.retirers && Listed(r.retirers[t]) ==>
          forall u :: u in r.starters ==> !r.starters[u].Checked?)
    && (forall t, j :: t in r.retirers && Listed(r.retirers[t]) && j in r.listed ==>
          Settled(r.jobs[j]) || j in Left(r.retirers[t]))
  }

  ghost predicate LimitInv(r: Registry) {
    |Unfinished(r)| <= RUNNING_LIMIT && |r.listed| <= HISTORY_LIMIT
  }

  lemma SubsetSize<T>(a: set<T>, b: set<T>)
    requires a <= b
    ensures |a| <= |b|
  {
    assert b == a + (b - a);
  }

  /** Only an insertion makes the listed or the unfinished jobs more, and by that job alone. */
  lemma SizesGrow(r: Registry, step: Step)
    requires Enabled(r, step)
    ensures var s := Next(r, step);
      if step.Insert? then Unfinished(s) <= Unfinished(r) + {step.job} && s.listed == r.listed + {step.job}
      else Unfinished(s) <= Unfinished(r) && s.listed <= r.listed
  {}

  lemma NextKeepsLimits(r: Registry, step: Step)
    requires LockInv(r) && LimitInv(r) && Enabled(r, step)
    ensures LimitInv(Next(r, step))
    ensures !step.Insert? ==> |Unfinished(Next(r, step))| <= |Unfinished(r)| && |Next(r, step).listed| <= |r.listed|
  {
    hide Unfinished, Next;
    var s := Next(r, step);
    SizesGrow(r, step);
    if step.Insert? {
      SubsetSize(Unfinished(s), Unfinished(r) + {step.job});
      assert |Unfinished(r) + {step.job}| <= |Unfinished(r)| + 1;
    } else {
      SubsetSize(Unfinished(s), Unfinished(r));
      SubsetSize(s.listed, r.listed);
    }
  }

  lemma NextKeepsLock(r: Registry, step: Step)
    requires LockInv(r) && LimitInv(r) && Enabled(r, step)
    ensures LockInv(Next(r, step))
  {
    hide Unfinished, MayStart;
    NextKeepsLimits(r, step);
    MayStartMeans(r);
  }

  lemma NextKeepsRetiring(r: Registry, step: Step)
    requires LockInv(r) && RetireInv(r) && Enabled(r, step)
    ensures RetireInv(Next(r, step))
  {
    hide Unfinished, MayStart;
    MayStartMeans(r);
  }

  lemma MayStartMeans(r: Registry)
    ensures MayStart(r) ==> r.active && |Unfinished(r)| < RUNNING_LIMIT && |r.listed| < HISTORY_LIMIT
  {}

  ghost predicate IsRun(states: seq<Registry>, steps: seq<Step>) {
    && |states| == |steps| + 1
    && (exists starters: set<nat>, retirers: set<nat> :: states[0] == Init(starters, retirers))
    && forall i :: 0 <= i < |steps| ==> Enabled(states[i], steps[i]) && states[i + 1] == Next(states[i], steps[i])
  }

  lemma {:induction false} RunKeepsInv(states: seq<Registry>, steps: seq<Step>, i: nat)
    requires IsRun(states, steps) && i < |states|
    ensures LockInv(states[i]) && RetireInv(states[i]) && LimitInv(states[i])
    decreases i
  {
    hide LockInv, RetireInv, LimitInv, Next, Enabled;
    if i > 0 {
      RunKeepsInv(states, steps, i - 1);
      NextKeepsLimits(states[i - 1], steps[i - 1]);
      NextKeepsLock(states[i - 1], steps[i - 1]);
      NextKeepsRetiring(states[i - 1], steps[i - 1]);
    } else {
      var starters, retirers :| states[0] == Init(starters, retirers);
      InitHolds(starters, retirers);
    }
  }

  lemma InitHolds(starters: set<nat>, retirers: set<nat>)
    ensures LockInv(Init(starters, retirers)) && RetireInv(Init(starters, retirers))
      && LimitInv(Init(starters, retirers))
  {
    assert Unfinished(Init(starters, retirers)) == {};
  }

  /** Once retiring has returned, every listed job is finished or asked to stop, and nobody is about to insert one. */
  lemma RetiredMeansSettled(states: seq<Registry>, steps: seq<Step>, i: nat, t: nat)
    requires IsRun(states, steps) && i < |states|
    requires t in states[i].retirers && states[i].retirers[t].Returned?
    ensures forall j :: j in states[i].listed ==> j in states[i].jobs && Settled(states[i].jobs[j])
    ensures !states[i].active && forall u :: u in states[i].starters ==> !states[i].starters[u].Checked?
  {
    hide LockInv, LimitInv;
    RunKeepsInv(states, steps, i);
  }

  /** And no later step inserts one. */
  lemma {:induction false} NoStartAfterRetiring(states: seq<Registry>, steps: seq<Step>, i: nat, k: nat, t: nat)
    requires IsRun(states, steps) && i <= k < |steps|
    requires t in states[i].retirers && states[i].retirers[t].Returned?
    ensures !steps[k].Insert?
    ensures t in states[k].retirers && states[k].retirers[t].Returned?
    decreases k
  {
    hide LockInv, LimitInv, RetireInv, Next, Enabled;
    if i < k {
      NoStartAfterRetiring(states, steps, i, k - 1, t);
      ReturnedStays(states[k - 1], steps[k - 1], t);
    }
    RetiredMeansSettled(states, steps, k, t);
    InsertIsChecked(states[k], steps[k]);
  }

  lemma ReturnedStays(r: Registry, step: Step, t: nat)
    requires Enabled(r, step) && t in r.retirers && r.retirers[t].Returned?
    ensures t in Next(r, step).retirers && Next(r, step).retirers[t].Returned?
  {
    hide Unfinished, MayStart;
  }

  lemma InsertIsChecked(r: Registry, step: Step)
    requires Enabled(r, step)
    ensures step.Insert? ==> step.t in r.starters && r.starters[step.t].Checked?
  {}

  /** In every run at most eight jobs are unfinished, and at most sixty-four are listed. */
  lemma LimitsHold(states: seq<Registry>, steps: seq<Step>, i: nat)
    requires IsRun(states, steps) && i < |states|
    ensures |Unfinished(states[i])| <= RUNNING_LIMIT && |states[i].listed| <= HISTORY_LIMIT
  {
    hide LockInv, RetireInv;
    RunKeepsInv(states, steps, i);
  }
}
