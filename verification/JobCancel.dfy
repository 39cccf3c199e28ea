/**
 Cancelling a job while its process tree is being installed. Any number of threads cancel and install,
 one lock section or flag access at a time. No cancellation is lost.
 */
module JobCancel {
  /** Where a thread inside cancel stands. */
  datatype Canceller = Asking | Ignored | Flagged | CancelDone

  /**
   Where a thread inside control stands: the tree is installed and the lock held until the flag has
   been looked at.
   */
  datatype Installer = Arriving | Installed | InstallDone

  /** The job. Process trees are named after the thread that installs them. */
  datatype Job = Job(
    finished: bool,
    requested: bool,
    cancel: bool,
    installed: set<nat>,
    locked: bool,
    terminated: set<nat>,
    cancellers: map<nat, Canceller>,
    installers: map<nat, Installer>)

  function Init(cancellers: set<nat>, installers: set<nat>): Job {
    Job(false, false, false, {}, false, {}, map t | t in cancellers :: Asking, map t | t in installers :: Arriving)
  }

  datatype Step =
    | Finish
    | Ask(t: nat)
    | Terminate(t: nat)
    | Install(t: nat)
    | LookAtFlag(t: nat)

  predicate Enabled(j: Job, step: Step) {
    match step
    case Finish => true
    case Ask(t) => t in j.cancellers && j.cancellers[t].Asking?
    case Terminate(t) => t in j.cancellers && j.cancellers[t].Flagged? && !j.locked
    case Install(t) => t in j.installers && j.installers[t].Arriving? && !j.locked
    case LookAtFlag(t) => t in j.installers && j.installers[t].Installed?
  }

  function Next(j: Job, step: Step): Job
    requires Enabled(j, step)
  {
    match step
    case Finish => j.(finished := true)
    case Ask(t) =>
      if j.finished then j.(cancellers := j.cancellers[t := Ignored])
      else j.(requested := true, cancel := true, cancellers := j.cancellers[t := Flagged])
    case Terminate(t) => j.(terminated := j.terminated + j.installed, cancellers := j.cancellers[t := CancelDone])
    case Install(t) => j.(installed := {t}, locked := true, installers := j.installers[t := Installed])
    case LookAtFlag(t) =>
      j.(terminated := if j.cancel then j.terminated + j.installed else j.terminated, locked := false,
         installers := j.installers[t := InstallDone])
  }

  ghost predicate Inv(j: Job) {
    && (forall t :: t in j.cancellers && (j.cancellers[t].Flagged? || j.cancellers[t].CancelDone?) ==>
          j.cancel && j.requested)
    && (forall u :: u in j.installed ==> u in j.installers && j.installed == {u} && !j.installers[u].Arriving?)
    && (forall u :: u in j.installers && j.installers[u].Installed? ==> j.locked && j.installed == {u})
    && (forall u :: u in j.installed && j.installers[u].InstallDone? && u !in j.terminated ==> forall t ::
       t in j.cancellers ==> !j.cancellers[t].CancelDone?)
  }

  lemma NextKeepsInv(j: Job, step: Step)
    requires Inv(j) && Enabled(j, step)
    ensures Inv(Next(j, step))
  {}

  ghost predicate IsRun(states: seq<Job>, steps: seq<Step>) {
    && |states| == |steps| + 1
    && (exists cancellers: set<nat>, installers: set<nat> :: states[0] == Init(cancellers, installers))
    && forall i :: 0 <= i < |steps| ==> Enabled(states[i], steps[i]) && states[i + 1] == Next(states[i], steps[i])
  }

  lemma {:induction false} RunKeepsInv(states: seq<Job>, steps: seq<Step>, i: nat)
    requires IsRun(states, steps) && i < |states|
    ensures Inv(states[i])
    decreases i
  {
    if i > 0 {
      RunKeepsInv(states, steps, i - 1);
      NextKeepsInv(states[i - 1], steps[i - 1]);
    }
  }

  /**
   In every interleaving, once a cancel that took effect and an installation have both completed, the
   tree in place has been told to terminate.
   */
  lemma CancellationIsNotLost(states: seq<Job>, steps: seq<Step>, i: nat, t: nat, u: nat)
    requires IsRun(states, steps) && i < |states|
    requires t in states[i].cancellers && states[i].cancellers[t].CancelDone?
    requires u in states[i].installed && u in states[i].installers && states[i].installers[u].InstallDone?
    ensures u in states[i].terminated && states[i].requested
  {
    RunKeepsInv(states, steps, i);
  }

  /** A cancel is without effect only on a finished job. */
  lemma {:induction false} IgnoredMeansFinished(states: seq<Job>, steps: seq<Step>, i: nat, t: nat)
    requires IsRun(states, steps) && i < |states|
    requires t in states[i].cancellers && states[i].cancellers[t].Ignored?
    ensures states[i].finished
    decreases i
  {
    hide Next, Enabled;
    if i > 0 {
      IgnoredWhenFinished(states[i - 1], steps[i - 1], t);
      if t in states[i - 1].cancellers && states[i - 1].cancellers[t].Ignored? {
        IgnoredMeansFinished(states, steps, i - 1, t);
      }
    }
  }

  lemma IgnoredWhenFinished(j: Job, step: Step, t: nat)
    requires Enabled(j, step)
    ensures var n := Next(j, step);
      t in n.cancellers && n.cancellers[t].Ignored? ==>
        n.finished || (!j.finished && t in j.cancellers && j.cancellers[t].Ignored?)
    ensures j.finished ==> Next(j, step).finished
  {}
}
