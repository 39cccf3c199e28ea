/**
 The chord matcher: one pass over the bindings from last to first, collecting unbinds on the way.
 It is proved to be the declarative matcher, and its runs to stay on prefixes of bindings. The
 lower-casing of characters is a parameter.
 */
module KeymapMatcher {
  import opened Wrappers
  import opened Keys

  datatype Action<A> = Invoke(action: A) | Unbind(action: A) | Consume

  datatype Binding<A, C> = Binding(context: C, sequence: seq<Trigger>, action: Action<A>, flags: BindingFlags)

  datatype Match<A> = NoMatch | Pending | Matched(action: A, consumed: bool) | Consumed

  predicate TriggerMatches(candidate: Trigger, binding: Trigger, lower: char -> string) {
    && candidate.modifiers == binding.modifiers
    && if candidate.key.Unicode? && binding.key.Unicode?
       then candidate.key.ch == binding.key.ch || lower(candidate.key.ch) == lower(binding.key.ch)
       else candidate.key == binding.key
  }

  predicate AnyMatches(candidates: seq<Trigger>, binding: Trigger, lower: char -> string) {
    exists i :: 0 <= i < |candidates| && TriggerMatches(candidates[i], binding, lower)
  }

  // ----- The declarative matcher

  /** The binding's context is active and its sequence goes on from the active one with this input. */
  predicate Extends<A, C>(b: Binding<A, C>, active: seq<Trigger>, candidates: seq<Trigger>, inContext: C -> bool,
                          lower: char -> string) {
    && inContext(b.context)
    && |active| < |b.sequence| && b.sequence[..|active|] == active
    && AnyMatches(candidates, b.sequence[|active|], lower)
  }

  /** A later active unbind names the binding's sequence and action. */
  predicate Unbound<A(==), C>(bindings: seq<Binding<A, C>>, i: nat, inContext: C -> bool)
    requires i < |bindings|
  {
    && bindings[i].action.Invoke?
    && exists j :: i < j < |bindings| && inContext(bindings[j].context)
        && bindings[j].action == Unbind(bindings[i].action.action)
                    && bindings[j].sequence == bindings[i].sequence
  }

  predicate Eligible<A(==), C>(bindings: seq<Binding<A, C>>, i: nat, active: seq<Trigger>, candidates: seq<Trigger>,
                               inContext: C -> bool, lower: char -> string)
    requires i < |bindings|
  {
    Extends(bindings[i], active, candidates, inContext, lower) && !bindings[i].action.Unbind?
      && !Unbound(bindings, i, inContext)
  }

  /** The last eligible binding among the first n. */
  function LastEligible<A(==), C>(bindings: seq<Binding<A, C>>, n: nat, active: seq<Trigger>, candidates: seq<Trigger>,
                                  inContext: C -> bool, lower: char -> string): (r: Option<nat>)
    requires n <= |bindings|
    ensures r.Some? ==> r.value < n && Eligible(bindings, r.value, active, candidates, inContext, lower)
    ensures r.Some? ==> forall k :: r.value < k < n ==> !Eligible(bindings, k, active, candidates, inContext, lower)
    ensures r.None? ==> forall k :: 0 <= k < n ==> !Eligible(bindings, k, active, candidates, inContext, lower)
  {
    if n == 0 then None
    else if Eligible(bindings, n - 1, active, candidates, inContext, lower) then Some(n - 1)
    else LastEligible(bindings, n - 1, active, candidates, inContext, lower)
  }

  datatype Step<A> = Step(result: Match<A>, active: seq<Trigger>)

  /** What an input does: the result, and the active sequence after it. */
  function Next<A(==), C>(bindings: seq<Binding<A, C>>, active: seq<Trigger>, candidates: seq<Trigger>,
                          inContext: C -> bool, lower: char -> string): Step<A> {
    if candidates == [] then Step(NoMatch, active)
    else
      match LastEligible(bindings, |bindings|, active, candidates, inContext, lower)
      case None => if active == [] then Step(NoMatch, []) else Step(Consumed, [])
      case Some(i) =>
        var b := bindings[i];
        if |b.sequence| > |active| + 1 then Step(Pending, active + [b.sequence[|active|]])
        else if b.action.Invoke? then Step(Matched(b.action.action, b.flags.consumed), [])
        else Step(Consumed, [])
  }

  // ----- The program

  /** The index of the binding one reverse pass selects. */
  method Select<A(==), C>(bindings: seq<Binding<A, C>>, active: seq<Trigger>, candidates: seq<Trigger>,
                          inContext: C -> bool, lower: char -> string) returns (selected: Option<nat>)
    ensures selected == LastEligible(bindings, |bindings|, active, candidates, inContext, lower)
  {
    var unbound: seq<(seq<Trigger>, A)> := [];
    var i := |bindings|;
    while i > 0
      invariant 0 <= i <= |bindings|
      invariant LastEligible(bindings, |bindings|, active, candidates, inContext, lower)
             == LastEligible(bindings, i, active, candidates, inContext, lower)
      invariant forall u :: u in unbound <==> InUnbinds(bindings, i, active, candidates, inContext, lower, u)
    {
      i := i - 1;
      var binding := bindings[i];
      if !Extends(binding, active, candidates, inContext, lower) {
        continue;
      }
      if binding.action.Unbind? {
        unbound := unbound + [(binding.sequence, binding.action.action)];
        continue;
      }
      if binding.action.Invoke? {
        UnboundIsListed(bindings, i, active, candidates, inContext, lower);
      }
      if binding.action.Invoke? && (binding.sequence, binding.action.action) in unbound {
        continue;
      }
      return Some(i);
    }
    selected := None;
  }

  class KeymapProgram<A(==), C> {
    const bindings: seq<Binding<A, C>>
    var activeSequence: seq<Trigger>

    constructor (bindings: seq<Binding<A, C>>)
      ensures this.bindings == bindings && activeSequence == []
    {
      this.bindings := bindings;
      activeSequence := [];
    }

    method NextCandidates(candidates: seq<Trigger>, inContext: C -> bool, lower: char -> string)
        returns (result: Match<A>)
      modifies this`activeSequence
      ensures Step(result, activeSequence) == Next(bindings, old(activeSequence), candidates, inContext, lower)
    {
      if candidates == [] {
        return NoMatch;
      }
      var selected := Select(bindings, activeSequence, candidates, inContext, lower);
      if selected.None? {
        if activeSequence == [] {
          return NoMatch;
        }
        activeSequence := [];
        return Consumed;
      }
      var binding := bindings[selected.value];
      var trigger := binding.sequence[|activeSequence|];
      if |binding.sequence| > |activeSequence| + 1 {
        activeSequence := activeSequence + [trigger];
        return Pending;
      }
      activeSequence := [];
      result := if binding.action.Invoke? then Matched(binding.action.action, binding.flags.consumed) else Consumed;
    }
  }

  /** The sequence and action of an unbind that extends the active sequence, from index i on. */
  ghost predicate InUnbinds<A, C>(bindings: seq<Binding<A, C>>, i: nat, active: seq<Trigger>, candidates: seq<Trigger>,
                                  inContext: C -> bool, lower: char -> string, u: (seq<Trigger>, A))
    requires i <= |bindings|
  {
    exists j :: i <= j < |bindings| && Extends(bindings[j], active, candidates, inContext, lower)
                && bindings[j].action == Unbind(u.1) && bindings[j].sequence == u.0
  }

  /** The unbinds collected on the way are all that matter: one with the same sequence extends alike. */
  lemma UnboundIsListed<A, C>(bindings: seq<Binding<A, C>>, i: nat, active: seq<Trigger>, candidates: seq<Trigger>,
                              inContext: C -> bool, lower: char -> string)
    requires i < |bindings| && Extends(bindings[i], active, candidates, inContext, lower) && bindings[i].action.Invoke?
    ensures Unbound(bindings, i, inContext)
      <==> InUnbinds(bindings, i + 1, active, candidates, inContext, lower,
        (bindings[i].sequence, bindings[i].action.action))
  {
    var b := bindings[i];
    if Unbound(bindings, i, inContext) {
      var j :| i < j < |bindings| && inContext(bindings[j].context) && bindings[j].action == Unbind(b.action.action)
               && bindings[j].sequence == b.sequence;
      assert Extends(bindings[j], active, candidates, inContext, lower);
    }
  }

  // ----- Runs

  ghost predicate ProperPrefix(s: seq<Trigger>, t: seq<Trigger>) {
    |s| < |t| && t[..|s|] == s
  }

  /** The active sequence is empty or leads on to some binding. */
  ghost predicate OnTrack<A, C>(bindings: seq<Binding<A, C>>, active: seq<Trigger>) {
    active == [] || exists i :: 0 <= i < |bindings| && ProperPrefix(active, bindings[i].sequence)
  }

  lemma NextStaysOnTrack<A, C>(bindings: seq<Binding<A, C>>, active: seq<Trigger>, candidates: seq<Trigger>,
                               inContext: C -> bool, lower: char -> string)
    requires OnTrack(bindings, active)
    ensures var s := Next(bindings, active, candidates, inContext, lower);
      && OnTrack(bindings, s.active)
      && (s.result.Pending? ==> |s.active| == |active| + 1 && active == s.active[..|active|])
      && (!s.result.Pending? && candidates != [] ==> s.active == [])
  {
    var selected := LastEligible(bindings, |bindings|, active, candidates, inContext, lower);
    if candidates != [] && selected.Some? {
      var t := bindings[selected.value].sequence;
      if |t| > |active| + 1 {
        assert t[..|active| + 1] == active + [t[|active|]];
        assert ProperPrefix(active + [t[|active|]], t);
      }
    }
  }

  /** An input, with the contexts that are active when it arrives. */
  datatype Input<!C> = Input(candidates: seq<Trigger>, inContext: C -> bool)

  /** The active sequences and results of a run of a program from its start. */
  ghost predicate IsRun<A, C>(bindings: seq<Binding<A, C>>, inputs: seq<Input<C>>, actives: seq<seq<Trigger>>,
                              results: seq<Match<A>>,
                              lower: char -> string) {
    && |actives| == |inputs| + 1 && |results| == |inputs| && actives[0] == []
    && forall i :: 0 <= i < |inputs| ==>
         Step(results[i], actives[i + 1])
           == Next(bindings, actives[i], inputs[i].candidates, inputs[i].inContext, lower)
  }

  /** In every run the active sequence is empty or a proper prefix of some binding. */
  lemma {:induction false} RunStaysOnTrack<A, C>(bindings: seq<Binding<A, C>>, inputs: seq<Input<C>>,
                                                 actives: seq<seq<Trigger>>,
                                                 results: seq<Match<A>>, lower: char -> string, i: nat)
    requires IsRun(bindings, inputs, actives, results, lower) && i <= |inputs|
    ensures OnTrack(bindings, actives[i])
    decreases i
  {
    if i > 0 {
      RunStaysOnTrack(bindings, inputs, actives, results, lower, i - 1);
      NextStaysOnTrack(bindings, actives[i - 1], inputs[i - 1].candidates, inputs[i - 1].inContext, lower);
    }
  }

  lemma {:induction false} PendingGrows<A, C>(bindings: seq<Binding<A, C>>, inputs: seq<Input<C>>,
                                              actives: seq<seq<Trigger>>,
                                              results: seq<Match<A>>, lower: char -> string, i: nat, n: nat)
    requires IsRun(bindings, inputs, actives, results, lower) && i + n <= |inputs|
    requires forall k :: i <= k < i + n ==> results[k] == Pending
    ensures |actives[i + n]| == |actives[i]| + n
    decreases n
  {
    if n > 0 {
      PendingGrows(bindings, inputs, actives, results, lower, i, n - 1);
      var k := i + n - 1;
      RunStaysOnTrack(bindings, inputs, actives, results, lower, k);
      NextStaysOnTrack(bindings, actives[k], inputs[k].candidates, inputs[k].inContext, lower);
    }
  }

  /** So there are never more pending results in a row than the longest sequence has triggers, less one. */
  lemma PendingIsBounded<A, C>(bindings: seq<Binding<A, C>>, inputs: seq<Input<C>>, actives: seq<seq<Trigger>>,
                               results: seq<Match<A>>, lower: char -> string, i: nat, n: nat, longest: nat)
    requires IsRun(bindings, inputs, actives, results, lower) && i + n <= |inputs| && n > 0
    requires forall k :: i <= k < i + n ==> results[k] == Pending
    requires forall j :: 0 <= j < |bindings| ==> |bindings[j].sequence| <= longest
    ensures n < longest
  {
    PendingGrows(bindings, inputs, actives, results, lower, i, n);
    RunStaysOnTrack(bindings, inputs, actives, results, lower, i + n);
    var j :| 0 <= j < |bindings| && ProperPrefix(actives[i + n], bindings[j].sequence);
  }
}
