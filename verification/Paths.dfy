/** Sequences of steps that can be taken, whether or not all callers keep their part. */
module Paths {
  import opened Protocol
  import opened Invariants
  import opened Runs

  /** The states follow each other by steps that can be taken; what callers promise is not
      asked for. */
  ghost predicate IsPath(states: seq<State>, events: seq<Event>) {
    && |states| == |events| + 1
    && forall i :: 0 <= i < |events| ==> Enabled(states[i], events[i]) && states[i + 1] == Apply(states[i], events[i])
  }

  lemma PathsJoin(states: seq<State>, events: seq<Event>, states': seq<State>, events': seq<Event>)
    requires IsPath(states, events) && IsPath(states', events') && states[|events|] == states'[0]
    ensures IsPath(states + states'[1..], events + events')
    ensures (states + states'[1..])[|events + events'|] == states'[|events'|]
  {
    hide Enabled, Apply;
    var all, steps := states + states'[1..], events + events';
    assert forall i :: 0 <= i <= |events'| ==> all[|events| + i] == states'[i];
    forall i | 0 <= i < |steps| ensures Enabled(all[i], steps[i]) && all[i + 1] == Apply(all[i], steps[i]) {
      if i >= |events| {
        var k := i - |events|;
        assert all[|events| + k] == states'[k] && all[|events| + (k + 1)] == states'[k + 1];
        assert steps[i] == events'[k];
      }
    }
  }

  /** The same with all promises kept. */
  ghost predicate Follows(states: seq<State>, events: seq<Event>) {
    && |states| == |events| + 1
    && forall i :: 0 <= i < |events| ==> Step(states[i], events[i], states[i + 1])
  }

  lemma FollowsJoin(states: seq<State>, events: seq<Event>, states': seq<State>, events': seq<Event>)
    requires Follows(states, events) && Follows(states', events') && states[|events|] == states'[0]
    ensures Follows(states + states'[1..], events + events') && (states + states'[1..])[0] == states[0]
    ensures (states + states'[1..])[|events + events'|] == states'[|events'|]
  {
    hide Step;
    var all, steps := states + states'[1..], events + events';
    assert forall i :: 0 <= i <= |events'| ==> all[|events| + i] == states'[i];
    forall i | 0 <= i < |steps| ensures Step(all[i], steps[i], all[i + 1]) {
      if i >= |events| {
        var k := i - |events|;
        assert all[|events| + k] == states'[k] && all[|events| + (k + 1)] == states'[k + 1];
        assert steps[i] == events'[k];
      }
    }
  }

  lemma IsRunFromInit(states: seq<State>, events: seq<Event>)
    requires Follows(states, events) && states[0] == Init(states[0].base, states[0].maxWorkers)
    ensures IsRun(states, events)
  {
  }
}
