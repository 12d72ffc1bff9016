/** A request that passed the unlocked test of destroy_me and is inserted after shutdown. */
module LateRequests {
  import opened MachineInt
  import opened LinberTypes
  import opened StableOrder
  import opened Protocol
  import opened Invariants
  import opened Paths

  predicate NoDestroy(events: seq<Event>) {
    forall k :: 0 <= k < |events| ==> !events[k].Destroy?
  }

  /** A worker has seen the service alive and is about to take a request. */
  predicate AboutToTake(s: State) {
    exists w :: 0 <= w < |s.workers| && s.workers[w] == FoundAlive
  }

  /** The request waits, its client has no unit, and nobody will do anything about it. */
  ghost predicate Forgotten(s: State, id: nat) {
    && s.destroyMe && id < |s.reqs| && s.reqs[id].place == Waiting && s.reqs[id].sem == 0 && s.reqs[id].consumed == 0
    && !AboutToTake(s)
    && (forall w :: 0 <= w < |s.slots| ==> s.slots[w] != Some(id))
    && (forall w :: 0 <= w < |s.workers| ==> s.workers[w] != Moved(id))
  }

  lemma StaysForgotten(s: State, id: nat, e: Event, t: State)
    requires Forgotten(s, id) && Enabled(s, e) && t == Apply(s, e) && !e.Destroy?
    ensures Forgotten(t, id)
  {
    hide Insert, Without;
  }

  /** Whoever steps, promised or not, short of another destroy: such a request stays so, and
      only a signal ends its client's wait. */
  lemma {:induction false} ForgottenForGood(states: seq<State>, events: seq<Event>, i: nat, id: nat)
    requires IsPath(states, events) && NoDestroy(events) && Forgotten(states[0], id) && i < |states|
    ensures Forgotten(states[i], id)
  {
    hide Forgotten, Enabled, Apply;
    if i > 0 {
      ForgottenForGood(states, events, i - 1, id);
      StaysForgotten(states[i - 1], id, events[i - 1], states[i]);
    }
  }

  ghost predicate CanBeTaken(s: State, id: nat) {
    exists states: seq<State>, events: seq<Event> :: IsPath(states, events) && NoDestroy(events) && states[0] == s
      && id < |states[|events|].reqs| && states[|events|].reqs[id].place != Waiting
  }

  /** What becomes of a request inserted after shutdown, if nobody destroys the service again:
      it can still be taken exactly when some worker has found the service alive before;
      otherwise it waits for good and its client is never given a unit. */
  lemma LateRequestExactly(s: State, deadline: u64, blocking: bool)
    requires Inv(s) && s.destroyMe && Enabled(s, Enqueue(deadline, blocking))
    ensures var t := Apply(s, Enqueue(deadline, blocking));
      && (CanBeTaken(t, |s.reqs|) <==> AboutToTake(s))
      && (!AboutToTake(s) ==> Forgotten(t, |s.reqs|))
  {
    var t, id := Apply(s, Enqueue(deadline, blocking)), |s.reqs|;
    if AboutToTake(s) {
      var w :| 0 <= w < |s.workers| && s.workers[w] == FoundAlive;
      TakesIt(s, deadline, blocking, w);
    } else {
      AtOnceForgotten(s, deadline, blocking);
      hide Inv, Apply, Enabled, AboutToTake;
      if CanBeTaken(t, id) {
        var states: seq<State>, events: seq<Event> :| IsPath(states, events) && NoDestroy(events) && states[0] == t
          && id < |states[|events|].reqs| && states[|events|].reqs[id].place != Waiting;
        ForgottenForGood(states, events, |events|, id);
      }
    }
  }

  lemma AtOnceForgotten(s: State, deadline: u64, blocking: bool)
    requires Inv(s) && s.destroyMe && Enabled(s, Enqueue(deadline, blocking)) && !AboutToTake(s)
    ensures Forgotten(Apply(s, Enqueue(deadline, blocking)), |s.reqs|)
  {
    hide Ordered, WorkersFit, Balanced, Results, Counters, NoLostWakeup, AllCanLeave, CleanedOnce, Insert;
  }

  lemma TakesIt(s: State, deadline: u64, blocking: bool, w: nat)
    requires Inv(s) && s.destroyMe && Enabled(s, Enqueue(deadline, blocking)) && WorkerIs(s, w, FoundAlive)
    ensures CanBeTaken(Apply(s, Enqueue(deadline, blocking)), |s.reqs|)
  {
    hide Places, Ordered, WorkersFit, DebtsFit, Balanced, Results, NoLostWakeup, AllCanLeave, CleanedOnce;
    var t, id := Apply(s, Enqueue(deadline, blocking)), |s.reqs|;
    assert t.waiting == [id];
    var u := Apply(t, Take(w));
    assert IsPath([t, u], [Take(w)]) && NoDestroy([Take(w)]);
    assert u.reqs[id].place == Serving(w);
    assert [t, u][|[Take(w)]|] == u;
  }
}
