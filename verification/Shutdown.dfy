/** Destroying a service: every registered worker leaves, and the last one cleans up. */
module Shutdown {
  import opened LinberTypes
  import opened Counting
  import opened Protocol
  import opened Invariants
  import opened Runs

  /** How many steps a worker is at most away from having left. */
  function Distance(p: WorkerPhase, holdsRequest: bool): nat {
    match p
    case Left => 0
    case Woken => 1
    case AtSemaphore => 2
    case FaultSignalled => 3
    case InUser => if holdsRequest then 6 else 3
    case FoundAlive => 4
    case Moved(_) => 4
    case Stored => 5
  }

  function DistanceOf(s: State, w: nat): nat
    requires w < |s.workers|
  {
    Distance(s.workers[w], w < |s.slots| && s.slots[w].Some?)
  }

  function TotalDistance(s: State, n: nat): nat
    requires n <= |s.workers|
  {
    if n == 0 then 0 else TotalDistance(s, n - 1) + DistanceOf(s, n - 1)
  }

  function Remaining(s: State): nat { TotalDistance(s, |s.workers|) }

  lemma {:induction false} TotalChanges(s: State, t: State, w: nat, n: nat)
    requires n <= |s.workers| == |t.workers| && w < |s.workers|
    requires forall v :: 0 <= v < |s.workers| && v != w ==> DistanceOf(t, v) == DistanceOf(s, v)
    ensures TotalDistance(t, n) == TotalDistance(s, n) + if w < n then DistanceOf(t, w) - DistanceOf(s, w) else 0
  {
    if n > 0 {
      TotalChanges(s, t, w, n - 1);
    }
  }

  lemma {:induction false} TotalAlike(s: State, t: State, n: nat)
    requires n <= |s.workers| == |t.workers|
    requires forall v :: 0 <= v < |s.workers| ==> DistanceOf(t, v) == DistanceOf(s, v)
    ensures TotalDistance(t, n) == TotalDistance(s, n)
  {
    if n > 0 {
      TotalAlike(s, t, n - 1);
    }
  }

  lemma {:induction false} TotalZero(s: State, n: nat)
    requires n <= |s.workers|
    ensures TotalDistance(s, n) == 0 <==> forall w :: 0 <= w < n ==> s.workers[w] == Left
  {
    if n > 0 {
      TotalZero(s, n - 1);
    }
  }

  /** After shutdown each worker step brings its worker nearer to leaving and moves no other. */
  lemma WorkerComesNearer(s: State, e: Event, t: State)
    requires Inv(s) && s.destroyMe && Step(s, e, t) && WorkerEvent(e)
    ensures e.w < |s.workers| == |t.workers| && DistanceOf(t, e.w) < DistanceOf(s, e.w)
    ensures forall v :: 0 <= v < |s.workers| && v != e.w ==> DistanceOf(t, v) == DistanceOf(s, v)
  {
    hide Places, Ordered, DebtsFit, Balanced, Results, NoLostWakeup, AllCanLeave, CleanedOnce, Count;
  }

  lemma OthersDoNotMatter(s: State, e: Event, t: State)
    requires Inv(s) && s.destroyMe && Step(s, e, t) && !WorkerEvent(e)
    ensures |t.workers| == |s.workers|
    ensures forall v :: 0 <= v < |s.workers| ==> DistanceOf(t, v) == DistanceOf(s, v)
  {
    hide Places, Ordered, DebtsFit, Balanced, Results, NoLostWakeup, AllCanLeave, CleanedOnce, Count, StableOrder.Insert, Without;
  }

  lemma StillDestroyed(s: State, e: Event, t: State)
    requires Step(s, e, t)
    ensures s.destroyMe ==> t.destroyMe
    ensures s.cleanups <= t.cleanups
  {
    hide StableOrder.Insert, Without;
  }

  /** The step a worker takes next when no signal disturbs it. */
  function Next(s: State, w: nat): Event
    requires w < |s.workers|
  {
    match s.workers[w]
    case InUser => StartJob(w)
    case FaultSignalled => ClearFault(w)
    case AtSemaphore => WorkerWake(w, false)
    case Woken => CheckAlive(w)
    case FoundAlive => Take(w)
    case Stored => Move(w)
    case Moved(_) => UpClient(w)
    case Left => CheckAlive(w)
  }

  predicate IsAtSemaphore(p: WorkerPhase) { p == AtSemaphore }

  /** After shutdown no registered worker is stuck: its next step is enabled without a signal. */
  lemma NobodyIsStuck(s: State, w: nat)
    requires Inv(s) && s.destroyMe && w < |s.workers| && s.workers[w] != Left
    ensures Enabled(s, Next(s, w)) && Promised(s, Next(s, w)) && s.cleanups == 0
  {
    if s.workers[w] == AtSemaphore {
      UnitForEach(s, w);
    }
    NotYetCleaned(s, w);
    hide *;
    NextStepFits(s, w);
  }

  lemma NotYetCleaned(s: State, w: nat)
    requires Inv(s) && w < |s.workers| && s.workers[w] != Left
    ensures s.cleanups == 0
  {
    hide Sizes, Places, Ordered, WorkersFit, DebtsFit, Balanced, Results, NoLostWakeup, AllCanLeave, Count;
    CountNone(s.workers, IsRegistered);
    assert IsRegistered(s.workers[w]);
  }

  lemma NextStepFits(s: State, w: nat)
    requires Inv(s) && w < |s.workers| && s.workers[w] != Left && s.cleanups == 0
    requires s.workers[w] == AtSemaphore ==> s.semForRequest > 0
    ensures Enabled(s, Next(s, w)) && Promised(s, Next(s, w))
  {
    hide Ordered, Balanced, Results, Counters, NoLostWakeup, AllCanLeave, CleanedOnce, WaitingFits, CompletedFits;
  }

  lemma UnitForEach(s: State, w: nat)
    requires Inv(s) && s.destroyMe && w < |s.workers| && s.workers[w] == AtSemaphore
    ensures s.semForRequest > 0
  {
    hide Sizes, Places, Ordered, WorkersFit, DebtsFit, Balanced, Results, NoLostWakeup, CleanedOnce, Count;
    CountNone(s.workers, IsAtSemaphore);
    assert IsAtSemaphore(s.workers[w]);
    CountDisjoint(s.workers, IsWoken, IsAtSemaphore, IsRegistered);
  }

  /** clean_service has run exactly when nobody is left. */
  lemma CleanedWhenAllLeft(s: State)
    requires Inv(s) && s.destroyMe
    ensures s.cleanups <= 1
    ensures s.cleanups == 1 <==> Remaining(s) == 0
    ensures s.cleanups == 1 <==> forall w :: 0 <= w < |s.workers| ==> s.workers[w] == Left
  {
    hide Places, Ordered, WorkersFit, DebtsFit, Balanced, Results, NoLostWakeup, Count;
    CountNone(s.workers, IsRegistered);
    TotalZero(s, |s.workers|);
  }

  /** The worker whose step cleans up is the last: all others have left before it. */
  lemma LastWorkerCleans(s: State, e: Event, t: State)
    requires Inv(s) && Step(s, e, t) && t.cleanups > s.cleanups
    ensures s.cleanups == 0 && t.cleanups == 1
    ensures e.Destroy? ==> forall v :: 0 <= v < |s.workers| ==> s.workers[v] == Left
    ensures e.Destroy? || (e.CheckAlive? && forall v :: 0 <= v < |s.workers| && v != e.w ==> s.workers[v] == Left)
  {
    hide Inv, Step;
    StepInv(s, e, t);
    CleanedBy(s, e, t);
    OthersStay(s, e, t);
    CleanedWhenAllLeft(t);
  }

  lemma OthersStay(s: State, e: Event, t: State)
    requires Step(s, e, t) && (e.Destroy? || e.CheckAlive?)
    ensures |t.workers| == |s.workers|
    ensures forall v :: 0 <= v < |s.workers| && (e.CheckAlive? ==> v != e.w) ==> t.workers[v] == s.workers[v]
  {
  }

  lemma CleanedBy(s: State, e: Event, t: State)
    requires Inv(s) && Step(s, e, t) && t.cleanups > s.cleanups && Inv(t)
    ensures e.Destroy? || e.CheckAlive?
    ensures s.cleanups == 0 && t.cleanups == 1 && t.destroyMe
  {
    hide Places, Ordered, WorkersFit, DebtsFit, Balanced, Results, NoLostWakeup, Count, StableOrder.Insert, Without;
  }

  /** What shutdown leaves to the clients: once the service is cleaned up no request waits, is
      served or is owed a wake-up, and each client that has not been woken can go on. */
  lemma ClientsReleased(s: State, id: nat)
    requires Inv(s) && s.cleanups == 1 && id < |s.reqs|
    ensures s.waiting == [] && forall w :: 0 <= w < |s.slots| ==> s.slots[w] == None
    ensures var r := s.reqs[id];
      && !r.place.Waiting? && !r.place.Serving? && r.upOwedBy == None && r.sem + r.consumed == Due(s, id) >= 1
      && (r.client == Blocked && r.consumed == 0 ==> r.sem > 0 && Enabled(s, ClientWake(id, false)))
  {
    AllGone(s);
    hide Sizes, Ordered, Results, Counters, NoLostWakeup, AllCanLeave, CompletedFits;
    assert SemaphoreBalanced(s, id);
  }

  lemma AllGone(s: State)
    requires Inv(s) && s.cleanups == 1
    ensures s.waiting == [] && forall w :: 0 <= w < |s.workers| ==> s.workers[w] == Left
  {
    hide Places, Ordered, WorkersFit, DebtsFit, Balanced, Results, NoLostWakeup, AllCanLeave, Count;
    CleanedWhenAllLeft(s);
  }

  function WorkerSteps(events: seq<Event>): nat { Count(events, WorkerEvent) }

  /** However the threads interleave after shutdown, signals included, the workers together
      take at most as many steps as they were away from leaving. */
  lemma {:induction false} ShutdownBounded(states: seq<State>, events: seq<Event>, i: nat, j: nat)
    requires IsRun(states, events) && i <= j < |states| && states[i].destroyMe
    ensures states[j].destroyMe
    ensures WorkerSteps(events[i..j]) + Remaining(states[j]) <= Remaining(states[i])
    decreases j
  {
    hide Inv, Step;
    if i < j {
      ShutdownBounded(states, events, i, j - 1);
      RunStep(states, events, j - 1);
      var s, e, t := states[j - 1], events[j - 1], states[j];
      assert events[i..j] == events[i..j - 1] + [e];
      CountAppend(events[i..j - 1], e, WorkerEvent);
      StillDestroyed(s, e, t);
      RemainingShrinks(s, e, t);
    }
  }

  lemma RemainingShrinks(s: State, e: Event, t: State)
    requires Inv(s) && s.destroyMe && Step(s, e, t)
    ensures if WorkerEvent(e) then Remaining(t) < Remaining(s) else Remaining(t) == Remaining(s)
  {
    hide Inv, Step;
    if WorkerEvent(e) {
      WorkerComesNearer(s, e, t);
      TotalChanges(s, t, e.w, |s.workers|);
    } else {
      OthersDoNotMatter(s, e, t);
      TotalAlike(s, t, |s.workers|);
    }
  }

  /** The events lead from s to t, each step as the driver and its callers take it. */
  ghost predicate Leads(s: State, events: seq<Event>, t: State)
    decreases |events|
  {
    if events == [] then s == t
    else Enabled(s, events[0]) && Promised(s, events[0]) && Leads(Apply(s, events[0]), events[1..], t)
  }

  lemma LeadsOn(s: State, e: Event, u: State, rest: seq<Event>, t: State)
    requires Step(s, e, u) && Leads(u, rest, t)
    ensures Leads(s, [e] + rest, t)
  {
    assert ([e] + rest)[1..] == rest;
    hide Apply, Inv;
  }

  lemma SomebodyGoesOn(s: State) returns (e: Event, u: State)
    requires Inv(s) && s.destroyMe && s.cleanups != 1
    ensures Step(s, e, u) && WorkerEvent(e) && NoSignal(e)
  {
    hide Inv, Apply;
    CleanedWhenAllLeft(s);
    var w :| 0 <= w < |s.workers| && s.workers[w] != Left;
    NobodyIsStuck(s, w);
    e := Next(s, w);
    u := Apply(s, e);
  }

  /** From any state after shutdown the workers can finish by themselves: undisturbed steps
      of registered workers lead to the one cleanup. */
  lemma {:induction false} ShutdownCompletes(s: State) returns (events: seq<Event>, t: State)
    requires Inv(s) && s.destroyMe
    ensures Leads(s, events, t) && Inv(t) && t.cleanups == 1
    ensures forall k :: 0 <= k < |events| ==> WorkerEvent(events[k]) && NoSignal(events[k])
    decreases Remaining(s)
  {
    hide Inv, Step, Enabled, Promised, Apply, Remaining;
    if s.cleanups == 1 {
      events, t := [], s;
    } else {
      var e, u := SomebodyGoesOn(s);
      StepInv(s, e, u);
      StillDestroyed(s, e, u);
      RemainingShrinks(s, e, u);
      var rest;
      rest, t := ShutdownCompletes(u);
      LeadsOn(s, e, u, rest, t);
      events := [e] + rest;
    }
  }

  /** After shutdown the invariant does not mind the number of units, as long as it covers
      the workers that have to leave. */
  lemma OtherSemaphore(s: State, units: nat)
    requires Inv(s) && s.destroyMe && s.countRegistered <= units + Count(s.workers, IsWoken)
    ensures Inv(s.(semForRequest := units))
  {
    SameRequests(s, units);
    hide Places, Ordered, WorkersFit, DebtsFit, Balanced, Results, Count;
  }

  lemma SameRequests(s: State, units: nat)
    requires Inv(s)
    ensures var t := s.(semForRequest := units);
      Places(t) && Ordered(t) && WorkersFit(t) && DebtsFit(t) && Balanced(t) && Results(t)
  {
    hide Counters, NoLostWakeup, AllCanLeave, CleanedOnce, Places;
    var t := s.(semForRequest := units);
    PlacesAlike(s, t);
    forall id | 0 <= id < |t.reqs| ensures SemaphoreBalanced(t, id) && ResultFits(t, id) {
      assert SemaphoreBalanced(s, id) && ResultFits(s, id);
    }
  }

  lemma PlacesAlike(s: State, t: State)
    requires Places(s) && t == s.(semForRequest := t.semForRequest)
    ensures Places(t)
  {
  }

  lemma StillEnough(s: State)
    requires Inv(s) && s.destroyMe
    ensures s.countRegistered <= s.semForRequest + Count(s.workers, IsWoken)
  {
    hide Places, Ordered, WorkersFit, DebtsFit, Balanced, Results, Count;
  }
}
