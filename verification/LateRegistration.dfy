/** A worker that registers after shutdown has begun. */
module LateRegistration {
  import opened LinberTypes
  import opened Counting
  import opened Protocol
  import opened Invariants
  import opened Runs
  import opened Shutdown

  /** A step that anybody may take as promised, except that no signal wakes a worker and
      nobody destroys the service again. */
  predicate Calm(e: Event) { NoSignal(e) && !e.Destroy? }

  predicate AllCalm(events: seq<Event>) {
    forall k :: 0 <= k < |events| ==> Calm(events[k])
  }

  /** Some such steps lead to the cleanup. */
  ghost predicate CanComplete(s: State) {
    exists events, t :: Leads(s, events, t) && AllCalm(events) && t.cleanups == 1
  }

  /** Units for the workers: present, or still to come from clients that have inserted. */
  function Units(s: State): nat { s.semForRequest + Count(s.reqs, OwesWorkers) }

  /** More registered workers than units and workers on their way out. */
  ghost predicate Short(s: State) {
    s.destroyMe && s.countRegistered > Units(s) + Count(s.workers, IsWoken)
  }

  lemma StaysShort(s: State, e: Event, t: State)
    requires Short(s) && Step(s, e, t) && Calm(e)
    ensures Short(t) && t.cleanups == s.cleanups
  {
    hide Count, StableOrder.Insert, Without;
    WorkersCounted(s, e, t);
    ClientsCounted(s, e, t);
    CountNone(s.workers, IsWoken);
  }

  lemma LeadsFirst(s: State, events: seq<Event>, t: State)
    requires Leads(s, events, t) && events != []
    ensures Enabled(s, events[0])
    ensures Step(s, events[0], Apply(s, events[0])) && Leads(Apply(s, events[0]), events[1..], t)
  {
  }

  lemma {:induction false} ShortForever(s: State, events: seq<Event>, t: State)
    requires Short(s) && Leads(s, events, t) && AllCalm(events)
    ensures t.cleanups == s.cleanups && t.countRegistered > 0
    decreases |events|
  {
    if events != [] {
      LeadsFirst(s, events, t);
      hide Step, Leads, Enabled, Promised, Apply, Count, Units;
      var u := Apply(s, events[0]);
      StaysShort(s, events[0], u);
      ShortForever(u, events[1..], t);
    }
  }

  /** The service with all units that are still to come. */
  function Raised(s: State): State { s.(semForRequest := Units(s)) }

  lemma UpRaised(s: State, id: nat)
    requires Inv(Raised(s)) && s.destroyMe && Enabled(s, UpWorkers(id))
    ensures var t := Apply(s, UpWorkers(id));
      && Step(s, UpWorkers(id), t) && Inv(Raised(t)) && t.destroyMe
      && Count(t.reqs, OwesWorkers) < Count(s.reqs, OwesWorkers)
  {
    var t := Apply(s, UpWorkers(id));
    var r := Apply(Raised(s), UpWorkers(id));
    hide Inv, Count;
    assert Step(s, UpWorkers(id), t) && Step(Raised(s), UpWorkers(id), r);
    ClientsCounted(s, UpWorkers(id), t);
    StepInv(Raised(s), UpWorkers(id), r);
    StillEnough(Raised(s));
    assert r.(semForRequest := Units(t)) == Raised(t);
    OtherSemaphore(r, Units(t));
  }

  /** When the units to come are enough, they come, and then the workers leave. */
  lemma {:induction false} EnoughCompletes(s: State) returns (events: seq<Event>, t: State)
    requires Inv(Raised(s)) && s.destroyMe
    ensures Leads(s, events, t) && AllCalm(events) && t.cleanups == 1
    decreases Count(s.reqs, OwesWorkers)
  {
    CountNone(s.reqs, OwesWorkers);
    if id: nat :| id < |s.reqs| && OwesWorkers(s.reqs[id]) {
      assert Enabled(s, UpWorkers(id));
      hide Inv, Step, Apply, Enabled, Promised, Count;
      UpRaised(s, id);
      var rest;
      rest, t := EnoughCompletes(Apply(s, UpWorkers(id)));
      LeadsOn(s, UpWorkers(id), Apply(s, UpWorkers(id)), rest, t);
      events := [UpWorkers(id)] + rest;
    } else {
      assert Raised(s) == s;
      hide Inv, Leads, Count;
      events, t := ShutdownCompletes(s);
    }
  }

  /** After shutdown the driver still lets workers register. If from then on everybody keeps
      his part, no signal wakes a worker and nobody destroys the service again, one
      registration more leaves room for the cleanup exactly when there is a unit to spare for
      the newcomer, present or still to come from a client that has inserted its request;
      otherwise somebody stays blocked and the service is never cleaned up. */
  lemma LateRegistrationExactly(s: State)
    requires Inv(s) && s.destroyMe && Enabled(s, Register)
    ensures CanComplete(Apply(s, Register))
       <==> s.countRegistered < s.semForRequest + Count(s.workers, IsWoken) + Count(s.reqs, OwesWorkers)
  {
    var t := Apply(s, Register);
    AtLateRegistration(s, t);
    if s.countRegistered < Units(s) + Count(s.workers, IsWoken) {
      OtherSemaphore(s, Units(s));
      assert Apply(Raised(s), Register) == Raised(t);
      hide Inv, Apply, Enabled, Leads, Count;
      InvAtLateRegistration(Raised(s), Raised(t));
      var events, u := EnoughCompletes(t);
    } else if CanComplete(t) {
      hide Inv, Apply, Enabled, Leads, Count;
      var events, u :| Leads(t, events, u) && AllCalm(events) && u.cleanups == 1;
      ShortForever(t, events, u);
    }
  }

  lemma AtLateRegistration(s: State, t: State)
    requires Inv(s) && s.destroyMe && Enabled(s, Register) && t == Apply(s, Register)
    ensures t.destroyMe && t.cleanups == 0 && t.countRegistered == s.countRegistered + 1 && s.countRegistered > 0
    ensures Count(t.workers, IsWoken) == Count(s.workers, IsWoken)
    ensures Count(t.workers, IsRegistered) == Count(s.workers, IsRegistered) + 1
    ensures Count(t.workers, IsOnItsWay) == Count(s.workers, IsOnItsWay)
    ensures t.reqs == s.reqs && t.semForRequest == s.semForRequest
    ensures Short(t) <==> s.countRegistered >= Units(s) + Count(s.workers, IsWoken)
  {
    hide Places, Ordered, WorkersFit, DebtsFit, Balanced, Results, NoLostWakeup, Count;
    CountAppend(s.workers, InUser, IsWoken);
    CountAppend(s.workers, InUser, IsRegistered);
    CountAppend(s.workers, InUser, IsOnItsWay);
    CountNone(s.workers, IsRegistered);
    CountNone(s.workers, IsWoken);
  }

  lemma InvAtLateRegistration(s: State, t: State)
    requires Inv(s) && s.destroyMe && Enabled(s, Register) && t == Apply(s, Register)
    requires s.countRegistered < s.semForRequest + Count(s.workers, IsWoken)
    ensures Inv(t)
  {
    AtLateRegistration(s, t);
    RequestsUntouched(s, t);
    hide Places, Ordered, WorkersFit, DebtsFit, Balanced, Results, Count;
  }

  lemma RequestsUntouched(s: State, t: State)
    requires Inv(s) && s.destroyMe && Enabled(s, Register) && t == Apply(s, Register)
    ensures Places(t) && Ordered(t) && WorkersFit(t) && DebtsFit(t) && Balanced(t) && Results(t)
  {
    hide Counters, NoLostWakeup, AllCanLeave, CleanedOnce;
    assert forall w: nat, p :: p != InUser ==> (WorkerIs(t, w, p) <==> WorkerIs(s, w, p));
    forall id | 0 <= id < |t.reqs| ensures SemaphoreBalanced(t, id) && ResultFits(t, id) {
      assert SemaphoreBalanced(s, id) && ResultFits(s, id);
      var r := t.reqs[id];
      assert r.place.Serving? ==> (WorkerIs(t, r.place.worker, Stored) <==> WorkerIs(s, r.place.worker, Stored));
      assert r.place.Serving? ==> (WorkerIs(t, r.place.worker, FaultSignalled) <==> WorkerIs(s, r.place.worker, FaultSignalled));
    }
  }

  /** Such a state is soon reached: one idle worker, shutdown, and a second worker registers. */
  lemma LateRegistrationStrands(s: State)
    requires s.maxWorkers >= 2 && s == Init(s.base, s.maxWorkers)
    ensures var waits := Apply(Apply(s, Register), StartJob(0));
      && Inv(Apply(waits, Destroy)) && Enabled(Apply(waits, Destroy), Register)
      && !CanComplete(Apply(Apply(waits, Destroy), Register))
  {
    hide StableOrder.Insert, Without;
    var one := Apply(s, Register);
    var waits := Apply(one, StartJob(0));
    var down := Apply(waits, Destroy);
    assert Step(s, Register, one) && Step(one, StartJob(0), waits) && Step(waits, Destroy, down);
    assert down.countRegistered == 1 && down.semForRequest == 1 && down.workers == [AtSemaphore];
    InitInv(s.base, s.maxWorkers);
    StepInv(s, Register, one);
    StepInv(one, StartJob(0), waits);
    StepInv(waits, Destroy, down);
    CountNone(down.workers, IsWoken);
    assert down.reqs == [];
    CountNone(down.reqs, OwesWorkers);
    hide Inv, Step;
    LateRegistrationExactly(down);
  }
}
