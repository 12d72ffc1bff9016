/** Shutdown with workers that come back after they were told to leave, as the repository's own
    workers do. */
module ReturningWorkers {
  import opened MachineInt
  import opened LinberTypes
  import opened Counting
  import opened Protocol
  import opened Invariants
  import opened Runs
  import opened Shutdown
  import opened Paths

  predicate Undisturbed(events: seq<Event>) {
    forall k :: 0 <= k < |events| ==> WorkerEvent(events[k]) && NoSignal(events[k])
  }

  /** The worker was told to leave and starts a job all the same. */
  predicate Returns(s: State, e: Event) { e.StartJob? && WorkerIs(s, e.w, Left) }

  /** A run in which that may happen; all else is as promised. */
  ghost predicate IsLooseRun(states: seq<State>, events: seq<Event>) {
    && IsPath(states, events) && states[0] == Init(states[0].base, states[0].maxWorkers)
    && forall i :: 0 <= i < |events| ==> Promised(states[i], events[i]) || Returns(states[i], events[i])
  }

  /** More workers are under way than the service counts. */
  ghost predicate Undercounted(s: State) {
    && s.destroyMe && s.cleanups == 0 && |s.workers| == s.nextId <= s.maxWorkers
    && 0 < s.countRegistered < Count(s.workers, IsRegistered)
  }

  ghost predicate SomebodyThere(s: State) {
    exists w :: 0 <= w < |s.workers| && s.workers[w] != Left
  }

  lemma ReturnUndercounts(s: State, w: nat)
    requires Inv(s) && s.destroyMe && WorkerIs(s, w, Left) && Enabled(s, StartJob(w))
    ensures Undercounted(Apply(s, StartJob(w)))
  {
    hide Ordered, DebtsFit, Balanced, Results, NoLostWakeup, AllCanLeave, Count, WaitingFits, CompletedFits;
    assert s.slots[w] == None;
    CountUpdate(s.workers, w, AtSemaphore, IsRegistered);
  }

  /** What a step changes of the registered workers, promised or not. */
  lemma RegisteredCounted(s: State, e: Event, t: State)
    requires Enabled(s, e) && t == Apply(s, e)
    ensures |t.workers| == |s.workers| + if e.Register? then 1 else 0
    ensures Count(t.workers, IsRegistered) == Count(s.workers, IsRegistered)
      + (if e.Register? || Returns(s, e) then 1 else 0) - (if e.CheckAlive? && s.destroyMe then 1 else 0)
  {
    hide StableOrder.Insert, Without, Count;
    if e.Register? {
      CountAppend(s.workers, InUser, IsRegistered);
    } else if WorkerEvent(e) {
      assert t.workers == s.workers[e.w := t.workers[e.w]];
      CountUpdate(s.workers, e.w, t.workers[e.w], IsRegistered);
    }
  }

  lemma StaysUndercounted(s: State, e: Event, t: State)
    requires Undercounted(s) && Enabled(s, e) && t == Apply(s, e)
    ensures if t.cleanups == 0 then Undercounted(t) else SomebodyThere(t)
  {
    hide StableOrder.Insert, Without, Count, DestroyedReq;
    RegisteredCounted(s, e, t);
    CountNone(s.workers, IsRegistered);
    CountNone(t.workers, IsRegistered);
  }

  /** Whatever happens after a worker has come back, promised or not: when the service is
      cleaned up, somebody is still there. */
  lemma {:induction false} ReturnStrandsSomebody(states: seq<State>, events: seq<Event>, j: nat)
    requires IsPath(states, events) && Undercounted(states[0]) && j < |states|
    requires forall i :: 0 <= i < j ==> states[i].cleanups == 0
    ensures if states[j].cleanups == 0 then Undercounted(states[j]) else SomebodyThere(states[j])
  {
    assert states[0].cleanups == 0;
    hide Undercounted, SomebodyThere, Enabled, Apply;
    if j > 0 {
      ReturnStrandsSomebody(states, events, j - 1);
      StaysUndercounted(states[j - 1], events[j - 1], states[j]);
    }
  }

  lemma {:induction false} PromisedPrefix(states: seq<State>, events: seq<Event>, i: nat)
    requires IsLooseRun(states, events) && i < |states|
    requires forall k: nat :: k < i ==> !Returns(states[k], events[k])
    ensures Inv(states[i])
  {
    hide Inv, Enabled, Promised, Apply, Returns;
    if i == 0 {
      InitInv(states[0].base, states[0].maxWorkers);
    } else {
      PromisedPrefix(states, events, i - 1);
      assert !Returns(states[i - 1], events[i - 1]);
      StepInv(states[i - 1], events[i - 1], states[i]);
    }
  }

  lemma OnlyAfterShutdown(s: State)
    requires Inv(s)
    ensures !s.destroyMe ==> forall w :: 0 <= w < |s.workers| ==> s.workers[w] != Left
    ensures s.cleanups != 0 ==> s.destroyMe && !SomebodyThere(s)
  {
    hide Places, Ordered, WorkersFit, DebtsFit, Balanced, Results, NoLostWakeup, AllCanLeave, Count;
    CountNone(s.workers, IsRegistered);
    if !s.destroyMe {
      AllCounted(s.workers);
    }
  }

  lemma {:induction false} AllCounted(workers: seq<WorkerPhase>)
    requires Count(workers, IsRegistered) == |workers|
    ensures forall w :: 0 <= w < |workers| ==> workers[w] != Left
  {
    CountNone(workers[if |workers| > 0 then 1 else 0..], IsRegistered);
    if workers != [] {
      AllCounted(workers[1..]);
      assert forall w :: 1 <= w < |workers| ==> workers[w] == workers[1..][w - 1];
    }
  }

  lemma FirstReturn(states: seq<State>, events: seq<Event>, i: nat, k: nat) returns (j: nat)
    requires |states| == |events| + 1 && i < |states| && k < i && Returns(states[k], events[k])
    ensures j < i && Returns(states[j], events[j]) && forall m: nat :: m < j ==> !Returns(states[m], events[m])
  {
    hide Returns;
    j := 0;
    while !Returns(states[j], events[j])
      invariant j <= k && forall m: nat :: m < j ==> !Returns(states[m], events[m])
      decreases k - j
    {
      j := j + 1;
    }
  }

  /** Over whole runs: when the service is cleaned up all workers have left if and only if
      none had come back after it was told to leave. */
  lemma CleanupExactly(states: seq<State>, events: seq<Event>, i: nat)
    requires IsLooseRun(states, events) && i < |states| && states[i].cleanups != 0
    requires forall k :: 0 <= k < i ==> states[k].cleanups == 0
    ensures !SomebodyThere(states[i]) <==> forall k: nat :: k < i ==> !Returns(states[k], events[k])
  {
    hide Inv, Enabled, Promised, Apply, Returns, SomebodyThere, Undercounted;
    if k: nat :| k < i && Returns(states[k], events[k]) {
      var j := FirstReturn(states, events, i, k);
      PromisedPrefix(states, events, j);
      AtReturn(states[j], events[j]);
      assert IsPath(states[j + 1..], events[j + 1..]);
      ReturnStrandsSomebody(states[j + 1..], events[j + 1..], i - j - 1);
    } else {
      PromisedPrefix(states, events, i);
      OnlyAfterShutdown(states[i]);
    }
  }

  lemma AtReturn(s: State, e: Event)
    requires Inv(s) && Returns(s, e) && Enabled(s, e)
    ensures Undercounted(Apply(s, e))
  {
    hide Inv, Enabled, Apply, Undercounted;
    OnlyAfterShutdown(s);
    ReturnUndercounts(s, e.w);
  }

  // ---------------------------------------------------------------- the cleanup still comes

  function Registered(s: State): nat { Count(s.workers, IsRegistered) }

  /** The service as if it had not counted out those who came back, and had a unit for each. */
  function AsIf(s: State): State
    requires s.countRegistered <= Registered(s) <= s.maxWorkers
  {
    s.(countRegistered := Registered(s),
       semForRequest := s.semForRequest + (Registered(s) - s.countRegistered))
  }

  /** What runs with returning workers keep until the cleanup: there is a unit, or a worker
      past the semaphore, for each that the service still counts. */
  ghost predicate Loose(s: State) {
    && s.cleanups == 0 && s.countRegistered <= Registered(s) <= s.maxWorkers
    && (!s.destroyMe ==> s.countRegistered == Registered(s))
    && (s.destroyMe ==> 0 < s.countRegistered <= s.semForRequest + Count(s.workers, IsWoken))
    && Inv(AsIf(s))
  }

  /** As promised, but for workers that come back. */
  ghost predicate LooseStep(s: State, e: Event, t: State) {
    Enabled(s, e) && (Promised(s, e) || Returns(s, e)) && t == Apply(s, e)
  }

  lemma LooseAtFirst(s: State)
    requires s == Init(s.base, s.maxWorkers)
    ensures Loose(s)
  {
    InitInv(s.base, s.maxWorkers);
    assert AsIf(s) == s;
  }

  lemma WokenCounted(s: State, e: Event, t: State)
    requires Enabled(s, e) && t == Apply(s, e)
    ensures Count(t.workers, IsWoken) == Count(s.workers, IsWoken)
      + (if e.WorkerWake? then 1 else 0) - (if e.CheckAlive? then 1 else 0)
  {
    hide StableOrder.Insert, Without, Count;
    if e.Register? {
      CountAppend(s.workers, InUser, IsWoken);
    } else if WorkerEvent(e) {
      assert t.workers == s.workers[e.w := t.workers[e.w]];
      CountUpdate(s.workers, e.w, t.workers[e.w], IsWoken);
    }
  }

  /** How a step changes the semaphore and the counters. */
  lemma CountersStep(s: State, e: Event, t: State)
    requires Enabled(s, e) && t == Apply(s, e)
    ensures t.maxWorkers == s.maxWorkers && t.destroyMe == (s.destroyMe || e.Destroy?) && s.cleanups <= t.cleanups
    ensures t.countRegistered == if e.Register? then Wrap32(s.countRegistered + 1)
      else if e.CheckAlive? && s.destroyMe then Wrap32(s.countRegistered - 1) else s.countRegistered
    ensures t.cleanups == s.cleanups
      + if (e.Destroy? || (e.CheckAlive? && s.destroyMe)) && t.countRegistered == 0 then 1 else 0
    ensures t.semForRequest == s.semForRequest + (if e.UpWorkers? then 1 else if e.Destroy? then s.countRegistered else 0)
      - (if e.WorkerWake? && !e.signal then 1 else 0)
  {
    hide StableOrder.Insert, Without, Wrap32;
  }

  /** A step of the service is one of the service as if. */
  lemma StepAsIf(s: State, e: Event, t: State)
    requires Loose(s) && Step(s, e, t) && t.cleanups == 0 && !e.Destroy?
    ensures t.countRegistered <= Registered(t) <= t.maxWorkers
    ensures Step(AsIf(s), e, AsIf(t))
  {
    EnabledAsIf(s, AsIf(s), e);
    CountsAsIf(s, e, t);
    hide Inv, Registered, Enabled, Promised, Apply;
    SameButCounters(s, AsIf(s), e, t, Apply(AsIf(s), e));
    assert Apply(AsIf(s), e) == AsIf(t);
  }

  lemma CountsAsIf(s: State, e: Event, t: State)
    requires Loose(s) && Step(s, e, t) && t.cleanups == 0 && !e.Destroy? && Enabled(AsIf(s), e)
    ensures t.countRegistered <= Registered(t) <= t.maxWorkers
    ensures var r := Apply(AsIf(s), e);
      && r.countRegistered == Registered(t) && r.cleanups == 0
      && r.semForRequest == t.semForRequest + (Registered(t) - t.countRegistered)
  {
    hide Inv, Count, Enabled, Promised, Apply, Returns;
    RegisteredIsOne(s, e);
    RegisteredCounted(s, e, t);
    CountersStep(s, e, t);
    PromiseKept(s, e);
    CountersStep(AsIf(s), e, Apply(AsIf(s), e));
  }

  lemma PromiseKept(s: State, e: Event)
    requires Promised(s, e)
    ensures !Returns(s, e) && (s.destroyMe ==> !e.Register?)
  {
  }

  lemma RegisteredIsOne(s: State, e: Event)
    requires Loose(s) && Enabled(s, e)
    ensures e.CheckAlive? ==> Registered(s) > 0
    ensures e.Register? ==> Registered(s) < s.maxWorkers
    ensures e.CheckAlive? && s.destroyMe ==> Registered(Apply(s, e)) == Registered(s) - 1
    ensures Registered(s) < TWO_32
  {
    RegisteredCounted(s, e, Apply(s, e));
    hide Places, Ordered, WorkersFit, DebtsFit, Balanced, Results, NoLostWakeup, AllCanLeave, CleanedOnce, Count, Apply;
    CountNone(s.workers, IsRegistered);
  }

  /** Whether a step can be taken does not depend on the counters, if there are units enough. */
  lemma EnabledAsIf(s: State, s': State, e: Event)
    requires s' == s.(countRegistered := s'.countRegistered, semForRequest := s'.semForRequest) && s.semForRequest <= s'.semForRequest
    requires Enabled(s, e)
    ensures Enabled(s', e) && (Promised(s, e) ==> Promised(s', e))
  {
  }

  /** Nor does what it does, but for the counters themselves and the cleanup. */
  lemma SameButCounters(s: State, s': State, e: Event, t: State, t': State)
    requires s' == s.(countRegistered := s'.countRegistered, semForRequest := s'.semForRequest)
    requires Enabled(s, e) && t == Apply(s, e) && Enabled(s', e) && t' == Apply(s', e) && !e.Destroy?
    requires t.cleanups == t'.cleanups
    ensures t' == t.(countRegistered := t'.countRegistered, semForRequest := t'.semForRequest)
  {
    if WorkerEvent(e) {
      WorkersSame(s, s', e, t, t');
    } else {
      hide StableOrder.Insert, Without, Wrap32, Promised;
    }
  }

  lemma WorkersSame(s: State, s': State, e: Event, t: State, t': State)
    requires s' == s.(countRegistered := s'.countRegistered, semForRequest := s'.semForRequest)
    requires Enabled(s, e) && t == Apply(s, e) && Enabled(s', e) && t' == Apply(s', e) && WorkerEvent(e)
    requires t.cleanups == t'.cleanups
    ensures t' == t.(countRegistered := t'.countRegistered, semForRequest := t'.semForRequest)
  {
    hide Wrap32, Promised, StableOrder.Insert, Without;
    if e.Take? {
      TakeSame(s, s', e, t, t');
    } else if e.StartJob? || e.ClearFault? {
      FaultSame(s, s', e, t, t');
    }
  }

  lemma TakeSame(s: State, s': State, e: Event, t: State, t': State)
    requires s' == s.(countRegistered := s'.countRegistered, semForRequest := s'.semForRequest)
    requires Enabled(s, e) && t == Apply(s, e) && Enabled(s', e) && t' == Apply(s', e) && e.Take?
    ensures t' == t.(countRegistered := t'.countRegistered, semForRequest := t'.semForRequest)
  {
    hide Promised, Wrap32;
  }

  lemma FaultSame(s: State, s': State, e: Event, t: State, t': State)
    requires s' == s.(countRegistered := s'.countRegistered, semForRequest := s'.semForRequest)
    requires Enabled(s, e) && t == Apply(s, e) && Enabled(s', e) && t' == Apply(s', e) && (e.StartJob? || e.ClearFault?)
    ensures t' == t.(countRegistered := t'.countRegistered, semForRequest := t'.semForRequest)
  {
    hide Promised;
  }

  /** A worker back at the semaphore, counted and with a unit of its own, is as good as new. */
  lemma Revived(s: State, w: nat, t: State)
    requires Inv(s) && s.destroyMe && s.cleanups == 0 && WorkerIs(s, w, Left) && s.countRegistered < s.maxWorkers
    requires t == s.(workers := s.workers[w := AtSemaphore], countRegistered := s.countRegistered + 1, semForRequest := s.semForRequest + 1)
    ensures Inv(t)
  {
    RevivedRequests(s, w, t);
    hide Places, Ordered, WorkersFit, DebtsFit, Balanced, Results, Count;
    CountUpdate(s.workers, w, AtSemaphore, IsRegistered);
    CountUpdate(s.workers, w, AtSemaphore, IsWoken);
    CountUpdate(s.workers, w, AtSemaphore, IsOnItsWay);
  }

  lemma RevivedRequests(s: State, w: nat, t: State)
    requires Inv(s) && WorkerIs(s, w, Left)
    requires t == s.(workers := s.workers[w := AtSemaphore], countRegistered := t.countRegistered, semForRequest := t.semForRequest)
    ensures Places(t) && Ordered(t) && WorkersFit(t) && DebtsFit(t) && Balanced(t) && Results(t)
  {
    hide Counters, NoLostWakeup, AllCanLeave, CleanedOnce, Places;
    RevivedPlaces(s, w, t);
    assert forall v: nat, p :: p != Left && p != AtSemaphore ==> (WorkerIs(t, v, p) <==> WorkerIs(s, v, p));
    forall id | 0 <= id < |t.reqs| ensures SemaphoreBalanced(t, id) && ResultFits(t, id) {
      assert SemaphoreBalanced(s, id) && ResultFits(s, id);
      var r := t.reqs[id];
      assert r.place.Serving? ==> (WorkerIs(t, r.place.worker, Stored) <==> WorkerIs(s, r.place.worker, Stored));
      assert r.place.Serving? ==> (WorkerIs(t, r.place.worker, FaultSignalled) <==> WorkerIs(s, r.place.worker, FaultSignalled));
    }
    forall v | 0 <= v < |t.slots| && t.slots[v].Some? ensures v < |t.workers| && (t.workers[v] == InUser || NeedsSlot(t.workers[v])) {
      assert v != w;
    }
  }

  lemma RevivedPlaces(s: State, w: nat, t: State)
    requires Places(s) && t.waiting == s.waiting && t.slots == s.slots && t.completed == s.completed && t.reqs == s.reqs
    ensures Places(t)
  {
  }

  lemma KeptAtReturn(s: State, e: Event, t: State)
    requires Loose(s) && LooseStep(s, e, t) && Returns(s, e)
    ensures Registered(t) == Registered(s) + 1 <= t.maxWorkers
    ensures t.countRegistered == s.countRegistered && s.destroyMe && t.destroyMe && Inv(AsIf(t))
  {
    OnlyAfterShutdown(AsIf(s));
    NothingToSignal(AsIf(s), e.w);
    RoomForOneMore(AsIf(s), e.w);
    hide Inv, Count;
    assert t == s.(workers := s.workers[e.w := AtSemaphore]);
    CountUpdate(s.workers, e.w, AtSemaphore, IsRegistered);
    Revived(AsIf(s), e.w, AsIf(t));
  }

  lemma NothingToSignal(s: State, w: nat)
    requires Inv(s) && WorkerIs(s, w, Left)
    ensures !Holding(s, w)
  {
    hide Places, Ordered, DebtsFit, Balanced, Results, Counters, NoLostWakeup, AllCanLeave, CleanedOnce;
  }

  lemma RoomForOneMore(s: State, w: nat)
    requires Inv(s) && WorkerIs(s, w, Left)
    ensures Registered(s) < s.maxWorkers
  {
    hide Places, Ordered, WorkersFit, DebtsFit, Balanced, Results, NoLostWakeup, AllCanLeave, CleanedOnce, Count;
    CountUpdate(s.workers, w, AtSemaphore, IsRegistered);
    CountNone(s.workers[w := AtSemaphore], IsRegistered);
  }

  lemma DestroyAsIf(s: State, s': State, t: State, t': State)
    requires s' == s.(countRegistered := s'.countRegistered, semForRequest := s'.semForRequest)
    requires s.countRegistered > 0 && s'.countRegistered > 0 && s.cleanups == 0
    requires t == Apply(s, Destroy) && t' == Apply(s', Destroy)
    ensures t' == t.(countRegistered := s'.countRegistered, semForRequest := s'.semForRequest + s'.countRegistered)
    ensures t.workers == s.workers && t.cleanups == 0 && t.destroyMe
    ensures t.countRegistered == s.countRegistered && t.semForRequest == s.semForRequest + s.countRegistered
  {
    assert forall i :: 0 <= i < |s.reqs| ==> DestroyedReq(s, i) == DestroyedReq(s', i);
    assert t.reqs == t'.reqs;
  }

  lemma KeptAtDestroy(s: State, t: State)
    requires Loose(s) && Step(s, Destroy, t) && t.cleanups == 0
    ensures t.countRegistered == s.countRegistered > 0 && Registered(t) == Registered(s) <= t.maxWorkers && t.destroyMe
    ensures t.semForRequest == s.semForRequest + s.countRegistered && Inv(AsIf(t))
  {
    CountersStep(s, Destroy, t);
    hide Inv, Count, Apply;
    var r := Apply(AsIf(s), Destroy);
    assert Step(AsIf(s), Destroy, r);
    DestroyAsIf(s, AsIf(s), t, r);
    StepInv(AsIf(s), Destroy, r);
    var units := t.semForRequest + (Registered(t) - t.countRegistered);
    OtherSemaphore(r, units);
    assert AsIf(t) == r.(semForRequest := units);
  }

  /** Until the cleanup, every step keeps what runs with returning workers keep. */
  lemma LooseKept(s: State, e: Event, t: State)
    requires Loose(s) && LooseStep(s, e, t) && t.cleanups == 0
    ensures Loose(t)
  {
    hide Inv, Registered, Count, Apply, Enabled, Promised, Returns;
    CountersStep(s, e, t);
    WokenCounted(s, e, t);
    if Returns(s, e) {
      KeptAtReturn(s, e, t);
      NoOtherStep(s, e);
    } else if e.Destroy? {
      KeptAtDestroy(s, t);
    } else {
      PromiseKept(s, e);
      StepAsIf(s, e, t);
      StepInv(AsIf(s), e, AsIf(t));
      if !s.destroyMe {
        assert AsIf(s) == s;
        assert AsIf(t) == t;
      }
    }
  }

  lemma NoOtherStep(s: State, e: Event)
    requires Returns(s, e)
    ensures e.StartJob?
  {
  }

  /** How many steps the workers can take at most until the cleanup, however often they
      come back. */
  function StepsLeft(s: State): nat {
    Remaining(s) + 3 * Count(s.workers, HasLeft) + 4 * s.countRegistered
  }

  predicate HasLeft(p: WorkerPhase) { p == Left }

  lemma {:induction false} LeftOrRegistered(workers: seq<WorkerPhase>)
    ensures Count(workers, HasLeft) + Count(workers, IsRegistered) == |workers|
  {
    if workers != [] {
      LeftOrRegistered(workers[1..]);
    }
  }

  lemma {:induction false} SameDistance(s: State, t: State, n: nat)
    requires t.workers == s.workers && t.slots == s.slots && n <= |s.workers|
    ensures TotalDistance(t, n) == TotalDistance(s, n)
  {
    if n > 0 {
      SameDistance(s, t, n - 1);
    }
  }

  lemma FewerStepsLeft(s: State, e: Event, t: State)
    requires Loose(s) && s.destroyMe && LooseStep(s, e, t) && t.cleanups == 0
    ensures if WorkerEvent(e) then StepsLeft(t) < StepsLeft(s) else StepsLeft(t) <= StepsLeft(s)
  {
    LeftOrRegistered(s.workers);
    LeftOrRegistered(t.workers);
    RegisteredCounted(s, e, t);
    CountersStep(s, e, t);
    SameDistance(s, AsIf(s), |s.workers|);
    hide Inv, Apply, Enabled, TotalDistance, Count, Returns;
    if Returns(s, e) {
      NoOtherStep(s, e);
      FurtherAway(s, e, t);
    } else if e.Destroy? {
      SameWorkers(s, t);
      SameDistance(s, t, |s.workers|);
    } else {
      StepAsIf(s, e, t);
      SameDistance(t, AsIf(t), |t.workers|);
      RemainingShrinks(AsIf(s), e, AsIf(t));
    }
  }

  lemma SameWorkers(s: State, t: State)
    requires Enabled(s, Destroy) && t == Apply(s, Destroy)
    ensures t.workers == s.workers && t.slots == s.slots
  {
  }

  lemma FurtherAway(s: State, e: Event, t: State)
    requires Loose(s) && LooseStep(s, e, t) && Returns(s, e)
    ensures |t.workers| == |s.workers| && Remaining(t) == Remaining(s) + 2
  {
    NothingToSignal(AsIf(s), e.w);
    hide Inv;
    assert t == s.(workers := s.workers[e.w := AtSemaphore]);
    TotalChanges(s, t, e.w, |s.workers|);
  }

  lemma {:induction false} RunIsLoose(states: seq<State>, events: seq<Event>, i: nat)
    requires IsLooseRun(states, events) && i < |states| && states[i].cleanups == 0
    ensures Loose(states[i])
  {
    hide Inv, Apply, Enabled, Promised, Returns, Loose;
    if i == 0 {
      LooseAtFirst(states[0]);
    } else {
      CountersStep(states[i - 1], events[i - 1], states[i]);
      RunIsLoose(states, events, i - 1);
      LooseKept(states[i - 1], events[i - 1], states[i]);
    }
  }

  /** However the threads interleave after shutdown, with signals and with workers that come
      back, the workers take a bounded number of steps before the cleanup. */
  lemma {:induction false} CleanupIsBounded(states: seq<State>, events: seq<Event>, i: nat, j: nat)
    requires IsLooseRun(states, events) && i <= j < |states| && states[i].destroyMe && states[j].cleanups == 0
    ensures states[j].destroyMe
    ensures WorkerSteps(events[i..j]) + StepsLeft(states[j]) <= StepsLeft(states[i])
    decreases j
  {
    hide Inv, Apply, Enabled, Promised, Returns, Loose, StepsLeft, Registered;
    if i < j {
      var s, e, t := states[j - 1], events[j - 1], states[j];
      CountersStep(s, e, t);
      CleanupIsBounded(states, events, i, j - 1);
      RunIsLoose(states, events, j - 1);
      FewerStepsLeft(s, e, t);
      assert events[i..j] == events[i..j - 1] + [e];
      CountAppend(events[i..j - 1], e, WorkerEvent);
    }
  }

  /** While the cleanup is still to come some worker can go on without a signal. */
  lemma SomebodyCanGoOn(s: State) returns (e: Event, t: State)
    requires Loose(s) && s.destroyMe
    ensures Step(s, e, t) && WorkerEvent(e) && NoSignal(e) && t.cleanups <= 1
  {
    CountNone(s.workers, IsWoken);
    CountNone(s.workers, IsRegistered);
    hide Inv, Count;
    var w :| 0 <= w < |s.workers| && IsRegistered(s.workers[w]) && (Count(s.workers, IsWoken) > 0 ==> IsWoken(s.workers[w]));
    NobodyIsStuck(AsIf(s), w);
    e := Next(s, w);
    NextAsIf(s, AsIf(s), w);
    hide Enabled, Promised, Apply;
    t := Apply(s, e);
    CountersStep(s, e, t);
  }

  lemma NextAsIf(s: State, s': State, w: nat)
    requires s' == s.(countRegistered := s'.countRegistered, semForRequest := s'.semForRequest) && w < |s.workers|
    requires s.workers[w] != Left && Enabled(s', Next(s', w)) && Promised(s', Next(s', w))
    requires s.workers[w] == AtSemaphore ==> s.semForRequest > 0
    ensures Next(s, w) == Next(s', w) && Enabled(s, Next(s, w)) && Promised(s, Next(s, w))
  {
  }

  /** And whatever has happened before, workers that came back included: from any state after
      shutdown the workers' own steps lead to the cleanup. */
  lemma {:induction false} CleanupStillComes(s: State) returns (events: seq<Event>, t: State)
    requires Loose(s) && s.destroyMe
    ensures Leads(s, events, t) && Undisturbed(events) && t.cleanups == 1
    decreases StepsLeft(s)
  {
    hide Loose, Apply, Enabled, Promised, StepsLeft, Returns;
    var e, u := SomebodyCanGoOn(s);
    CountersStep(s, e, u);
    if u.cleanups == 0 {
      LooseKept(s, e, u);
      FewerStepsLeft(s, e, u);
      var rest;
      rest, t := CleanupStillComes(u);
      LeadsOn(s, e, u, rest, t);
      events := [e] + rest;
    } else {
      LeadsOn(s, e, u, [], u);
      events, t := [e], u;
      assert [e] + [] == [e];
    }
  }

  /** Over whole runs, workers that come back included: after shutdown the cleanup is never
      out of reach. */
  lemma CleanupComes(states: seq<State>, events: seq<Event>, i: nat) returns (more: seq<Event>, t: State)
    requires IsLooseRun(states, events) && i < |states| && states[i].destroyMe && states[i].cleanups == 0
    ensures Leads(states[i], more, t) && Undisturbed(more) && t.cleanups == 1
  {
    hide Inv, Leads, Loose, Apply, Enabled, Promised, Returns;
    RunIsLoose(states, events, i);
    more, t := CleanupStillComes(states[i]);
  }

  /** Two idle workers when the service is shut down. */
  function TwoIdleDown(base: u64): State {
    Init(base, 2).(nextId := 2, countRegistered := 2, semForRequest := 2, destroyMe := true,
                   workers := [AtSemaphore, AtSemaphore])
  }

  function TwoRegistered(base: u64): State {
    Init(base, 2).(nextId := 2, countRegistered := 2, workers := [InUser, InUser])
  }

  lemma TwoRegister(base: u64) returns (s: State)
    ensures IsPath([Init(base, 2), s, TwoRegistered(base)], [Register, Register])
  {
    s := Apply(Init(base, 2), Register);
    assert Apply(s, Register) == TwoRegistered(base);
  }

  lemma TwoAreDown(base: u64) returns (states: seq<State>, events: seq<Event>)
    ensures IsPath(states, events) && states[0] == TwoRegistered(base) && states[|events|] == TwoIdleDown(base)
  {
    hide StableOrder.Insert, Without, Count;
    var s0 := TwoRegistered(base);
    var s1 := Apply(s0, StartJob(0));
    var s2 := Apply(s1, StartJob(1));
    var s3 := Apply(s2, Destroy);
    assert s3 == TwoIdleDown(base);
    states, events := [s0, s1, s2, s3], [StartJob(0), StartJob(1), Destroy];
  }

  lemma TwoIdleReached(base: u64) returns (states: seq<State>, events: seq<Event>)
    ensures IsPath(states, events) && states[0] == Init(base, 2) && states[|events|] == TwoIdleDown(base)
  {
    var s := TwoRegister(base);
    var after, steps := TwoAreDown(base);
    hide Enabled, Apply, TwoIdleDown, TwoRegistered, Init;
    var before := [Init(base, 2), s, TwoRegistered(base)];
    PathsJoin(before, [Register, Register], after, steps);
    states, events := before + after[1..], [Register, Register] + steps;
  }

  lemma OneReturns(base: u64) returns (states: seq<State>, events: seq<Event>)
    ensures IsPath(states, events) && states[0] == TwoIdleDown(base)
    ensures states[|events|].cleanups == 1 && states[|events|].semForRequest == 0
    ensures states[|events|].workers == [Left, AtSemaphore]
  {
    hide StableOrder.Insert, Without, Count;
    var s0 := TwoIdleDown(base);
    var s1 := Apply(s0, WorkerWake(0, false));
    var s2 := Apply(s1, CheckAlive(0));
    var s3 := Apply(s2, StartJob(0));
    var s4 := Apply(s3, WorkerWake(0, false));
    var s5 := Apply(s4, CheckAlive(0));
    states := [s0, s1, s2, s3, s4, s5];
    events := [WorkerWake(0, false), CheckAlive(0), StartJob(0), WorkerWake(0, false), CheckAlive(0)];
  }

  /** The shortest such run: of two idle workers one comes back after shutdown and is counted
      out twice; the service is cleaned up while the other is blocked, with no unit left. */
  lemma ReturningWorkerStrands(base: u64) returns (states: seq<State>, events: seq<Event>)
    ensures IsPath(states, events) && states[0] == Init(base, 2)
    ensures states[|events|].cleanups == 1 && states[|events|].semForRequest == 0
    ensures states[|events|].workers == [Left, AtSemaphore]
  {
    hide Enabled, Apply, TwoIdleDown;
    var before, steps := TwoIdleReached(base);
    var after, steps' := OneReturns(base);
    PathsJoin(before, steps, after, steps');
    states, events := before + after[1..], steps + steps';
  }
}
