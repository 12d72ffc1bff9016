/** What the fields and the threads of a service record of its run: every request is the one
    that was made, every unit of a semaphore was added by somebody and is taken by one wait,
    and clients and workers make their calls in the driver's order. */
module Ledgers {
  import opened MachineInt
  import opened LinberTypes
  import opened Counting
  import opened Protocol
  import opened Invariants
  import opened Runs

  /** How many of the first i events are of some kind. */
  function Times(events: seq<Event>, i: nat, kind: Event -> bool): nat
    requires i <= |events|
  {
    Count(events[..i], kind)
  }

  lemma OneMore(events: seq<Event>, i: nat, kind: Event -> bool)
    requires i < |events|
    ensures Times(events, i + 1, kind) == Times(events, i, kind) + if kind(events[i]) then 1 else 0
  {
    assert events[..i + 1] == events[..i] + [events[i]];
    CountAppend(events[..i], events[i], kind);
  }

  // ---------------------------------------------------------------- requests and clients

  function WakesByUnit(id: nat): Event -> bool { (e: Event) => e == ClientWake(id, false) }
  function WakesBySignal(id: nat): Event -> bool { (e: Event) => e == ClientWake(id, true) }
  function Reads(id: nat): Event -> bool { (e: Event) => e == ClientRead(id) }
  function Waits(id: nat): Event -> bool { (e: Event) => e == ClientWait(id) }

  /** The k-th event made the request. */
  predicate Made(states: seq<State>, events: seq<Event>, k: nat, id: nat)
    requires |states| == |events| + 1
  {
    k < |events| && events[k].Enqueue? && |states[k].reqs| == id
  }

  /** What one step does to the client of a request. */
  ghost predicate ClientStep(s: State, e: Event, t: State, id: nat)
    requires InUse(s, id) && InUse(t, id)
  {
    var r, r' := s.reqs[id], t.reqs[id];
    && s.deadlines <= t.deadlines
    && r'.consumed == r.consumed + (if e == ClientWake(id, false) then 1 else 0)
    && (if e == UpWorkers(id) then r.client.Inserted? && r'.client == if r.client.blocking then Blocked else Outside(None)
        else if e.ClientWake? && e.id == id then r.client == Blocked && r'.client == Awake
        else if e == ClientRead(id) then r.client == Awake && r'.client == Outside(Some(r.result))
        else if e == ClientWait(id) then r.client.Outside? && r'.client == Blocked
        else r'.client == r.client)
  }

  lemma ClientSteps(s: State, e: Event, t: State, id: nat)
    requires Step(s, e, t) && InUse(s, id) && |s.deadlines| == |s.reqs|
    ensures InUse(t, id) && ClientStep(s, e, t, id)
  {
    hide StableOrder.Insert, Without;
    if !ClientMoves(e) {
      NotItsClient(s, e, t, id);
    }
  }

  lemma NotItsClient(s: State, e: Event, t: State, id: nat)
    requires Step(s, e, t) && InUse(s, id) && |s.deadlines| == |s.reqs| && !ClientMoves(e)
    ensures InUse(t, id) && s.deadlines <= t.deadlines
    ensures t.reqs[id].client == s.reqs[id].client && t.reqs[id].consumed == s.reqs[id].consumed
  {
    hide StableOrder.Insert, Without;
  }

  lemma AtMaking(s: State, e: Event, t: State)
    requires Step(s, e, t) && e.Enqueue? && |s.deadlines| == |s.reqs|
    ensures var id := |s.reqs|;
      && InUse(t, id) && |t.deadlines| == |t.reqs| && t.deadlines[id] == e.deadline
      && t.reqs[id].client == Inserted(e.blocking) && t.reqs[id].consumed == 0
  {
    hide StableOrder.Insert;
  }

  /** What the run records of a request: its deadline and whether its client blocks are those
      it was made with; `consumed` counts the waits that a unit ended; a client reads once
      after each wait it was woken from; and it waits once because it blocks, and once for
      each further call. */
  ghost predicate Recorded(states: seq<State>, events: seq<Event>, i: nat, k: nat)
    requires |states| == |events| + 1 && k < i <= |events| && events[k].Enqueue?
  {
    var id := |states[k].reqs|;
    var blocking := events[k].blocking;
    && InUse(states[i], id) && |states[i].deadlines| == |states[i].reqs| && states[i].deadlines[id] == events[k].deadline
    && var r := states[i].reqs[id];
       var woken := Times(events, i, WakesByUnit(id)) + Times(events, i, WakesBySignal(id));
       && r.consumed == Times(events, i, WakesByUnit(id))
       && woken == Times(events, i, Reads(id)) + (if r.client == Awake then 1 else 0)
       && Times(events, i, Waits(id)) + (if blocking && !r.client.Inserted? then 1 else 0)
            == woken + (if r.client == Blocked then 1 else 0)
       && (r.client.Inserted? ==> r.client.blocking == blocking && woken == 0)
       && (r.client == Outside(None) ==> Times(events, i, Reads(id)) == 0)
       && (r.client.Outside? && r.client.seen.Some? ==> Times(events, i, Reads(id)) > 0)
  }

  lemma {:induction false} NothingBefore(states: seq<State>, events: seq<Event>, i: nat, id: nat)
    requires IsRun(states, events) && i <= |events| && id >= |states[i].reqs|
    ensures Times(events, i, WakesByUnit(id)) == Times(events, i, WakesBySignal(id)) == 0
    ensures Times(events, i, Reads(id)) == Times(events, i, Waits(id)) == 0
  {
    hide Inv, Step;
    if i > 0 {
      RunStep(states, events, i - 1);
      NotYetInUse(states[i - 1], events[i - 1], states[i], id);
      NothingBefore(states, events, i - 1, id);
      OneMore(events, i - 1, WakesByUnit(id));
      OneMore(events, i - 1, WakesBySignal(id));
      OneMore(events, i - 1, Reads(id));
      OneMore(events, i - 1, Waits(id));
    }
  }

  lemma NotYetInUse(s: State, e: Event, t: State, id: nat)
    requires Step(s, e, t) && id >= |t.reqs|
    ensures id >= |s.reqs| && e != ClientRead(id) && e != ClientWait(id) && !(e.ClientWake? && e.id == id)
  {
    hide StableOrder.Insert, Without;
  }

  lemma {:induction false} ClientLedger(states: seq<State>, events: seq<Event>, i: nat, k: nat)
    requires IsRun(states, events) && k < i <= |events| && events[k].Enqueue?
    ensures Recorded(states, events, i, k)
    decreases i
  {
    hide Inv, Step, Times;
    var id := |states[k].reqs|;
    RunStep(states, events, i - 1);
    SameLengths(states[i - 1]);
    OneMore(events, i - 1, WakesByUnit(id));
    OneMore(events, i - 1, WakesBySignal(id));
    OneMore(events, i - 1, Reads(id));
    OneMore(events, i - 1, Waits(id));
    if k == i - 1 {
      NothingBefore(states, events, k, id);
      AtMaking(states[k], events[k], states[i]);
    } else {
      ClientLedger(states, events, i - 1, k);
      ClientSteps(states[i - 1], events[i - 1], states[i], id);
      SameLengths(states[i]);
    }
  }

  lemma SameLengths(s: State)
    requires Inv(s)
    ensures |s.deadlines| == |s.reqs|
  {
  }

  /** Every request made in a run has the number of requests made before it, and keeps the
      deadline it was made with. */
  lemma {:induction false} MadeOnce(states: seq<State>, events: seq<Event>, i: nat, id: nat) returns (k: nat)
    requires IsRun(states, events) && i <= |events| && id < |states[i].reqs|
    ensures k < i && events[k].Enqueue? && |states[k].reqs| == id
    ensures id < |states[i].deadlines| && states[i].deadlines[id] == events[k].deadline
  {
    hide Inv, Step;
    NothingAtFirst(states[0]);
    RunStep(states, events, i - 1);
    if id < |states[i - 1].reqs| {
      k := MadeOnce(states, events, i - 1, id);
    } else {
      NewAreMade(states[i - 1], events[i - 1], states[i], id);
      k := i - 1;
    }
    ClientLedger(states, events, i, k);
  }

  lemma NewAreMade(s: State, e: Event, t: State, id: nat)
    requires Step(s, e, t) && id < |t.reqs| && id >= |s.reqs|
    ensures e.Enqueue? && id == |s.reqs|
  {
    hide StableOrder.Insert, Without;
  }

  /** The books of a client, in numbers: what its request has consumed are its waits that a
      unit ended; each wait it was woken from is followed by one read; and it has waited once
      if its request blocks, and once for each further call. */
  lemma ClientCounts(states: seq<State>, events: seq<Event>, i: nat, k: nat)
    requires IsRun(states, events) && k < i <= |events| && events[k].Enqueue? && |states[k].reqs| < |states[i].reqs|
    ensures var id := |states[k].reqs|;
      var r := states[i].reqs[id];
      var byUnit, bySignal := Times(events, i, WakesByUnit(id)), Times(events, i, WakesBySignal(id));
      && r.consumed == byUnit
      && byUnit + bySignal == Times(events, i, Reads(id)) + (if r.client == Awake then 1 else 0)
      && Times(events, i, Waits(id)) + (if events[k].blocking && !r.client.Inserted? then 1 else 0)
           == byUnit + bySignal + (if r.client == Blocked then 1 else 0)
      && (r.client == Awake && bySignal == 0 ==> r.consumed > 0)
  {
    ClientLedger(states, events, i, k);
  }

  /** Who blocks: a client that goes on to user space without having read has made a request
      without blocking; one that blocks, or has just been woken, without having asked to wait
      has made a request that blocks. */
  lemma BlocksAsAsked(states: seq<State>, events: seq<Event>, i: nat, k: nat)
    requires IsRun(states, events) && k < i <= |events| && events[k].Enqueue?
    ensures var id := |states[k].reqs|;
      && id < |states[i].reqs|
      && (states[i].reqs[id].client == Outside(None) ==> !events[k].blocking)
      && (states[i].reqs[id].client == Blocked || states[i].reqs[id].client == Awake ==>
            Times(events, i, Waits(id)) == 0 ==> events[k].blocking)
  {
    ClientLedger(states, events, i, k);
  }

  /** Without signals to its client a request is read only when it is done: completed, failed,
      aborted or given up, and by as many reads as units have been taken. */
  lemma ReadOnlyWhenDone(states: seq<State>, events: seq<Event>, i: nat, k: nat)
    requires IsRun(states, events) && k < i < |events| && events[k].Enqueue?
    requires events[i] == ClientRead(|states[k].reqs|) && Times(events, i, WakesBySignal(|states[k].reqs|)) == 0
    ensures var id := |states[k].reqs|;
      && id < |states[i].reqs|
      && states[i].reqs[id].consumed == Times(events, i, Reads(id)) + 1
      && !states[i].reqs[id].place.Waiting?
      && (states[i].reqs[id].place.Serving? ==> WorkerIs(states[i], states[i].reqs[id].place.worker, FaultSignalled))
  {
    ClientLedger(states, events, i, k);
    RunStep(states, events, i);
    var s, id := states[i], |states[k].reqs|;
    assert Enabled(s, ClientRead(id));
    ClientSleepsExactly(s, id);
  }

  // ---------------------------------------------------------------- the workers' semaphore

  function Ups(): Event -> bool { (e: Event) => e.UpWorkers? }
  function TakesUnit(): Event -> bool { (e: Event) => e.WorkerWake? && !e.signal }

  /** The units that destroys have added: one for each worker registered at the time. */
  function Granted(states: seq<State>, events: seq<Event>, i: nat): nat
    requires |states| == |events| + 1 && i <= |events|
  {
    if i == 0 then 0
    else Granted(states, events, i - 1) + if events[i - 1].Destroy? then Count(states[i - 1].workers, IsRegistered) else 0
  }

  /** Units of the workers' semaphore are neither lost nor made: what clients and destroys have
      added is there or has been taken by a worker's wait; a signal takes none. */
  lemma {:induction false} UnitsConserved(states: seq<State>, events: seq<Event>, i: nat)
    requires IsRun(states, events) && i <= |events|
    ensures states[i].semForRequest + Times(events, i, TakesUnit()) == Times(events, i, Ups()) + Granted(states, events, i)
  {
    hide Inv, Step;
    if i == 0 {
      NoUnits(states[0]);
    } else {
      UnitsConserved(states, events, i - 1);
      RunStep(states, events, i - 1);
      OneMore(events, i - 1, TakesUnit());
      OneMore(events, i - 1, Ups());
      UnitStep(states[i - 1], events[i - 1], states[i]);
    }
  }

  lemma NoUnits(s: State)
    requires s == Init(s.base, s.maxWorkers)
    ensures s.semForRequest == 0
  {
  }

  lemma UnitStep(s: State, e: Event, t: State)
    requires Inv(s) && Step(s, e, t)
    ensures t.semForRequest == s.semForRequest + (if e.UpWorkers? then 1 else 0)
      + (if e.Destroy? then Count(s.workers, IsRegistered) else 0) - (if e.WorkerWake? && !e.signal then 1 else 0)
  {
    hide Places, Ordered, WorkersFit, DebtsFit, Balanced, Results, NoLostWakeup, AllCanLeave, CleanedOnce, Count, StableOrder.Insert, Without;
  }

  // ---------------------------------------------------------------- the workers' calls

  predicate StepOf(e: Event, w: nat) { WorkerEvent(e) && e.w == w }

  /** The order of the driver's code: linber_Start_Job waits, looks whether the service lives
      and takes; linber_End_Job stores, moves and wakes. */
  predicate MayFollow(e: Event, f: Event) {
    match e
    case StartJob(_) => f.ClearFault? || f.WorkerWake?
    case ClearFault(_) => f.WorkerWake?
    case WorkerWake(_, _) => f.CheckAlive?
    case CheckAlive(_) => f.Take?
    case Take(_) => f.StartJob? || f.EndJob?
    case EndJob(_, _) => f.Move?
    case Move(_) => f.UpClient?
    case UpClient(_) => f.StartJob?
    case _ => false
  }

  /** What a worker in some phase, with a request in its slot or without, may do. */
  predicate Allows(p: WorkerPhase, holds: bool, f: Event) {
    match f
    case StartJob(_) => p == InUser
    case ClearFault(_) => p == FaultSignalled
    case WorkerWake(_, _) => p == AtSemaphore
    case CheckAlive(_) => p == Woken
    case Take(_) => p == FoundAlive
    case EndJob(_, _) => p == InUser && holds
    case Move(_) => p == Stored
    case UpClient(_) => p.Moved?
    case _ => false
  }

  predicate Holds(s: State, w: nat) { w < |s.slots| && s.slots[w].Some? }

  lemma OnlyAllowed(s: State, e: Event, w: nat)
    requires Enabled(s, e) && Promised(s, e) && StepOf(e, w)
    ensures w < |s.workers| && Allows(s.workers[w], Holds(s, w), e)
  {
  }

  lemma AllowedNext(s: State, e: Event, t: State, w: nat, f: Event)
    requires Inv(s) && Step(s, e, t) && StepOf(e, w)
    ensures w < |t.workers|
    ensures Allows(t.workers[w], Holds(t, w), f) ==>
      && MayFollow(e, f)
      && (e.StartJob? ==> (f.ClearFault? <==> Holds(s, w)))
      && (e.CheckAlive? ==> !s.destroyMe)
      && (e.Take? ==> (f.EndJob? ==> s.waiting != []))
  {
    hide Ordered, DebtsFit, Balanced, Results, Counters, NoLostWakeup, AllCanLeave, CleanedOnce, StableOrder.Insert, Without, CompletedFits;
  }

  lemma OthersLeaveIt(s: State, e: Event, t: State, w: nat)
    requires Step(s, e, t) && !StepOf(e, w) && w < |s.workers|
    ensures w < |t.workers| && t.workers[w] == s.workers[w] && Holds(t, w) == Holds(s, w)
  {
    hide StableOrder.Insert, Without;
  }

  lemma {:induction false} Meanwhile(states: seq<State>, events: seq<Event>, i: nat, j: nat, w: nat)
    requires IsRun(states, events) && i <= j <= |events| && w < |states[i].workers|
    requires forall k :: i <= k < j ==> !StepOf(events[k], w)
    ensures w < |states[j].workers| && states[j].workers[w] == states[i].workers[w] && Holds(states[j], w) == Holds(states[i], w)
    decreases j
  {
    hide Inv, Step, Holds, StepOf;
    if i < j {
      Meanwhile(states, events, i, j - 1, w);
      RunStep(states, events, j - 1);
      OthersLeaveIt(states[j - 1], events[j - 1], states[j], w);
    }
  }

  /** In every run each worker makes its calls in the driver's order: what it does next is
      determined by what it did last, up to signals and the contents of its slot. A worker
      told to leave does nothing more. */
  lemma WorkerCalls(states: seq<State>, events: seq<Event>, i: nat, j: nat, w: nat)
    requires IsRun(states, events) && i < j < |events| && StepOf(events[i], w) && StepOf(events[j], w)
    requires forall k :: i < k < j ==> !StepOf(events[k], w)
    ensures MayFollow(events[i], events[j])
    ensures events[i].StartJob? ==> (events[j].ClearFault? <==> Holds(states[i], w))
    ensures events[i].CheckAlive? ==> !states[i].destroyMe
    ensures events[i].Take? ==> (events[j].EndJob? ==> states[i].waiting != [])
  {
    hide Inv, Holds, Allows, MayFollow, StepOf, Enabled, Promised, Apply;
    RunStep(states, events, i);
    RunStep(states, events, j);
    AllowedNext(states[i], events[i], states[i + 1], w, events[j]);
    Meanwhile(states, events, i + 1, j, w);
    OnlyAllowed(states[j], events[j], w);
  }

  /** And its first call is for a job. */
  lemma FirstCall(states: seq<State>, events: seq<Event>, j: nat, w: nat)
    requires IsRun(states, events) && j < |events| && StepOf(events[j], w)
    requires forall k :: 0 <= k < j ==> !StepOf(events[k], w)
    ensures events[j].StartJob?
  {
    hide Inv, Enabled, Promised, Apply, StepOf;
    RunStep(states, events, j);
    OnlyAllowed(states[j], events[j], w);
    Untouched(states, events, j, w);
  }

  lemma {:induction false} Untouched(states: seq<State>, events: seq<Event>, j: nat, w: nat)
    requires IsRun(states, events) && j <= |events|
    requires forall k :: 0 <= k < j ==> !StepOf(events[k], w)
    ensures !Holds(states[j], w) && (w < |states[j].workers| ==> states[j].workers[w] == InUser)
  {
    hide Inv, Step, StepOf;
    if j == 0 {
      NobodyYet(states[0], w);
    } else {
      Untouched(states, events, j - 1, w);
      RunStep(states, events, j - 1);
      ComesInUser(states[j - 1], events[j - 1], states[j], w);
    }
  }

  lemma NobodyYet(s: State, w: nat)
    requires s == Init(s.base, s.maxWorkers)
    ensures !Holds(s, w) && s.workers == []
  {
  }

  lemma ComesInUser(s: State, e: Event, t: State, w: nat)
    requires Step(s, e, t) && !StepOf(e, w) && !Holds(s, w) && (w < |s.workers| ==> s.workers[w] == InUser)
    ensures !Holds(t, w) && (w < |t.workers| ==> t.workers[w] == InUser)
  {
    hide StableOrder.Insert, Without;
  }

  // ---------------------------------------------------------------- the count of requests

  /** Shutdown empties the tree and forgets to count: Request_count stays what it was. */
  lemma {:induction false} CountGoesStale(states: seq<State>, events: seq<Event>, i: nat, j: nat)
    requires IsRun(states, events) && i < j <= |events| && events[i].Destroy? && !states[i].destroyMe
    ensures states[j].destroyMe && states[j].waiting == [] && states[j].requestCount == Wrap32(|states[i].waiting|)
    decreases j
  {
    hide Inv, Step;
    RunStep(states, events, j - 1);
    StaleStep(states[j - 1], events[j - 1], states[j]);
    if i == j - 1 {
      SlotsAndCounters(states, events, i);
    } else {
      CountGoesStale(states, events, i, j - 1);
    }
  }

  lemma StaleStep(s: State, e: Event, t: State)
    requires Inv(s) && Inv(t) && Step(s, e, t)
    ensures e.Destroy? ==> t.destroyMe
    ensures s.destroyMe ==> t.destroyMe
    ensures t.destroyMe ==> t.waiting == [] && t.requestCount == s.requestCount
  {
    hide Places, Ordered, WorkersFit, DebtsFit, Balanced, Results, NoLostWakeup, AllCanLeave, CleanedOnce, StableOrder.Insert, Without;
  }
}
