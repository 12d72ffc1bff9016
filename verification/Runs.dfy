/** What holds over whole runs of a service, under any interleaving of its threads. */
module Runs {
  import opened MachineInt
  import opened LinberTypes
  import opened KeyOrder
  import opened StableOrder
  import opened Counting
  import opened Protocol
  import opened Invariants

  ghost predicate IsRun(states: seq<State>, events: seq<Event>) {
    && |states| == |events| + 1
    && states[0] == Init(states[0].base, states[0].maxWorkers)
    && forall i :: 0 <= i < |events| ==> Step(states[i], events[i], states[i + 1])
  }

  lemma {:induction false} RunInv(states: seq<State>, events: seq<Event>, i: nat)
    requires IsRun(states, events) && i < |states|
    ensures Inv(states[i])
  {
    if i == 0 {
      InitInv(states[0].base, states[0].maxWorkers);
    } else {
      RunInv(states, events, i - 1);
      assert Step(states[i - 1], events[i - 1], states[i]);
      StepInv(states[i - 1], events[i - 1], states[i]);
    }
  }

  lemma RunStep(states: seq<State>, events: seq<Event>, i: nat)
    requires IsRun(states, events) && i < |events|
    ensures Step(states[i], events[i], states[i + 1]) && Inv(states[i]) && Inv(states[i + 1])
  {
    RunInv(states, events, i);
    RunInv(states, events, i + 1);
  }

  // ---------------------------------------------------------------- conservation

  predicate IsLive(p: Place) { p.Waiting? || p.Serving? || p.Completed? }

  function Holders(slots: seq<Option<nat>>, id: nat): nat {
    Count(slots, (x: Option<nat>) => x == Some(id))
  }

  lemma {:induction false} DistinctCount(q: seq<nat>, id: nat)
    requires Distinct(q)
    ensures multiset(q)[id] == if id in q then 1 else 0
  {
    if q != [] {
      assert q == [q[0]] + q[1..];
      DistinctCount(q[1..], id);
    }
  }

  lemma {:induction false} HoldersOne(slots: seq<Option<nat>>, id: nat, w: nat)
    requires w < |slots| && slots[w] == Some(id)
    requires forall v :: 0 <= v < |slots| && v != w ==> slots[v] != Some(id)
    ensures Holders(slots, id) == 1
  {
    var isIt := (x: Option<nat>) => x == Some(id);
    CountUpdate(slots, w, None, isIt);
    CountNone(slots[w := None], isIt);
  }

  /** Every request ever made is in one container, once, or has left the driver for good. */
  lemma Conservation(states: seq<State>, events: seq<Event>, i: nat, id: nat)
    requires IsRun(states, events) && i < |states| && id < |states[i].reqs|
    ensures var s := states[i];
      multiset(s.waiting)[id] + Holders(s.slots, id) + multiset(s.completed)[id]
        == if IsLive(s.reqs[id].place) then 1 else 0
  {
    RunInv(states, events, i);
    var s := states[i];
    OrderedDistinct(s);
    DistinctCount(s.waiting, id);
    DistinctCount(s.completed, id);
    var place := s.reqs[id].place;
    if place.Serving? {
      HoldersOne(s.slots, id, place.worker);
    } else {
      CountNone(s.slots, (x: Option<nat>) => x == Some(id));
    }
  }

  lemma OrderedDistinct(s: State)
    requires Ordered(s)
    ensures Distinct(s.waiting)
  {
    var rank := ByRank(s.base, s.deadlines);
    forall i, j | 0 <= i < j < |s.waiting| ensures s.waiting[i] != s.waiting[j] {
      assert Precedes(rank, s.waiting[i], s.waiting[j]);
    }
  }

  /** The ways a request can go. */
  predicate CanGo(p: Place, q: Place) {
    match p
    case Waiting => q.Waiting? || q.Serving? || q == Aborted(false)
    case Serving(_) => q == p || q == Completed || q == Faulted
    case Completed => q == Completed || q == Collected || q == Aborted(true)
    case _ => q == p
  }

  lemma PlaceGoes(s: State, e: Event, t: State, id: nat)
    requires Inv(s) && Step(s, e, t) && id < |s.reqs|
    ensures id < |t.reqs| && CanGo(s.reqs[id].place, t.reqs[id].place)
  {
    hide Ordered, DebtsFit, Balanced, Results, Counters, NoLostWakeup, AllCanLeave, CleanedOnce, Insert, Without;
    if e.Take? && s.waiting != [] {
      assert s.waiting[0] in s.waiting;
    }
  }

  /** A request that has left the tree never waits again; requests and deadlines stay. */
  lemma {:induction false} NeverWaitsAgain(states: seq<State>, events: seq<Event>, i: nat, j: nat, id: nat)
    requires IsRun(states, events) && i <= j < |states| && id < |states[i].reqs|
    ensures id < |states[j].reqs| && states[i].deadlines <= states[j].deadlines && states[j].base == states[i].base
    ensures states[j].reqs[id].place == Waiting ==> states[i].reqs[id].place == Waiting
    decreases j
  {
    hide Inv, Step;
    if i < j {
      NeverWaitsAgain(states, events, i, j - 1, id);
      RunStep(states, events, j - 1);
      var s, e, t := states[j - 1], events[j - 1], states[j];
      PlaceGoes(s, e, t, id);
      DeadlinesGrow(s, e, t);
    }
  }

  lemma DeadlinesGrow(s: State, e: Event, t: State)
    requires Step(s, e, t)
    ensures s.deadlines <= t.deadlines && t.base == s.base
  {
    hide Insert, Without;
  }

  // ---------------------------------------------------------------- dispatch order

  /** The request a take step takes. */
  predicate Takes(s: State, e: Event, id: nat) {
    e.Take? && s.waiting != [] && s.waiting[0] == id
  }

  /** A take takes the least of the waiting requests, by deadline and then by age. */
  lemma TakesLeast(s: State, e: Event, a: nat, b: nat)
    requires Inv(s) && Takes(s, e, a) && b in s.waiting && b != a
    ensures Precedes(ByRank(s.base, s.deadlines), a, b)
  {
    var k :| 0 <= k < |s.waiting| && s.waiting[k] == b;
  }

  lemma FirstWaits(s: State, id: nat)
    requires Inv(s) && s.waiting != [] && s.waiting[0] == id
    ensures id < |s.reqs| == |s.deadlines| && s.reqs[id].place == Waiting
  {
    assert s.waiting[0] in s.waiting;
  }

  lemma AtTake(s: State, e: Event, t: State, id: nat)
    requires Inv(s) && Step(s, e, t) && Takes(s, e, id)
    ensures id < |s.reqs| == |s.deadlines| && id < |t.reqs| && t.reqs[id].place != Waiting
  {
    FirstWaits(s, id);
  }

  /** Of two takes in a run, the first has the smaller deadline if the second's request was
      already there, and requests of one deadline are always taken in the order they came. */
  lemma DispatchOrder(states: seq<State>, events: seq<Event>, i: nat, j: nat, a: nat, b: nat)
    requires IsRun(states, events) && i < j < |events|
    requires Takes(states[i], events[i], a) && Takes(states[j], events[j], b)
    ensures var deadlines := states[j].deadlines;
      && a < |deadlines| && b < |deadlines|
      && (b < |states[i].reqs| ==> Precedes(ByRank(states[j].base, deadlines), a, b))
      && (deadlines[a] == deadlines[b] ==> a < b)
  {
    var s, t := states[i], states[j];
    RunInv(states, events, j);
    RunStep(states, events, i);
    AtTake(s, events[i], states[i + 1], a);
    FirstWaits(t, b);
    hide Inv, Step;
    NeverWaitsAgain(states, events, i, j, a);
    NeverWaitsAgain(states, events, i + 1, j, a);
    assert a != b;
    if b < |s.reqs| {
      NeverWaitsAgain(states, events, i, j, b);
      TakesLeast(s, events[i], a, b);
    }
  }

  /** With deadlines of the first 292 years after boot, a request with a deadline is taken
      only when no best-effort request waits: the reverse of what is documented. */
  lemma BestEffortFirst(s: State, e: Event, id: nat)
    requires Inv(s) && s.base == BEST_EFFORT && Takes(s, e, id)
    ensures id < |s.deadlines|
    ensures s.deadlines[id] != BEST_EFFORT <==>
      forall k :: 0 <= k < |s.waiting| ==> s.waiting[k] < |s.deadlines| && s.deadlines[s.waiting[k]] != BEST_EFFORT
  {
    assert s.waiting[0] in s.waiting;
    forall k | 0 <= k < |s.waiting|
      ensures s.waiting[k] < |s.deadlines|
      ensures s.deadlines[s.waiting[k]] == BEST_EFFORT ==> s.deadlines[id] == BEST_EFFORT
    {
      assert s.waiting[k] in s.waiting && InUse(s, s.waiting[k]);
      BestEffortWindow(s.deadlines[s.waiting[k]]);
      BestEffortWindow(s.deadlines[id]);
      if k > 0 {
        assert Precedes(ByRank(s.base, s.deadlines), s.waiting[0], s.waiting[k]);
      }
    }
  }

  /** In numbers: with deadlines of the first 292 years after boot, of two takes the first has
      no later deadline if the second's request was there, unless that one has none; and of
      equal deadlines the older goes first. */
  lemma EarliestDeadlineFirst(states: seq<State>, events: seq<Event>, i: nat, j: nat, a: nat, b: nat)
    requires IsRun(states, events) && i < j < |events| && states[i].base == BEST_EFFORT
    requires Takes(states[i], events[i], a) && Takes(states[j], events[j], b) && b < |states[i].reqs|
    ensures var deadlines := states[j].deadlines;
      && a < |deadlines| && b < |deadlines|
      && (if deadlines[a] == BEST_EFFORT then true else deadlines[b] != BEST_EFFORT && deadlines[a] <= deadlines[b] < 0x7fff_ffff_ffff_ffff)
      && (deadlines[a] == deadlines[b] ==> a < b)
  {
    DispatchOrder(states, events, i, j, a, b);
    NeverWaitsAgain(states, events, i, j, b);
    RunInv(states, events, j);
    var deadlines := states[j].deadlines;
    BestEffortWindow(deadlines[a]);
    BestEffortWindow(deadlines[b]);
  }

  // ---------------------------------------------------------------- responses

  /** A response, once stored, is never replaced; only End_Job stores one, and only the
      worker that holds the request. */
  lemma ResponseComesFromEndJob(s: State, e: Event, t: State, id: nat)
    requires Inv(s) && Step(s, e, t) && id < |t.reqs|
    ensures id < |s.reqs| && s.reqs[id].response.Some? ==> t.reqs[id].response == s.reqs[id].response
    ensures t.reqs[id].response.Some? && (id >= |s.reqs| || s.reqs[id].response == None) ==>
      e.EndJob? && !TooLarge(e.response) && t.reqs[id].response == Some(e.response)
      && e.w < |s.slots| && s.slots[e.w] == Some(id)
  {
    hide Ordered, DebtsFit, Balanced, Counters, NoLostWakeup, AllCanLeave, CleanedOnce, Insert, Without;
    if id < |s.reqs| {
      assert ResultFits(s, id);
    }
  }

  lemma EndJobStores(s: State, e: Event, t: State, id: nat)
    requires Inv(s) && Step(s, e, t) && e.EndJob? && !TooLarge(e.response)
    requires e.w < |s.slots| && s.slots[e.w] == Some(id)
    ensures id < |t.reqs| && t.reqs[id].response == Some(e.response)
  {
  }

  ghost predicate EndedWith(states: seq<State>, events: seq<Event>, j: nat, id: nat, response: Response)
    requires |states| == |events| + 1
  {
    && j < |events| && events[j].EndJob? && events[j].response == response && !TooLarge(response)
    && events[j].w < |states[j].slots| && states[j].slots[events[j].w] == Some(id)
  }

  lemma NothingAtFirst(s: State)
    requires s == Init(s.base, s.maxWorkers)
    ensures s.reqs == []
  {
  }

  lemma {:induction false} ResponseOrigin(states: seq<State>, events: seq<Event>, i: nat, id: nat) returns (j: nat)
    requires IsRun(states, events) && i < |states| && id < |states[i].reqs| && states[i].reqs[id].response.Some?
    ensures j < i && EndedWith(states, events, j, id, states[i].reqs[id].response.value)
  {
    hide Inv, Step, Init, TooLarge;
    NothingAtFirst(states[0]);
    var s, e := states[i - 1], events[i - 1];
    RunStep(states, events, i - 1);
    ResponseComesFromEndJob(s, e, states[i], id);
    if id < |s.reqs| && s.reqs[id].response.Some? {
      j := ResponseOrigin(states, events, i - 1, id);
    } else {
      j := i - 1;
    }
  }

  lemma {:induction false} ResponseStays(states: seq<State>, events: seq<Event>, j: nat, i: nat, id: nat, response: Response)
    requires IsRun(states, events) && j < i < |states| && EndedWith(states, events, j, id, response)
    ensures id < |states[i].reqs| && states[i].reqs[id].response == Some(response)
    decreases i
  {
    hide Inv, Step, TooLarge;
    RunStep(states, events, i - 1);
    var s, e, t := states[i - 1], events[i - 1], states[i];
    if j == i - 1 {
      EndJobStores(s, e, t, id);
    } else {
      ResponseStays(states, events, j, i - 1, id, response);
      PlaceGoes(s, e, t, id);
      ResponseComesFromEndJob(s, e, t, id);
    }
  }

  /** A client reads SUCCESS exactly when the worker holding its request has ended the job with
      a response of admissible size and no shutdown has come between; the response it then
      gets, at once or by collecting it later, is the one that worker gave. */
  lemma ResponseIntegrity(states: seq<State>, events: seq<Event>, i: nat, id: nat)
    requires IsRun(states, events) && i < |events| && events[i] == ClientRead(id)
    ensures id < |states[i].reqs|
    ensures var r := states[i].reqs[id];
      && (r.result == Success <==>
            !r.place.Aborted? && exists j: nat, response :: j < i && EndedWith(states, events, j, id, response))
      && (forall j: nat, response :: j < i && EndedWith(states, events, j, id, response) ==> r.response == Some(response))
  {
    RunStep(states, events, i);
    hide Step;
    var r := states[i].reqs[id];
    assert ResultFits(states[i], id);
    hide Inv;
    if r.response.Some? {
      var j := ResponseOrigin(states, events, i, id);
    }
    forall j: nat, response | j < i && EndedWith(states, events, j, id, response) ensures r.response == Some(response) {
      ResponseStays(states, events, j, i, id, response);
    }
  }

  /** What is collected is what the job's worker stored, and it is collected as a success. */
  lemma CollectedIsStored(states: seq<State>, events: seq<Event>, i: nat, id: nat)
    requires IsRun(states, events) && i < |events| && events[i] == Collect(id)
    ensures id < |states[i].reqs|
    ensures var r := states[i].reqs[id];
      && r.result == Success && r.response.Some?
      && exists j: nat :: j < i && EndedWith(states, events, j, id, r.response.value)
  {
    RunInv(states, events, i);
    assert Step(states[i], events[i], states[i + 1]);
    assert ResultFits(states[i], id);
    var j := ResponseOrigin(states, events, i, id);
  }

  lemma ReadsAreRead(s: State, e: Event, t: State, id: nat)
    requires Step(s, e, t) && id < |t.reqs| && t.reqs[id].client.Outside? && t.reqs[id].client.seen.Some?
    ensures id < |s.reqs|
    ensures s.reqs[id].client == t.reqs[id].client
         || (e == ClientRead(id) && t.reqs[id].client.seen == Some(s.reqs[id].result))
  {
    hide Insert, Without;
  }

  /** What a client has seen it has read, in a step of its own. */
  lemma {:induction false} ReadBefore(states: seq<State>, events: seq<Event>, i: nat, id: nat) returns (j: nat)
    requires IsRun(states, events) && i < |states| && id < |states[i].reqs|
    requires states[i].reqs[id].client.Outside? && states[i].reqs[id].client.seen.Some?
    ensures j < i && events[j] == ClientRead(id) && id < |states[j].reqs|
    ensures states[i].reqs[id].client.seen == Some(states[j].reqs[id].result)
  {
    hide Inv, Step;
    NothingAtFirst(states[0]);
    RunStep(states, events, i - 1);
    ReadsAreRead(states[i - 1], events[i - 1], states[i], id);
    if states[i - 1].reqs[id].client == states[i].reqs[id].client {
      j := ReadBefore(states, events, i - 1, id);
    } else {
      j := i - 1;
    }
  }

  /** The two calls of a client fit: a collected response was announced by an earlier read of
      SUCCESS, and it still is the one whose length and mode that read passed on. */
  lemma CollectedAsAnnounced(states: seq<State>, events: seq<Event>, i: nat, id: nat) returns (j: nat)
    requires IsRun(states, events) && i < |events| && events[i] == Collect(id)
    ensures j < i && events[j] == ClientRead(id) && id < |states[j].reqs| && id < |states[i].reqs|
    ensures states[j].reqs[id].result == Success && states[j].reqs[id].response.Some?
    ensures states[i].reqs[id].response == states[j].reqs[id].response
  {
    RunStep(states, events, i);
    j := ReadBefore(states, events, i, id);
    RunStep(states, events, j);
    assert ResultFits(states[j], id);
    var k := ResponseOrigin(states, events, j, id);
    ResponseStays(states, events, k, i, id, states[j].reqs[id].response.value);
  }

  // ---------------------------------------------------------------- sleeping and waking

  /** While a request waits or is served, nothing has touched its semaphore; afterwards a
      client that blocks is woken, now or by a worker that still owes it, exactly as long as
      it has consumed fewer wake-ups than its request's history is due. */
  lemma ClientSleepsExactly(s: State, id: nat)
    requires Inv(s) && id < |s.reqs|
    ensures var r := s.reqs[id];
      && (r.sem > 0 || r.upOwedBy.Some? <==> r.consumed < Due(s, id))
      && (Due(s, id) == 0 <==> r.place.Waiting? || (r.place.Serving? && !WorkerIs(s, r.place.worker, FaultSignalled)))
      && (Due(s, id) == 0 ==> r.sem == 0 && r.consumed == 0)
      && (r.client == Blocked && r.sem > 0 ==> Enabled(s, ClientWake(id, false)))
      && (r.upOwedBy.Some? ==> Enabled(s, UpClient(r.upOwedBy.value)))
  {
    assert SemaphoreBalanced(s, id);
  }

  /** Work never waits while all workers sleep for good: a wake-up is there or on its way. */
  lemma WorkIsNoticed(s: State)
    requires Inv(s) && s.waiting != []
    requires forall w :: 0 <= w < |s.workers| ==> !IsOnItsWay(s.workers[w])
    ensures s.semForRequest > 0 || exists id :: 0 <= id < |s.reqs| && Enabled(s, UpWorkers(id))
  {
    CountNone(s.workers, IsOnItsWay);
    CountNone(s.reqs, OwesWorkers);
    if s.semForRequest == 0 {
      var id :| 0 <= id < |s.reqs| && OwesWorkers(s.reqs[id]);
      assert Enabled(s, UpWorkers(id));
    }
  }

  /** Wake-ups match requests exactly. */
  ghost predicate Exact(s: State) {
    !s.destroyMe ==> |s.waiting| == s.semForRequest + Count(s.reqs, OwesWorkers) + Count(s.workers, IsOnItsWay)
  }

  predicate NoSignal(e: Event) { e.WorkerWake? ==> !e.signal }

  lemma ExactStep(s: State, e: Event, t: State)
    requires Inv(s) && Exact(s) && Step(s, e, t) && NoSignal(e)
    ensures Exact(t)
    ensures e.Take? && !s.destroyMe ==> s.waiting != []
  {
    hide Sizes, SlotsFit, CompletedFits, Ordered, WorkersFit, DebtsFit, Balanced, Results, WorkersTallied, AllCanLeave, CleanedOnce, Insert,
      Without, Count;
    WorkersCounted(s, e, t);
    ClientsCounted(s, e, t);
    CountNone(s.workers, IsOnItsWay);
    if e.Enqueue? {
      InsertMembers(ByRank(s.base, t.deadlines), s.waiting, |s.reqs|);
    }
    if s.waiting != [] {
      assert s.waiting[0] in s.waiting;
    }
  }

  /** Without signals and before shutdown, no worker comes back empty-handed. */
  lemma {:induction false} NoEmptyTakes(states: seq<State>, events: seq<Event>, i: nat)
    requires IsRun(states, events) && i < |states|
    requires forall k :: 0 <= k < i ==> NoSignal(events[k])
    ensures Exact(states[i])
    ensures i < |events| && events[i].Take? && !states[i].destroyMe && NoSignal(events[i]) ==> states[i].waiting != []
  {
    hide Inv, Step, Exact;
    if i == 0 {
      ExactAtFirst(states[0]);
    } else {
      NoEmptyTakes(states, events, i - 1);
      RunStep(states, events, i - 1);
      ExactStep(states[i - 1], events[i - 1], states[i]);
    }
    if i < |events| && NoSignal(events[i]) {
      RunStep(states, events, i);
      ExactStep(states[i], events[i], states[i + 1]);
    }
  }

  lemma ExactAtFirst(s: State)
    requires s == Init(s.base, s.maxWorkers)
    ensures Exact(s)
  {
  }

  /** A client that has read SUCCESS can collect its response, before shutdown and once,
      with one exception: a signal let it read between the end of the job and the move to
      the completed list. A client woken by its worker always can. */
  lemma CollectReadyExactly(s: State, id: nat)
    requires Inv(s) && id < |s.reqs| && s.reqs[id].client == Outside(Some(Success))
    requires !s.destroyMe && s.cleanups == 0 && s.reqs[id].place != Collected && !s.reqs[id].place.Aborted?
    ensures Enabled(s, Collect(id)) <==> !s.reqs[id].place.Serving?
    ensures s.reqs[id].place.Serving? ==> WorkerIs(s, s.reqs[id].place.worker, Stored)
    ensures s.reqs[id].consumed > 0 ==> Enabled(s, Collect(id))
  {
    assert ResultFits(s, id) && SemaphoreBalanced(s, id);
  }

  /** After a read of SUCCESS in a wait that a unit ended, the client may at once collect,
      unless shutdown has come. */
  lemma ReadThenCollect(s: State, t: State, id: nat)
    requires Inv(s) && Step(s, ClientRead(id), t) && s.reqs[id].result == Success
    requires s.reqs[id].consumed > 0 && s.reqs[id].place != Collected && !s.destroyMe && s.cleanups == 0
    ensures id < |t.reqs| && t.reqs[id].client == Outside(Some(Success))
    ensures Enabled(t, Collect(id)) && Promised(t, Collect(id))
  {
    assert ResultFits(s, id) && SemaphoreBalanced(s, id);
  }

  // ---------------------------------------------------------------- slots and counters

  /** Before shutdown the counters count what they should; only registered workers hold
      requests, and each holds its own. */
  lemma SlotsAndCounters(states: seq<State>, events: seq<Event>, i: nat)
    requires IsRun(states, events) && i < |states| && !states[i].destroyMe
    ensures var s := states[i];
      && s.nextId <= s.maxWorkers && s.countRegistered == s.nextId == |s.workers|
      && s.requestCount == Wrap32(|s.waiting|)
      && (forall w :: 0 <= w < |s.slots| && s.slots[w].Some? ==> w < s.nextId && s.workers[w] != Left)
      && (forall v, w :: 0 <= v < w < |s.slots| && s.slots[v].Some? ==> s.slots[v] != s.slots[w])
  {
    RunInv(states, events, i);
    hide Ordered, WaitingFits, CompletedFits, DebtsFit, Balanced, Results, NoLostWakeup, AllCanLeave, CleanedOnce, Count;
    var s := states[i];
    forall v, w | 0 <= v < w < |s.slots| && s.slots[v].Some? ensures s.slots[v] != s.slots[w] {
      assert s.reqs[s.slots[v].value].place == Serving(v);
    }
  }

  /** A registration hands out nextId; no two hand out the same. */
  lemma {:induction false} WorkerIdsFresh(states: seq<State>, events: seq<Event>, i: nat, j: nat)
    requires IsRun(states, events) && i < j < |states| && events[i].Register?
    ensures states[i].nextId < states[j].nextId
    decreases j
  {
    hide Inv, Step, Init;
    RunStep(states, events, j - 1);
    IdsGrow(states[j - 1], events[j - 1], states[j]);
    if i < j - 1 {
      WorkerIdsFresh(states, events, i, j - 1);
    }
  }

  lemma IdsGrow(s: State, e: Event, t: State)
    requires Step(s, e, t)
    ensures t.nextId == s.nextId + if e.Register? then 1 else 0
  {
    hide Insert, Without;
  }
}
