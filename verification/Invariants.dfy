/** What every step of the service keeps. */
module Invariants {
  import opened MachineInt
  import opened LinberTypes
  import opened KeyOrder
  import opened StableOrder
  import opened Counting
  import opened Protocol

  // ---------------------------------------------------------------- definitions

  ghost predicate Sizes(s: State) {
    && |s.workers| == s.nextId <= s.maxWorkers == |s.slots|
    && |s.deadlines| == |s.reqs|
    && forall i :: 0 <= i < |s.deadlines| ==> InWindow(s.base, s.deadlines[i])
  }

  ghost predicate Distinct(q: seq<nat>) {
    forall i, j :: 0 <= i < j < |q| ==> q[i] != q[j]
  }

  /** Each container holds exactly the requests whose place it is, each once. */
  ghost predicate WaitingFits(s: State) {
    && (forall id :: id in s.waiting ==> InUse(s, id) && s.reqs[id].place == Waiting)
    && (forall id :: 0 <= id < |s.reqs| && s.reqs[id].place == Waiting ==> id in s.waiting)
  }

  ghost predicate SlotsFit(s: State) {
    && (forall w :: 0 <= w < |s.slots| && s.slots[w].Some? ==>
          InUse(s, s.slots[w].value) && s.reqs[s.slots[w].value].place == Serving(w))
    && (forall id :: 0 <= id < |s.reqs| && s.reqs[id].place.Serving? ==>
          s.reqs[id].place.worker < |s.slots| && s.slots[s.reqs[id].place.worker] == Some(id))
  }

  ghost predicate CompletedFits(s: State) {
    && (forall id :: id in s.completed ==> InUse(s, id) && s.reqs[id].place == Completed)
    && (forall id :: 0 <= id < |s.reqs| && s.reqs[id].place == Completed ==> id in s.completed)
    && Distinct(s.completed)
  }

  ghost predicate Places(s: State) {
    WaitingFits(s) && SlotsFit(s) && CompletedFits(s)
  }

  predicate Precedes(rank: nat -> int, a: nat, b: nat) {
    rank(a) < rank(b) || (rank(a) == rank(b) && a < b)
  }

  ghost predicate Ascending(rank: nat -> int, q: seq<nat>) {
    forall i, j :: 0 <= i < j < |q| ==> Precedes(rank, q[i], q[j])
  }

  /** Earliest deadline first, and among equal deadlines oldest first. */
  ghost predicate Ordered(s: State) {
    Ascending(ByRank(s.base, s.deadlines), s.waiting)
  }

  predicate NeedsSlot(p: WorkerPhase) { p == FaultSignalled || p == Stored }

  /** Only registered workers hold requests, and what a worker does fits what it holds. */
  ghost predicate WorkersFit(s: State) {
    && (forall w :: 0 <= w < |s.workers| && NeedsSlot(s.workers[w]) && w < |s.slots| ==> s.slots[w].Some?)
    && (forall w :: 0 <= w < |s.slots| && s.slots[w].Some? ==>
          w < |s.workers| && (s.workers[w] == InUser || NeedsSlot(s.workers[w])))
  }

  /** A worker owes a wake-up exactly to the request that expects one from it. */
  ghost predicate DebtsFit(s: State) {
    && (forall w :: 0 <= w < |s.workers| && s.workers[w].Moved? ==>
          InUse(s, s.workers[w].id) && s.reqs[s.workers[w].id].upOwedBy == Some(w))
    && (forall id :: 0 <= id < |s.reqs| && s.reqs[id].upOwedBy.Some? ==>
          WorkerIs(s, s.reqs[id].upOwedBy.value, Moved(id))
          && (s.reqs[id].place == Completed || s.reqs[id].place == Collected || s.reqs[id].place == Aborted(true)))
  }

  /** How often the client of a request has been woken or is going to be. */
  function Due(s: State, id: nat): nat
    requires InUse(s, id)
  {
    match s.reqs[id].place
    case Waiting => 0
    case Serving(w) => if WorkerIs(s, w, FaultSignalled) then 1 else 0
    case Completed => 1
    case Aborted(afterCompletion) => if afterCompletion then 2 else 1
    case Faulted => 1
    case Collected => 1
  }

  ghost predicate SemaphoreBalanced(s: State, id: nat)
    requires InUse(s, id)
  {
    var r := s.reqs[id];
    r.sem + r.consumed + (if r.upOwedBy.Some? then 1 else 0) == Due(s, id)
  }

  ghost predicate Balanced(s: State) {
    forall id :: 0 <= id < |s.reqs| ==> SemaphoreBalanced(s, id)
  }

  /** The result of a request is what its history allows. */
  ghost predicate ResultFits(s: State, id: nat)
    requires InUse(s, id)
  {
    var r := s.reqs[id];
    && (r.result == Success ==> r.response.Some?)
    && (r.place.Waiting? || r.place.Faulted? || r.place.Aborted? ==> r.result == Abort)
    && (r.place.Serving? && !WorkerIs(s, r.place.worker, Stored) ==> r.result == Abort)
    && (r.place.Serving? && WorkerIs(s, r.place.worker, Stored) ==> r.result != Abort)
    && (r.place.Completed? || r.place.Collected? ==> r.result != Abort)
    && (r.client == Outside(Some(Success)) ==> r.result == Success || r.place.Aborted?)
    && (r.place.Collected? ==> r.result == Success)
    && (r.response.Some? ==> !r.place.Waiting? && !r.place.Faulted? && (r.place.Serving? ==> WorkerIs(s, r.place.worker, Stored)))
    && (r.response.Some? && !r.place.Aborted? ==> r.result == Success)
  }

  ghost predicate Results(s: State) {
    forall id :: 0 <= id < |s.reqs| ==> ResultFits(s, id)
  }

  predicate IsRegistered(p: WorkerPhase) { p != Left }
  predicate IsWoken(p: WorkerPhase) { p == Woken }
  predicate IsOnItsWay(p: WorkerPhase) { p == Woken || p == FoundAlive }
  predicate OwesWorkers(r: Req) { r.client.Inserted? }

  ghost predicate WorkersTallied(s: State) {
    && s.countRegistered == Count(s.workers, IsRegistered)
    && (!s.destroyMe ==> Count(s.workers, IsRegistered) == |s.workers|)
  }

  ghost predicate RequestsTallied(s: State) {
    && (!s.destroyMe ==> s.requestCount == Wrap32(|s.waiting|))
    && (s.destroyMe ==> s.waiting == [])
  }

  ghost predicate Counters(s: State) {
    WorkersTallied(s) && RequestsTallied(s)
  }

  /** For each waiting request there is a unit of the semaphore, a client about to add one,
      or a worker about to take a request. */
  ghost predicate NoLostWakeup(s: State) {
    |s.waiting| <= s.semForRequest + Count(s.reqs, OwesWorkers) + Count(s.workers, IsOnItsWay)
  }

  /** Once destroyed, each registered worker has a unit left or has already passed. */
  ghost predicate AllCanLeave(s: State) {
    s.destroyMe ==> s.countRegistered <= s.semForRequest + Count(s.workers, IsWoken)
  }

  /** clean_service has run once, when the last worker was gone, and not before. */
  ghost predicate CleanedOnce(s: State) {
    s.cleanups == if s.destroyMe && s.countRegistered == 0 then 1 else 0
  }

  ghost predicate Inv(s: State) {
    && Sizes(s) && Places(s) && Ordered(s) && WorkersFit(s) && DebtsFit(s)
    && Balanced(s) && Results(s) && Counters(s)
    && NoLostWakeup(s) && AllCanLeave(s) && CleanedOnce(s)
  }

  ghost predicate Step(s: State, e: Event, t: State) {
    Enabled(s, e) && Promised(s, e) && t == Apply(s, e)
  }

  // ---------------------------------------------------------------- one lemma for each

  lemma InitInv(base: u64, maxWorkers: u32)
    ensures Inv(Init(base, maxWorkers))
  {
  }

  lemma SizesKept(s: State, e: Event, t: State)
    requires Inv(s) && Step(s, e, t)
    ensures Sizes(t)
  {
    hide Places, Ordered, WorkersFit, DebtsFit, Balanced, Results, Counters, NoLostWakeup, AllCanLeave, CleanedOnce;
  }

  lemma {:induction false} WithoutOne(q: seq<nat>, id: nat)
    requires Distinct(q)
    ensures Distinct(Without(q, id))
    ensures forall x :: x in Without(q, id) <==> x in q && x != id
  {
    if q != [] {
      WithoutOne(q[1..], id);
      assert forall x :: x in q <==> x == q[0] || x in q[1..];
      if q[0] == id {
        assert forall i :: 1 <= i < |q| ==> q[i] != id;
      } else {
        var rest := Without(q[1..], id);
        assert q[0] !in rest;
      }
    }
  }

  lemma {:induction false} InsertMembers(rank: nat -> int, q: seq<nat>, x: nat)
    ensures forall y :: y in Insert(rank, q, x) <==> y == x || y in q
    ensures |Insert(rank, q, x)| == |q| + 1
  {
    if q != [] {
      InsertMembers(rank, q[1..], x);
      assert forall y :: y in q <==> y == q[0] || y in q[1..];
    }
  }

  lemma {:induction false} AscendingInsert(rank: nat -> int, q: seq<nat>, x: nat)
    requires Ascending(rank, q) && forall y :: y in q ==> y < x
    ensures Ascending(rank, Insert(rank, q, x))
  {
    if q != [] {
      var rest := Insert(rank, q[1..], x);
      InsertMembers(rank, q[1..], x);
      assert forall i :: 0 <= i < |q[1..]| ==> q[1..][i] == q[i + 1] && Precedes(rank, q[0], q[i + 1]);
      assert forall y :: y in q[1..] ==> y in q && Precedes(rank, q[0], y);
      assert q[0] in q;
      if rank(q[0]) <= rank(x) {
        AscendingInsert(rank, q[1..], x);
        forall j | 0 <= j < |rest| ensures Precedes(rank, q[0], rest[j]) {
          assert rest[j] in rest;
        }
      }
    }
  }

  lemma OrderedKept(s: State, e: Event, t: State)
    requires Inv(s) && Step(s, e, t)
    ensures Ordered(t)
  {
    hide SlotsFit, CompletedFits, WorkersFit, DebtsFit, Balanced, Results, Counters, NoLostWakeup, AllCanLeave, CleanedOnce, Insert;
    var rank, rank' := ByRank(s.base, s.deadlines), ByRank(t.base, t.deadlines);
    assert t.base == s.base && s.deadlines <= t.deadlines;
    forall i | 0 <= i < |s.waiting| ensures rank(s.waiting[i]) == rank'(s.waiting[i]) && s.waiting[i] < |s.reqs| {
      assert s.waiting[i] in s.waiting && InUse(s, s.waiting[i]);
    }
    assert Ascending(rank', s.waiting);
    if e.Enqueue? {
      AscendingInsert(rank', s.waiting, |s.reqs|);
    }
  }

  // The steps in four groups, so that no proof has to look at all of them at once.

  predicate Intake(e: Event) {
    e.Enqueue? || e.Register? || e.WorkerWake? || e.CheckAlive? || e.Destroy?
  }

  predicate ClientMoves(e: Event) {
    e.UpWorkers? || e.ClientWake? || e.ClientRead? || e.ClientWait? || e.Collect?
  }

  predicate JobBegins(e: Event) {
    e.StartJob? || e.ClearFault? || e.Take?
  }

  predicate JobEnds(e: Event) {
    e.EndJob? || e.Move? || e.UpClient?
  }

  predicate WorkerEvent(e: Event) {
    e.StartJob? || e.ClearFault? || e.WorkerWake? || e.CheckAlive? || e.Take? || e.EndJob? || e.Move? || e.UpClient?
  }


  lemma WaitingFitsKept(s: State, e: Event, t: State)
    requires Inv(s) && Step(s, e, t)
    ensures WaitingFits(t)
  {
    if e.Enqueue? {
      WaitingAfterEnqueue(s, e, t);
    } else if e.Take? {
      WaitingAfterTake(s, e, t);
    } else if JobBegins(e) || JobEnds(e) {
      WaitingInJob(s, e, t);
    } else {
      WaitingOtherwise(s, e, t);
    }
  }

  lemma WaitingAfterEnqueue(s: State, e: Event, t: State)
    requires Sizes(s) && WaitingFits(s) && Step(s, e, t) && e.Enqueue?
    ensures WaitingFits(t)
  {
    hide Insert;
    InsertMembers(ByRank(s.base, t.deadlines), s.waiting, |s.reqs|);
  }

  lemma WaitingAfterTake(s: State, e: Event, t: State)
    requires WaitingFits(s) && Ordered(s) && Step(s, e, t) && e.Take?
    ensures WaitingFits(t)
  {
    if s.waiting != [] {
      assert s.waiting[0] in s.waiting;
      assert forall id :: id in s.waiting <==> id == s.waiting[0] || id in s.waiting[1..];
      assert forall j :: 0 < j < |s.waiting| ==> Precedes(ByRank(s.base, s.deadlines), s.waiting[0], s.waiting[j]);
    }
  }

  lemma WaitingInJob(s: State, e: Event, t: State)
    requires WaitingFits(s) && SlotsFit(s) && Step(s, e, t) && (JobBegins(e) || JobEnds(e)) && !e.Take?
    ensures WaitingFits(t)
  {
    assert t.waiting == s.waiting;
  }

  lemma WaitingOtherwise(s: State, e: Event, t: State)
    requires WaitingFits(s) && Step(s, e, t) && (Intake(e) || ClientMoves(e)) && !e.Enqueue?
    ensures WaitingFits(t)
  {
    hide Without;
  }

  lemma SlotsFitKept(s: State, e: Event, t: State)
    requires Inv(s) && Step(s, e, t)
    ensures SlotsFit(t)
  {
    hide Step;
    if e.Take? {
      SlotsFitAfterTake(s, e.w, t);
    } else if e.Move? || e.ClearFault? {
      SlotsFitAfterRelease(s, e, t);
    } else {
      SlotsFitOtherwise(s, e, t);
    }
  }

  lemma SlotsFitOtherwise(s: State, e: Event, t: State)
    requires Sizes(s) && Places(s) && Step(s, e, t) && !e.Take? && !e.Move? && !e.ClearFault?
    ensures SlotsFit(t)
  {
    hide Insert, Without, Sizes, ByRank, SlotsFit;
    assert t.slots == s.slots && |s.reqs| <= |t.reqs|;
    ServedAsBefore(s, e, t);
    SameSlotsFit(s, t);
  }

  lemma ServedAsBefore(s: State, e: Event, t: State)
    requires Sizes(s) && Places(s) && Step(s, e, t) && !e.Take? && !e.Move? && !e.ClearFault?
    ensures |s.reqs| <= |t.reqs|
    ensures forall id :: 0 <= id < |s.reqs| && s.reqs[id].place.Serving? ==> t.reqs[id].place == s.reqs[id].place
    ensures forall id :: 0 <= id < |t.reqs| && t.reqs[id].place.Serving? ==> id < |s.reqs| && s.reqs[id].place == t.reqs[id].place
  {
    hide Insert, Without, Sizes, ByRank, SlotsFit;
  }

  lemma SameSlotsFit(s: State, t: State)
    requires SlotsFit(s) && t.slots == s.slots && |s.reqs| <= |t.reqs|
    requires forall id :: 0 <= id < |s.reqs| && s.reqs[id].place.Serving? ==> t.reqs[id].place == s.reqs[id].place
    requires forall id :: 0 <= id < |t.reqs| && t.reqs[id].place.Serving? ==> id < |s.reqs| && s.reqs[id].place == t.reqs[id].place
    ensures SlotsFit(t)
  {
  }

  lemma SlotsFitAfterTake(s: State, w: nat, t: State)
    requires SlotsFit(s) && WaitingFits(s) && WorkersFit(s) && Step(s, Take(w), t)
    ensures SlotsFit(t)
  {
    if s.waiting != [] {
      assert s.waiting[0] in s.waiting;
      assert s.slots[w] == None;
    }
  }

  lemma SlotsFitAfterRelease(s: State, e: Event, t: State)
    requires SlotsFit(s) && (e.Move? || e.ClearFault?) && Step(s, e, t)
    ensures SlotsFit(t)
  {
  }

  lemma CompletedFitsKept(s: State, e: Event, t: State)
    requires Inv(s) && Step(s, e, t)
    ensures CompletedFits(t)
  {
    if e.Collect? || e.Move? {
      CompletedChanged(s, e, t);
    } else if JobBegins(e) || JobEnds(e) {
      CompletedInJob(s, e, t);
    } else {
      CompletedOtherwise(s, e, t);
    }
  }

  lemma CompletedChanged(s: State, e: Event, t: State)
    requires CompletedFits(s) && SlotsFit(s) && Step(s, e, t) && (e.Collect? || e.Move?)
    ensures CompletedFits(t)
  {
    hide Without;
    WithoutOne(s.completed, if e.Collect? then e.id else 0);
  }

  lemma CompletedInJob(s: State, e: Event, t: State)
    requires Places(s) && Step(s, e, t) && (JobBegins(e) || JobEnds(e)) && !e.Move?
    ensures CompletedFits(t)
  {
    hide Distinct;
    assert t.completed == s.completed;
    if e.Take? && s.waiting != [] {
      assert s.waiting[0] in s.waiting;
    }
  }

  lemma CompletedOtherwise(s: State, e: Event, t: State)
    requires Places(s) && Step(s, e, t) && (Intake(e) || ClientMoves(e)) && !e.Collect?
    ensures CompletedFits(t)
  {
    hide Insert, SlotsFit;
  }

  lemma WorkersFitKept(s: State, e: Event, t: State)
    requires Inv(s) && Step(s, e, t)
    ensures WorkersFit(t)
  {
    if JobBegins(e) {
      WorkersFitAtBegin(s, e, t);
    } else if JobEnds(e) {
      WorkersFitAtEnd(s, e, t);
    } else {
      WorkersFitOtherwise(s, e, t);
    }
  }

  lemma WorkersFitAtBegin(s: State, e: Event, t: State)
    requires WaitingFits(s) && SlotsFit(s) && WorkersFit(s) && Step(s, e, t) && JobBegins(e)
    ensures WorkersFit(t)
  {
    if e.Take? && s.waiting != [] {
      assert s.waiting[0] in s.waiting;
    }
  }

  lemma WorkersFitAtEnd(s: State, e: Event, t: State)
    requires WorkersFit(s) && Step(s, e, t) && JobEnds(e)
    ensures WorkersFit(t)
  {
  }

  lemma WorkersFitOtherwise(s: State, e: Event, t: State)
    requires Sizes(s) && WorkersFit(s) && Step(s, e, t) && !JobBegins(e) && !JobEnds(e)
    ensures WorkersFit(t)
  {
    hide Insert, Without;
  }

  lemma DebtsFitKept(s: State, e: Event, t: State)
    requires Inv(s) && Step(s, e, t)
    ensures DebtsFit(t)
  {
    hide Step;
    if Intake(e) {
      DebtsAtIntake(s, e, t);
    } else if ClientMoves(e) {
      DebtsOfClients(s, e, t);
    } else if e.Take? {
      DebtsAtTake(s, e, t);
    } else if e.Move? {
      DebtMade(s, e, t);
    } else if e.UpClient? {
      DebtPaid(s, e, t);
    } else {
      DebtsInJob(s, e, t);
    }
  }

  lemma DebtsAtIntake(s: State, e: Event, t: State)
    requires CompletedFits(s) && WaitingFits(s) && DebtsFit(s) && Step(s, e, t) && Intake(e)
    ensures DebtsFit(t)
  {
    hide Insert;
  }

  lemma DebtsOfClients(s: State, e: Event, t: State)
    requires DebtsFit(s) && Step(s, e, t) && ClientMoves(e)
    ensures DebtsFit(t)
  {
    hide Without;
  }

  lemma DebtsAtTake(s: State, e: Event, t: State)
    requires WaitingFits(s) && DebtsFit(s) && Step(s, e, t) && e.Take?
    ensures DebtsFit(t)
  {
    if s.waiting != [] {
      assert s.waiting[0] in s.waiting;
    }
  }

  lemma DebtMade(s: State, e: Event, t: State)
    requires SlotsFit(s) && DebtsFit(s) && Step(s, e, t) && e.Move?
    ensures DebtsFit(t)
  {
  }

  lemma DebtPaid(s: State, e: Event, t: State)
    requires DebtsFit(s) && Step(s, e, t) && e.UpClient?
    ensures DebtsFit(t)
  {
  }

  lemma DebtsInJob(s: State, e: Event, t: State)
    requires SlotsFit(s) && DebtsFit(s) && Step(s, e, t) && (e.StartJob? || e.ClearFault? || e.EndJob?)
    ensures DebtsFit(t)
  {
    DebtorsStay(s, e, t);
    hide Step, Enabled, Promised, Apply, SlotsFit;
  }

  lemma DebtorsStay(s: State, e: Event, t: State)
    requires SlotsFit(s) && DebtsFit(s) && Step(s, e, t) && (e.StartJob? || e.ClearFault? || e.EndJob?)
    ensures |t.workers| == |s.workers| && |t.reqs| == |s.reqs|
    ensures forall w :: 0 <= w < |t.workers| && (s.workers[w].Moved? || t.workers[w].Moved?) ==> s.workers[w] == t.workers[w]
    ensures forall id :: 0 <= id < |t.reqs| ==> t.reqs[id].upOwedBy == s.reqs[id].upOwedBy
    ensures forall id :: 0 <= id < |t.reqs| && t.reqs[id].upOwedBy.Some? ==> t.reqs[id] == s.reqs[id]
  {
  }

  lemma BalancedKept(s: State, e: Event, t: State)
    requires Inv(s) && Step(s, e, t)
    ensures Balanced(t)
  {
    forall id | 0 <= id < |t.reqs| ensures SemaphoreBalanced(t, id) {
      BalancedOne(s, e, t, id);
    }
  }

  lemma BalancedOne(s: State, e: Event, t: State, id: nat)
    requires Inv(s) && Step(s, e, t) && id < |t.reqs|
    ensures SemaphoreBalanced(t, id)
  {
    hide SemaphoreBalanced;
    if Intake(e) {
      BalancedIntake(s, e, t, id);
    } else if ClientMoves(e) {
      BalancedClientMoves(s, e, t, id);
    } else if e.Take? {
      BalancedAtTake(s, e, t, id);
    } else if JobBegins(e) {
      BalancedJobBegins(s, e, t, id);
    } else {
      BalancedJobEnds(s, e, t, id);
    }
  }

  lemma BalancedIntake(s: State, e: Event, t: State, id: nat)
    requires Sizes(s) && Places(s) && WorkersFit(s) && DebtsFit(s) && Step(s, e, t) && Intake(e) && id < |t.reqs|
    requires id < |s.reqs| ==> SemaphoreBalanced(s, id)
    ensures SemaphoreBalanced(t, id)
  {
    hide Insert, Without, Sizes, ByRank;
  }

  lemma BalancedClientMoves(s: State, e: Event, t: State, id: nat)
    requires Sizes(s) && Places(s) && WorkersFit(s) && DebtsFit(s) && Step(s, e, t) && ClientMoves(e) && id < |t.reqs|
    requires id < |s.reqs| ==> SemaphoreBalanced(s, id)
    ensures SemaphoreBalanced(t, id)
  {
    hide Insert, Without, Sizes, ByRank;
  }

  lemma BalancedAtTake(s: State, e: Event, t: State, id: nat)
    requires WaitingFits(s) && SlotsFit(s) && WorkersFit(s) && Step(s, e, t) && e.Take? && id < |t.reqs|
    requires id < |s.reqs| ==> SemaphoreBalanced(s, id)
    ensures SemaphoreBalanced(t, id)
  {
    if s.waiting != [] {
      assert s.waiting[0] in s.waiting;
    }
  }

  lemma BalancedJobBegins(s: State, e: Event, t: State, id: nat)
    requires SlotsFit(s) && WorkersFit(s) && DebtsFit(s) && Step(s, e, t) && (e.StartJob? || e.ClearFault?) && id < |t.reqs|
    requires id < |s.reqs| ==> SemaphoreBalanced(s, id)
    ensures SemaphoreBalanced(t, id)
  {
  }

  lemma BalancedJobEnds(s: State, e: Event, t: State, id: nat)
    requires Sizes(s) && Places(s) && WorkersFit(s) && DebtsFit(s) && Step(s, e, t) && JobEnds(e) && id < |t.reqs|
    requires id < |s.reqs| ==> SemaphoreBalanced(s, id)
    ensures SemaphoreBalanced(t, id)
  {
    hide Insert, Without, Sizes, ByRank;
  }

  lemma ResultsKept(s: State, e: Event, t: State)
    requires Inv(s) && Step(s, e, t)
    ensures Results(t)
  {
    forall id | 0 <= id < |t.reqs| ensures ResultFits(t, id) {
      ResultsOne(s, e, t, id);
    }
  }

  lemma ResultsOne(s: State, e: Event, t: State, id: nat)
    requires Inv(s) && Step(s, e, t) && id < |t.reqs|
    ensures ResultFits(t, id)
  {
    hide ResultFits;
    if Intake(e) {
      ResultsIntake(s, e, t, id);
    } else if ClientMoves(e) {
      ResultsClientMoves(s, e, t, id);
    } else if e.Take? {
      ResultsAtTake(s, e, t, id);
    } else if JobBegins(e) {
      ResultsJobBegins(s, e, t, id);
    } else {
      ResultsJobEnds(s, e, t, id);
    }
  }

  lemma ResultsIntake(s: State, e: Event, t: State, id: nat)
    requires Sizes(s) && Places(s) && WorkersFit(s) && DebtsFit(s) && Step(s, e, t) && Intake(e) && id < |t.reqs|
    requires id < |s.reqs| ==> ResultFits(s, id)
    ensures ResultFits(t, id)
  {
    hide Insert, Without, Sizes, ByRank;
  }

  lemma ResultsClientMoves(s: State, e: Event, t: State, id: nat)
    requires Sizes(s) && Places(s) && WorkersFit(s) && DebtsFit(s) && Step(s, e, t) && ClientMoves(e) && id < |t.reqs|
    requires id < |s.reqs| ==> ResultFits(s, id)
    ensures ResultFits(t, id)
  {
    hide Insert, Without, Sizes, ByRank;
  }

  lemma ResultsAtTake(s: State, e: Event, t: State, id: nat)
    requires WaitingFits(s) && SlotsFit(s) && WorkersFit(s) && Step(s, e, t) && e.Take? && id < |t.reqs|
    requires id < |s.reqs| ==> ResultFits(s, id)
    ensures ResultFits(t, id)
  {
    if s.waiting != [] {
      assert s.waiting[0] in s.waiting;
    }
  }

  lemma ResultsJobBegins(s: State, e: Event, t: State, id: nat)
    requires SlotsFit(s) && WorkersFit(s) && DebtsFit(s) && Step(s, e, t) && (e.StartJob? || e.ClearFault?) && id < |t.reqs|
    requires id < |s.reqs| ==> ResultFits(s, id)
    ensures ResultFits(t, id)
  {
  }

  lemma ResultsJobEnds(s: State, e: Event, t: State, id: nat)
    requires Sizes(s) && Places(s) && WorkersFit(s) && DebtsFit(s) && Step(s, e, t) && JobEnds(e) && id < |t.reqs|
    requires id < |s.reqs| ==> ResultFits(s, id)
    ensures ResultFits(t, id)
  {
    hide Insert, Without, Sizes, ByRank;
  }

  // ---------------------------------------------------------------- counting

  /** How a step changes the numbers of workers: one of them moves, one comes, or none. */
  lemma WorkersCounted(s: State, e: Event, t: State)
    requires Step(s, e, t)
    ensures e.Register? ==> forall p: WorkerPhase -> bool :: Count(t.workers, p) == Count(s.workers, p) + (if p(InUser) then 1 else 0)
    ensures e.Enqueue? || e.UpWorkers? || e.ClientWake? || e.ClientRead? || e.ClientWait? || e.Collect? || e.Destroy? ==>
      t.workers == s.workers
    ensures WorkerEvent(e) ==>
      e.w < |s.workers| == |t.workers|
      && forall p: WorkerPhase -> bool :: Count(t.workers, p)
           == Count(s.workers, p) - (if p(s.workers[e.w]) then 1 else 0) + (if p(t.workers[e.w]) then 1 else 0)
  {
    hide Insert, Without, Count;
    if e.Register? {
      forall p: WorkerPhase -> bool ensures Count(t.workers, p) == Count(s.workers, p) + (if p(InUser) then 1 else 0) {
        CountAppend(s.workers, InUser, p);
      }
    } else if WorkerEvent(e) {
      assert t.workers == s.workers[e.w := t.workers[e.w]];
      forall p: WorkerPhase -> bool ensures Count(t.workers, p)
           == Count(s.workers, p) - (if p(s.workers[e.w]) then 1 else 0) + (if p(t.workers[e.w]) then 1 else 0) {
        CountUpdate(s.workers, e.w, t.workers[e.w], p);
      }
    }
  }

  /** How a step changes the number of clients about to wake a worker. */
  lemma ClientsCounted(s: State, e: Event, t: State)
    requires Step(s, e, t)
    ensures Count(t.reqs, OwesWorkers) == Count(s.reqs, OwesWorkers)
              + (if e.Enqueue? then 1 else 0) - (if e.UpWorkers? then 1 else 0)
  {
    hide Insert, Without, Count;
    match e
    case Enqueue(_, blocking) => CountAppend(s.reqs, NewReq(blocking), OwesWorkers);
    case UpWorkers(id) => CountUpdate(s.reqs, id, t.reqs[id], OwesWorkers);
    case _ =>
      SameClientsOwe(s, e, t);
      CountAlike(s.reqs, t.reqs, OwesWorkers);
  }

  lemma SameClientsOwe(s: State, e: Event, t: State)
    requires Step(s, e, t) && !e.Enqueue? && !e.UpWorkers?
    ensures |s.reqs| == |t.reqs| && forall i :: 0 <= i < |s.reqs| ==> OwesWorkers(s.reqs[i]) == OwesWorkers(t.reqs[i])
  {
    hide Insert, Without;
  }

  lemma CountersKept(s: State, e: Event, t: State)
    requires Inv(s) && Step(s, e, t)
    ensures Counters(t)
  {
    hide Inv, Step, WorkersTallied, RequestsTallied;
    WorkersTalliedKept(s, e, t);
    RequestsTalliedKept(s, e, t);
  }

  lemma WorkersTalliedKept(s: State, e: Event, t: State)
    requires Inv(s) && Step(s, e, t)
    ensures WorkersTallied(t)
  {
    hide Places, Ordered, WorkersFit, DebtsFit, Balanced, Results, NoLostWakeup, AllCanLeave, CleanedOnce, RequestsTallied, Count,
      Step, Enabled, Promised, Apply;
    WorkersCounted(s, e, t);
    CountNone(s.workers, IsRegistered);
    CountNone(t.workers, IsRegistered);
    RegisteredAndLeft(s, e, t);
    SizesKept(s, e, t);
  }

  /** What a step does to the number of registered workers and to the counter of them. */
  lemma RegisteredAndLeft(s: State, e: Event, t: State)
    requires Step(s, e, t)
    ensures e.Register? ==> !s.destroyMe
    ensures t.destroyMe == (s.destroyMe || e.Destroy?)
    ensures t.countRegistered == if e.Register? then Wrap32(s.countRegistered + 1)
      else if e.CheckAlive? && s.destroyMe then Wrap32(s.countRegistered - 1) else s.countRegistered
    ensures |t.workers| == |s.workers| + if e.Register? then 1 else 0
    ensures WorkerEvent(e) ==>
      && e.w < |s.workers| == |t.workers|
      && (IsRegistered(t.workers[e.w]) <==> IsRegistered(s.workers[e.w]) && !(e.CheckAlive? && s.destroyMe))
      && (e.CheckAlive? ==> IsRegistered(s.workers[e.w]))
  {
    hide Insert, Without, Wrap32;
  }

  lemma RequestsTalliedKept(s: State, e: Event, t: State)
    requires Inv(s) && Step(s, e, t)
    ensures RequestsTallied(t)
  {
    hide Step, Enabled, Promised, Apply;
    if e.Enqueue? {
      TalliedAfterEnqueue(s, e, t);
    } else if e.Take? {
      TalliedAfterTake(s, e, t);
    } else {
      TalliedOtherwise(s, e, t);
    }
  }

  lemma TalliedAfterEnqueue(s: State, e: Event, t: State)
    requires RequestsTallied(s) && Step(s, e, t) && e.Enqueue?
    ensures RequestsTallied(t)
  {
    hide Insert;
    InsertMembers(ByRank(s.base, t.deadlines), s.waiting, |s.reqs|);
    Wrap32Sum(|s.waiting|, 1);
  }

  lemma TalliedAfterTake(s: State, e: Event, t: State)
    requires WaitingFits(s) && RequestsTallied(s) && Step(s, e, t) && e.Take?
    ensures RequestsTallied(t)
  {
    if s.waiting != [] {
      assert s.waiting[0] in s.waiting;
      Wrap32Sum(|s.waiting|, -1);
    }
  }

  lemma TalliedOtherwise(s: State, e: Event, t: State)
    requires RequestsTallied(s) && Step(s, e, t) && !e.Enqueue? && !e.Take?
    ensures RequestsTallied(t)
  {
    hide Without, Wrap32;
  }

  lemma NoLostWakeupKept(s: State, e: Event, t: State)
    requires Inv(s) && Step(s, e, t)
    ensures NoLostWakeup(t)
  {
    hide Ordered, WorkersFit, DebtsFit, Balanced, Results, AllCanLeave, CleanedOnce, Insert, Without, Count;
    WorkersCounted(s, e, t);
    ClientsCounted(s, e, t);
    if e.Enqueue? {
      InsertMembers(ByRank(s.base, t.deadlines), s.waiting, |s.reqs|);
    }
    if e.Take? && s.waiting != [] {
      assert s.waiting[0] in s.waiting;
    }
  }

  lemma AllCanLeaveKept(s: State, e: Event, t: State)
    requires Inv(s) && Step(s, e, t)
    ensures AllCanLeave(t)
  {
    hide Places, Ordered, WorkersFit, DebtsFit, Balanced, Results, NoLostWakeup, CleanedOnce, Insert, Without, Count;
    WorkersCounted(s, e, t);
    CountNone(s.workers, IsRegistered);
  }

  lemma CleanedOnceKept(s: State, e: Event, t: State)
    requires Inv(s) && Step(s, e, t)
    ensures CleanedOnce(t)
  {
    hide Places, Ordered, WorkersFit, DebtsFit, Balanced, Results, NoLostWakeup, AllCanLeave, Insert, Without, Count;
    CountNone(s.workers, IsRegistered);
  }

  /** Every step keeps the invariant. */
  lemma StepInv(s: State, e: Event, t: State)
    requires Inv(s) && Step(s, e, t)
    ensures Inv(t)
  {
    hide Step, Sizes, Places, Ordered, WorkersFit, DebtsFit, Balanced, Results, Counters, NoLostWakeup, AllCanLeave, CleanedOnce;
    SizesKept(s, e, t);
    PlacesKept(s, e, t);
    OrderedKept(s, e, t);
    WorkersFitKept(s, e, t);
    DebtsFitKept(s, e, t);
    BalancedKept(s, e, t);
    ResultsKept(s, e, t);
    CountersKept(s, e, t);
    NoLostWakeupKept(s, e, t);
    AllCanLeaveKept(s, e, t);
    CleanedOnceKept(s, e, t);
  }

  lemma PlacesKept(s: State, e: Event, t: State)
    requires Inv(s) && Step(s, e, t)
    ensures Places(t)
  {
    hide Inv, Step, WaitingFits, SlotsFit, CompletedFits;
    WaitingFitsKept(s, e, t);
    SlotsFitKept(s, e, t);
    CompletedFitsKept(s, e, t);
  }
}
