/** What a search that never ends does to its service, and how a client comes by one. */
module EndlessSearch {
  import opened MachineInt
  import opened LinberTypes
  import opened KeyOrder
  import opened Protocol
  import opened Invariants
  import opened Runs
  import opened Paths

  /** The steps that take the service mutex. */
  predicate TakesMutex(e: Event) {
    e.Enqueue? || e.ClientWait? || e.Collect? || e.Register? || e.CheckAlive? || e.Take? || e.Move? || e.Destroy?
  }

  /** What is as it was. */
  ghost predicate Frozen(s: State, t: State) {
    && t.waiting == s.waiting && t.completed == s.completed && |t.reqs| == |s.reqs|
    && t.nextId == s.nextId && t.countRegistered == s.countRegistered
    && t.destroyMe == s.destroyMe && t.cleanups == s.cleanups
    && (forall id :: 0 <= id < |s.reqs| && s.reqs[id].place == Waiting ==>
          t.reqs[id].place == Waiting && t.reqs[id].sem == 0)
    && (forall id :: 0 <= id < |s.reqs| && s.reqs[id].place.Completed? ==> t.reqs[id].place == s.reqs[id].place)
  }

  lemma WaitingUntouched(s: State)
    requires Inv(s)
    ensures forall id :: 0 <= id < |s.reqs| && s.reqs[id].place == Waiting ==> s.reqs[id].sem == 0 && s.reqs[id].upOwedBy == None
  {
    hide Places, Ordered, WorkersFit, DebtsFit, Results, Counters, NoLostWakeup, AllCanLeave, CleanedOnce;
    forall id | 0 <= id < |s.reqs| && s.reqs[id].place == Waiting ensures s.reqs[id].sem == 0 && s.reqs[id].upOwedBy == None {
      assert SemaphoreBalanced(s, id);
    }
  }

  lemma FrozenStep(s: State, e: Event, t: State)
    requires Inv(s) && Step(s, e, t) && !TakesMutex(e)
    ensures Frozen(s, t)
  {
    hide Ordered, WorkersFit, DebtsFit, Balanced, Results, Counters, NoLostWakeup, AllCanLeave, CleanedOnce, StableOrder.Insert, Without;
    WaitingUntouched(s);
    StepInv(s, e, t);
    if e.UpClient? {
      DebtorIsNotWaiting(s, e.w);
    }
  }

  lemma DebtorIsNotWaiting(s: State, w: nat)
    requires Inv(s) && Enabled(s, UpClient(w))
    ensures s.reqs[s.workers[w].id].place != Waiting
  {
    hide Places, Ordered, Balanced, Results, Counters, NoLostWakeup, AllCanLeave, CleanedOnce;
  }

  /** Once the mutex is held for good nothing is taken, moved, collected or accepted any
      more, no worker registers or leaves, no shutdown begins or ends, and no client of a
      waiting request is woken but by a signal. */
  lemma {:induction false} HeldMutexFreezes(states: seq<State>, events: seq<Event>, i: nat)
    requires Follows(states, events) && Inv(states[0]) && i < |states|
    requires forall k :: 0 <= k < i ==> !TakesMutex(events[k])
    ensures Inv(states[i]) && Frozen(states[0], states[i])
  {
    hide Inv, Step;
    if i == 0 {
      WaitingUntouched(states[0]);
    } else {
      HeldMutexFreezes(states, events, i - 1);
      FrozenStep(states[i - 1], events[i - 1], states[i]);
      StepInv(states[i - 1], events[i - 1], states[i]);
    }
  }

  /** One request being served and another waiting, with one deadline. */
  function OneLeftBehind(base: u64, deadline: u64): State {
    Init(base, 1).(nextId := 1, countRegistered := 1, semForRequest := 1, requestCount := 1,
                   waiting := [1], slots := [Some(0)], deadlines := [deadline, deadline],
                   reqs := [NewReq(false).(place := Serving(0), client := Outside(None)), NewReq(false).(client := Outside(None))],
                   workers := [InUser])
  }

  function TwoWaiting(base: u64, deadline: u64): State {
    var r := NewReq(false).(client := Outside(None));
    Init(base, 1).(semForRequest := 2, requestCount := 2, waiting := [0, 1], deadlines := [deadline, deadline], reqs := [r, r])
  }

  lemma SecondBehindFirst(rank: nat -> int)
    requires rank(0) == rank(1)
    ensures StableOrder.Insert<nat>(rank, [0], 1) == [0, 1]
  {
    var none: seq<nat> := [];
    assert StableOrder.Insert<nat>(rank, none, 1) == [1];
    var one: seq<nat> := [0];
    assert one[1..] == none;
  }

  lemma TwoWaitingReached(base: u64, deadline: u64) returns (states: seq<State>, events: seq<Event>)
    requires InWindow(base, deadline)
    ensures Follows(states, events) && states[0] == Init(base, 1) && states[|events|] == TwoWaiting(base, deadline)
  {
    hide InWindow, Without;
    var s0 := Init(base, 1);
    var s1 := Apply(s0, Enqueue(deadline, false));
    var s2 := Apply(s1, UpWorkers(0));
    var s3 := Apply(s2, Enqueue(deadline, false));
    var s4 := Apply(s3, UpWorkers(1));
    assert s1.waiting == [0] && s1.deadlines == [deadline];
    assert s3.deadlines == [deadline, deadline];
    SecondBehindFirst(ByRank(base, s3.deadlines));
    assert s3.waiting == [0, 1];
    assert s4 == TwoWaiting(base, deadline);
    states, events := [s0, s1, s2, s3, s4], [Enqueue(deadline, false), UpWorkers(0), Enqueue(deadline, false), UpWorkers(1)];
  }

  function OneReady(base: u64, deadline: u64): State {
    TwoWaiting(base, deadline).(nextId := 1, countRegistered := 1, semForRequest := 1, workers := [FoundAlive])
  }

  lemma FirstTaken(base: u64, deadline: u64)
    ensures Step(OneReady(base, deadline), Take(0), OneLeftBehind(base, deadline))
  {
    assert Apply(OneReady(base, deadline), Take(0)) == OneLeftBehind(base, deadline);
  }

  function OneAtSemaphore(base: u64, deadline: u64): State {
    TwoWaiting(base, deadline).(nextId := 1, countRegistered := 1, workers := [AtSemaphore])
  }

  lemma OneComes(base: u64, deadline: u64) returns (s: State)
    ensures Step(TwoWaiting(base, deadline), Register, s) && Step(s, StartJob(0), OneAtSemaphore(base, deadline))
  {
    s := Apply(TwoWaiting(base, deadline), Register);
    assert Apply(s, StartJob(0)) == OneAtSemaphore(base, deadline);
  }

  lemma OneLooks(base: u64, deadline: u64) returns (s: State)
    ensures Step(OneAtSemaphore(base, deadline), WorkerWake(0, false), s) && Step(s, CheckAlive(0), OneReady(base, deadline))
  {
    s := Apply(OneAtSemaphore(base, deadline), WorkerWake(0, false));
    assert Apply(s, CheckAlive(0)) == OneReady(base, deadline);
  }

  lemma OneReadyReached(base: u64, deadline: u64) returns (states: seq<State>, events: seq<Event>)
    ensures Follows(states, events) && states[0] == TwoWaiting(base, deadline)
    ensures states[|events|] == OneLeftBehind(base, deadline)
  {
    var comes := OneComes(base, deadline);
    var looks := OneLooks(base, deadline);
    FirstTaken(base, deadline);
    hide Step, TwoWaiting, OneAtSemaphore, OneReady, OneLeftBehind;
    states := [TwoWaiting(base, deadline), comes, OneAtSemaphore(base, deadline), looks, OneReady(base, deadline), OneLeftBehind(base, deadline)];
    events := [Register, StartJob(0), WorkerWake(0, false), CheckAlive(0), Take(0)];
  }

  /** A run as promised by all callers, with any admissible deadline, best effort included,
      after which a client may ask for its request while the search for it never returns:
      that request is served, and another with its deadline waits. */
  lemma SameDeadlineLeftBehind(base: u64, deadline: u64) returns (states: seq<State>, events: seq<Event>)
    requires InWindow(base, deadline)
    ensures IsRun(states, events)
    ensures var s := states[|events|];
      && Enabled(s, ClientWait(0)) && Promised(s, ClientWait(0)) && |s.reqs| == 2
      && s.deadlines == [deadline, deadline] && s.reqs[0].place == Serving(0) && s.reqs[1].place == Waiting
  {
    var before, steps := TwoWaitingReached(base, deadline);
    var after, steps' := OneReadyReached(base, deadline);
    assert Enabled(OneLeftBehind(base, deadline), ClientWait(0));
    hide Step, Apply, Enabled, TwoWaiting, Init;
    FollowsJoin(before, steps, after, steps');
    IsRunFromInit(before + after[1..], steps + steps');
    states, events := before + after[1..], steps + steps';
  }
}
