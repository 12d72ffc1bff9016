/** One request from end to end: a blocking client, one worker, and a response collected. */
module OneRequest {
  import opened MachineInt
  import opened LinberTypes
  import opened KeyOrder
  import opened Protocol
  import opened Invariants
  import opened Runs
  import opened Paths

  function Asked(base: u64, deadline: u64): State {
    Init(base, 1).(waiting := [0], deadlines := [deadline], requestCount := 1, semForRequest := 1,
                   reqs := [NewReq(true).(client := Blocked)])
  }

  lemma ClientAsks(base: u64, deadline: u64) returns (states: seq<State>, events: seq<Event>)
    requires InWindow(base, deadline)
    ensures Follows(states, events) && states[0] == Init(base, 1) && states[|events|] == Asked(base, deadline)
  {
    hide InWindow, Without;
    var s0 := Init(base, 1);
    var s1 := Apply(s0, Enqueue(deadline, true));
    assert s1.waiting == [0] && s1.deadlines == [deadline];
    var s2 := Apply(s1, UpWorkers(0));
    assert s2 == Asked(base, deadline);
    states, events := [s0, s1, s2], [Enqueue(deadline, true), UpWorkers(0)];
  }

  function Ready(base: u64, deadline: u64): State {
    Asked(base, deadline).(nextId := 1, countRegistered := 1, semForRequest := 1, workers := [AtSemaphore])
  }

  lemma WorkerComes(base: u64, deadline: u64) returns (states: seq<State>, events: seq<Event>)
    ensures Follows(states, events) && states[0] == Asked(base, deadline) && states[|events|] == Ready(base, deadline)
  {
    var s0 := Asked(base, deadline);
    var s1 := Apply(s0, Register);
    var s2 := Apply(s1, StartJob(0));
    assert s2 == Ready(base, deadline);
    states, events := [s0, s1, s2], [Register, StartJob(0)];
  }

  function Served(base: u64, deadline: u64): State {
    Ready(base, deadline).(waiting := [], requestCount := 0, semForRequest := 0, slots := [Some(0)], workers := [InUser],
                           reqs := [NewReq(true).(client := Blocked, place := Serving(0))])
  }

  lemma WorkerTakes(base: u64, deadline: u64) returns (states: seq<State>, events: seq<Event>)
    ensures Follows(states, events) && states[0] == Ready(base, deadline) && states[|events|] == Served(base, deadline)
  {
    var s0 := Ready(base, deadline);
    var s1 := Apply(s0, WorkerWake(0, false));
    var s2 := Apply(s1, CheckAlive(0));
    var s3 := Apply(s2, Take(0));
    assert s3 == Served(base, deadline);
    states, events := [s0, s1, s2, s3], [WorkerWake(0, false), CheckAlive(0), Take(0)];
  }

  function Finished(base: u64, deadline: u64, response: Response): State {
    Served(base, deadline).(slots := [None], completed := [0],
                            reqs := [Req(Success, Some(response), 1, Completed, None, 0, Blocked)])
  }

  lemma WorkerEnds(base: u64, deadline: u64, response: Response) returns (states: seq<State>, events: seq<Event>)
    requires !TooLarge(response)
    ensures Follows(states, events) && states[0] == Served(base, deadline)
    ensures states[|events|] == Finished(base, deadline, response)
  {
    hide TooLarge;
    var s0 := Served(base, deadline);
    var s1 := Apply(s0, EndJob(0, response));
    var s2 := Apply(s1, Move(0));
    var s3 := Apply(s2, UpClient(0));
    assert s3 == Finished(base, deadline, response);
    states, events := [s0, s1, s2, s3], [EndJob(0, response), Move(0), UpClient(0)];
  }

  lemma ClientCollects(base: u64, deadline: u64, response: Response) returns (states: seq<State>, events: seq<Event>)
    ensures Follows(states, events) && states[0] == Finished(base, deadline, response)
    ensures |events| == 3 && events[2] == Collect(0)
    ensures states[3].waiting == [] && states[3].completed == [] && states[3].slots == [None]
    ensures states[3].reqs == [Req(Success, Some(response), 0, Collected, None, 1, Outside(Some(Success)))]
  {
    var s0 := Finished(base, deadline, response);
    var s1 := Apply(s0, ClientWake(0, false));
    var s2 := Apply(s1, ClientRead(0));
    var s3 := Apply(s2, Collect(0));
    states, events := [s0, s1, s2, s3], [ClientWake(0, false), ClientRead(0), Collect(0)];
  }

  /** For every admissible deadline and response there is a run in which the request is made,
      served and read, and its response collected: the promises of all callers can be kept. */
  lemma AResponseIsCollected(base: u64, deadline: u64, response: Response) returns (states: seq<State>, events: seq<Event>)
    requires InWindow(base, deadline) && (response.InKernel? ==> |response.bytes| <= 4_194_304)
    ensures IsRun(states, events) && states[0] == Init(base, 1)
    ensures |events| > 0 && events[|events| - 1] == Collect(0)
    ensures var s := states[|events|];
      && s.waiting == [] && s.completed == [] && s.slots == [None]
      && s.reqs == [Req(Success, Some(response), 0, Collected, None, 1, Outside(Some(Success)))]
  {
    var s1, e1 := ClientAsks(base, deadline);
    var s2, e2 := WorkerComes(base, deadline);
    var s3, e3 := WorkerTakes(base, deadline);
    var s4, e4 := WorkerEnds(base, deadline, response);
    var s5, e5 := ClientCollects(base, deadline, response);
    hide Step, Init, Asked, Ready, Served, Finished, InWindow, Follows;
    FollowsJoin(s1, e1, s2, e2);
    states, events := s1 + s2[1..], e1 + e2;
    FollowsJoin(states, events, s3, e3);
    states, events := states + s3[1..], events + e3;
    FollowsJoin(states, events, s4, e4);
    states, events := states + s4[1..], events + e4;
    FollowsJoin(states, events, s5, e5);
    states, events := states + s5[1..], events + e5;
    IsRunFromInit(states, events);
  }
}
