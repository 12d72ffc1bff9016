/** The driver's service object. Each method is one step of the protocol: a region under the
    service mutex, a semaphore operation, or the unlocked writes of one thread. The methods
    are proved to take exactly the steps of the state machine. */
module Service {
  import opened MachineInt
  import opened LinberTypes
  import opened KeyOrder
  import opened RbTree
  import opened StableOrder
  import opened DeadlineQueue
  import opened RequestLookup
  import opened RequestTree
  import opened Protocol
  import opened Invariants
  import opened Runs
  import opened UriOrder

  ghost function ReqOf(r: RequestNode): Req
    reads r
  {
    Req(r.resultCmd, r.response, r.requestSem, r.place, r.upOwedBy, r.consumed, r.client)
  }

  /** The requests in q are those with the given numbers. */
  ghost predicate Named(q: seq<RequestNode>, ids: seq<nat>, all: seq<RequestNode>) {
    |q| == |ids| && forall i :: 0 <= i < |q| ==> ids[i] < |all| && q[i] == all[ids[i]]
  }

  lemma NamedFirst(q: seq<RequestNode>, ids: seq<nat>, all: seq<RequestNode>)
    requires Named(q, ids, all)
    ensures (q == [] <==> ids == []) && Named([], [], all)
    ensures q != [] ==> ids[0] < |all| && q[0] == all[ids[0]] && Named(q[1..], ids[1..], all)
  {
  }

  ghost predicate SlotNamed(r: RequestNode?, slot: Option<nat>, all: seq<RequestNode>) {
    match slot
    case None => r == null
    case Some(id) => id < |all| && r == all[id]
  }

  /** Requests are numbered, and their tokens are their numbers, as far as 64 bits go. */
  ghost predicate Numbered(all: seq<RequestNode>) {
    forall i :: 0 <= i < |all| ==> all[i].id == i && all[i].token == Wrap64(i)
  }

  /** The stable insertion of a new request, seen from the numbers of the requests. */
  lemma InsertedNamed(base: u64, q: seq<RequestNode>, r: RequestNode, all: seq<RequestNode>, ids: seq<nat>, deadlines: seq<u64>)
    requires Named(q, ids, all) && Numbered(all) && r.id == |all|
    requires |deadlines| == |all| + 1 && deadlines[|all|] == r.absDeadline
    requires forall i :: 0 <= i < |all| ==> deadlines[i] == all[i].absDeadline
    ensures Named(StableInsert(base, q, r), Insert<nat>(ByRank(base, deadlines), ids, |all|), all + [r])
  {
    hide Rank;
    var rank, name := ByRank(base, deadlines), (x: RequestNode) => x.id;
    InsertAlike(ByDeadline(base), q, r, rank, ids, r.id, name);
    InsertMembers(rank, ids, |all|);
    var p, now := StableInsert(base, q, r), Insert<nat>(rank, ids, |all|);
    forall i | 0 <= i < |p| ensures now[i] < |all + [r]| && p[i] == (all + [r])[now[i]] {
      assert p[i].id == now[i];
      InsertedIsOne(base, q, r, i);
    }
  }

  lemma {:induction false} InsertedIsOne(base: u64, q: seq<RequestNode>, r: RequestNode, i: nat)
    requires i < |StableInsert(base, q, r)|
    ensures StableInsert(base, q, r)[i] == r || StableInsert(base, q, r)[i] in q
  {
    if q != [] && i > 0 && Rank(base, q[0].absDeadline) <= Rank(base, r.absDeadline) {
      InsertedIsOne(base, q[1..], r, i - 1);
    }
  }

  /** What becomes of linber_End_Job: LINBER_SERVICE_SKIP_JOB, LINBER_PAYLOAD_SIZE_ERROR, or 0. */
  datatype Ended = Skipped | Refused | Kept

  class Service {
    const uri: Uri
    const token: u64
    const maxWorkers: u32
    const requests: RequestTree
    const slots: array<RequestNode?>
    var completed: seq<RequestNode>
    var nextReqToken: u64
    var requestCount: u32
    var destroyMe: bool
    var countRegistered: u32
    var nextId: u32
    var semForRequest: nat
    /** Whether the service mutex is held by a search that never ends. */
    var mutexHeld: bool
    /** All requests ever enqueued. */
    ghost var all: seq<RequestNode>
    /** The state of the protocol this object is in, and how it came there. */
    ghost var state: State
    ghost var past: seq<State>
    ghost var events: seq<Event>

    ghost predicate FieldsFit()
      reads this
    {
      && state.base == requests.base && state.maxWorkers == maxWorkers
      && state.nextId == nextId && state.countRegistered == countRegistered
      && state.semForRequest == semForRequest && state.destroyMe == destroyMe
      && nextReqToken == Wrap64(|all|)
    }

    ghost predicate ListFits()
      reads this
    {
      Named(completed, state.completed, all)
    }

    ghost predicate RequestsFit()
      reads this, all
    {
      && Numbered(all) && |state.reqs| == |state.deadlines| == |all|
      && forall i :: 0 <= i < |all| ==> ReqOf(all[i]) == state.reqs[i] && all[i].absDeadline == state.deadlines[i]
    }

    ghost predicate TreeFits()
      reads this, requests, requests.root, Nodes(requests.root.shape)
    {
      requests.Valid() && Named(requests.Contents(), state.waiting, all) && state.requestCount == requestCount
    }

    ghost predicate TableFits()
      reads this, slots
    {
      && |state.slots| == slots.Length
      && forall w :: 0 <= w < slots.Length ==> SlotNamed(slots[w], state.slots[w], all)
    }

    /** The states gone through and the present one are a run of the protocol. */
    ghost predicate Recorded()
      reads `state, `past, `events
    {
      |past| == |events| && IsRun(past + [state], events)
    }

    /** The object represents a state the protocol has reached. */
    ghost predicate Valid()
      reads this, slots, requests, requests.root, Nodes(requests.root.shape), all
    {
      FieldsFit() && ListFits() && RequestsFit() && TreeFits() && TableFits() && Inv(state) && Recorded()
    }

    ghost function Footprint(): set<object>
      reads this, requests, requests.root
    {
      {this, slots} + requests.Footprint() + (set r | r in all)
    }

    /** create_service */
    constructor (uri: Uri, token: u64, ghost base: u64, maxWorkers: u32)
      ensures Valid() && state == Init(base, maxWorkers) && fresh(Footprint()) && events == [] && !mutexHeld
      ensures this.uri == uri && this.token == token && this.maxWorkers == maxWorkers
    {
      hide Inv, WellFormed, Wired, Rank, Nodes, Flatten, Containers, Refs, Value, InOrder, InWindow, BucketOk, ByRank, ReqOf, Apply, Enabled, Promised;
      this.uri, this.token, this.maxWorkers := uri, token, maxWorkers;
      requests := new RequestTree(base);
      slots := new RequestNode?[maxWorkers](_ => null);
      completed, nextReqToken, requestCount, destroyMe := [], 0, 0, false;
      countRegistered, nextId, semForRequest, mutexHeld := 0, 0, 0, false;
      all, state, past, events := [], Init(base, maxWorkers), [], [];
      new;
      InitInv(base, maxWorkers);
      assert past + [state] == [state];
    }

    /** The object has taken this step, which the record now ends with. */
    twostate predicate Took(e: Event)
      reads this
    {
      && Step(old(state), e, state)
      && past == old(past) + [old(state)] && events == old(events) + [e]
      && mutexHeld == old(mutexHeld)
    }

    /** The ghost state takes a step. */
    ghost method Advance(e: Event)
      requires Inv(state) && Recorded() && Enabled(state, e) && Promised(state, e)
      modifies `state, `past, `events
      ensures state == Apply(old(state), e) && Took(e) && Inv(state) && Recorded()
    {
      hide Inv, Enabled, Promised, Apply;
      ghost var s := state;
      state, past, events := Apply(state, e), past + [state], events + [e];
      StepInv(s, e, state);
      hide Step;
      RunGrows(past, events[..|events| - 1], e, state);
      assert events[..|events| - 1] + [e] == events;
    }

    lemma RunGrows(states: seq<State>, events: seq<Event>, e: Event, t: State)
      requires IsRun(states, events) && Step(states[|events|], e, t)
      ensures IsRun(states + [t], events + [e])
    {
      hide Step, Init;
      forall i | 0 <= i < |events + [e]| ensures Step((states + [t])[i], (events + [e])[i], (states + [t])[i + 1]) {
        if i < |events| {
          assert (states + [t])[i + 1] == states[i + 1];
        }
      }
    }

    // ------------------------------------------------------------ clients

    /** Create a request and insert it. Testing destroy_me, drawing the token and inserting
        count as one step. */
    method Enqueue(deadline: u64, task: int, blocking: bool) returns (req: RequestNode)
      requires Valid() && !mutexHeld && !destroyMe && state.cleanups == 0 && InWindow(requests.base, deadline)
      modifies Footprint()
      ensures Valid() && fresh(req) && fresh(requests.Footprint() - old(requests.Footprint()))
      ensures Took(Protocol.Event.Enqueue(deadline, blocking))
      ensures all == old(all) + [req] && req.token == Wrap64(|old(all)|) && req.task == task
    {
      hide Inv, IsRun, Wired, Rank, Nodes, Wrap64, InWindow, Step, Flatten, WellFormed, Containers, Refs, Value;
      assert allocated(Nodes(requests.root.shape)) && allocated(all);
      ghost var was := requests.Footprint();
      req := new RequestNode(|all|, nextReqToken, deadline, task, blocking);
      assert requests.Footprint() == was;
      label Created:
      Admit(req, blocking);
      forall o | o in requests.Footprint() && o !in was ensures fresh(o) {
        assert fresh@Created(o);
      }
    }

    /** The mutex region of an insertion. */
    method Admit(req: RequestNode, ghost blocking: bool)
      requires Valid() && !destroyMe && state.cleanups == 0 && InWindow(requests.base, req.absDeadline)
      requires req !in all && req.id == |all| && req.token == nextReqToken && ReqOf(req) == NewReq(blocking)
      modifies this, requests.Footprint()
      ensures Valid() && fresh(requests.Footprint() - old(requests.Footprint()))
      ensures Took(Protocol.Event.Enqueue(req.absDeadline, blocking))
      ensures all == old(all) + [req]
    {
      hide Inv, IsRun, Wired, Nodes, Insert, Wrap64, Wrap32, Containers, Refs, Value, InWindow, ByRank, Step, Flatten, WellFormed,
        Apply, Enabled, Promised, Named, SlotNamed, Numbered, Rank, BucketOk, InOrder;
      InsertRequest(req);
      assert allocated(Nodes(requests.root.shape));
      CountIn(req, blocking);
    }

    /** The token is used up, and the request just inserted is among those made. */
    method CountIn(req: RequestNode, ghost blocking: bool)
      requires Inv(state) && Recorded() && FieldsFit() && ListFits() && RequestsFit() && TableFits() && requests.Valid()
      requires !destroyMe && state.cleanups == 0 && InWindow(requests.base, req.absDeadline)
      requires req !in all && req.id == |all| && req.token == nextReqToken && ReqOf(req) == NewReq(blocking)
      requires Named(requests.Contents(), Insert<nat>(ByRank(state.base, state.deadlines + [req.absDeadline]), state.waiting, |all|), all + [req])
      requires requestCount == Wrap32(state.requestCount + 1)
      modifies this
      ensures Valid() && all == old(all) + [req] && Took(Protocol.Event.Enqueue(req.absDeadline, blocking))
    {
      hide Inv, IsRun, Wired, Nodes, Insert, Wrap64, Wrap32, Containers, Refs, Value, InWindow, ByRank, Step, Flatten, WellFormed,
        Apply, Enabled, Promised, Rank, BucketOk, InOrder;
      assert allocated(Nodes(requests.root.shape));
      NextToken();
      EnqueueApplied(state, req.absDeadline, blocking);
      nextReqToken := Wrap64(nextReqToken + 1);
      Advance(Protocol.Event.Enqueue(req.absDeadline, blocking));
      all := all + [req];
    }

    method InsertRequest(req: RequestNode)
      requires FieldsFit() && RequestsFit() && TreeFits() && InWindow(requests.base, req.absDeadline)
      requires req !in all && req.id == |all|
      modifies requests.Footprint(), `requestCount
      ensures requests.Valid() && fresh(requests.Footprint() - old(requests.Footprint()))
      ensures Named(requests.Contents(), Insert<nat>(ByRank(state.base, state.deadlines + [req.absDeadline]), state.waiting, |all|), all + [req])
      ensures requestCount == Wrap32(old(requestCount) + 1)
    {
      hide Wired, Rank, Nodes, Insert, StableInsert, Wrap64, Wrap32, Containers, Refs, Value, InWindow, ByRank, Flatten, WellFormed;
      InsertedNamed(requests.base, requests.Contents(), req, all, state.waiting, state.deadlines + [req.absDeadline]);
      var ok := requests.Insert(req, true);
      requestCount := Wrap32(requestCount + 1);
    }

    lemma NextToken()
      requires nextReqToken == Wrap64(|all|)
      ensures Wrap64(nextReqToken + 1) == Wrap64(|all| + 1)
    {
      Wrap64Sum(|all|, 1);
    }

    ghost predicate Known(req: RequestNode)
      reads this
    {
      req.id < |all| && all[req.id] == req
    }

    /** up of the workers' semaphore; a blocking client goes on to its own semaphore. */
    method WakeWorker(req: RequestNode)
      requires Valid() && Known(req) && Enabled(state, UpWorkers(req.id))
      modifies this, req
      ensures Valid() && all == old(all) && Took(UpWorkers(req.id))
    {
      hide Inv, IsRun, Wired, Nodes, Wrap64, Containers, Refs, Value, Step, Flatten, WellFormed, Wrap32;
      semForRequest := semForRequest + 1;
      req.client := if req.client.blocking then Blocked else Outside(None);
      Advance(UpWorkers(req.id));
    }

    /** down_interruptible on the request's semaphore, ended by a unit or by a signal. */
    method ClientWake(req: RequestNode, signal: bool)
      requires Valid() && Known(req) && Enabled(state, Protocol.Event.ClientWake(req.id, signal))
      modifies this, req
      ensures Valid() && all == old(all) && Took(Protocol.Event.ClientWake(req.id, signal))
    {
      hide Inv, IsRun, Wired, Nodes, Wrap64, Containers, Refs, Value, Step, Flatten, WellFormed, Wrap32;
      if !signal {
        req.requestSem := req.requestSem - 1;
        req.consumed := req.consumed + 1;
      }
      req.client := Awake;
      Advance(Protocol.Event.ClientWake(req.id, signal));
    }

    /** The client reads how its request ended and, on success, what came back. */
    method ReadResult(req: RequestNode) returns (result: Command, response: Option<Response>)
      requires Valid() && Known(req) && Enabled(state, ClientRead(req.id))
      modifies this, req
      ensures Valid() && all == old(all) && Took(ClientRead(req.id))
      ensures result == old(state).reqs[req.id].result
      ensures response == if result == Success then old(state).reqs[req.id].response else None
      ensures result == Success <==> !req.place.Aborted? && WasServed(req.id)
      ensures result == Success ==> response.Some? && WasServedWith(req.id, response.value)
    {
      hide Inv, IsRun, Wired, Nodes, Wrap64, Containers, Refs, Value, Step, Flatten, WellFormed, Wrap32;
      ResultHere(req);
      result := req.resultCmd;
      response := None;
      if result == Success {
        response := req.response;
      }
      req.client := Outside(Some(result));
      Advance(ClientRead(req.id));
      ReadIsServed(req.id);
    }

    /** In the object's past the worker that held the request has ended the job with this response. */
    ghost predicate WasServedWith(id: nat, response: Response)
      requires Recorded()
      reads `state, `past, `events
    {
      exists j: nat :: EndedWith(past + [state], events, j, id, response)
    }

    ghost predicate WasServed(id: nat)
      requires Recorded()
      reads `state, `past, `events
    {
      exists response :: WasServedWith(id, response)
    }

    lemma ReadIsServed(id: nat)
      requires Recorded() && |events| > 0 && events[|events| - 1] == ClientRead(id)
      ensures var s := past[|past| - 1];
        && id < |s.reqs|
        && (s.reqs[id].result == Success <==> !s.reqs[id].place.Aborted? && WasServed(id))
        && (s.reqs[id].result == Success ==> s.reqs[id].response.Some? && WasServedWith(id, s.reqs[id].response.value))
    {
      hide IsRun, EndedWith;
      var i := |events| - 1;
      var states := past + [state];
      ResponseIntegrity(states, events, i, id);
      assert states[i] == past[i];
      var r := states[i].reqs[id];
      OnlyEarlier(states, events, id);
      if r.result == Success {
        var j: nat, response :| j < i && EndedWith(states, events, j, id, response);
        assert r.response == Some(response);
        assert WasServedWith(id, response);
      }
      if WasServed(id) {
        var response :| WasServedWith(id, response);
        var j: nat :| EndedWith(states, events, j, id, response);
        assert j < i;
      }
    }

    lemma OnlyEarlier(states: seq<State>, events: seq<Event>, id: nat)
      requires |states| == |events| + 1 && |events| > 0 && !events[|events| - 1].EndJob?
      ensures forall j: nat, response :: EndedWith(states, events, j, id, response) ==> j < |events| - 1
    {
    }

    lemma ResultHere(req: RequestNode)
      requires Valid() && Known(req)
      ensures req.resultCmd == Success ==> req.response.Some?
    {
      hide Places, Ordered, WorkersFit, DebtsFit, Balanced, Counters, NoLostWakeup, AllCanLeave, CleanedOnce;
      assert ResultFits(state, req.id);
    }

    // ------------------------------------------------------------ workers

    /** linber_register_service_worker; None when all places are taken. */
    method Register() returns (id: Option<u32>)
      requires Valid() && !mutexHeld && !destroyMe && state.cleanups == 0
      modifies this
      ensures Valid() && all == old(all) && mutexHeld == old(mutexHeld)
      ensures id == if old(nextId) < maxWorkers then Some(old(nextId)) else None
      ensures if id.Some? then Took(Protocol.Event.Register) else state == old(state)
    {
      hide Inv, IsRun, Wired, Nodes, Wrap64, Containers, Refs, Value, Step, Flatten, WellFormed;
      id := None;
      if nextId < maxWorkers {
        countRegistered := Wrap32(countRegistered + 1);
        id := Some(nextId);
        nextId := Wrap32(nextId + 1);
        Advance(Protocol.Event.Register);
      }
    }

    /** A worker that comes back with a job unfinished wakes the client of that job. */
    method StartJob(w: nat) returns (fault: bool)
      requires w < slots.Length && Valid() && Enabled(state, Protocol.Event.StartJob(w)) && Promised(state, Protocol.Event.StartJob(w))
      modifies this, if slots[w] != null then {slots[w]} else {}
      ensures Valid() && all == old(all) && Took(Protocol.Event.StartJob(w))
      ensures fault <==> old(slots[w]) != null
    {
      hide Inv, IsRun, Wired, Nodes, Wrap64, Containers, Refs, Value, Step, Flatten, WellFormed, Wrap32;
      var req := slots[w];
      fault := req != null;
      if req != null {
        req.requestSem := req.requestSem + 1;
      }
      Advance(Protocol.Event.StartJob(w));
    }

    /** ... and then clears its slot. */
    method ClearFault(w: nat)
      requires w < slots.Length && slots[w] != null && Valid() && Enabled(state, Protocol.Event.ClearFault(w))
      modifies this, slots, slots[w]
      ensures Valid() && all == old(all) && Took(Protocol.Event.ClearFault(w))
    {
      hide Inv, IsRun, Wired, Nodes, Wrap64, Containers, Refs, Value, Step, Flatten, WellFormed, Wrap32;
      slots[w].place := Faulted;
      slots[w] := null;
      Advance(Protocol.Event.ClearFault(w));
    }

    /** down_interruptible on the workers' semaphore. */
    method WorkerWake(w: nat, signal: bool)
      requires Valid() && Enabled(state, Protocol.Event.WorkerWake(w, signal))
      modifies this
      ensures Valid() && all == old(all) && Took(Protocol.Event.WorkerWake(w, signal))
    {
      hide Inv, IsRun, Wired, Nodes, Wrap64, Containers, Refs, Value, Step, Flatten, WellFormed, Wrap32;
      if !signal {
        semForRequest := semForRequest - 1;
      }
      Advance(Protocol.Event.WorkerWake(w, signal));
    }

    /** Service_check_alive; `last` tells that the service has to be cleaned up. */
    method CheckAlive(w: nat) returns (alive: bool, last: bool)
      requires Valid() && !mutexHeld && Enabled(state, Protocol.Event.CheckAlive(w))
      modifies this
      ensures Valid() && all == old(all) && Took(Protocol.Event.CheckAlive(w))
      ensures alive == !old(destroyMe) && (last <==> state.cleanups > old(state).cleanups)
    {
      hide Inv, IsRun, Wired, Nodes, Wrap64, Containers, Refs, Value, Step, Flatten, WellFormed, Wrap32;
      alive, last := true, false;
      if destroyMe {
        countRegistered := Wrap32(countRegistered - 1);
        last := countRegistered <= 0;
        alive := false;
      }
      Advance(Protocol.Event.CheckAlive(w));
    }

    /** get_request */
    method GetRequest() returns (req: RequestNode?)
      requires TreeFits()
      modifies requests.Footprint(), `requestCount
      ensures requests.Valid() && Nodes(requests.root.shape) <= old(Nodes(requests.root.shape))
      ensures req == null <==> state.waiting == []
      ensures req != null ==> state.waiting[0] < |all| && req == all[state.waiting[0]]
      ensures Named(requests.Contents(), if req == null then [] else state.waiting[1..], all)
      ensures requestCount == if req == null then old(requestCount) else Wrap32(old(requestCount) - 1)
    {
      hide Wired, Nodes, Wrap64, Containers, Refs, Value, InOrder, Flatten, WellFormed, Wrap32, Rank, ByDeadline, Insert, Named;
      NamedFirst(requests.Contents(), state.waiting, all);
      ghost var q := requests.Contents();
      req := requests.RemoveFirst();
      if req != null {
        assert req == q[0] && q[1..] == requests.Contents();
        requestCount := Wrap32(requestCount - 1);
      }
    }

    /** The request just removed from the tree goes into the worker's slot. */
    method Serve(w: nat, req: RequestNode)
      requires Inv(state) && Recorded() && Enabled(state, Protocol.Event.Take(w)) && w < slots.Length
      requires state.waiting != [] && state.waiting[0] < |all| && req == all[state.waiting[0]]
      requires FieldsFit() && ListFits() && RequestsFit() && TableFits()
      requires requests.Valid() && Named(requests.Contents(), state.waiting[1..], all)
      requires requestCount == Wrap32(state.requestCount - 1)
      modifies this, slots, req
      ensures Valid() && all == old(all) && Took(Protocol.Event.Take(w))
      ensures Known(req) && slots[w] == req && req.id == old(state).waiting[0]
    {
      hide Inv, IsRun, Wired, Nodes, Wrap64, Containers, Refs, Value, Step, Flatten, WellFormed, Wrap32, Apply, Enabled;
      TakeApplied(state, w);
      slots[w] := req;
      req.place := Serving(w);
      Advance(Protocol.Event.Take(w));
    }

    /** Nothing was in the tree. */
    method ServeNothing(w: nat)
      requires Inv(state) && Recorded() && Enabled(state, Protocol.Event.Take(w)) && state.waiting == []
      requires FieldsFit() && ListFits() && RequestsFit() && TableFits() && TreeFits()
      modifies `state, `past, `events
      ensures Valid() && Took(Protocol.Event.Take(w))
    {
      hide Inv, IsRun, Wired, Nodes, Wrap64, Containers, Refs, Value, Step, Flatten, WellFormed, Wrap32, Apply, Enabled;
      TakeApplied(state, w);
      Advance(Protocol.Event.Take(w));
    }

    /** get_request, and the request into the worker's slot. */
    method Take(w: nat) returns (req: RequestNode?)
      requires w < slots.Length && Valid() && !mutexHeld && Enabled(state, Protocol.Event.Take(w))
      modifies Footprint()
      ensures Valid() && all == old(all) && Took(Protocol.Event.Take(w))
      ensures req == null <==> old(state).waiting == []
      ensures req != null ==> Known(req) && req.id == old(state).waiting[0] && slots[w] == req
    {
      hide Inv, IsRun, Wired, Nodes, Wrap64, Containers, Refs, Value, Step, Flatten, WellFormed, Wrap32, Apply, Enabled,
        Named, SlotNamed, ReqOf;
      req := GetRequest();
      assert allocated(Nodes(requests.root.shape));
      if req != null {
        Serve(w, req);
      } else {
        ServeNothing(w);
      }
    }

    /** linber_End_Job up to the move: the response, or a failure when it is too large. A
        worker without a request is told to skip. */
    method EndJob(w: nat, response: Response) returns (ended: Ended)
      requires w < slots.Length && Valid() && state.cleanups == 0
      requires WorkerIs(state, w, InUser) || WorkerIs(state, w, Left)
      modifies this, if slots[w] != null then {slots[w]} else {}
      ensures Valid() && all == old(all)
      ensures ended == Skipped <==> old(slots[w]) == null
      ensures ended == Refused <==> old(slots[w]) != null && response.InKernel? && |response.bytes| > 4_194_304
      ensures ended == Kept <==> old(slots[w]) != null && (response.InShm? || |response.bytes| <= 4_194_304)
      ensures ended == Refused ==> slots[w] != null && slots[w].resultCmd == Failed
      ensures ended == Kept ==> slots[w] != null && slots[w].resultCmd == Success && slots[w].response == Some(response)
      ensures if ended == Skipped then state == old(state) && mutexHeld == old(mutexHeld) else Took(Protocol.Event.EndJob(w, response))
    {
      hide Inv, IsRun, Wired, Nodes, Wrap64, Containers, Refs, Value, Step, Flatten, WellFormed, Wrap32,
        Apply, Enabled, Promised, BucketOk, Rank, InWindow, InOrder;
      var req := slots[w];
      if req == null {
        return Skipped;
      }
      OnlyInUser(w, response);
      EndJobApplied(state, w, response);
      assert SlotNamed(slots[w], state.slots[w], all);
      if response.InKernel? && |response.bytes| > MAX_PAYLOAD {
        req.resultCmd := Failed;
        ended := Refused;
      } else {
        req.response := Some(response);
        req.resultCmd := Success;
        ended := Kept;
      }
      Advance(Protocol.Event.EndJob(w, response));
    }

    lemma OnlyInUser(w: nat, response: Response)
      requires Valid() && w < slots.Length && slots[w] != null && state.cleanups == 0
      requires WorkerIs(state, w, InUser) || WorkerIs(state, w, Left)
      ensures Enabled(state, Protocol.Event.EndJob(w, response))
    {
      hide IsRun, Wired, Nodes, Containers, Flatten, WellFormed, Places, Ordered, DebtsFit, Balanced, Results, Counters, NoLostWakeup;
      assert SlotNamed(slots[w], state.slots[w], all);
    }

    /** move_from_worker_to_completed, the region under the mutex. */
    method Move(w: nat) returns (req: RequestNode)
      requires w < slots.Length && slots[w] != null && Valid() && !mutexHeld && Enabled(state, Protocol.Event.Move(w))
      modifies this, slots, slots[w]
      ensures Valid() && all == old(all) && Took(Protocol.Event.Move(w))
      ensures old(slots[w]) == req && slots[w] == null && completed == old(completed) + [req]
    {
      hide Inv, IsRun, Wired, Nodes, Wrap64, Containers, Refs, Value, Step, Flatten, WellFormed, Wrap32, BucketOk, Rank, InWindow, InOrder,
        Apply, Enabled, Promised;
      MoveApplied(state, w);
      assert SlotNamed(slots[w], state.slots[w], all);
      req := slots[w];
      slots[w] := null;
      completed := completed + [req];
      req.place := Completed;
      req.upOwedBy := Some(w);
      Advance(Protocol.Event.Move(w));
    }

    /** up of the request's semaphore. */
    method UpClient(w: nat, req: RequestNode)
      requires Valid() && Known(req) && Enabled(state, Protocol.Event.UpClient(w)) && state.workers[w] == Moved(req.id)
      modifies this, req
      ensures Valid() && all == old(all) && Took(Protocol.Event.UpClient(w))
    {
      hide Inv, IsRun, Wired, Nodes, Wrap64, Containers, Refs, Value, Step, Flatten, WellFormed, Wrap32;
      req.requestSem := req.requestSem + 1;
      req.upOwedBy := None;
      Advance(Protocol.Event.UpClient(w));
    }

    // ------------------------------------------------------------ collecting a response

    /** linber_request_service_get_response: the request with this token leaves the completed
        list. With fewer than 2^64 requests a token is the number of one request. */
    method Collect(token: u64) returns (result: Command, response: Option<Response>)
      requires Valid() && !mutexHeld && |all| <= TWO_64
      requires Enabled(state, Protocol.Event.Collect(token)) && Promised(state, Protocol.Event.Collect(token))
      modifies this, all
      ensures Valid() && all == old(all) && Took(Protocol.Event.Collect(token))
      ensures result == Success && response.Some? && response == old(state).reqs[token].response
      ensures WasServedWith(token, response.value)
    {
      hide Inv, IsRun, Wired, Nodes, Containers, Refs, Value, Step, Flatten, WellFormed, Wrap32, Wrap64, Without,
        Apply, Enabled, Promised, BucketOk, Rank, InWindow, InOrder;
      TokensAreNumbers();
      InCompleted(token);
      var i := 0;
      while completed[i].token != token
        invariant 0 <= i < |completed|
        invariant exists k :: i <= k < |completed| && completed[k].token == token
        invariant forall k :: 0 <= k < i ==> state.completed[k] != token
        decreases |completed| - i
      {
        i := i + 1;
      }
      result, response := Release(i, token);
      CollectedWasServed(token);
    }

    /** list_del of the request found, and what it holds to the client. */
    method Release(i: nat, token: u64) returns (result: Command, response: Option<Response>)
      requires i < |completed| && Valid() && token < |all| && completed[i] == all[token] && state.completed[i] == token
      requires forall k :: 0 <= k < i ==> state.completed[k] != token
      requires Enabled(state, Protocol.Event.Collect(token)) && Promised(state, Protocol.Event.Collect(token))
      modifies this, completed[i]
      ensures Valid() && all == old(all) && Took(Protocol.Event.Collect(token))
      ensures result == old(state).reqs[token].result && response == old(state).reqs[token].response
    {
      hide Inv, IsRun, Wired, Nodes, Containers, Refs, Value, Step, Flatten, WellFormed, Wrap32, Wrap64, Without,
        Apply, Enabled, Promised, BucketOk, Rank, InWindow, InOrder;
      CollectApplied(state, token);
      WithoutAt(state.completed, i, token);
      var req := completed[i];
      result, response := req.resultCmd, req.response;
      completed := completed[..i] + completed[i + 1..];
      req.place := Collected;
      Advance(Protocol.Event.Collect(token));
    }

    lemma CollectedWasServed(id: nat)
      requires Recorded() && |events| > 0 && events[|events| - 1] == Protocol.Event.Collect(id)
      ensures var s := past[|past| - 1];
        && id < |s.reqs| && s.reqs[id].result == Success && s.reqs[id].response.Some?
        && WasServedWith(id, s.reqs[id].response.value)
    {
      hide IsRun, EndedWith;
      var i := |events| - 1;
      var states := past + [state];
      CollectedIsStored(states, events, i, id);
      assert states[i] == past[i];
      var j: nat :| j < i && EndedWith(states, events, j, id, states[i].reqs[id].response.value);
    }

    /** While fewer than 2^64 requests have been made, tokens tell requests apart. */
    lemma TokensAreNumbers()
      requires Numbered(all) && |all| <= TWO_64
      ensures forall i :: 0 <= i < |all| ==> all[i].token == i
    {
    }

    /** Tokens of two requests agree exactly when 2^64 divides the number of requests between. */
    lemma TokensCollideExactly(i: nat, j: nat)
      requires Numbered(all) && i < j < |all|
      ensures all[i].token == all[j].token <==> (j - i) % TWO_64 == 0
    {
      if all[i].token == all[j].token {
        assert j - i == (j / TWO_64 - i / TWO_64) * TWO_64;
      }
      if (j - i) % TWO_64 == 0 {
        Wrap64Shift(i, (j - i) / TWO_64);
      }
    }

    lemma InCompleted(token: u64)
      requires Valid() && Enabled(state, Protocol.Event.Collect(token))
      requires forall i :: 0 <= i < |all| ==> all[i].token == i
      ensures exists k :: 0 <= k < |completed| && completed[k].token == token
    {
      hide WaitingFits, Ordered, WorkersFit, DebtsFit, Balanced, Results, Counters, NoLostWakeup;
      assert token in state.completed;
      var k :| 0 <= k < |state.completed| && state.completed[k] == token;
      assert completed[k].token == token;
    }

    // ------------------------------------------------------------ shutdown

    /** destroy_request */
    method AbortRequest(req: RequestNode, ghost afterCompletion: bool)
      modifies req
      ensures ReqOf(req) == AbortedReq(old(ReqOf(req)), afterCompletion)
    {
      req.resultCmd := Abort;
      req.requestSem := req.requestSem + 1;
      req.place := Aborted(afterCompletion);
    }

    /** The waiting requests are removed, first to last, and aborted. */
    method DrainTree(ghost was: seq<RequestNode>)
      requires requests.Valid() && requests.Contents() == was
      requires forall i, j :: 0 <= i < j < |was| ==> was[i] != was[j]
      modifies requests.Footprint(), was
      ensures requests.Valid() && requests.Contents() == []
      ensures Nodes(requests.root.shape) <= old(Nodes(requests.root.shape))
      ensures forall j :: 0 <= j < |was| ==> ReqOf(was[j]) == AbortedReq(old(ReqOf(was[j])), false)
    {
      hide Wired, Nodes, Containers, Refs, Value, Flatten, WellFormed, ReqOf;
      ghost var k := 0;
      var req := requests.RemoveFirst();
      while req != null
        invariant requests.Valid() && Nodes(requests.root.shape) <= old(Nodes(requests.root.shape))
        invariant k <= |was|
        invariant if req == null then requests.Contents() == [] && k == |was| else was[k..] == [req] + requests.Contents()
        invariant forall j :: 0 <= j < k ==> ReqOf(was[j]) == AbortedReq(old(ReqOf(was[j])), false)
        invariant forall j :: k <= j < |was| ==> ReqOf(was[j]) == old(ReqOf(was[j]))
        decreases |was| - k
      {
        assert req == was[k];
        assert allocated(Nodes(requests.root.shape));
        ghost var rest := requests.Contents();
        AbortRequest(req, false);
        req := requests.RemoveFirst();
        k := k + 1;
        assert was[k..] == rest;
      }
    }

    method DrainCompleted()
      requires forall i, j :: 0 <= i < j < |completed| ==> completed[i] != completed[j]
      modifies `completed, completed
      ensures completed == []
      ensures forall r :: r in old(completed) ==> ReqOf(r) == AbortedReq(old(ReqOf(r)), true)
    {
      hide ReqOf;
      ghost var was := completed;
      ghost var k := 0;
      while completed != []
        invariant k <= |was| && completed == was[k..]
        invariant forall j :: 0 <= j < k ==> ReqOf(was[j]) == AbortedReq(old(ReqOf(was[j])), true)
        invariant forall j :: k <= j < |was| ==> ReqOf(was[j]) == old(ReqOf(was[j]))
        decreases |completed|
      {
        var req := completed[0];
        completed := completed[1..];
        assert req == was[k];
        AbortRequest(req, true);
        k := k + 1;
      }
    }

    /** The waiting and the completed requests are all different. */
    lemma QueuesApart(waiting: seq<RequestNode>)
      requires Valid() && waiting == requests.Contents()
      ensures forall i, j :: 0 <= i < j < |waiting| ==> waiting[i] != waiting[j]
      ensures forall i, j :: 0 <= i < j < |completed| ==> completed[i] != completed[j]
      ensures forall i, j :: 0 <= i < |waiting| && 0 <= j < |completed| ==> waiting[i] != completed[j]
    {
      hide Wired, Nodes, Containers, Flatten, WellFormed, SlotsFit, WorkersFit, DebtsFit, Balanced, Results, Counters, NoLostWakeup, Sizes;
      OrderedDistinct(state);
      forall i, j | 0 <= i < j < |waiting| ensures waiting[i] != waiting[j] {
        assert state.waiting[i] != state.waiting[j];
      }
      forall i, j | 0 <= i < |waiting| && 0 <= j < |completed| ensures waiting[i] != completed[j] {
        assert state.waiting[i] in state.waiting && state.completed[j] in state.completed;
      }
    }

    lemma Membership(q: seq<RequestNode>, ids: seq<nat>)
      requires Named(q, ids, all) && Numbered(all)
      ensures forall i :: 0 <= i < |all| ==> (all[i] in q <==> i in ids)
    {
      forall i | 0 <= i < |all| ensures all[i] in q <==> i in ids {
        if all[i] in q {
          var k :| 0 <= k < |q| && q[k] == all[i];
          assert ids[k] == i;
        }
        if i in ids {
          var k :| 0 <= k < |ids| && ids[k] == i;
          assert q[k] == all[i];
        }
      }
    }

    /** up of the workers' semaphore, once for each registered worker. */
    method WakeAllWorkers()
      modifies `semForRequest
      ensures semForRequest == old(semForRequest) + countRegistered
    {
      for i := 0 to countRegistered
        invariant semForRequest == old(semForRequest) + i
      {
        semForRequest := semForRequest + 1;
      }
    }

    method AbortAll()
      requires Valid()
      modifies requests.Footprint(), all, `completed
      ensures requests.Valid() && requests.Contents() == [] && completed == []
      ensures Nodes(requests.root.shape) <= old(Nodes(requests.root.shape))
      ensures forall i :: 0 <= i < |all| ==> ReqOf(all[i]) == DestroyedReq(state, i)
    {
      hide Inv, IsRun, Wired, Nodes, Containers, Refs, Value, Flatten, WellFormed, Wrap64, ReqOf, AbortedReq;
      ghost var was, done := requests.Contents(), completed;
      QueuesApart(was);
      Membership(was, state.waiting);
      Membership(done, state.completed);
      assert allocated(all) && allocated(done);
      DrainTree(was);
      assert forall j :: 0 <= j < |done| ==> ReqOf(done[j]) == old(ReqOf(done[j]));
      assert forall r :: r in all && r !in was ==> ReqOf(r) == old(ReqOf(r));
      assert allocated(Nodes(requests.root.shape));
      label Drained:
      DrainCompleted();
      assert forall r :: r in all && r !in done ==> ReqOf(r) == old@Drained(ReqOf(r));
      forall i | 0 <= i < |all| ensures ReqOf(all[i]) == DestroyedReq(state, i) {
        assert old(ReqOf(all[i])) == state.reqs[i];
      }
    }

    /** The rest of destroy_service, once both queues are drained. */
    method Close() returns (last: bool)
      requires Inv(state) && Recorded() && state.cleanups == 0 && FieldsFit() && TableFits()
      requires requests.Valid() && requests.Contents() == [] && completed == [] && state.requestCount == requestCount
      requires Numbered(all) && |state.reqs| == |state.deadlines| == |all|
      requires forall i :: 0 <= i < |all| ==> ReqOf(all[i]) == DestroyedReq(state, i) && all[i].absDeadline == state.deadlines[i]
      modifies this
      ensures Valid() && all == old(all) && Took(Protocol.Event.Destroy)
      ensures last <==> state.cleanups > old(state).cleanups
    {
      hide Inv, IsRun, Wired, Nodes, Containers, Refs, Value, Step, Flatten, WellFormed, Wrap32, Wrap64, DestroyedReq, ReqOf,
        Apply, Enabled, Promised, SlotNamed, Rank, BucketOk, InWindow, InOrder, Numbered;
      DestroyApplied(state);
      assert allocated(Nodes(requests.root.shape)) && allocated(all);
      WakeAllWorkers();
      destroyMe := true;
      last := countRegistered <= 0;
      Advance(Protocol.Event.Destroy);
    }

    /** destroy_service; `last` tells that no worker is left to clean up. */
    method Destroy() returns (last: bool)
      requires Valid() && !mutexHeld && state.cleanups == 0
      modifies Footprint()
      ensures Valid() && all == old(all) && Took(Protocol.Event.Destroy)
      ensures Nodes(requests.root.shape) <= old(Nodes(requests.root.shape))
      ensures last <==> state.cleanups > old(state).cleanups
    {
      hide Inv, IsRun, Wired, Nodes, Containers, Refs, Value, Step, Flatten, WellFormed, Wrap32, Wrap64, DestroyedReq, ReqOf,
        Apply, Enabled, Promised, Named, SlotNamed, Rank, BucketOk, InWindow, InOrder, Numbered;
      AbortAll();
      assert allocated(Nodes(requests.root.shape));
      last := Close();
    }

    // ------------------------------------------------------------ waiting for a response

    /** Some waiting request has this deadline. */
    ghost predicate IsQueued(deadline: u64)
      reads this, all
    {
      exists i :: 0 <= i < |all| && all[i].place == Waiting && all[i].absDeadline == deadline
    }

    /** What find_Waiting_or_Completed_Request comes to. */
    ghost function ThreePlaces(deadline: u64, token: u64): Search
      reads this, slots, requests, requests.root, Nodes(requests.root.shape)
    {
      var inTree := Lookup(requests.Buckets(), deadline, token);
      if inTree != Missing then inTree
      else
        var inSlots := SearchSlots(slots[..], token);
        if inSlots != Missing then inSlots else SearchList(completed, token)
    }

    /** find_Waiting_or_Completed_Request: the tree, then the slots, then the completed list,
        under the service mutex. A search that never ends never gives the mutex back. */
    method FindWaitingOrCompleted(deadline: u64, token: u64) returns (found: Search)
      requires Valid() && !mutexHeld
      modifies `mutexHeld
      ensures Valid() && state == old(state) && all == old(all)
      ensures found == old(ThreePlaces(deadline, token)) && (mutexHeld <==> found == Spins)
    {
      hide Inv, IsRun, Wired, Nodes, Containers, Refs, Value, Flatten, WellFormed, Lookup, ReqOf;
      found := requests.GetRequest(deadline, token);
      if found == Spins {
        mutexHeld := true;
      } else if found == Missing {
        for i := 0 to slots.Length
          invariant SearchSlots(slots[..], token) == SearchSlots(slots[i..], token)
          modifies {}
        {
          var req := slots[i];
          assert slots[i..] == [req] + slots[i + 1..];
          if req != null && req.token == token {
            return Found(req);
          }
        }
        for i := 0 to |completed|
          invariant SearchList(completed, token) == SearchList(completed[i..], token)
          modifies {}
        {
          if completed[i].token == token {
            return Found(completed[i]);
          }
        }
      }
    }

    /** The request with this token waits, and for this deadline. */
    ghost predicate WaitsFor(deadline: u64, token: u64)
      reads this, all
    {
      token < |all| && all[token].place == Waiting && all[token].absDeadline == deadline
    }

    /** The request with this token has been taken and not yet collected. */
    ghost predicate IsTaken(token: u64)
      reads this, all
    {
      token < |all| && (all[token].place.Serving? || all[token].place.Completed?)
    }

    lemma InTree(deadline: u64, token: u64)
      requires Valid() && |all| <= TWO_64
      ensures IsWaiting(requests.Buckets(), deadline, token) <==> WaitsFor(deadline, token)
      ensures DeadlineInUse(requests.Buckets(), deadline) <==> IsQueued(deadline)
      ensures forall r :: r in requests.Contents() ==> r.token < |all| && r == all[r.token]
    {
      hide Wired, Nodes, Containers, Flatten, WellFormed, SlotsFit, CompletedFits, Ordered, WorkersFit, DebtsFit, Balanced, Results, Counters,
        NoLostWakeup, Value, InOrder, Wrap64, AllCanLeave, CleanedOnce;
      TokensAreNumbers();
      requests.BucketsInOrder();
      InUseExactly(requests.base, requests.Buckets(), deadline);
      var q := requests.Contents();
      Membership(q, state.waiting);
      assert forall i :: 0 <= i < |all| ==> (all[i] in q <==> all[i].place == Waiting) by {
        assert forall i :: 0 <= i < |all| ==> all[i].place == state.reqs[i].place;
      }
      if WaitsFor(deadline, token) {
        assert all[token] in q;
        var k :| 0 <= k < |q| && q[k] == all[token];
      }
    }

    lemma InSlots(token: u64)
      requires Valid() && |all| <= TWO_64
      ensures var found := SearchSlots(slots[..], token);
        && (found == Missing || (found.Found? && token < |all| && found.req == all[token]))
        && (found.Found? <==> token < |all| && all[token].place.Serving?)
    {
      hide Wired, Nodes, Containers, Flatten, WellFormed, WaitingFits, CompletedFits, Ordered, WorkersFit, DebtsFit, Balanced, Results, Counters,
        NoLostWakeup, Value, InOrder, Wrap64, AllCanLeave, CleanedOnce;
      TokensAreNumbers();
      SlotsSearched(slots[..], token);
      var found := SearchSlots(slots[..], token);
      if found.Found? {
        var w :| 0 <= w < slots.Length && slots[w] == found.req;
        assert SlotNamed(slots[w], state.slots[w], all);
        assert all[token].place == state.reqs[token].place;
      }
      if token < |all| && all[token].place.Serving? {
        assert all[token].place == state.reqs[token].place;
        assert slots[all[token].place.worker] == all[token];
      }
    }

    lemma InList(token: u64)
      requires Valid() && |all| <= TWO_64
      ensures var found := SearchList(completed, token);
        && (found == Missing || (found.Found? && token < |all| && found.req == all[token]))
        && (found.Found? <==> token < |all| && all[token].place == Completed)
    {
      hide Wired, Nodes, Containers, Flatten, WellFormed, WaitingFits, SlotsFit, Ordered, WorkersFit, DebtsFit, Balanced, Results, Counters,
        NoLostWakeup, Value, InOrder, Wrap64, AllCanLeave, CleanedOnce;
      TokensAreNumbers();
      ListSearched(completed, token);
      Membership(completed, state.completed);
      assert forall i :: 0 <= i < |all| ==> all[i].place == state.reqs[i].place;
      if token < |all| && all[token].place == Completed {
        assert all[token] in completed;
      }
    }

    /** The descent for this deadline stops at a node and goes no further. */
    ghost predicate Stops(deadline: u64)
      reads this, requests, requests.root, Nodes(requests.root.shape)
    {
      exists b :: b in Met(requests.Buckets(), deadline) && StopsAt(b, deadline)
    }

    /** It stops at the node in whose queue the request with this token waits. */
    ghost predicate StopsWhereItWaits(deadline: u64, token: u64)
      reads this, requests, requests.root, Nodes(requests.root.shape)
    {
      token < |all| && exists b :: b in Met(requests.Buckets(), deadline) && StopsAt(b, deadline) && all[token] in b.queue
    }

    lemma InQueues(deadline: u64, token: u64)
      requires Valid() && |all| <= TWO_64
      ensures forall b, r :: b in Met(requests.Buckets(), deadline) && r in b.queue ==>
        r.token < |all| && r == all[r.token] && r.place == Waiting
    {
      hide Wired, Nodes, Containers, Flatten, WellFormed, SlotsFit, CompletedFits, Ordered, WorkersFit, DebtsFit, Balanced, Results, Counters,
        NoLostWakeup, Value, InOrder, Wrap64, AllCanLeave, CleanedOnce, IsRun;
      InTree(deadline, token);
      requests.BucketsInOrder();
      MetInTree(requests.Buckets(), deadline);
      var buckets := InOrder(requests.Buckets());
      forall b, r | b in Met(requests.Buckets(), deadline) && r in b.queue
        ensures r.token < |all| && r == all[r.token] && r.place == Waiting
      {
        FlattenMembers(buckets, r);
        var k :| 0 <= k < |buckets| && buckets[k] == b;
        assert r in requests.Contents();
        InContents(r);
      }
    }

    lemma InContents(r: RequestNode)
      requires Valid() && r in requests.Contents()
      ensures r.place == Waiting
    {
      hide Wired, Nodes, Containers, Flatten, WellFormed, SlotsFit, CompletedFits, Ordered, WorkersFit, DebtsFit, Balanced, Results, Counters,
        NoLostWakeup, Value, InOrder, Wrap64, AllCanLeave, CleanedOnce, IsRun;
      var q := requests.Contents();
      var k :| 0 <= k < |q| && q[k] == r;
      var id := state.waiting[k];
      assert id in state.waiting && ReqOf(all[id]) == state.reqs[id];
    }

    /** The search through tree, slots and completed list, exactly, for every deadline and
        token: where the descent stops the request must wait, or the search never returns;
        where it does not stop, the request is found if it has been taken. */
    lemma SearchExactly(deadline: u64, token: u64)
      requires Valid() && |all| <= TWO_64
      ensures var found := ThreePlaces(deadline, token);
        && (found == Spins <==> Stops(deadline) && !StopsWhereItWaits(deadline, token))
        && (found.Found? <==> StopsWhereItWaits(deadline, token) || (!Stops(deadline) && IsTaken(token)))
        && (found.Found? ==> found.req == all[token] && IsLive(all[token].place))
    {
      hide Inv, Wired, Nodes, Containers, Flatten, WellFormed, Value, InOrder, Wrap64, Lookup, SearchSlots, SearchList, Rank, Met, StopsAt, IsRun;
      InQueues(deadline, token);
      InSlots(token);
      InList(token);
      OneStop(requests.Buckets(), deadline);
      LookupExactly(requests.Buckets(), deadline, token);
      var met := Met(requests.Buckets(), deadline);
      forall b | b in met ensures HasToken(b.queue, token) <==> token < |all| && all[token] in b.queue {
        if HasToken(b.queue, token) {
          var i :| 0 <= i < |b.queue| && b.queue[i].token == token;
          assert b.queue[i] in b.queue;
        }
        if token < |all| && all[token] in b.queue {
          var i :| 0 <= i < |b.queue| && b.queue[i] == all[token];
          TokensAreNumbers();
        }
      }
    }

    /** Where truncation changes no comparison, in terms of what waits. */
    lemma SearchWhereHarmless(deadline: u64, token: u64)
      requires Valid() && |all| <= TWO_64 && InWindow(requests.base, deadline)
      requires TruncationHarmless(requests.Buckets(), deadline)
      ensures Stops(deadline) <==> IsQueued(deadline)
      ensures StopsWhereItWaits(deadline, token) <==> WaitsFor(deadline, token)
    {
      hide Inv, Wired, Nodes, Containers, Flatten, WellFormed, Value, InOrder, Wrap64, Lookup, TruncationHarmless, SearchSlots, SearchList, Rank,
        Met, StopsAt, IsRun;
      SearchExactly(deadline, token);
      InTree(deadline, token);
      InSlots(token);
      InList(token);
      requests.BucketsInOrder();
      LookupExactly(requests.Buckets(), deadline, token);
      LookupFindsExactly(requests.base, requests.Buckets(), deadline, token);
      LookupOtherwise(requests.base, requests.Buckets(), deadline, token);
    }

    /** When a client that asks for its own live request gets it: while it waits, exactly if
        truncation changes no comparison on the way; later, exactly if the descent stops at
        no node. */
    lemma OwnRequestFound(id: nat)
      requires Valid() && |all| <= TWO_64 && id < |all| && IsLive(all[id].place)
      ensures var deadline := all[id].absDeadline;
        && all[id].token == id
        && (ThreePlaces(deadline, all[id].token) == Found(all[id]) <==>
              if all[id].place == Waiting then TruncationHarmless(requests.Buckets(), deadline) else !Stops(deadline))
    {
      hide Wired, Nodes, Containers, Flatten, WellFormed, Value, InOrder, Wrap64, Lookup, TruncationHarmless, SearchSlots, SearchList, Rank,
        Places, Ordered, WorkersFit, DebtsFit, Balanced, Results, Counters, NoLostWakeup, Met, StopsAt, IsRun;
      TokensAreNumbers();
      var deadline := all[id].absDeadline;
      assert InWindow(requests.base, state.deadlines[id]);
      SearchExactly(deadline, id);
      InTree(deadline, id);
      InSlots(id);
      InList(id);
      InQueues(deadline, id);
      requests.BucketsInOrder();
      LookupFindsExactly(requests.base, requests.Buckets(), deadline, id);
      if TruncationHarmless(requests.Buckets(), deadline) {
        SearchWhereHarmless(deadline, id);
      }
    }

    /** With all waiting deadlines within two seconds of its own the client gets its request,
        unless the request was taken and another one with the same deadline still waits. */
    lemma OwnRequestFoundNearby(id: nat)
      requires Valid() && |all| <= TWO_64 && id < |all| && IsLive(all[id].place)
      requires Near(requests.Buckets(), all[id].absDeadline)
      ensures all[id].token == id
      ensures ThreePlaces(all[id].absDeadline, all[id].token)
           == if all[id].place == Waiting || !IsQueued(all[id].absDeadline) then Found(all[id]) else Spins
    {
      hide Wired, Nodes, Containers, Flatten, WellFormed, Value, InOrder, Wrap64, Lookup, TruncationHarmless, SearchSlots, SearchList, Rank,
        Places, Ordered, WorkersFit, DebtsFit, Balanced, Results, Counters, NoLostWakeup, Met, StopsAt, IsRun;
      TokensAreNumbers();
      assert InWindow(requests.base, state.deadlines[id]);
      NearIsHarmless(requests.Buckets(), all[id].absDeadline);
      SearchExactly(all[id].absDeadline, all[id].token);
      SearchWhereHarmless(all[id].absDeadline, all[id].token);
    }

    /** Where everybody who waits waits for one deadline, the search for a request with that
        deadline that has been taken never ends. */
    lemma TakenRequestSpins(id: nat, other: nat)
      requires Valid() && id < |all| <= TWO_64 && IsTaken(id)
      requires other < |all| && all[other].place == Waiting
      requires forall i :: 0 <= i < |all| && all[i].place == Waiting ==> all[i].absDeadline == all[id].absDeadline
      ensures ThreePlaces(all[id].absDeadline, id) == Spins
    {
      hide Inv, Wired, Nodes, Containers, Flatten, WellFormed, Value, InOrder, Wrap64, Lookup, SearchSlots, SearchList, Rank, Met, StopsAt, IsRun;
      AllNear(all[id].absDeadline);
      OwnRequestFoundNearby(id);
    }

    lemma AllNear(deadline: u64)
      requires Valid() && |all| <= TWO_64
      requires forall i :: 0 <= i < |all| && all[i].place == Waiting ==> all[i].absDeadline == deadline
      ensures Near(requests.Buckets(), deadline)
    {
      hide Inv, Wired, Nodes, Containers, Flatten, WellFormed, Value, InOrder, Wrap64, Lookup, SearchSlots, SearchList, Rank, Met, StopsAt, IsRun, Near;
      var t := requests.Buckets();
      requests.BucketsInOrder();
      forall b | b in InOrder(t) ensures b.uniqueId == deadline {
        var k :| 0 <= k < |InOrder(t)| && InOrder(t)[k] == b;
        assert HasKey(InOrder(t), b.uniqueId);
        InTree(b.uniqueId, 0);
      }
      OneKeyIsNear(t, deadline);
    }

    /** The run that leaves a request with the same deadline behind ends where the search of
        the client whose request is being served never ends. */
    lemma SpinsWhenLeftBehind(deadline: u64)
      requires Valid() && state.deadlines == [deadline, deadline]
      requires state.reqs[0].place == Serving(0) && state.reqs[1].place == Waiting
      ensures ThreePlaces(deadline, 0) == Spins
    {
      hide Inv, Wired, Nodes, Containers, Flatten, WellFormed, Value, InOrder, Wrap64, Lookup, SearchSlots, SearchList, Rank, Met, StopsAt, IsRun;
      TakenRequestSpins(0, 1);
    }

    /** What the second call is told: a request of another task is refused like a missing one. */
    function Admitted(found: Search, task: int): Search {
      if found.Found? && found.req.task != task then Missing else found
    }

    /** The second call of a client that did not block: find the request, then wait for it.
        When the search never ends, neither does the call. */
    method Wait(task: int, deadline: u64, token: u64) returns (found: Search)
      requires Valid() && !mutexHeld && |all| <= TWO_64 && !destroyMe && state.cleanups == 0
      requires token < |all| && all[token].task == task ==> all[token].client.Outside?
      modifies this, all
      ensures Valid() && all == old(all) && found == Admitted(old(ThreePlaces(deadline, token)), task)
      ensures found.Found? <==>
        && token < |all| && all[token].task == task
        && old(StopsWhereItWaits(deadline, token) || (!Stops(deadline) && IsTaken(token)))
      ensures found.Found? ==> found.req == all[token] && found.req.client == Blocked
      ensures found == Spins <==> old(Stops(deadline) && !StopsWhereItWaits(deadline, token))
      ensures if found.Found? then Took(Protocol.Event.ClientWait(token)) else state == old(state)
      ensures mutexHeld <==> found == Spins
    {
      hide Inv, IsRun, Wired, Nodes, Containers, Refs, Value, Flatten, WellFormed, Lookup, Step, TruncationHarmless, Wrap64, Rank, Met, StopsAt;
      SearchExactly(deadline, token);
      found := FindWaitingOrCompleted(deadline, token);
      if found.Found? {
        if found.req.task != task {
          return Missing;
        }
        found.req.client := Blocked;
        Advance(Protocol.Event.ClientWait(token));
      }
    }
  }

  function SearchSlots(slots: seq<RequestNode?>, token: u64): Search {
    if slots == [] then Missing
    else if slots[0] != null && slots[0].token == token then Found(slots[0])
    else SearchSlots(slots[1..], token)
  }

  function SearchList(q: seq<RequestNode>, token: u64): Search {
    if q == [] then Missing
    else if q[0].token == token then Found(q[0])
    else SearchList(q[1..], token)
  }

  lemma {:induction false} SlotsSearched(slots: seq<RequestNode?>, token: u64)
    ensures var s := SearchSlots(slots, token);
      && s != Spins
      && (s.Found? ==> s.req in slots && s.req.token == token)
      && (s == Missing ==> forall i :: 0 <= i < |slots| && slots[i] != null ==> slots[i].token != token)
  {
    if slots != [] {
      SlotsSearched(slots[1..], token);
      assert forall i :: 1 <= i < |slots| ==> slots[i] == slots[1..][i - 1];
    }
  }

  lemma {:induction false} ListSearched(q: seq<RequestNode>, token: u64)
    ensures var s := SearchList(q, token);
      && s != Spins
      && (s.Found? ==> s.req in q && s.req.token == token)
      && (s == Missing ==> forall i :: 0 <= i < |q| ==> q[i].token != token)
  {
    if q != [] {
      ListSearched(q[1..], token);
      assert forall i :: 1 <= i < |q| ==> q[i] == q[1..][i - 1];
    }
  }

  // What some steps do, spelled out.

  lemma EnqueueApplied(s: State, deadline: u64, blocking: bool)
    requires !s.destroyMe && s.cleanups == 0 && InWindow(s.base, deadline)
    ensures var e := Protocol.Event.Enqueue(deadline, blocking);
      && Enabled(s, e) && Promised(s, e)
      && var t := Apply(s, e);
         t == s.(waiting := Insert<nat>(ByRank(s.base, s.deadlines + [deadline]), s.waiting, |s.reqs|),
                 deadlines := s.deadlines + [deadline],
                 reqs := s.reqs + [NewReq(blocking)],
                 requestCount := Wrap32(s.requestCount + 1))
  {
  }

  lemma EndJobApplied(s: State, w: nat, response: Response)
    requires Enabled(s, Protocol.Event.EndJob(w, response))
    ensures w < |s.slots| && s.slots[w].Some? && s.slots[w].value < |s.reqs|
    ensures var e, id := Protocol.Event.EndJob(w, response), s.slots[w].value;
      && Promised(s, e)
      && var t := Apply(s, e);
         t == s.(workers := t.workers,
                 reqs := s.reqs[id := if TooLarge(response) then s.reqs[id].(result := Failed)
                                      else s.reqs[id].(result := Success, response := Some(response))])
  {
  }

  lemma CollectApplied(s: State, id: nat)
    requires Enabled(s, Protocol.Event.Collect(id))
    ensures id < |s.reqs|
    ensures Apply(s, Protocol.Event.Collect(id))
         == s.(reqs := s.reqs[id := s.reqs[id].(place := Collected)], completed := Without(s.completed, id))
  {
  }

  lemma MoveApplied(s: State, w: nat)
    requires Enabled(s, Protocol.Event.Move(w))
    ensures w < |s.slots| && s.slots[w].Some? && s.slots[w].value < |s.reqs|
    ensures var e, id := Protocol.Event.Move(w), s.slots[w].value;
      && Promised(s, e)
      && var t := Apply(s, e);
         t == s.(workers := t.workers,
                 slots := s.slots[w := None],
                 completed := s.completed + [id],
                 reqs := s.reqs[id := s.reqs[id].(place := Completed, upOwedBy := Some(w))])
  {
  }

  lemma DestroyApplied(s: State)
    requires s.cleanups == 0
    ensures var e := Protocol.Event.Destroy;
      && Enabled(s, e) && Promised(s, e)
      && var t := Apply(s, e);
         && |t.reqs| == |s.reqs| && (forall i :: 0 <= i < |s.reqs| ==> t.reqs[i] == DestroyedReq(s, i))
         && t == s.(waiting := [], completed := [], reqs := t.reqs,
                    semForRequest := s.semForRequest + s.countRegistered, destroyMe := true,
                    cleanups := if s.countRegistered == 0 then 1 else 0)
  {
  }

  lemma TakeApplied(s: State, w: nat)
    requires Enabled(s, Protocol.Event.Take(w)) && (s.waiting == [] || InUse(s, s.waiting[0]))
    ensures var t := Apply(s, Protocol.Event.Take(w));
      if s.waiting == [] then t == s.(workers := t.workers)
      else
        var id := s.waiting[0];
        t == s.(workers := t.workers,
                waiting := s.waiting[1..],
                slots := s.slots[w := Some(id)],
                reqs := s.reqs[id := s.reqs[id].(place := Serving(w))],
                requestCount := Wrap32(s.requestCount - 1))
  {
  }

  lemma {:induction false} WithoutAt(ids: seq<nat>, i: nat, id: nat)
    requires i < |ids| && ids[i] == id && forall k :: 0 <= k < i ==> ids[k] != id
    ensures Without(ids, id) == ids[..i] + ids[i + 1..]
  {
    if i > 0 {
      WithoutAt(ids[1..], i - 1, id);
    }
  }
}
