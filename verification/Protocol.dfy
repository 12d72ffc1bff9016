/** One service as a state machine. A step is what happens between two points where another
    thread can come in: a region under the service mutex, a semaphore operation, or a
    sequence of unlocked writes of one thread.

    Requests are named by the order of their creation. `workers`, `place`, `upOwedBy`,
    `consumed` and `client` record where threads and requests are; the driver has no such
    fields. */
module Protocol {
  import opened MachineInt
  import opened LinberTypes
  import opened KeyOrder
  import opened StableOrder

  /** LINBER_MAX_MEM_SIZE */
  const MAX_PAYLOAD := 0x40_0000

  datatype Req = Req(
    result: Command,
    response: Option<Response>,
    sem: nat,
    place: Place,
    upOwedBy: Option<nat>,
    consumed: nat,
    client: Client)

  datatype State = State(
    base: u64,
    maxWorkers: u32,
    nextId: nat,
    countRegistered: u32,
    semForRequest: nat,
    destroyMe: bool,
    cleanups: nat,
    requestCount: u32,
    waiting: seq<nat>,
    slots: seq<Option<nat>>,
    completed: seq<nat>,
    deadlines: seq<u64>,
    reqs: seq<Req>,
    workers: seq<WorkerPhase>)

  datatype Event =
    | Enqueue(deadline: u64, blocking: bool)
    | UpWorkers(id: nat)
    | ClientWake(id: nat, signal: bool)
    | ClientRead(id: nat)
    | ClientWait(id: nat)
    | Collect(id: nat)
    | Register
    | StartJob(w: nat)
    | ClearFault(w: nat)
    | WorkerWake(w: nat, signal: bool)
    | CheckAlive(w: nat)
    | Take(w: nat)
    | EndJob(w: nat, response: Response)
    | Move(w: nat)
    | UpClient(w: nat)
    | Destroy

  function Init(base: u64, maxWorkers: u32): State {
    State(base, maxWorkers, 0, 0, 0, false, 0, 0, [], seq(maxWorkers, _ => None), [], [], [], [])
  }

  /** Rank of a request by its deadline, in the code's order. */
  function ByRank(base: u64, deadlines: seq<u64>): nat -> int {
    (id: nat) => if id < |deadlines| then Rank(base, deadlines[id]) else 0
  }

  predicate InUse(s: State, id: nat) { id < |s.reqs| }

  predicate WorkerIs(s: State, w: nat, phase: WorkerPhase) { w < |s.workers| && s.workers[w] == phase }

  predicate Holding(s: State, w: nat) { w < |s.slots| && s.slots[w].Some? && InUse(s, s.slots[w].value) }

  predicate TooLarge(r: Response) { r.InKernel? && |r.bytes| > MAX_PAYLOAD }

  /** When a step can be taken. */
  predicate Enabled(s: State, e: Event) {
    match e
    case Enqueue(_, _) => s.cleanups == 0
    case UpWorkers(id) => InUse(s, id) && s.reqs[id].client.Inserted?
    case ClientWake(id, signal) => InUse(s, id) && s.reqs[id].client.Blocked? && (signal || s.reqs[id].sem > 0)
    case ClientRead(id) => InUse(s, id) && s.reqs[id].client.Awake?
    case ClientWait(id) =>
      && InUse(s, id) && s.reqs[id].client.Outside? && !s.destroyMe && s.cleanups == 0
      && (s.reqs[id].place.Waiting? || s.reqs[id].place.Serving? || s.reqs[id].place.Completed?)
    case Collect(id) =>
      && InUse(s, id) && s.reqs[id].client.Outside? && !s.destroyMe && s.cleanups == 0
      && s.reqs[id].place.Completed?
    case Register => s.nextId < s.maxWorkers && s.cleanups == 0
    case StartJob(w) => (WorkerIs(s, w, InUser) || WorkerIs(s, w, Left)) && w < |s.slots| && s.cleanups == 0
    case ClearFault(w) => WorkerIs(s, w, FaultSignalled) && Holding(s, w)
    case WorkerWake(w, signal) => WorkerIs(s, w, AtSemaphore) && (signal || s.semForRequest > 0)
    case CheckAlive(w) => WorkerIs(s, w, Woken)
    case Take(w) => WorkerIs(s, w, FoundAlive) && w < |s.slots|
    case EndJob(w, _) => WorkerIs(s, w, InUser) && Holding(s, w) && s.cleanups == 0
    case Move(w) => WorkerIs(s, w, Stored) && Holding(s, w)
    case UpClient(w) => w < |s.workers| && s.workers[w].Moved? && InUse(s, s.workers[w].id)
    case Destroy => s.cleanups == 0
  }

  /** What the driver leaves to its callers. */
  predicate Promised(s: State, e: Event) {
    match e
    case Enqueue(deadline, _) => !s.destroyMe && InWindow(s.base, deadline)
    case Register => !s.destroyMe
    case StartJob(w) => WorkerIs(s, w, InUser)
    case Collect(id) => InUse(s, id) && s.reqs[id].client == Outside(Some(Success))
    case _ => true
  }

  function SetReq(s: State, id: nat, r: Req): State
    requires InUse(s, id)
  {
    s.(reqs := s.reqs[id := r])
  }

  function SetWorker(s: State, w: nat, phase: WorkerPhase): State
    requires w < |s.workers|
  {
    s.(workers := s.workers[w := phase])
  }

  function Upped(r: Req): Req { r.(sem := r.sem + 1) }

  /** destroy_request */
  function AbortedReq(r: Req, afterCompletion: bool): Req {
    r.(result := Abort, sem := r.sem + 1, place := Aborted(afterCompletion))
  }

  function Without(q: seq<nat>, id: nat): seq<nat> {
    if q == [] then [] else if q[0] == id then q[1..] else [q[0]] + Without(q[1..], id)
  }

  function NewReq(blocking: bool): Req {
    Req(Abort, None, 0, Waiting, None, 0, Inserted(blocking))
  }

  function DestroyedReq(s: State, id: nat): Req
    requires InUse(s, id)
  {
    if id in s.waiting then AbortedReq(s.reqs[id], false)
    else if id in s.completed then AbortedReq(s.reqs[id], true)
    else s.reqs[id]
  }

  /** Every waiting and every completed request is aborted, and each registered worker gets
      one unit of the semaphore. */
  function Destroyed(s: State): State {
    s.(waiting := [],
       completed := [],
       reqs := seq(|s.reqs|, i requires 0 <= i < |s.reqs| => DestroyedReq(s, i)),
       semForRequest := s.semForRequest + s.countRegistered,
       destroyMe := true,
       cleanups := if s.countRegistered == 0 then s.cleanups + 1 else s.cleanups)
  }

  function Apply(s: State, e: Event): State
    requires Enabled(s, e)
  {
    match e
    case Enqueue(deadline, blocking) =>
      var deadlines := s.deadlines + [deadline];
      s.(waiting := Insert<nat>(ByRank(s.base, deadlines), s.waiting, |s.reqs|),
         deadlines := deadlines,
         reqs := s.reqs + [NewReq(blocking)],
         requestCount := Wrap32(s.requestCount + 1))
    case UpWorkers(id) =>
      var r := s.reqs[id];
      SetReq(s, id, r.(client := if r.client.blocking then Blocked else Outside(None)))
        .(semForRequest := s.semForRequest + 1)
    case ClientWake(id, signal) =>
      var r := s.reqs[id];
      SetReq(s, id, if signal then r.(client := Awake)
                    else r.(client := Awake, sem := r.sem - 1, consumed := r.consumed + 1))
    case ClientRead(id) =>
      var r := s.reqs[id];
      SetReq(s, id, r.(client := Outside(Some(r.result))))
    case ClientWait(id) =>
      SetReq(s, id, s.reqs[id].(client := Blocked))
    case Collect(id) =>
      SetReq(s, id, s.reqs[id].(place := Collected)).(completed := Without(s.completed, id))
    case Register =>
      s.(nextId := s.nextId + 1,
         countRegistered := Wrap32(s.countRegistered + 1),
         workers := s.workers + [InUser])
    case StartJob(w) =>
      if Holding(s, w) then
        SetWorker(SetReq(s, s.slots[w].value, Upped(s.reqs[s.slots[w].value])), w, FaultSignalled)
      else
        SetWorker(s, w, AtSemaphore)
    case ClearFault(w) =>
      var id := s.slots[w].value;
      SetWorker(SetReq(s, id, s.reqs[id].(place := Faulted)), w, AtSemaphore).(slots := s.slots[w := None])
    case WorkerWake(w, signal) =>
      SetWorker(s, w, Woken).(semForRequest := if signal then s.semForRequest else s.semForRequest - 1)
    case CheckAlive(w) =>
      if s.destroyMe then
        var count := Wrap32(s.countRegistered - 1);
        SetWorker(s, w, Left).(countRegistered := count, cleanups := if count == 0 then s.cleanups + 1 else s.cleanups)
      else
        SetWorker(s, w, FoundAlive)
    case Take(w) =>
      if s.waiting == [] || !InUse(s, s.waiting[0]) then
        SetWorker(s, w, InUser)
      else
        var id := s.waiting[0];
        SetWorker(SetReq(s, id, s.reqs[id].(place := Serving(w))), w, InUser)
          .(waiting := s.waiting[1..], slots := s.slots[w := Some(id)], requestCount := Wrap32(s.requestCount - 1))
    case EndJob(w, response) =>
      var id := s.slots[w].value;
      var r := s.reqs[id];
      SetWorker(SetReq(s, id, if TooLarge(response) then r.(result := Failed)
                              else r.(result := Success, response := Some(response))), w, Stored)
    case Move(w) =>
      var id := s.slots[w].value;
      SetWorker(SetReq(s, id, s.reqs[id].(place := Completed, upOwedBy := Some(w))), w, Moved(id))
        .(slots := s.slots[w := None], completed := s.completed + [id])
    case UpClient(w) =>
      var id := s.workers[w].id;
      SetWorker(SetReq(s, id, Upped(s.reqs[id]).(upOwedBy := None)), w, InUser)
    case Destroy => Destroyed(s)
  }
}
