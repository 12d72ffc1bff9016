/** Entities shared by the driver's components. */
module LinberTypes {
  import opened MachineInt

  datatype Option<+T> = None | Some(value: T)

  /** Result of a request: LINBER_REQUEST_SUCCESS, LINBER_ABORT_REQUEST, LINBER_REQUEST_FAILED. */
  datatype Command = Success | Abort | Failed

  /** A response, copied into a kernel buffer or left in shared memory. */
  datatype Response = InKernel(bytes: seq<int>) | InShm(key: int, len: int)

  /** Where a request is. The last three are the ways to have left the driver. */
  datatype Place =
    | Waiting
    | Serving(worker: nat)
    | Completed
    | Aborted(afterCompletion: bool)
    | Faulted
    | Collected

  /** What a client does about its request: it has inserted it and not yet woken a worker;
      it blocks on the request's semaphore; it has left the semaphore and not yet read the
      result; it is in user space, with the result it read last. */
  datatype Client =
    | Inserted(blocking: bool)
    | Blocked
    | Awake
    | Outside(seen: Option<Command>)

  /** What a registered worker does: it is in user space; it has signalled the client of a
      job it never ended and not yet cleared its slot; it is at the request semaphore; it has
      left the semaphore and not yet looked whether the service lives; it has found the
      service alive and not yet taken a request; it has stored the result of its job; it has
      moved the request to the completed list and not yet woken the client; it was told to leave. */
  datatype WorkerPhase =
    | InUser
    | FaultSignalled
    | AtSemaphore
    | Woken
    | FoundAlive
    | Stored
    | Moved(id: nat)
    | Left

  class RequestNode {
    /** Position in the order of creation; stands for the address of the request. */
    ghost const id: nat
    const token: u64
    const absDeadline: u64
    /** The task that made the request. */
    const task: int
    var resultCmd: Command
    var response: Option<Response>
    var requestSem: nat
    ghost var place: Place
    ghost var upOwedBy: Option<nat>
    ghost var consumed: nat
    ghost var client: Client

    constructor (ghost id: nat, token: u64, absDeadline: u64, task: int, ghost blocking: bool)
      ensures this.id == id && this.token == token && this.absDeadline == absDeadline && this.task == task
      ensures resultCmd == Abort && response == None && requestSem == 0
      ensures place == Waiting && upOwedBy == None && consumed == 0 && client == Inserted(blocking)
    {
      this.id, this.token, this.absDeadline, this.task := id, token, absDeadline, task;
      resultCmd, response, requestSem := Abort, None, 0;
      place, upOwedBy, consumed, client := Waiting, None, 0, Inserted(blocking);
    }
  }
}
