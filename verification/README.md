# Linber, verified

Linber is a kernel RPC module. Clients queue requests on a named service, workers of the
service take them earliest deadline first, and clients collect the responses. This project
models the parts of it in which order, sharing and machine arithmetic matter, and proves what
they keep.

| files | component |
|---|---|
| `MachineInt`, `KeyOrder` | C integer conversions; the order of deadlines by the sign of a wrapped 64-bit difference |
| `RbTree`, `StableOrder`, `DeadlineQueue`, `RequestTree` | the tree of FIFO queues keyed by deadline, with parent, left and right pointers, and the stably sorted sequence it refines |
| `RequestLookup` | the search for a request by deadline and token, which compares with 32 bits |
| `UriOrder`, `UriIndex`, `Registry` | the tree keyed by service name and the map it refines; the driver's list of services and totals |
| `Protocol`, `Counting`, `Invariants` | one service as a state machine over the driver's steps, and the invariant of its reachable states |
| `Runs`, `Shutdown` | what holds over whole runs under any interleaving; shutdown |
| `Ledgers`, `OneRequest` | what a run's events add up to: units of semaphores, waits, reads, the order of calls; a run from a request made to its response collected |
| `Paths`, `LateRegistration`, `LateRequests`, `ReturningWorkers`, `EndlessSearch` | what happens when a hypothesis is broken, one module for each |
| `Service`, `LinberTypes` | the service object: one method for each step, proved to take exactly the steps of the state machine and to record its run |
| `Deadline` | from a client's relative deadline to the parameters handed to the scheduler |

A step of the state machine is what happens between two points where another thread can come
in: a region under the service mutex, a semaphore operation, or a sequence of unlocked writes
of one thread. A wait that a signal ends is a step of its own (`ClientWake` and `WorkerWake`
with `signal`), because the driver ignores the result of `down_interruptible`. The steps are:
client inserts, client ups the workers' semaphore, client leaves its semaphore, client reads
the result, client waits again, client collects; worker registers, worker comes for a job
(and, after a job it did not end, wakes that job's client, then clears its slot), worker leaves
the semaphore, worker looks whether the service lives, worker takes a request, worker stores a
response, worker moves the request to the completed list, worker wakes the client; destroy.

## Hypotheses

The code does not enforce these; `Protocol.Promised` and the `requires` clauses state them.

* The deadlines in use fit half the circle of 64-bit values (`KeyOrder.InWindow`). Exactly then
  the comparison is an order (`KeyOrder.TotalOrderExactly`), and what clients compute in the
  first 292 years after boot fits (`Deadline.ClientInWindow`).
* Drawing a token and testing `destroy_me` count as one step with the insertion, and the bound
  check on worker ids as one step with the registration (driver/linber_main.c:156, 529, 635).
* No request is inserted once destroy has begun, though the test of `destroy_me` is not under
  the mutex. `LateRequests.LateRequestExactly` says what becomes of one that is.
* No worker registers once destroy has begun. `LateRegistration.LateRegistrationExactly` says
  when one more still leaves room for the cleanup.
* A worker that was told to leave does not start another job. The repository's own workers
  break this: "told to leave" and "woken by a signal" are the same LINBER_SERVICE_SKIP_JOB
  (driver/linber_main.c:675-677), after which they start over
  (libs/src/linberServiceWorker.cpp:48-66, test/test_service/server.c:64-80). For them the
  cleanup still comes, after a bounded number of steps (`ReturningWorkers.CleanupIsBounded`,
  `ReturningWorkers.CleanupComes`), but if anybody has come back it finds somebody still there
  (`ReturningWorkers.CleanupExactly`).
* A client's search for its request returns. One that does not return keeps the service mutex
  (driver/linber_main.c:106-108). `Service.Service.Wait` then leaves the mutex held, every
  method that needs the mutex requires it to be free, and `EndlessSearch.HeldMutexFreezes`
  says what can no longer happen. In the state machine `ClientWait` is the step of a
  search that returns. Clients that keep to everything else cannot rule the other case out
  (`EndlessSearch.SameDeadlineLeftBehind`).
* clean_service changes the driver's list, index and totals in one step. It runs under the
  service mutex only (driver/linber_main.c:187-194), while registration and lookup take the driver's mutex (280-290, 302-304).
* A response is collected after SUCCESS was read, with a token that is in the completed list;
  for a missing token `get_Completed_Request` returns an address computed from the list head.
* Fewer than 2^64 requests have been made to a service, where a token has to name one request.
* The tokens and ids workers pass are valid, allocations on the paths of the service and of its
  registration succeed. The tree insertions themselves are modelled with failing allocations.

## Where the code and its documentation differ

The model follows the code.

* A best-effort request is documented to be served when no real-time request waits
  (README.md:43). Its key, 2^64-1, compares as the smallest, so it is served first
  (`Runs.BestEffortFirst`); `KeyOrder.BestEffortLastExactly` says for which keys it is not, and
  names the one key, 2^63-1, for which each of the two compares as smaller.
* A request is documented to be found by its deadline and token. It is found exactly when no
  32-bit truncation changes a comparison on the way (`RequestLookup.LookupFindsExactly`). The
  search never returns when it stops at a node, one whose difference truncates to zero, in
  whose queue the token is not (`RequestLookup.LoopTerminatesExactly`). A client can bring that
  about by asking for its own request (`Service.Service.OwnRequestFound`): where
  truncation changes no comparison on the way it does exactly when its request was taken and
  another one with the same deadline still waits. Elsewhere the descent may miss that node, so
  that the request is found in its slot or in the completed list, or stop at a node of another
  deadline.
* The scheduling deadline is documented to be the smaller of the period and of the time left.
  It is exactly when the time left passes `Deadline.TruncationFits`.
* The payload limit is commented as 2 MB; the constant is 4 MiB (libs/inc/linber_ioctl.h:10).

## Model

| member | source | states |
|---|---|---|
| MachineInt.ConversionsExactly | driver/src/linber_RBtree.c:136 | a conversion gives the one number in the range of the type that differs by a multiple of 2^32 or 2^64 |
| KeyOrder.CompareExactly | driver/src/linber_RBtree.c:131-136 | the insertion compares by the difference of the keys modulo 2^64, brought into [-2^63, 2^63) |
| KeyOrder.CompareMatchesUnsigned | driver/src/linber_RBtree.c:136 | the sign of the wrapped difference agrees with the unsigned order exactly for differences in [-2^63, 2^63) |
| KeyOrder.CompareIsRankOrder | driver/src/linber_RBtree.c:134-142 | inside half the circle the comparison orders keys by their distance from the start, and is zero only for equal keys |
| KeyOrder.TotalOrderExactly | driver/src/linber_RBtree.c:134-150 | a set of keys is strictly and totally ordered by the comparison if and only if it fits half the circle |
| KeyOrder.BestEffortWindow | driver/src/linber_RBtree.c:136 | keys up to 2^63-2 together with the best-effort key fit one half circle, in which the best-effort key is the least |
| KeyOrder.BestEffortLastExactly | driver/src/linber_RBtree.c:136-142 | another key compares as smaller than the best-effort key exactly from 2^63-1 on, where an unsigned comparison would have all of them smaller; up to 2^63-2 only the best-effort key compares as smaller, and at 2^63-1 each does, so that the one inserted later goes first |
| StableOrder.InsertPlaces | driver/src/linber_RBtree.c:122-127 | stable insertion: behind all that are not later, before all that are, nothing else moves, the result is sorted |
| DeadlineQueue.FlattenSorted | driver/src/linber_RBtree.c:171-195 | nonempty queues in key order, each of one deadline, flatten to requests in deadline order |
| DeadlineQueue.NewBucketRefines | driver/src/linber_RBtree.c:152-167 | a new node between smaller and larger keys is a stable insertion into the sequence of requests |
| DeadlineQueue.SameBucketRefines | driver/src/linber_RBtree.c:142-149 | so is appending to the queue of the node with the same key |
| DeadlineQueue.FirstTaken | driver/src/linber_RBtree.c:182-186 | dequeuing from the first node, and erasing it when that leaves it empty, removes the head of the sequence |
| RbTree.PlugRefs | driver/src/linber_RBtree.c:134-150 | filling a place of the tree puts its nodes between those left and those right of the place |
| RbTree.RbRoot.LinkNode | driver/src/linber_RBtree.c:165 | hanging a node at an empty place keeps all links consistent and puts it there in the in-order sequence |
| RbTree.RbRoot.InsertColor | driver/src/linber_RBtree.c:166 | the contract of rb_insert_color: same nodes, same in-order sequence, consistent links |
| RbTree.RbRoot.First | driver/src/linber_RBtree.c:178 | the node with nothing before it, or null for the empty tree |
| RbTree.RbRoot.Erase | driver/src/linber_RBtree.c:184 | consistent links and an in-order sequence that has lost exactly the erased node |
| RequestTree.RequestTree.Descend | driver/src/linber_RBtree.c:134-150 | the pointer descent ends at the node of the deadline or at the one empty place with all smaller keys before and all larger ones after it |
| RequestTree.RequestTree.Insert | driver/src/linber_RBtree.c:128-169 | the waiting requests become the stable insertion of the new one, by deadline; it fails only without memory for a deadline not in use, and then changes nothing |
| RequestTree.RequestTree.Dequeue | driver/src/linber_RBtree.c:3-12 | the head leaves a queue that keeps further requests, the rest of the tree stays |
| RequestTree.RequestTree.RemoveFirst | driver/src/linber_RBtree.c:175-195 | the first waiting request is returned and removed, null exactly when none waits; no empty queue is left behind |
| RequestTree.RequestTree.BucketsInOrder | driver/src/linber_RBtree.c:122-127 | distinct keys in order, no queue empty, and the queues in order are the waiting requests |
| RequestTree.RequestTree.GetRequest | driver/src/linber_RBtree.c:202-226 | the loop comes to the outcome of the search on the tree as a value |
| RequestLookup.TruncatedExactly | driver/src/linber_RBtree.c:206-211 | the search compares by the difference modulo 2^32, brought into [-2^31, 2^31): zero exactly for multiples of 2^32, negative exactly when they leave 2^31 or more |
| RequestLookup.DescentExactly | driver/src/linber_RBtree.c:208-224 | in these numbers, for every node: where the search stops, where it goes left and right, and what it returns there |
| RequestLookup.LoopComesTo | driver/src/linber_RBtree.c:208-224 | after more turns than the tree is high the loop has returned that outcome, or it never will |
| RequestLookup.LookupExactly | driver/src/linber_RBtree.c:208-225 | for every tree, from the nodes the descent comes by: NULL if and only if none truncates to zero; otherwise the one that does decides, returning a request with the token from its queue or, if and only if there is none, never returning |
| RequestLookup.LoopTerminatesExactly | driver/src/linber_RBtree.c:208-224 | the loop returns if and only if every node its descent comes by whose difference truncates to zero has the token in its queue |
| RequestLookup.LookupFindsExactly | driver/src/linber_RBtree.c:202-226 | the search finds a waiting request of this deadline and token if and only if there is one and truncation changes no comparison on the way |
| RequestLookup.LookupOtherwise | driver/src/linber_RBtree.c:208-225 | where truncation changes no comparison: NULL if and only if no node has the deadline, never returning if and only if one has, without the token |
| RequestLookup.InUseExactly | driver/src/linber_RBtree.c:202-226 | a node has the deadline exactly when a request with it waits |
| RequestLookup.NearIsHarmless | driver/src/linber_RBtree.c:206-211 | keys within [-2^31, 2^31) of the deadline are compared as the insertion compared them |
| RequestLookup.SecondOfTwo | driver/src/linber_RBtree.c:202-226 | for any two waiting requests with different deadlines: whether the one inserted second is found, not found, or searched for ever, from the remainder modulo 2^32 of the distance between them |
| RequestLookup.ThreeSecondsTooFar | driver/src/linber_RBtree.c:206-211 | two waiting requests three seconds apart of which the later is not found |
| UriOrder.StrCmpEqual | driver/src/linber_RBtree.c:26 | zero means the same name |
| UriOrder.NamesAreTotallyOrdered | driver/src/linber_RBtree.c:26-34 | the order of names is strict and total |
| UriOrder.LessExactly | driver/src/linber_RBtree.c:26-34 | a name is less than another exactly when that one extends it or is larger at the first difference |
| UriIndex.UriIndex.Insert | driver/src/linber_RBtree.c:19-45 | as on a map: fails exactly for a name that is there (or without memory) and then changes nothing |
| UriIndex.UriIndex.Get | driver/src/linber_RBtree.c:51-70 | as on a map: the service of this name, or nothing when there is none |
| UriIndex.UriIndex.Remove | driver/src/linber_RBtree.c:77-100 | as on a map: returns the service of this name and forgets it and no other |
| UriIndex.UriIndex.RemoveFirst | driver/src/linber_RBtree.c:107-120 | returns and forgets the service with the smallest name, nothing exactly when the index is empty |
| Registry.Linber.constructor | driver/linber_main.c:987-992 | an empty registry, from which every service created is listed as long as it has not been cleaned |
| Registry.Linber.FindService | driver/linber_main.c:300-306 | the registered service of this name, or nothing |
| Registry.Linber.RegisterService | driver/linber_main.c:489-502 | refused exactly when a listed service has the name; else list, index, count and sum of worker places gain one fresh service in its initial state, its mutex free |
| Registry.Linber.CreateService | driver/linber_main.c:242-294 | a fresh service under a free name, sharing nothing with the registry |
| Registry.Linber.CreateAmong | driver/linber_main.c:242-294 | all other services stay as they were, and each is still listed exactly as long as it has not been cleaned |
| Registry.TotalIsSum | driver/linber_main.c:194 | the total of worker places is additive over lists and of one service its own maximum |
| Registry.Linber.Enter | driver/linber_main.c:280-290 | list and index keep holding the same services and the totals keep counting them, one service and its worker places more |
| Registry.Linber.Clean | driver/linber_main.c:187-194 | list and index lose exactly this service, the count one and the total its worker places |
| Registry.Linber.DestroyService | driver/linber_main.c:799-809 | succeeds exactly for a listed name with the service's token and worker places; then takes exactly the shutdown step on that service and leaves all others alone; every service stays listed exactly as long as it has not been cleaned |
| Registry.Linber.WorkerChecks | driver/linber_main.c:352-366 | the last worker to leave takes its service out of list and index, any other leaves it in, and no other service is touched |
| Invariants.InitInv | driver/linber_main.c:249-278 | a new service satisfies the invariant |
| Invariants.StepInv | driver/linber_main.c:144-434 | every step of every thread keeps the invariant |
| Invariants.OrderedKept | driver/linber_main.c:167-174 | the waiting requests stay ordered by deadline and then by age |
| Invariants.WaitingFitsKept | driver/linber_main.c:86-95 | the tree holds exactly the requests that wait |
| Invariants.SlotsFitKept | driver/linber_main.c:391-396 | the slots hold exactly the requests being served, each in the slot of its worker |
| Invariants.CompletedFitsKept | driver/linber_main.c:420-434 | the completed list holds exactly the completed, uncollected requests, each once |
| Invariants.DebtsFitKept | driver/linber_main.c:423-433 | a worker between the move and the up owes a wake-up to the very request that expects it |
| Invariants.BalancedKept | driver/linber_main.c:59-62 | units on a request's semaphore, units consumed and a unit owed always add up to what the request's history is due |
| Invariants.ResultsKept | driver/linber_main.c:45-62 | a request's result is the one its history allows: aborted until its job has ended |
| Invariants.NoLostWakeupKept | driver/linber_main.c:167-179 | waiting requests never outnumber semaphore units, clients about to add one, and workers about to take one |
| Invariants.AllCanLeaveKept | driver/linber_main.c:225-233 | after shutdown there is a unit, or a worker past the semaphore, for every registered worker |
| Invariants.CleanedOnceKept | driver/linber_main.c:352-366 | clean_service has run once if shutdown has begun and nobody is registered, and otherwise not |
| Runs.RunInv | driver/linber_main.c:144-434 | the invariant holds in every state of every run |
| Runs.Conservation | driver/linber_main.c:144-434 | every request ever made is in the tree, a slot or the completed list, in one of them and once, or has left for good |
| Runs.PlaceGoes | driver/linber_main.c:374-434 | a request moves only forward: waiting, served, completed, then released; or aborted or faulted on the way |
| Runs.TakesLeast | driver/linber_main.c:391-397 | a worker takes the least of the waiting requests by deadline and then by age |
| Runs.DispatchOrder | driver/linber_main.c:86-95 | over whole runs: of two takes the first is the lesser if the second's request was there, and requests of one deadline are taken in the order they came |
| Runs.EarliestDeadlineFirst | driver/linber_main.c:86-95 | in numbers, for deadlines of the first 292 years: of two takes the first has no later deadline if the second's request was there, unless it has none |
| Runs.BestEffortFirst | driver/linber_main.c:86-95 | a request with a deadline is taken exactly when no best-effort request waits, the reverse of the documentation |
| Runs.ResponseComesFromEndJob | driver/linber_main.c:767-784 | only the end of the job by the worker holding the request stores a response, and nothing replaces it |
| Runs.ResponseOrigin | driver/linber_main.c:767-784 | every response was given by the worker that held the request when it ended the job |
| Runs.ResponseStays | driver/linber_main.c:769-784 | the response given at the end of a job is the request's response ever after |
| Runs.ResponseIntegrity | driver/linber_main.c:571-582 | over whole runs a client reads SUCCESS if and only if the worker holding its request ended the job with an admissible response and no shutdown aborted it; the response is that one |
| Runs.CollectedIsStored | driver/linber_main.c:603-613 | what is collected is what the worker holding the request stored |
| Runs.CollectedAsAnnounced | libs/src/linber_service_api.c:505-521 | the response collected by the second call is the one whose length and mode the first call passed on |
| Runs.CollectReadyExactly | driver/linber_main.c:595-616 | after SUCCESS the response can be collected, except between the end of the job and the move when a signal let the client read early |
| Runs.ReadThenCollect | libs/src/linber_service_api.c:505-521 | after a read of SUCCESS in a wait that a unit ended, the second call can follow at once, unless shutdown has come |
| Runs.ClientSleepsExactly | driver/linber_main.c:568 | a client's semaphore has or is owed a unit exactly when it has consumed fewer than its request's history is due; none while it waits or is served |
| Runs.WorkIsNoticed | driver/linber_main.c:167-179 | with a request waiting and no worker on its way, a unit is there or a client is about to add it |
| Runs.ExactStep | driver/linber_main.c:176 | without signals wake-ups and waiting requests match exactly |
| Runs.NoEmptyTakes | driver/linber_main.c:389-397 | without signals and before shutdown no worker comes back empty-handed |
| Runs.SlotsAndCounters | driver/linber_main.c:635-640 | before shutdown ids handed out, registered workers and waiting requests are counted right, only registered workers hold requests, and no two the same |
| Runs.WorkerIdsFresh | driver/linber_main.c:638 | no worker id is handed out twice |
| Ledgers.MadeOnce | driver/linber_main.c:153-173 | every request of a run was made by one insertion and keeps its deadline |
| Ledgers.ClientCounts | driver/linber_main.c:518-588 | what a request has consumed are its client's waits that a unit ended; each wait ended is followed by one read; a client has waited once if its request blocks, and once for each further call |
| Ledgers.BlocksAsAsked | driver/linber_main.c:177-179 | a client that goes on without having read made a request that does not block; one that blocks without having asked to wait made one that does |
| Ledgers.ReadOnlyWhenDone | driver/linber_main.c:568-574 | without signals to its client a request is read only once it neither waits nor is being worked on, and once for each unit |
| Ledgers.UnitsConserved | driver/linber_main.c:176 | units of the workers' semaphore are those added by clients and destroys less those that ended a wait; a signal takes none |
| Ledgers.WorkerCalls | driver/linber_main.c:374-400 | in every run each worker makes its calls in the driver's order, gives up a job exactly when it comes back with one, and does nothing after it was told to leave |
| Ledgers.FirstCall | driver/linber_main.c:374-389 | a worker's first call is for a job |
| Ledgers.CountGoesStale | driver/linber_main.c:214-218 | shutdown empties the tree but leaves the count of waiting requests as it was |
| OneRequest.AResponseIsCollected | driver/linber_main.c:518-621 | for every admissible deadline and response a run, with all promises kept, in which the response is collected |
| Shutdown.NobodyIsStuck | driver/linber_main.c:225-229 | after shutdown every registered worker can take its next step without a signal |
| Shutdown.WorkerComesNearer | driver/linber_main.c:352-400 | and each such step brings it nearer to leaving |
| Shutdown.ShutdownBounded | driver/linber_main.c:352-400 | under any interleaving, signals included, the workers take a bounded number of steps after shutdown |
| Shutdown.ShutdownCompletes | driver/linber_main.c:208-236 | from any state after shutdown the workers' own steps lead to the cleanup |
| Shutdown.CleanedWhenAllLeft | driver/linber_main.c:187-199 | clean_service has run, once, if and only if all workers have left |
| Shutdown.LastWorkerCleans | driver/linber_main.c:355-358 | the one who cleans up is the last worker, or destroy itself when there is none |
| Shutdown.ClientsReleased | driver/linber_main.c:208-236 | after the cleanup no request waits, is served or is owed a wake-up, and a blocked client that has consumed nothing has a unit |
| LateRegistration.LateRegistrationExactly | driver/linber_main.c:627-648 | after a registration that follows shutdown, the service can still be cleaned up without a signal or another destroy if and only if a semaphore unit is to spare, counting those still to come from clients between insertion and up |
| LateRegistration.LateRegistrationStrands | driver/linber_main.c:635-640 | a run in which there is none, so that a worker stays blocked for ever |
| LateRequests.LateRequestExactly | driver/linber_main.c:529 | a request inserted after shutdown can be taken, short of another destroy, if and only if some worker had found the service alive before; otherwise it waits for good |
| LateRequests.ForgottenForGood | driver/linber_main.c:167-179 | whatever steps follow, promised or not, such a request stays where it is and its client gets no unit |
| ReturningWorkers.ReturnStrandsSomebody | driver/linber_main.c:352-359 | once a worker told to leave has come back, whatever steps follow, promised or not, the cleanup finds somebody still there |
| ReturningWorkers.CleanupExactly | driver/linber_main.c:352-359 | over whole runs: at the cleanup all workers have left if and only if none came back after it was told to leave |
| ReturningWorkers.ReturningWorkerStrands | driver/linber_main.c:354-359 | a run from a new service in which the cleanup comes while another worker is blocked with no unit left |
| ReturningWorkers.LooseKept | driver/linber_main.c:352-400 | with workers coming back, until the cleanup there is still a unit, or a worker past the semaphore, for each worker the service counts |
| ReturningWorkers.CleanupIsBounded | driver/linber_main.c:352-400 | over whole runs, signals and returning workers included, the workers take a bounded number of steps between shutdown and cleanup |
| ReturningWorkers.CleanupComes | driver/linber_main.c:352-366 | and from any state in between their own undisturbed steps lead to the cleanup |
| EndlessSearch.HeldMutexFreezes | driver/linber_main.c:103-134 | with the mutex held for good nothing is inserted, taken, moved, collected, registered or cleaned, and no client of a waiting request gets a unit |
| EndlessSearch.SameDeadlineLeftBehind | driver/linber_main.c:558-562 | a run with everybody as promised, for any deadline in the window, after which a client may ask for its request while that is served and another with the same deadline waits |
| Service.Service.constructor | driver/linber_main.c:242-278 | a new service is in the initial state |
| Service.Service.Enqueue | driver/linber_main.c:144-174 | exactly the insertion step: numbered, with its token, stably inserted by deadline, counted |
| Service.Service.WakeWorker | driver/linber_main.c:176-179 | exactly the step that adds a unit for the workers |
| Service.Service.ClientWake | driver/linber_main.c:178 | exactly the step that ends a client's wait, consuming a unit unless a signal came |
| Service.Service.ReadResult | driver/linber_main.c:571-582 | SUCCESS if and only if, in this object's own past, the worker holding the request ended the job and nothing aborted it; the response read is that worker's |
| Service.Service.Register | driver/linber_main.c:635-639 | the next id, and nothing once all places are taken |
| Service.Service.StartJob | driver/linber_main.c:383-385 | a worker with an unfinished job wakes the client of that job |
| Service.Service.ClearFault | driver/linber_main.c:386 | and gives the job up |
| Service.Service.WorkerWake | driver/linber_main.c:389 | exactly the step that ends a worker's wait, consuming a unit unless a signal came |
| Service.Service.CheckAlive | driver/linber_main.c:352-366 | false exactly after shutdown; the caller has to clean up exactly when it was the last |
| Service.Service.GetRequest | driver/linber_main.c:86-95 | the first waiting request leaves the tree and the count, NULL exactly when none waits |
| Service.Service.Take | driver/linber_main.c:391-397 | the first waiting request moves from the tree into the worker's slot, NULL exactly when none waits |
| Service.Service.EndJob | driver/linber_main.c:767-787 | a worker without a request is told to skip and nothing changes; else the response is refused exactly when it is in a kernel buffer and longer than 2^22 bytes, and kept otherwise |
| Service.Service.Move | driver/linber_main.c:420-432 | the request moves from the slot to the end of the completed list |
| Service.Service.UpClient | driver/linber_main.c:433 | exactly the step that pays the wake-up owed |
| Service.Service.Collect | driver/linber_main.c:68-79 | the request named by the token leaves the completed list; its result is SUCCESS and its response the one its worker stored in this object's past |
| Service.Service.DrainTree | driver/linber_main.c:214-216 | every waiting request is aborted once and its client woken |
| Service.Service.DrainCompleted | driver/linber_main.c:220-223 | every completed request is aborted once and its client woken |
| Service.Service.WakeAllWorkers | driver/linber_main.c:225-227 | one unit for each registered worker |
| Service.Service.Destroy | driver/linber_main.c:208-236 | exactly the shutdown step: both queues drained, workers woken; the caller has to clean up exactly when no worker is registered |
| Service.Service.FindWaitingOrCompleted | driver/linber_main.c:103-134 | the three loops come to the outcome of the search on tree, slots and list as values |
| Service.Service.SearchExactly | driver/linber_main.c:103-134 | for every deadline and token: it never returns if and only if the descent stops at a node where the request does not wait; it returns the live request with the token if and only if it waits where the descent stops, or the descent stops nowhere and the request was taken; NULL otherwise |
| Service.Service.SearchWhereHarmless | driver/linber_main.c:103-134 | where truncation changes no comparison the descent stops exactly for a deadline some request waits with, and there the request waits exactly if it waits with this deadline |
| Service.Service.OwnRequestFound | driver/linber_main.c:558-568 | a client finds its own live request, while it waits, if and only if truncation changes no comparison on the way, and later if and only if the descent stops nowhere |
| Service.Service.OwnRequestFoundNearby | driver/linber_main.c:558-568 | with all waiting deadlines within an int of its own it does, except when the request was taken and another with the same deadline still waits; then the search never returns |
| Service.Service.SpinsWhenLeftBehind | driver/linber_main.c:103-134 | at the end of such a run the search for the request being served never returns |
| Service.Service.TakenRequestSpins | driver/linber_main.c:103-134 | nor does it for any request that was taken while all that wait, and somebody does, wait for its deadline |
| Service.Service.Wait | driver/linber_main.c:558-568 | the second call blocks on a request if and only if it is the caller's own and waits where the descent stops, or was taken and the descent stops nowhere; a search that never returns leaves the mutex held |
| Service.Service.TokensCollideExactly | driver/linber_main.c:156 | two requests share a token exactly when their numbers differ by a multiple of 2^64 |
| Deadline.AbsoluteDeadline | libs/src/linber_service_api.c:399-416 | the key sent: all ones without deadline or clock, else clock plus a 32-bit product modulo 2^64 |
| Deadline.Dispatch | driver/linber_main.c:679-695 | the calls made: best effort alone without a deadline; within two seconds best effort exactly when no time is left, otherwise real time with the service's budget and period for the time left or the period, whichever is smaller; and best effort after a refusal |
| Deadline.AttemptExactly | driver/linber_main.c:679-691 | for all inputs: best effort without a deadline or when the time left, brought into [-2^31, 2^31) by a multiple of 2^32, is not positive; else real time for that time or the period, whichever is smaller |
| Deadline.DispatchBound | driver/linber_main.c:683-691 | for all 64-bit inputs a real-time attempt has the service's budget and period and a deadline in (0, period], zero only for period zero |
| Deadline.DispatchExactly | driver/linber_main.c:679-691 | the attempt is the documented one exactly when truncating the time left makes no difference, in terms of the time left and the period |
| Deadline.DispatchInRange | driver/linber_main.c:683-690 | it is for any time left in [-2^31, 2^31) |
| Deadline.ShortDeadline | libs/src/linber_service_api.c:412-414 | up to 4294 ms the key sent is the time of the call plus the deadline in nanoseconds |
| Deadline.WithoutDeadlineFirst | libs/src/linber_service_api.c:409-411 | requests without a deadline share one key, which compares before every deadline of the first 292 years |
| Deadline.ClientExactly | libs/inc/linber_ioctl.h:50 | the client's multiplication is exact exactly up to 4294 ms |
| Deadline.WrappedDeadlineOvertakes | libs/src/linber_service_api.c:412-414 | 4295 ms are queued before one millisecond |
| Deadline.ClientOrder | libs/src/linber_service_api.c:409-416 | up to 4294 ms requests are queued in the order of their due times |
| Deadline.KeepsItsPlaceExactly | libs/src/linber_service_api.c:409-416 | a deadline is queued behind every shorter one that is due earlier, at whatever times the two are made, if and only if it is at most 4294 ms |
| Deadline.ClientInWindow | libs/src/linber_service_api.c:409-416 | what clients compute meets the hypothesis of the queue |
| Deadline.EndToEndExactly | driver/linber_main.c:682-691 | the client's loss and the driver's cancel: a request is dispatched as documented exactly when the time really left passes the test on the driver's side alone |
| Deadline.EndToEnd | driver/linber_main.c:682-694 | so every request of 1 to 2147 ms not more than 2^31 ns late is dispatched with the smaller of the period and the time left, or as best effort when none is left |
| Deadline.ThreeSecondsIsExpired | driver/linber_main.c:683-688 | a request of three seconds is dispatched at once as best effort |

## Left out

- RbTree.RbRoot.InsertColor: the kernel's colouring and rotations are not part of the repository; the body here does nothing, and only the contract is used.
- RbTree.RbRoot.Erase: joins the two subtrees instead of rebalancing, for the same reason; no statement about the height of the tree.
- RequestTree.RequestTree.GetRequest: where the loop of the source would turn on one node for ever, the method stops and says so; `RequestLookup.LoopComesTo` ties this to the turns of the loop.
- RequestTree.RequestTree.Dequeue: covers queues that keep further requests; a queue of one goes with its node in `RequestTree.RequestTree.RemoveFirst`, and the empty queue does not occur.
- Service.Service.Enqueue: allocation succeeds (the failing path, which aborts a request nobody waits for, is modelled in the tree insertion only); a request that passed the unlocked test of destroy_me before shutdown is the subject of `LateRequests`, not of the object; deadlines outside the half circle are excluded by the hypotheses.
- Service.Service.Register: not after shutdown, see the hypotheses; the id is returned as nothing when all places are taken, where the driver returns success without writing one.
- Service.Service.StartJob: not by a worker that was told to leave, see the hypotheses.
- Service.Service.Collect: the token is in the completed list and SUCCESS was read, see the hypotheses.
- Registry.Linber.RegisterService: the name is looked up and entered in one step, and allocation succeeds; the failing paths of create_service run clean_service on a service that was never entered.
- Registry.Linber.Clean: one step, see the hypotheses.
- Unloading the module while services exist, which takes services out of the list twice.
- Freed memory: a released request keeps its last state; a service that was cleaned up takes part in no step that begins at a call.
- The payload of requests, which the driver hands on without looking at it, and negative response lengths.
- Overflow of semaphore counts, which are unbounded here.
- A worker that dies or is refused with a wrong token (decrease_workers).
- Whether sched_setattr accepts its parameters (a parameter of `Deadline.Dispatch`), and the scheduler's behaviour afterwards.
- ioctl dispatch, copies between user and kernel memory, shared memory, worker files, logging, linber_get_system_status: plumbing around the model.
- The C++ wrappers, the calculator, monitor and test programs: thin layers above the functions modelled here.
