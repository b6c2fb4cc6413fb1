# Verified models of service-template

Dafny models of the self-contained cores of the service template, with proofs of what they guarantee. `dafny verify
dfyconfig.toml` checks everything.

| files | core |
|---|---|
| `CommandStore`, `PoolModel`, `PoolInvariant`, `PoolSafety`, `PoolCalls` | the command worker pool (`pkg/worker_pool.go`) on the store of `pkg/map_store.go`: model, invariant, safety, what each call comes to |
| `PoolLiveness`, `PoolHanging`, `PoolDelivery` | its liveness: when calls return, that accepted commands are applied, that workers leave |
| `PoolRuns`, `PoolWitness`, `PoolPredictable` | building runs of it; when the final store does not depend on the schedule |
| `BalancerScan`, `Balancer` | the round-robin load balancer (`pkg/etdc_load_balancer.go`) |
| `ShutdownOrder`, `ShutdownRuns`, `ShutdownApp` | the priority list of shutdown functions (`application/application.go`) |
| `SseText`, `SseWire`, `SseRoundTrip`, `SseUtf8`, `SseStandard`, `SseExact`, `SseClient` | the SSE printer and client, against the WHATWG HTML Living Standard, sections 9.2.5 and 9.2.6, and the UTF-8 decoder of the WHATWG Encoding Standard |
| `LinkedLists` | the generic linked list and its reversal in place (`pkg/data_struct`) |
| `ServiceContainer` | the service container and its locators (`internal/container.go`) |

## How each core is modelled

**Worker pool.** A step relation between the controller (inside Run, Apply, Stop, Reconnect), the workers, context
cancellations and waiting: any steps of the others may come between two steps of one. A step is one read or write of
shared state, with these exceptions, none of which anybody can observe halfway. The three writes at the end of Stop
(lines 74-76 of `pkg/worker_pool.go`) and the two at the start of Reconnect (94-95) are one step each: no worker is
left then, and there is one controller. Adding to the WaitGroup and starting the worker are one step, and so are a
worker's exit and its `wg.Done`: only the controller waits on the WaitGroup, later. A select reads the pool's context
together with the channels; that field changes only while no worker is left. What panics in Go (a send on or close of
a closed channel, a nil context, a nil cancel function, a negative WaitGroup) raises a fault in the model, so its
absence is proved and not assumed. Commands are known by a ticket, which stands for the pointer Apply allocates. Three
assumptions: one controller goroutine calls Run, Apply, Stop and Reconnect in turn, as in
`cmd/custom_worker_pool/main.go`; handlers do not panic; and the handler is `cmd.Apply`. Each call brings its own
context, Apply too. Any context, parent or child, may become done at any step. `PoolInvariant.Inv` is the inductive
invariant. Liveness is about infinite runs under weak fairness, from any state that the invariant allows.

**Load balancer.** `Backend` and `LoadBalancer` are objects. A pick takes, for each of its `IsAlive` reads, the probe
results that land just before it, so liveness can change between any two reads. A fetched snapshot is an input; URL
parsing is a partial function that gives the printed URL.

**Shutdown list.** `ShutdownApp.App` relinks nodes in place and logs the functions it calls. It is proved against a
list function, and that against a queue that keeps pending registrations in registration order.

**SSE.** Texts are byte strings, and TrimSpace knows the UTF-8 encodings of all white space, so a cut at any byte is
covered. The reading loop takes the number of the poll at which the context is seen cancelled, and how the body ends.
The standard's reader decodes the stream first; a decoded text is given by its own UTF-8 encoding (`SseUtf8.ScrubFixes`:
it leaves alone exactly the encodings of sequences of code points).

**Linked list, container.** Objects with the fields of the source. `log.Fatalf` is a halted outcome.

## Where the code falls short

- Run of a pool that is not running marks it as running without a channel exactly if its channel is gone, that is,
  after a Stop and before a Reconnect: `PoolSafety.RunSticksIff`. From then on Apply, Stop and Reconnect all return
  errors, for ever: `PoolSafety.StuckForever`.
- A Stop is sure to return exactly if the channel is empty when it is called: `PoolHanging.StopReturnsIff`. With
  commands queued, cancelling the pool's context or the workers' allows every worker to leave first, and then Stop
  polls for ever. An Apply may hang in the same way exactly if it finds a live pool with a full channel, and neither
  its own context nor the pool's is done: `PoolHanging.ApplyReturnsIff`. Without such a cancellation both
  return: `PoolLiveness.StopReturns`, `PoolLiveness.ApplyReturns`.
- Stop's test of `inWork` and the channel length can pass while a worker holds a command it has not counted:
  `PoolWitness.TestPassesWithHeldCommand`. Only the wait for the workers makes Stop right.
- With two workers or more, conflicting commands of one round may run in either order. The store after Stop is that
  of submission order, whatever the schedule, exactly if there is at most one worker or every conflict inside a
  round is about a key that a later round writes: `PoolPredictable.PredictableIff`.
- A newline in an SSE event name or id can smuggle in a message (`SseRoundTrip.RoundTripIff` says exactly when). A
  conforming reader gets back what was printed exactly if the event names are on one line, the data have no CR, the
  ids are on one line, and all of it is valid UTF-8; an id with a NUL, which the reader drops, need not be valid, and
  if it has further lines these must be passed over (`SseExact.StandardReadsPrintedIff`,
  `SseExact.StandardReadsPlainIff`).
- This client does not decode, and does not take a CR for a line end. With names and ids on one line its callbacks are
  the trimmed lines of what a conforming reader dispatches exactly if each line of the data is valid UTF-8 and has
  only white space after a CR: `SseClient.ClientAgreesIff`.
- The probes of one health check may land in any order; a backend listed twice ends up alive or not by that order,
  unless all its probes agree: `Balancer.HealthCheckDecides`.
- The container stores nil for a value that does not take a locator: `ServiceContainer.StoredAsSetIff`.
- The comment on RegisterShutdown calls priority 0 the highest; the code runs negative numbers before it. The
  container reports a repeated key with the message "not found". The models follow the code.

## Model

| member | source | states |
|---|---|---|
| CommandStore.MemStore.Put | pkg/map_store.go:22-26 | the key holds the value, every other key is untouched |
| CommandStore.MemStore.Get | pkg/map_store.go:28-32 | the stored value, or the empty string for a missing key |
| CommandStore.MemStore.Del | pkg/map_store.go:34-38 | the key is gone, every other key is untouched |
| CommandStore.MemStore.Handle | pkg/worker_pool.go:244-283 | a handled command has exactly its effect on the store |
| CommandStore.FactoryEffect | pkg/worker_pool.go:111-120 | the command built for code 1 changes no store, that for code 2 deletes its key, that for any other code writes its value; no other key is touched |
| CommandStore.NoConflictIsCommute | pkg/worker_pool.go:244-283 | two commands commute on every store if and only if keys differ, one only reads, or both make the same write |
| CommandStore.ReorderedRun | pkg/worker_pool.go:159-175 | running a log in any order whose inversions do not conflict gives the store of submission order |
| PoolInvariant.WorkMoves | pkg/worker_pool.go:141-176 | the net effect of any one worker step: at most one command moves, out of the queue or through its handler, and both counters follow the phase |
| PoolInvariant.StepInv | pkg/worker_pool.go:50-213 | the invariant is kept by every step of controller, workers and contexts |
| PoolInvariant.RunsKeepInv | pkg/worker_pool.go:37-213 | it holds in every state of every single-controller run |
| PoolSafety.Conservation | pkg/worker_pool.go:130-213 | accepted commands are, as a multiset, those queued, held and applied; they are received in submission order; inWork counts workers between the two additions; at most 2*size are outstanding |
| PoolSafety.StopAppliesEverything | pkg/worker_pool.go:50-82 | when Stop returns nil every accepted command has been applied exactly once, the channel is empty and every worker has exited |
| PoolSafety.ScheduleIndependence | pkg/worker_pool.go:88-121 | after a Stop, over any number of rounds, the store is that of running all commands in submission order, if no round contains a conflict |
| PoolSafety.DistinctKeysIndependence | pkg/worker_pool.go:159-175 | in particular if the keys of each round are pairwise distinct |
| PoolSafety.LifecycleSafety | pkg/worker_pool.go:50-213 | no send on or close of a closed channel, no nil context or cancel function, no negative WaitGroup; live workers belong to the newest generation, use only its channel and never exceed size |
| PoolSafety.ResultsAreTruthful | pkg/worker_pool.go:50-213 | in every run every returned result says truly why the call returned, the caller's cancelled context included, and an Apply that is not accepted adds nothing |
| PoolSafety.OnlyAcceptedAdds | pkg/worker_pool.go:184-213 | in every run the log of commands grows only by an Apply that reports success, by its own command |
| PoolCalls.NewPool | pkg/worker_pool.go:37-48 | a new pool is not running, has an empty channel with size places and the given store, and its context is done if and only if the one it was made with is |
| PoolCalls.ApplyMeans | pkg/worker_pool.go:184-213 | an Apply from its start to its return, whatever interleaves: not running and frozen are decided by the state at the call; with the caller's or the pool's context done at the call it is never accepted; accepted, it has added one command, which does what the numeric code of the call says; otherwise none |
| PoolCalls.AcceptedWasSelected | pkg/worker_pool.go:197-207 | an accepted Apply passed its select in a state in which neither its own context nor the pool's was done |
| PoolCalls.StopMeans | pkg/worker_pool.go:50-82 | a Stop that returns reports not running, frozen or nil as the state at the call decides; after nil the pool is not running and has no channel and no context; it adds no command |
| PoolCalls.RunMeans | pkg/worker_pool.go:123-182 | a Run of a running pool changes nothing; any other spawns one worker for each place in the channel, all watching the context this Run was given |
| PoolCalls.ReconnectMeans | pkg/worker_pool.go:88-102 | a Reconnect of a running pool is refused; any other leaves a live pool with a new channel and size workers that watch its context, and the pool's context is done if that was |
| PoolSafety.StopTestPassed | pkg/worker_pool.go:55-65 | in every run Stop goes on to cancel only after two earlier states of the same round of its loop: one in which no handler was running, and then one in which the newest channel was empty |
| PoolSafety.StuckForever | pkg/worker_pool.go:50-102 | a pool marked running without a channel stays so, accepts nothing and answers only with errors or a no-op Run |
| PoolSafety.StuckOnlyByRun | pkg/worker_pool.go:123-182 | it gets there only by Run on a pool whose channel is gone |
| PoolSafety.RunSticksIff | pkg/worker_pool.go:123-182 | a Run of an idle pool that is not running leaves it in that state exactly if its channel was gone at the call, and live otherwise, however workers and cancellations interleave |
| PoolSafety.RunAfterStopSticks | pkg/worker_pool.go:123-182 | a Run of a stopped pool can always return, and then is there, whichever rejected calls came before |
| PoolLiveness.WorkLowersRank | pkg/worker_pool.go:141-176 | every worker step strictly lowers a measure over the queue and the worker phases |
| PoolLiveness.WorkRemainsSomeoneMoves | pkg/worker_pool.go:141-176 | without cancellation and with size > 0, while work is queued or held some worker can move |
| PoolLiveness.DrainedIsStable | pkg/worker_pool.go:55-80 | once nothing is queued or held, that stays so for the rest of Stop |
| PoolLiveness.CallsReturn | pkg/worker_pool.go:50-82 | under every fair schedule every Apply and Stop returns, or reaches a state in which it hangs |
| PoolLiveness.HungForever | pkg/worker_pool.go:55-81 | a hung call never returns |
| PoolLiveness.HungOnlyIfCancelled | pkg/worker_pool.go:159-170 | with size > 0 a call hangs only after a cancellation |
| PoolLiveness.StopReturns | pkg/worker_pool.go:50-82 | while nobody outside cancels the pool's context or one of its workers', Stop of a live pool with workers returns nil under every fair schedule |
| PoolLiveness.ApplyReturns | pkg/worker_pool.go:184-213 | under the same condition Apply to a live pool with workers returns under every fair schedule, full channel or not: accepted, or because its caller is done |
| PoolHanging.StopReturnsIff | pkg/worker_pool.go:50-82 | a Stop is sure to return, under every fair schedule and all cancellations, if and only if the channel is empty when it is called |
| PoolHanging.ApplyReturnsIff | pkg/worker_pool.go:184-213 | an Apply is sure to return if and only if, when it is called, the pool is not live, there is room in the channel, or the pool's context or the caller's is done |
| PoolHanging.EmptyStopReturnsNil | pkg/worker_pool.go:50-82 | a Stop called on a live pool with an empty channel returns nil whatever is cancelled |
| PoolDelivery.AcceptedIsApplied | pkg/worker_pool.go:141-176 | under every fair schedule, whatever the controller does, an accepted command is applied: one already received in any case, one still queued while nobody outside cancels the pool's context or a worker's |
| PoolDelivery.WorkerLeaves | pkg/worker_pool.go:141-170 | under every fair schedule a worker whose context is done, or whose pool's context is, leaves if nothing is queued from then on |
| PoolWitness.TestPassesWithHeldCommand | pkg/worker_pool.go:64-72 | for every size a run in which the test of line 64 passes while a worker holds a received, uncounted command |
| PoolWitness.CancelCanHang | pkg/worker_pool.go:159-165 | for every size a run to the start of a Stop that is not sure to return, with one command queued and nothing cancelled yet |
| PoolPredictable.OneWorkerInOrder | pkg/worker_pool.go:123-182 | with at most one worker, every state of every run has applied the commands one by one in submission order, conflicts or not |
| PoolPredictable.PredictableIff | pkg/worker_pool.go:88-182 | for any size, initial store, commands and rounds, the store after Stop is that of submission order in every run if and only if there is at most one worker, the history cannot occur, or each conflict inside a round is about a key that a later round writes |
| BalancerScan.BoundedBypass | pkg/etdc_load_balancer.go:84-104 | a position seen alive whenever it is read is returned within its cyclic distance from Current, whatever the other reads answer |
| BalancerScan.NilIffNoneAlive | pkg/etdc_load_balancer.go:96-103 | with liveness fixed, nil is returned if and only if nothing is alive, and then Current has advanced by one modulo n |
| BalancerScan.PickIsFirstAlive | pkg/etdc_load_balancer.go:84-104 | with liveness fixed, a pick returns the first alive position cyclically from Current |
| BalancerScan.CyclicOrder | pkg/etdc_load_balancer.go:84-104 | closed form: call number i returns the alive position whose turn is i after the first |
| BalancerScan.ExactlyOncePerRound | pkg/etdc_load_balancer.go:84-104 | any k consecutive calls, k being the number alive, return each alive position exactly once |
| BalancerScan.Fairness | pkg/etdc_load_balancer.go:84-104 | over any number of calls the counts of alive positions differ by at most one |
| Balancer.LoadBalancer.RoundRobbinNextBackend | pkg/etdc_load_balancer.go:84-104 | one pick with probe results landing between its reads returns the first backend, cyclically from Current, that is alive when it is read; it returns nil only after n + 1 reads of dead backends; every backend is left with exactly the results that landed before the last read, and Current has advanced by the number of reads |
| Balancer.PickQuietly | pkg/etdc_load_balancer.go:84-104 | while nothing lands, the pick on the object is the first alive backend from Current, and nil if and only if none is alive; Current is one past it |
| Balancer.ServeQuietly | pkg/etdc_load_balancer.go:84-104 | any number of picks on the object while nothing lands are consecutive calls of the cyclic scan, so any two alive positions are served equally often up to one |
| Balancer.BackendNotBypassed | pkg/etdc_load_balancer.go:84-104 | a listed backend that no probe reports down is returned within n calls under any interleaving of probes |
| Balancer.PickRepeatedly | pkg/etdc_load_balancer.go:84-104 | picks made one after the other on one load balancer, with any landings inside and between them: a listed backend that is alive at first and never reported down is returned by one of the first n |
| Balancer.StaysAlive | pkg/etdc_load_balancer.go:232-242 | landing probe results that never report a backend down leave it alive |
| Balancer.LoadBalancer.UpdateBackends | pkg/etdc_load_balancer.go:118-172 | the new list is, in order, the parsable entries of other services; known URLs keep their first object, unknown ones get a new, alive one; Current is 0; a failed fetch changes nothing |
| Balancer.WantedExactly | pkg/etdc_load_balancer.go:126-139 | the listed URLs are, in order, those of exactly the entries that are parsable and not this service's own |
| Balancer.LoadBalancer.FinishProbe | pkg/etdc_load_balancer.go:233-241 | a probe result changes the liveness of its backend alone, and nothing if the backend was dropped |
| Balancer.LoadBalancer.LaunchProbes | pkg/etdc_load_balancer.go:231-243 | a health check launches one probe per list position, each to store the answer of the backend there |
| Balancer.HealthCheckDecides | pkg/etdc_load_balancer.go:231-243 | when all probes of a health check have landed, in any order and whatever the liveness was, a listed backend is up or down as its probes answered if and only if they all agree |
| Balancer.RepeatIsFixedIff | pkg/etdc_load_balancer.go:125-166 | merging a snapshot again gives the same objects if and only if equal URLs already share one object |
| Balancer.RepeatDistinct | pkg/etdc_load_balancer.go:125-166 | for distinct URLs the first repetition is a fixed point |
| Balancer.RepeatTwice | pkg/etdc_load_balancer.go:125-166 | for any URLs the second repetition is |
| ShutdownOrder.RegisterStable | application/application.go:47-66 | inserting into the stable sort of the pending registrations gives the stable sort with the new one appended |
| ShutdownOrder.StableSortUnique | application/application.go:47-66 | there is only one stable sort: sorted lists that agree inside every priority are equal |
| ShutdownOrder.ByNamePicksLeast | application/application.go:69-89 | the first list entry of a name is the least pending registration of that name |
| ShutdownOrder.ByNameStable | application/application.go:69-89 | removing it leaves the stable sort of the others |
| ShutdownRuns.ListRefinesQueue | application/application.go:47-99 | after every history the list is the stable sort of the pending registrations, and the same functions ran in the same order as in the queue |
| ShutdownRuns.SameClassesSameList | application/application.go:47-66 | two histories give the same list if and only if their pending registrations agree inside every priority |
| ShutdownRuns.RegistrationsConserved | application/application.go:47-99 | every registration is either still listed or has run |
| ShutdownRuns.AtMostOnce | application/application.go:69-99 | no registered function ever runs twice |
| ShutdownRuns.StopRunsAll | application/application.go:91-99 | the final stop runs every pending function in order of priority and registration; then every registered one has run exactly once |
| ShutdownRuns.ByNameRunsLeast | application/application.go:69-89 | ShutdownByName runs just the least pending registration of the name and keeps the order of the rest |
| ShutdownApp.App.RegisterShutdown | application/application.go:47-66 | the relinked chain is acyclic and stands for the list with the new entry inserted |
| ShutdownApp.App.ShutdownByName | application/application.go:69-89 | calls and unlinks the first node of the name, if any |
| ShutdownApp.App.ShutdownAll | application/application.go:91-99 | calls every node from the front and leaves the list empty |
| ShutdownApp.Replay | application/application.go:47-99 | any sequence of calls on one application object leaves a valid chain that is the stable sort of the pending registrations, and has called the functions the queue has run, in order |
| SseText.JoinSplit | cmd/sse_server/main.go:125 | joining the pieces of a split text gives it back, and no piece has a newline |
| SseText.TrimSpaceMeaning | server/http_client.go:152 | TrimSpace removes white space characters, nothing else, and all of them, at both ends |
| SseUtf8.IsSpaceIff | server/http_client.go:152 | what is taken for white space are exactly the UTF-8 encodings of the characters with the property White_Space |
| SseText.TrimEitherOrder | server/http_client.go:152-161 | the two ends of a byte string can be trimmed in either order |
| SseWire.SendSSE | cmd/sse_server/main.go:112-132 | the writer receives exactly the frame of the event |
| SseWire.StartListen | server/http_client.go:129-166 | the loop delivers the messages of the lines read before the cancellation or the end, and reports which it was |
| SseRoundTrip.DataIsDelivered | server/http_client.go:152-164 | a line that is "data:" and any text, behind any white space, is delivered as that text without white space at its ends |
| SseRoundTrip.OnlyDataIsDelivered | server/http_client.go:152-164 | only such lines are delivered |
| SseRoundTrip.LinesMeaning | server/http_client.go:139-150 | the lines read are the stream up to its last newline, each without its own; what follows the last newline is never one |
| SseRoundTrip.FrameCallbacks | cmd/sse_server/main.go:112-132 | what one printed event makes the client deliver, for any bytes in event, id and data |
| SseRoundTrip.RoundTripIff | cmd/sse_server/main.go:112-132 | the callbacks are the trimmed lines of the data in order if and only if no later line of an event name or id trims to one starting with "data:" |
| SseRoundTrip.RoundTrip | server/http_client.go:129-166 | so for all events whose event and id have no newline |
| SseRoundTrip.NewlineInjects | cmd/sse_server/main.go:119-121 | an id with a newline for which it fails |
| SseRoundTrip.TruncationDeliversPrefix | server/http_client.go:139-150 | cutting the stream at any byte delivers a prefix of the callbacks |
| SseUtf8.TrimScrub | server/http_client.go:152-161 | decoding and TrimSpace can be done in either order, for any bytes |
| SseStandard.StandardReadsPrinted | cmd/sse_server/main.go:112-132 | for names and ids on one line and data without CR, whatever their other bytes, the standard's interpreter dispatches one message per sendSSE call with the decoded type, data and last id |
| SseExact.StandardReadsPrintedIff | cmd/sse_server/main.go:112-132 | for all events and every last id: type, data and last id come back from the standard's interpreter exactly as printed if and only if types are on one line, data have no CR, ids are on one line or, with a NUL, passed over by the reader, and all that is read is valid UTF-8 |
| SseExact.StandardReadsPlainIff | cmd/sse_server/main.go:112-132 | if no id has both a NUL and a line end, the condition is on each event alone: type and id on one line, data without CR, type, data and an id without NUL valid UTF-8 |
| SseStandard.ClientDeliversDispatched | server/http_client.go:152-164 | for any bytes in the data but CR, the trimmed lines of the data the standard dispatches are this client's callbacks, decoded |
| SseClient.ClientAgreesIff | server/http_client.go:139-164 | with names and ids on one line and data of any bytes, this client's callbacks are the trimmed lines of the data the standard dispatches if and only if each line of the data is valid UTF-8 and has only white space after a CR |
| LinkedLists.LinkedList.PushFront | pkg/data_struct/linked_list.go:48-59 | adds in front; head, tail and size stay consistent with an acyclic chain |
| LinkedLists.LinkedList.PushBack | pkg/data_struct/linked_list.go:61-72 | adds at the end, same consistency |
| LinkedLists.LinkedList.PopFront | pkg/data_struct/linked_list.go:74-90 | removes and returns the first value, or reports an empty list |
| LinkedLists.LinkedList.PopBack | pkg/data_struct/linked_list.go:92-117 | removes and returns the last value, or reports an empty list |
| LinkedLists.LinkedList.Get | pkg/data_struct/linked_list.go:119-130 | the value at the index, or an error for an index out of range |
| LinkedLists.LinkedList.Insert | pkg/data_struct/linked_list.go:132-155 | inserts at the index, with a new node, or reports an index out of range |
| LinkedLists.LinkedList.Remove | pkg/data_struct/linked_list.go:157-179 | removes and returns the value at the index, the tail included |
| LinkedLists.LinkedList.InsertThenRemove | pkg/data_struct/linked_list.go:132-179 | Insert and Remove at one index restore the same chain of the same nodes, head, tail and size |
| LinkedLists.Replay | pkg/data_struct/linked_list.go:48-179 | any sequence of calls on one list object keeps chain, head, tail and size consistent and gives the contents and replies of the sequence operations |
| LinkedLists.LinkedList.Reverse | pkg/data_struct/ll_test.go:22-33 | the loop ends with the same nodes in reverse, the old head as tail, and the size unchanged |
| LinkedLists.ReversedTwice | pkg/data_struct/ll_test.go:22-33 | reversing twice gives the list back |
| LinkedLists.InsertRemoveUndo | pkg/data_struct/linked_list.go:132-179 | Insert and Remove at one index undo each other, in both orders |
| LinkedLists.GetLaws | pkg/data_struct/linked_list.go:119-179 | Get answers what Remove at that index would and what an Insert there has put, errors included, and changes nothing |
| LinkedLists.EndsAreInsertRemove | pkg/data_struct/linked_list.go:48-117 | pushes and pops are inserts and removes at the two ends, errors included |
| ServiceContainer.Container.Require | internal/container.go:33-43 | the initial services become the requirements; a repeated name halts |
| ServiceContainer.Container.Set | internal/container.go:45-63 | halts without a change, or stores the service and hands it its locator |
| ServiceContainer.Container.Get | internal/container.go:65-70 | the stored value, or nil |
| ServiceContainer.Container.NewServiceLocator | internal/container.go:72-81 | the locator has exactly the requested names, each with what the container holds for it or else the requirement; it halts if and only if a name is in neither or is repeated |
| ServiceContainer.Container.AllServicesAreAvailable | internal/container.go:115-124 | true if and only if every name is known, else it names an unknown one |
| ServiceContainer.SetHaltsIff | internal/container.go:45-63 | Set halts if and only if the key exists, or a managed service asks for something unknown or asks twice |
| ServiceContainer.DependenciesAcyclic | internal/container.go:45-63 | in every run that does not halt the dependencies among container entries have no cycle |
| ServiceContainer.LocatorHoldsRequested | internal/container.go:72-81 | each locator holds exactly the requested names |
| ServiceContainer.LocatorValues | internal/container.go:100-113 | in every run, a locator entry is what the earlier Set of its name stored, or else the requirement |
| ServiceContainer.LocatorFreshIff | internal/container.go:100-113 | a locator entry equals a fresh lookup at the end of the run if and only if an earlier Set made its name, or no Set from its own on gives the name another value than the requirement |
| ServiceContainer.StoredAsSetIff | internal/container.go:50-60 | what is stored is what was set, except that a value that takes no locator becomes nil |

## Left out

- The worker pool is a step relation on values, not a class: its fields are shared between goroutines, and the model is about their interleavings.
- Concurrent controllers: an Apply that runs beside a Stop, which can strand a command or send on a closed channel.
- Panics in handlers and in shutdown functions, and the recovers around them. A negative pool size, for which making the channel panics.
- The link from a parent context to its children: the pool model lets each become done by itself, which allows more runs.
- Sleeps, logging, printing, signals; what a get command prints.
- Etcd reads and watches, URL parsing, reverse proxying and the `/health` request of the balancer: a snapshot, a parse function and a probe result are inputs. Leader election.
- Balancer.LoadBalancer.UpdateBackends: the merge and the replacement of the list are one step, because only one goroutine updates the list; a pick in between sees the old list.
- Re-entrant shutdown functions, which would deadlock on the application's lock.
- The HTTP side of the SSE code: requests, headers, flushing. `retry` fields change no dispatched message and are ignored by the interpreter.
- `LinkedList.String`, and the queue and stack of `pkg/data_struct`: they would add only easy members.
- A service that is set under two keys keeps only the locator of the later Set; the graph results are about registrations, not about service objects.
- Databases, message brokers, gRPC, websockets, cron, migrations and command-line programs: their guarantees rest on client libraries and servers.
