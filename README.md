# SharpDetect core, modelled in Dafny

SharpDetect is a dynamic analysis framework for .NET programs. A native CLR
profiler rewrites method bodies as they are JIT-compiled, so that field
accesses, monitor operations and thread events are reported; the events travel
through a memory-mapped queue to a managed host that keeps a shadow of the
runtime and feeds plugins. The plugins detect data races with the Eraser
lockset algorithm or with FastTrack vector clocks, and detect deadlocks with a
wait-for graph.

This project models the sequential, deterministic core of that pipeline and
proves what it promises:

- **Race and deadlock analysis.** The interned, sorted lock-set table and the
  Eraser state machine (`lock_set_table.dfy`, `eraser_state_machine.dfy`), the
  reentrant shadow lock (`shadow_lock.dfy`), the wait-for graph with Tarjan's
  strongly-connected-components search (`wait_for_graph.dfy`, `tarjan.dfy`),
  the execution-ordering bookkeeping (`concurrency_context.dfy`), the
  blocked-event delivery queues (`delivery_context.dfy`) and the FastTrack
  vector-clock operations (`fast_track.dfy`).
- **Shadow runtime.** The runtime suspend/resume/garbage-collection state
  machine and the thread map (`shadow_clr.dfy`), and the profiler's tracking
  of objects across a garbage collection (`gc_context.dfy`).
- **Byte codecs.** Little-endian integers (`bytes.dfy`), the array writers
  (`byte_array_helpers.dfy`), the length-prefixed frame queue
  (`memory_mapped_queue.dfy`) and the packed argument infos
  (`arguments_helper.dfy`).
- **CIL method bodies** (ECMA-335 Partition II, section 25.4). Header and
  instruction decoding (`method_body_helpers.dfy`), the opcode tables
  (`opcodes.dfy`), call-token patching and wrapper generation
  (`instrumentation.dfy`), and the method-body assembler with tiny and fat
  headers and exception-handling sections (`fast_method_assembler.dfy`).
  Shared entity types (thread and object identifiers, opcodes, instructions)
  live in `models.dfy`.

Objects whose fields the source updates in place are Dafny classes whose
methods carry `modifies` clauses. Each such method is specified by pure
functions of the old state, and the lemmas beside it prove the invariants.
Pure code is modelled as functions and lemmas.

## Model

| member | source | states |
|---|---|---|
| LockSetTable.LockSetTable.constructor | src/Extensibility/SharpDetect.Plugins.DataRace.Eraser/LockSetTable.cs:17-22 | the table starts with exactly one set, the empty one, at index 0 |
| LockSetTable.LockSetTable.EmptyOnlyAtZero | src/Extensibility/SharpDetect.Plugins.DataRace.Eraser/LockSetTable.cs:17-22 | index 0, and no other index, denotes the empty set, as long as the table is valid |
| LockSetTable.LockSetTable.Intersect | src/Extensibility/SharpDetect.Plugins.DataRace.Eraser/LockSetTable.cs:24-44 | the result's set is the intersection of the two operands' sets; an empty operand gives Empty; Intersect(x, x) gives x; the table only grows and stays valid, and so do the caches |
| LockSetTable.LockSetTable.ComputeIntersection | src/Extensibility/SharpDetect.Plugins.DataRace.Eraser/LockSetTable.cs:36-43 | interns the sorted intersection of the two sets and returns an index whose set is exactly that intersection |
| LockSetTable.LockSetTable.Add | src/Extensibility/SharpDetect.Plugins.DataRace.Eraser/LockSetTable.cs:46-67 | the result's set is the old set plus the lock; the same index comes back when the lock is already present |
| LockSetTable.LockSetTable.Remove | src/Extensibility/SharpDetect.Plugins.DataRace.Eraser/LockSetTable.cs:69-92 | the result's set is the old set minus the lock; the same index comes back for the empty set or an absent lock |
| LockSetTable.LockSetTable.ComputeRemove | src/Extensibility/SharpDetect.Plugins.DataRace.Eraser/LockSetTable.cs:78-91 | interns the set without the lock, or returns the same index when the lock is absent |
| LockSetTable.LockSetTable.GetOrCreateInternal | src/Extensibility/SharpDetect.Plugins.DataRace.Eraser/LockSetTable.cs:96-118 | returns an index holding exactly the given sorted set; the table is unchanged when the set is already interned, and otherwise it is appended at index Count |
| LockSetTable.LockSetTable.InternedUnique | src/Extensibility/SharpDetect.Plugins.DataRace.Eraser/LockSetTable.cs:96-118 | interning: two indices with equal sets are the same index |
| LockSetTable.AppendKeepsHash | src/Extensibility/SharpDetect.Plugins.DataRace.Eraser/LockSetTable.cs:108-116 | appending a new set under its hash keeps every set reachable through its hash bucket |
| LockSetTable.AppendKeepsCaches | src/Extensibility/SharpDetect.Plugins.DataRace.Eraser/LockSetTable.cs:114-115 | appending a set keeps all three caches consistent with the table |
| LockSetTable.IntersectionCacheAdd | src/Extensibility/SharpDetect.Plugins.DataRace.Eraser/LockSetTable.cs:42 | storing a correct intersection keeps the intersection cache consistent |
| LockSetTable.AddCacheAdd | src/Extensibility/SharpDetect.Plugins.DataRace.Eraser/LockSetTable.cs:57-65 | storing a correct union keeps the add cache consistent |
| LockSetTable.RemoveCacheAdd | src/Extensibility/SharpDetect.Plugins.DataRace.Eraser/LockSetTable.cs:83-90 | storing a correct difference keeps the remove cache consistent |
| LockSetTable.BinarySearch | src/Extensibility/SharpDetect.Plugins.DataRace.Eraser/LockSetTable.cs:120-141 | a non-negative result is an index holding the lock; a negative result means the lock is absent, and inserting the lock at its complement keeps the set sorted |
| LockSetTable.CreateWithInsertion | src/Extensibility/SharpDetect.Plugins.DataRace.Eraser/LockSetTable.cs:143-159 | one element longer, with the lock at the insertion point and the old elements around it |
| LockSetTable.InsertSorted | src/Extensibility/SharpDetect.Plugins.DataRace.Eraser/LockSetTable.cs:143-159 | inserting between the smaller and the larger elements keeps the set sorted |
| LockSetTable.CreateWithRemoval | src/Extensibility/SharpDetect.Plugins.DataRace.Eraser/LockSetTable.cs:161-177 | still sorted, one element shorter, and its elements are the old ones minus the removed one |
| LockSetTable.SortedIntersection | src/Extensibility/SharpDetect.Plugins.DataRace.Eraser/LockSetTable.cs:179-209 | the merge loop returns a sorted sequence whose elements are exactly those common to both inputs |
| LockSetTable.IntersectionStep | src/Extensibility/SharpDetect.Plugins.DataRace.Eraser/LockSetTable.cs:192-197 | taking a common element keeps the result sorted and equal to the intersection of the scanned prefixes |
| LockSetTable.SkipA | src/Extensibility/SharpDetect.Plugins.DataRace.Eraser/LockSetTable.cs:198-201 | skipping the smaller element of the first set keeps the prefix intersection |
| LockSetTable.SkipB | src/Extensibility/SharpDetect.Plugins.DataRace.Eraser/LockSetTable.cs:202-205 | skipping the smaller element of the second set keeps the prefix intersection |
| LockSetTable.IntersectionDone | src/Extensibility/SharpDetect.Plugins.DataRace.Eraser/LockSetTable.cs:187 | once either set is exhausted, the prefix intersection is the whole intersection |
| LockSetTable.SortedUnique | src/Extensibility/SharpDetect.Plugins.DataRace.Eraser/LockSetTable.cs:220-225 | two sorted sequences with the same elements are equal, so comparing sequences compares sets |
| EraserStateMachine.Transition | src/Extensibility/SharpDetect.Plugins.DataRace.Eraser/EraserStateMachine.cs:17-93 | records the previous state; Virgin becomes Exclusive with the thread's lock set; an access by the exclusive owner keeps the shadow; any other access moves to Shared on a read or SharedModified on a write, with the intersected lock set; a race is reported exactly when an intersection was taken and it is empty; the state never moves back |
| EraserStateMachine.ComputeTransition | src/Extensibility/SharpDetect.Plugins.DataRace.Eraser/EraserStateMachine.cs:17-31 | computes the transition through the lock-set table; only a state that needs an intersection changes the table; a race is reported exactly when the intersection of the two sets is empty; the candidate lock set never grows |
| EraserStateMachine.SingleThreadNeverRaces | src/Extensibility/SharpDetect.Plugins.DataRace.Eraser/EraserStateMachine.cs:33-52 | a run of accesses by one thread from Virgin or from its own Exclusive state never reports a race, and it ends Exclusive to that thread |
| EraserStateMachine.SharedModifiedIsSticky | src/Extensibility/SharpDetect.Plugins.DataRace.Eraser/EraserStateMachine.cs:74-93 | once SharedModified, every later access keeps the state SharedModified |
| ShadowLock.ProcessCheck | src/SharpDetect.Core/Plugins/Models/ShadowLock.cs:61-65 | a different process is rejected with InvalidProcess |
| ShadowLock.AcquireCheck | src/SharpDetect.Core/Plugins/Models/ShadowLock.cs:45-50 | acquiring succeeds exactly for the right process when the lock is free or held by the caller; otherwise InvalidProcess or LockAlreadyAcquired |
| ShadowLock.ReleaseCheck | src/SharpDetect.Core/Plugins/Models/ShadowLock.cs:52-59 | releasing succeeds exactly for the right process and the owner; otherwise InvalidProcess, LockNotTaken or LockReleasedByAnotherThread |
| ShadowLock.Acquired | src/SharpDetect.Core/Plugins/Models/ShadowLock.cs:15-27 | the owner becomes the caller and the count grows by the amount; a count of at least one keeps "no owner iff count 0" |
| ShadowLock.Released | src/SharpDetect.Core/Plugins/Models/ShadowLock.cs:29-34 | the count drops by one and the owner becomes null exactly when it reaches 0 |
| ShadowLock.ReleasedAll | src/SharpDetect.Core/Plugins/Models/ShadowLock.cs:36-43 | the count becomes 0 and the owner null |
| ShadowLock.ReleaseAllRoundTrip | src/SharpDetect.Core/Plugins/Models/ShadowLock.cs:22-43 | ReleaseAll then AcquireMultiple with the returned count restores owner and count |
| ShadowLock.OtherProcessFails | src/SharpDetect.Core/Plugins/Models/ShadowLock.cs:47-65 | every acquire or release from another process fails with InvalidProcess |
| ShadowLock.ShadowLock.constructor | src/SharpDetect.Core/Plugins/Models/ShadowLock.cs:8-13 | the lock belongs to the object's process and starts unowned with count 0 |
| ShadowLock.ShadowLock.Acquire | src/SharpDetect.Core/Plugins/Models/ShadowLock.cs:15-20 | fails with the acquire check's error and nothing changes, or the owner is set and the count grows by one |
| ShadowLock.ShadowLock.AcquireMultiple | src/SharpDetect.Core/Plugins/Models/ShadowLock.cs:22-27 | the same, with the count growing by the given amount |
| ShadowLock.ShadowLock.Release | src/SharpDetect.Core/Plugins/Models/ShadowLock.cs:29-34 | fails with the release check's error and nothing changes, or the count drops by one and the owner is cleared at 0 |
| ShadowLock.ShadowLock.ReleaseAll | src/SharpDetect.Core/Plugins/Models/ShadowLock.cs:36-43 | returns the previous count and leaves count 0 and no owner, or fails and changes nothing |
| WaitForGraph.WithNode | src/Extensibility/SharpDetect.Plugins/Deadlock/WaitForGraph.cs:99-105 | ensuring a thread exists adds it with no successors and leaves every existing node's successors alone |
| WaitForGraph.AddEdge | src/Extensibility/SharpDetect.Plugins/Deadlock/WaitForGraph.cs:25-30 | both threads become nodes, the waiter gains the owner as a successor, and every other node is unchanged |
| WaitForGraph.ClearEdges | src/Extensibility/SharpDetect.Plugins/Deadlock/WaitForGraph.cs:34-37 | the thread is a node with no successors and every other node is unchanged |
| WaitForGraph.WaitForGraph.constructor | src/Extensibility/SharpDetect.Plugins/Deadlock/WaitForGraph.cs:11-18 | a graph for the process with no nodes and no wait infos |
| WaitForGraph.WaitForGraph.SetThreadWaiting | src/Extensibility/SharpDetect.Plugins/Deadlock/WaitForGraph.cs:25-32 | the edges gain waiter to owner (both nodes created) and the waiter's wait info is recorded |
| WaitForGraph.WaitForGraph.ClearThreadWaiting | src/Extensibility/SharpDetect.Plugins/Deadlock/WaitForGraph.cs:34-39 | the thread's out-edges are cleared, its wait info is removed, and other nodes are unchanged |
| WaitForGraph.WaitForGraph.DetectDeadlocks | src/Extensibility/SharpDetect.Plugins/Deadlock/WaitForGraph.cs:41-57 | reports exactly the components of two or more threads; every component is duplicate-free, made of graph nodes and strongly connected; components are pairwise disjoint, and together they hold every thread of the graph, so each thread lies in exactly one component |
| WaitForGraph.WaitForGraph.VisitRoot | src/Extensibility/SharpDetect.Plugins/Deadlock/WaitForGraph.cs:47-50 | a visit started from the outer loop on an unnumbered node numbers it, keeps every earlier number and leaves the stack empty again |
| WaitForGraph.KeepDeadlocks | src/Extensibility/SharpDetect.Plugins/Deadlock/WaitForGraph.cs:50-55 | the components of one search are appended in order, keeping only those with more than one thread |
| WaitForGraph.DeadlockedMembers | src/Extensibility/SharpDetect.Plugins/Deadlock/WaitForGraph.cs:52-54 | a component is reported exactly when it was found and has more than one thread, so a self-loop is never reported |
| WaitForGraph.DeadlockedAppend | src/Extensibility/SharpDetect.Plugins/Deadlock/WaitForGraph.cs:45-56 | filtering the components of successive searches is filtering their concatenation |
| WaitForGraph.DeadlockedDisjoint | src/Extensibility/SharpDetect.Plugins/Deadlock/WaitForGraph.cs:45-56 | filtering keeps the found components pairwise disjoint |
| WaitForGraph.WaitForGraph.StrongConnect | src/Extensibility/SharpDetect.Plugins/Deadlock/WaitForGraph.cs:59-97 | numbers the node with the next index, only adds numbered nodes, keeps earlier numbers, leaves the caller's stack as a prefix with the new part above the node, appends found components to the output, and keeps the Tarjan invariant |
| WaitForGraph.WaitForGraph.FinishNode | src/Extensibility/SharpDetect.Plugins/Deadlock/WaitForGraph.cs:84-96 | a node whose low-link differs from its index emits nothing and leaves the stack as it is; a root pops exactly its component off the stack and emits it; numbering and low-links are unchanged and the Tarjan invariant is kept |
| WaitForGraph.WaitForGraph.Push | src/Extensibility/SharpDetect.Plugins/Deadlock/WaitForGraph.cs:61-66 | the node's index and lowlink are the counter, the counter grows by one, and the node is pushed and marked on the stack |
| WaitForGraph.WaitForGraph.VisitSuccessors | src/Extensibility/SharpDetect.Plugins/Deadlock/WaitForGraph.cs:68-82 | visiting all successors keeps the invariant and the node's index, leaves its lowlink at most its index, and keeps the stack below it |
| WaitForGraph.WaitForGraph.VisitSuccessor | src/Extensibility/SharpDetect.Plugins/Deadlock/WaitForGraph.cs:72-80 | one successor: recurse into an unvisited one and lower the lowlink, or lower it to an on-stack successor's index |
| WaitForGraph.WaitForGraph.VisitChild | src/Extensibility/SharpDetect.Plugins/Deadlock/WaitForGraph.cs:72-77 | recursing into an unvisited successor then taking the minimum of the lowlinks keeps the invariant |
| WaitForGraph.WaitForGraph.PopComponent | src/Extensibility/SharpDetect.Plugins/Deadlock/WaitForGraph.cs:84-96 | at a root, pops the stack down to the node and emits that strongly connected component |
| WaitForGraph.WaitForGraph.PopUntil | src/Extensibility/SharpDetect.Plugins/Deadlock/WaitForGraph.cs:87-94 | the do-while loop pops down to and including the node, returning the popped nodes in pop order |
| Tarjan.TarjanState.constructor | src/Extensibility/SharpDetect.Plugins/Deadlock/WaitForGraph.cs:43 | the search starts with no indices or lowlinks, counter 0 and an empty stack |
| Tarjan.PushStep | src/Extensibility/SharpDetect.Plugins/Deadlock/WaitForGraph.cs:61-66 | numbering and pushing an unvisited node keeps the Tarjan invariant |
| Tarjan.LowerStep | src/Extensibility/SharpDetect.Plugins/Deadlock/WaitForGraph.cs:77-80 | lowering a lowlink with the minimum keeps the Tarjan invariant |
| Tarjan.LowerToOnStack | src/Extensibility/SharpDetect.Plugins/Deadlock/WaitForGraph.cs:79-80 | an on-stack successor's index is a valid lower lowlink, witnessed by its stack position |
| Tarjan.ChainToRoot | src/Extensibility/SharpDetect.Plugins/Deadlock/WaitForGraph.cs:84-96 | every node above a root on the stack reaches the root |
| Tarjan.PopScc | src/Extensibility/SharpDetect.Plugins/Deadlock/WaitForGraph.cs:84-96 | the nodes popped at a root form a component in which the root reaches every member and every member reaches the root |
| Tarjan.PopStep | src/Extensibility/SharpDetect.Plugins/Deadlock/WaitForGraph.cs:87-96 | popping a component keeps the Tarjan invariant |
| Tarjan.SccStronglyConnected | src/Extensibility/SharpDetect.Plugins/Deadlock/WaitForGraph.cs:87-96 | such a component is strongly connected: its threads wait for one another in a cycle |
| Tarjan.BottomIsRoot | src/Extensibility/SharpDetect.Plugins/Deadlock/WaitForGraph.cs:84-85 | the node at the bottom of the stack has a lowlink no smaller than its index, so it is a root and is never left on the stack |
| Tarjan.AllEmitted | src/Extensibility/SharpDetect.Plugins/Deadlock/WaitForGraph.cs:87-96 | with the stack empty, the popped components hold exactly the numbered nodes |
| ConcurrencyContext.HasLock | src/Extensibility/SharpDetect.Plugins.ExecutionOrdering/ConcurrencyContext.cs:18 | the error exactly for an unregistered thread; otherwise true exactly when the thread holds the lock |
| ConcurrencyContext.TryGetWaitingLock | src/Extensibility/SharpDetect.Plugins.ExecutionOrdering/ConcurrencyContext.cs:20-23 | succeeds exactly when the thread's waiting entry exists and is not null, and yields that lock |
| ConcurrencyContext.TryGetLockOwner | src/Extensibility/SharpDetect.Plugins.ExecutionOrdering/ConcurrencyContext.cs:25-28 | succeeds exactly when the lock has an owner, and yields it |
| ConcurrencyContext.TryGetWaitingThread | src/Extensibility/SharpDetect.Plugins.ExecutionOrdering/ConcurrencyContext.cs:30-33 | succeeds exactly when the thread's joining entry exists and is not null, and yields that thread |
| ConcurrencyContext.GetWaitingLock | src/Extensibility/SharpDetect.Plugins.ExecutionOrdering/ConcurrencyContext.cs:35-41 | fails (the thrown exception) exactly when TryGetWaitingLock fails, and otherwise yields the same lock |
| ConcurrencyContext.AcquireCalled | src/Extensibility/SharpDetect.Plugins.ExecutionOrdering/ConcurrencyContext.cs:48-51 | the thread now waits for the lock; nothing else changes |
| ConcurrencyContext.AcquireReturned | src/Extensibility/SharpDetect.Plugins.ExecutionOrdering/ConcurrencyContext.cs:53-61 | on success the lock joins the thread's taken set and the thread becomes its owner; in every case the waiting lock is cleared; other threads and locks are unchanged |
| ConcurrencyContext.Released | src/Extensibility/SharpDetect.Plugins.ExecutionOrdering/ConcurrencyContext.cs:63-73 | the lock leaves the thread's taken set and loses its owner; other threads and locks are unchanged |
| ConcurrencyContext.Retaken | src/Extensibility/SharpDetect.Plugins.ExecutionOrdering/ConcurrencyContext.cs:75-79 | the lock is back in the thread's taken set with the thread as owner |
| ConcurrencyContext.Created | src/Extensibility/SharpDetect.Plugins.ExecutionOrdering/ConcurrencyContext.cs:81-86 | a created thread waits for no lock and no thread and holds no locks |
| ConcurrencyContext.Destroyed | src/Extensibility/SharpDetect.Plugins.ExecutionOrdering/ConcurrencyContext.cs:88-93 | all three entries of the thread are removed; other threads and the owners are unchanged |
| ConcurrencyContext.Joining | src/Extensibility/SharpDetect.Plugins.ExecutionOrdering/ConcurrencyContext.cs:95-103 | the thread's joining entry is set (or cleared); nothing else changes |
| ConcurrencyContext.AlignedPreserved | src/Extensibility/SharpDetect.Plugins.ExecutionOrdering/ConcurrencyContext.cs:48-103 | every recording keeps the waiting-lock, taken-lock and joining dictionaries over the same threads |
| ConcurrencyContext.AcquireReleaseRoundTrip | src/Extensibility/SharpDetect.Plugins.ExecutionOrdering/ConcurrencyContext.cs:53-67 | a successful acquire followed by a release restores the taken sets and owners |
| ConcurrencyContext.WaitRoundTrip | src/Extensibility/SharpDetect.Plugins.ExecutionOrdering/ConcurrencyContext.cs:69-79 | wait-called followed by wait-returned restores the whole context |
| ConcurrencyContext.ConcurrencyContext.constructor | src/Extensibility/SharpDetect.Plugins.ExecutionOrdering/ConcurrencyContext.cs:12-15 | all four dictionaries start empty |
| ConcurrencyContext.ConcurrencyContext.RecordLockAcquireCalled | src/Extensibility/SharpDetect.Plugins.ExecutionOrdering/ConcurrencyContext.cs:48-51 | the new state is AcquireCalled of the old |
| ConcurrencyContext.ConcurrencyContext.RecordLockAcquireReturned | src/Extensibility/SharpDetect.Plugins.ExecutionOrdering/ConcurrencyContext.cs:53-61 | fails with ThreadNotFound, changing nothing, exactly for a success by an unregistered thread; otherwise the new state is AcquireReturned of the old |
| ConcurrencyContext.ConcurrencyContext.RecordLockReleaseReturned | src/Extensibility/SharpDetect.Plugins.ExecutionOrdering/ConcurrencyContext.cs:63-67 | fails with ThreadNotFound exactly for an unregistered thread; otherwise the new state is Released of the old |
| ConcurrencyContext.ConcurrencyContext.RecordObjectWaitCalled | src/Extensibility/SharpDetect.Plugins.ExecutionOrdering/ConcurrencyContext.cs:69-73 | the same as a release |
| ConcurrencyContext.ConcurrencyContext.RecordObjectWaitReturned | src/Extensibility/SharpDetect.Plugins.ExecutionOrdering/ConcurrencyContext.cs:75-79 | fails with ThreadNotFound exactly for an unregistered thread; otherwise the new state is Retaken of the old |
| ConcurrencyContext.ConcurrencyContext.RecordThreadCreated | src/Extensibility/SharpDetect.Plugins.ExecutionOrdering/ConcurrencyContext.cs:81-86 | the new state is Created of the old |
| ConcurrencyContext.ConcurrencyContext.RecordThreadDestroyed | src/Extensibility/SharpDetect.Plugins.ExecutionOrdering/ConcurrencyContext.cs:88-93 | the new state is Destroyed of the old |
| ConcurrencyContext.ConcurrencyContext.RecordThreadJoinCalled | src/Extensibility/SharpDetect.Plugins.ExecutionOrdering/ConcurrencyContext.cs:95-98 | the thread's joining entry becomes the joined thread |
| ConcurrencyContext.ConcurrencyContext.RecordThreadJoinReturned | src/Extensibility/SharpDetect.Plugins.ExecutionOrdering/ConcurrencyContext.cs:100-103 | the thread's joining entry becomes null |
| ConcurrencyContext.ConcurrencyContext.GetTakenLocks | src/Extensibility/SharpDetect.Plugins.ExecutionOrdering/ConcurrencyContext.cs:43-46 | fails exactly for an unregistered thread; otherwise yields exactly the locks HasLock reports |
| DeliveryContext.WithQueue | src/Extensibility/SharpDetect.PluginHost/Services/RecordedEventsDeliveryContext.cs:30-42 | a blocked thread gets an empty event queue if it has none; existing queues are kept |
| DeliveryContext.BlockOnLock | src/Extensibility/SharpDetect.PluginHost/Services/RecordedEventsDeliveryContext.cs:28-37 | the thread is blocked and appended at the end of the lock's wait queue; other queues and the unblocked set are unchanged |
| DeliveryContext.BlockOnStart | src/Extensibility/SharpDetect.PluginHost/Services/RecordedEventsDeliveryContext.cs:39-48 | the thread is blocked and appended at the end of the thread object's start queue; other queues are unchanged |
| DeliveryContext.UnblockOnLock | src/Extensibility/SharpDetect.PluginHost/Services/RecordedEventsDeliveryContext.cs:50-58 | with an empty or absent queue nothing changes; otherwise only the head waiter is dequeued and moved from blocked to unblocked |
| DeliveryContext.UnblockOnStart | src/Extensibility/SharpDetect.PluginHost/Services/RecordedEventsDeliveryContext.cs:60-71 | every waiter on the thread object is moved from blocked to unblocked and the queue is emptied; an absent queue changes nothing |
| DeliveryContext.BlockThenUnblockOnLock | src/Extensibility/SharpDetect.PluginHost/Services/RecordedEventsDeliveryContext.cs:28-58 | a thread blocked alone on a lock is released by the next unblock, yet still counts as blocked for delivery until consumed |
| DeliveryContext.LockQueueIsFifo | src/Extensibility/SharpDetect.PluginHost/Services/RecordedEventsDeliveryContext.cs:36-54 | of two threads blocked on one lock, an unblock releases the first and leaves the second queued |
| DeliveryContext.UnblockOnStartReleasesAll | src/Extensibility/SharpDetect.PluginHost/Services/RecordedEventsDeliveryContext.cs:64-69 | after a thread-start unblock none of its waiters is blocked and all are unblocked |
| DeliveryContext.RecordedEventsDeliveryContext.constructor | src/Extensibility/SharpDetect.PluginHost/Services/RecordedEventsDeliveryContext.cs:19-26 | all dictionaries and sets start empty |
| DeliveryContext.RecordedEventsDeliveryContext.BlockEventsDeliveryForThreadWaitingForObject | src/Extensibility/SharpDetect.PluginHost/Services/RecordedEventsDeliveryContext.cs:28-37 | the new state is BlockOnLock of the old |
| DeliveryContext.RecordedEventsDeliveryContext.BlockEventsDeliveryForThreadWaitingForThreadStart | src/Extensibility/SharpDetect.PluginHost/Services/RecordedEventsDeliveryContext.cs:39-48 | the new state is BlockOnStart of the old |
| DeliveryContext.RecordedEventsDeliveryContext.UnblockEventsDeliveryForThreadWaitingForObject | src/Extensibility/SharpDetect.PluginHost/Services/RecordedEventsDeliveryContext.cs:50-58 | the new state is UnblockOnLock of the old |
| DeliveryContext.RecordedEventsDeliveryContext.UnblockEventsDeliveryForThreadWaitingForThreadStart | src/Extensibility/SharpDetect.PluginHost/Services/RecordedEventsDeliveryContext.cs:60-71 | the dequeue loop ends in UnblockOnStart of the old state |
| DeliveryContext.RecordedEventsDeliveryContext.ConsumeUndeliveredEvents | src/Extensibility/SharpDetect.PluginHost/Services/RecordedEventsDeliveryContext.cs:83-93 | yields the thread's events in enqueue order and leaves its queue empty; a thread without a queue yields nothing; nothing else changes |
| DeliveryContext.RecordedEventsDeliveryContext.HasUnblockedThreads | src/Extensibility/SharpDetect.PluginHost/Services/RecordedEventsDeliveryContext.cs:95-98 | true exactly when some thread is unblocked |
| DeliveryContext.RecordedEventsDeliveryContext.HasBlockedThreads | src/Extensibility/SharpDetect.PluginHost/Services/RecordedEventsDeliveryContext.cs:100-103 | true exactly when some thread is blocked |
| DeliveryContext.RecordedEventsDeliveryContext.ConsumeUnblockedThreads | src/Extensibility/SharpDetect.PluginHost/Services/RecordedEventsDeliveryContext.cs:105-113 | yields every unblocked thread exactly once and leaves the unblocked set empty; nothing else changes |
| DeliveryContext.DrainStep | src/Extensibility/SharpDetect.PluginHost/Services/RecordedEventsDeliveryContext.cs:107-111 | taking one thread out of the pending set keeps drained plus pending equal to the original set, disjoint and without repeats |
| DeliveryContext.RecordedEventsDeliveryContext.EnqueueBlockedEventForThread | src/Extensibility/SharpDetect.PluginHost/Services/RecordedEventsDeliveryContext.cs:115-118 | appends the event to the thread's queue; a thread without a queue is an error (the KeyNotFoundException) and changes nothing |
| DeliveryContext.RecordedEventsDeliveryContext.IsBlockedEventsDeliveryForThread | src/Extensibility/SharpDetect.PluginHost/Services/RecordedEventsDeliveryContext.cs:120-123 | true exactly when the thread is in the blocked or the unblocked set |
| FastTrack.Entry | src/SharpDetect.Plugins/VectorClock/FastTrackPlugin.cs:156-172 | a fresh entry `(uint)i << 24` belongs to thread i mod 256 and is i·2^24 for ids below 256 |
| FastTrack.ThreadOf | src/SharpDetect.Plugins/VectorClock/FastTrackPlugin.cs:156-160 | an epoch's thread id is its top byte: the epoch lies within the 2^24 block that starts at that thread's `i << 24` entry |
| FastTrack.Max | src/SharpDetect.Plugins/VectorClock/FastTrackPlugin.cs:98 | Math.Max: at least both arguments and equal to one of them |
| FastTrack.Extended | src/SharpDetect.Plugins/VectorClock/FastTrackPlugin.cs:163-172 | the length becomes max(old, size), existing entries are unchanged, and each new entry i is Entry(i) |
| FastTrack.ExtendVectorClockTo | src/SharpDetect.Plugins/VectorClock/FastTrackPlugin.cs:163-172 | the append loop computes Extended |
| FastTrack.ExtendedKeeps | src/SharpDetect.Plugins/VectorClock/FastTrackPlugin.cs:163-172 | an extended clock covers the original, and extending again to a size it already has changes nothing |
| FastTrack.NewVectorClock | src/SharpDetect.Plugins/VectorClock/FastTrackPlugin.cs:156-161 | appends size entries, entry i being i << 24, after the existing ones |
| FastTrack.PointwiseMax | src/SharpDetect.Plugins/VectorClock/FastTrackPlugin.cs:123-137 | entry by entry the maximum of two clocks of one length |
| FastTrack.MaxCoversBoth | src/SharpDetect.Plugins/VectorClock/FastTrackPlugin.cs:123-137 | the pointwise maximum covers both clocks |
| FastTrack.Joined | src/SharpDetect.Plugins/VectorClock/FastTrackPlugin.cs:132-137 | extending both clocks to a common size and taking the maximum gives a clock covering both |
| FastTrack.CoversTrans | src/SharpDetect.Plugins/VectorClock/FastTrackPlugin.cs:130-154 | clock dominance is transitive |
| FastTrack.ReleaseAcquireOrders | src/SharpDetect.Plugins/VectorClock/FastTrackPlugin.cs:130-154 | happens-before: after one thread releases a lock and another acquires it, the acquirer's clock covers the releaser's |
| FastTrack.Acquire | src/SharpDetect.Plugins/VectorClock/FastTrackPlugin.cs:130-141 | the thread clock becomes the pointwise max of the thread and lock clocks, the lock clock is only extended, and the lock is taken |
| FastTrack.Release | src/SharpDetect.Plugins/VectorClock/FastTrackPlugin.cs:143-154 | the lock clock becomes a copy of the (extended) thread clock and the lock is not taken |
| FastTrack.Read | src/SharpDetect.Plugins/VectorClock/FastTrackPlugin.cs:14-53 | the same epoch returns true and changes nothing; otherwise the result is false exactly for a write not ordered before the thread, an ordered exclusive read takes the thread's epoch, a shared read extends the read clock (an absent one from empty) to the thread clock's length and sets the thread's entry to its epoch, and a newly shared read takes the read clock (or a new one of the thread clock's length plus one) with the previous reader's entry and then the thread's entry set, every other entry unchanged |
| FastTrack.Share | src/SharpDetect.Plugins/VectorClock/FastTrackPlugin.cs:38-48 | the read clock, created when absent, gets the previous reader's epoch and then the thread's epoch at their ids, every other entry unchanged, and the read epoch becomes the shared one |
| FastTrack.FastTrackPlugin.Write | src/SharpDetect.Plugins/VectorClock/FastTrackPlugin.cs:55-86 | the same epoch returns true and changes nothing; otherwise the write epoch becomes the thread's and the result is true exactly when the last write and the last read (or every shared read up to lastThreadId) are ordered before the thread |
| FastTrack.FastTrackPlugin.Fork | src/SharpDetect.Plugins/VectorClock/FastTrackPlugin.cs:88-113 | counts one more thread, records the forked id, extends both clocks past it, and gives the forked clock the entrywise max of both (covering the original); every other thread's clock gains fresh entries; a forked clock longer than the original's throws part way, and the model stops there |
| FastTrack.FastTrackPlugin.PadOthers | src/SharpDetect.Plugins/VectorClock/FastTrackPlugin.cs:99-109 | every registered thread other than the two already extended gets its clock grown to the new size with fresh entries (its own entry counting one step); the two extended clocks and all epochs are unchanged |
| FastTrack.FastTrackPlugin.ExtendAndJoin | src/SharpDetect.Plugins/VectorClock/FastTrackPlugin.cs:94-98 | both clocks grow to the size, and the forked clock takes the entrywise max over its positions, succeeding exactly when the original is at least as long |
| FastTrack.MaxPrefixInto | src/SharpDetect.Plugins/VectorClock/FastTrackPlugin.cs:97-98 | the max loop over the target's positions, which fails when the source is shorter |
| FastTrack.MaxPrefix | src/SharpDetect.Plugins/VectorClock/FastTrackPlugin.cs:97-98 | each target position takes the max with the source where the source has an entry |
| FastTrack.PadAll | src/SharpDetect.Plugins/VectorClock/FastTrackPlugin.cs:99-109 | every thread's clock is padded to the size with fresh entries, its own entry one step ahead |
| FastTrack.PadClock | src/SharpDetect.Plugins/VectorClock/FastTrackPlugin.cs:101-108 | one thread's clock is padded to the size |
| FastTrack.Padded | src/SharpDetect.Plugins/VectorClock/FastTrackPlugin.cs:101-108 | the clock keeps its entries and gains Entry(i) for each new id, plus one for the thread's own id |
| FastTrack.PaddedIdle | src/SharpDetect.Plugins/VectorClock/FastTrackPlugin.cs:101 | a clock already long enough is not padded |
| FastTrack.FastTrackPlugin.Join | src/SharpDetect.Plugins/VectorClock/FastTrackPlugin.cs:115-128 | counts one thread less; the original clock becomes the pointwise max of both, covering the joined clock |
| GcContext.GarbageCollectionContext.constructor | src/SharpDetect.Profiler/LibProfiler/GarbageCollectionContext.cpp:10-41 | the previous heap is the old heap sorted by address, the previous tracked set is all old tracked ids, and every object in a range of a generation not being collected is kept with its address and tracked id; the context is valid (next tracked set within the previous one) |
| GcContext.SortByObjectId | src/SharpDetect.Profiler/LibProfiler/GarbageCollectionContext.cpp:14-28 | the heap's entries, sorted strictly ascending by address and representing exactly the old heap map |
| GcContext.SortStep | src/SharpDetect.Profiler/LibProfiler/GarbageCollectionContext.cpp:24-28 | appending the least remaining address keeps the sorted prefix representing the entries taken so far |
| GcContext.Least | src/SharpDetect.Profiler/LibProfiler/GarbageCollectionContext.cpp:24-28 | a non-empty set of addresses has a least element |
| GcContext.TrackedIds | src/SharpDetect.Profiler/LibProfiler/GarbageCollectionContext.cpp:18-22 | the collected tracked ids are exactly the old heap's values |
| GcContext.Uncollected | src/SharpDetect.Profiler/LibProfiler/GarbageCollectionContext.cpp:31-37 | the bounds kept wholesale are exactly those whose generation is not being collected |
| GcContext.KeepUncollected | src/SharpDetect.Profiler/LibProfiler/GarbageCollectionContext.cpp:31-40 | the constructor loop keeps every object of every uncollected range, as KeptRanges of the uncollected bounds |
| GcContext.UncollectedStep | src/SharpDetect.Profiler/LibProfiler/GarbageCollectionContext.cpp:39 | processing one more uncollected range extends the kept entries by that range |
| GcContext.KeptRangesMembers | src/SharpDetect.Profiler/LibProfiler/GarbageCollectionContext.cpp:31-40 | an entry is kept wholesale exactly when it is in the old heap and its address lies in an uncollected range |
| GcContext.KeptRangesIds | src/SharpDetect.Profiler/LibProfiler/GarbageCollectionContext.cpp:31-40 | the wholesale-kept tracked ids are among the previous tracked ids |
| GcContext.GarbageCollectionContext.ProcessSurvivingReferences | src/SharpDetect.Profiler/LibProfiler/GarbageCollectionContext.cpp:43-70 | the builder gains, for every range, the old entries whose address lies in [start, start + length - 1), with their addresses and tracked ids; the tracked set gains their ids and stays within the previous set |
| GcContext.KeepRanges | src/SharpDetect.Profiler/LibProfiler/GarbageCollectionContext.cpp:45-69 | the per-range loop inserts Kept of all ranges into the builder and adds their ids |
| GcContext.KeepRange | src/SharpDetect.Profiler/LibProfiler/GarbageCollectionContext.cpp:47-68 | one more range extends the inserted entries by that range's segment |
| GcContext.KeepSlice | src/SharpDetect.Profiler/LibProfiler/GarbageCollectionContext.cpp:60-68 | the copy loop inserts the slice between the two search results and adds their ids |
| GcContext.Segment | src/SharpDetect.Profiler/LibProfiler/GarbageCollectionContext.cpp:51-58 | a range selects only entries at or above its start |
| GcContext.SegmentSlice | src/SharpDetect.Profiler/LibProfiler/GarbageCollectionContext.cpp:51-60 | the selected entries are the slice between the insertion points of start and start + length - 1 |
| GcContext.SegmentMembers | src/SharpDetect.Profiler/LibProfiler/GarbageCollectionContext.cpp:51-60 | an entry is selected exactly when it is in the heap and its address lies in [start, start + length - 1) |
| GcContext.KeptMembers | src/SharpDetect.Profiler/LibProfiler/GarbageCollectionContext.cpp:43-70 | an entry survives exactly when it is in the heap and its address lies in one of the ranges |
| GcContext.Survivors | src/SharpDetect.Profiler/LibProfiler/GarbageCollectionContext.cpp:60-68 | every surviving object not already in the builder is there afterwards with its own tracked id, and no unknown address appears |
| GcContext.GarbageCollectionContext.ProcessMovingReferences | src/SharpDetect.Profiler/LibProfiler/GarbageCollectionContext.cpp:72-101 | the builder gains, for every range, each old entry in [oldStart, oldStart + length - 1) at address newStart + (old - oldStart), with its tracked id; the tracked set gains their ids and stays within the previous set |
| GcContext.MoveRanges | src/SharpDetect.Profiler/LibProfiler/GarbageCollectionContext.cpp:74-100 | the per-range loop inserts Moved of all ranges and adds their ids |
| GcContext.MoveRange | src/SharpDetect.Profiler/LibProfiler/GarbageCollectionContext.cpp:76-99 | one more range extends the inserted entries by that range's relocated segment |
| GcContext.MoveSlice | src/SharpDetect.Profiler/LibProfiler/GarbageCollectionContext.cpp:90-99 | the copy loop inserts the relocated slice and adds its ids |
| GcContext.Shifted | src/SharpDetect.Profiler/LibProfiler/GarbageCollectionContext.cpp:96 | an address at or above the old start moves to newStart + (address - oldStart) |
| GcContext.Relocated | src/SharpDetect.Profiler/LibProfiler/GarbageCollectionContext.cpp:90-99 | relocation keeps the number of entries |
| GcContext.MovedFrom | src/SharpDetect.Profiler/LibProfiler/GarbageCollectionContext.cpp:72-101 | every moved entry comes from an old entry of one of the ranges, shifted by that range's offset and with the same tracked id |
| GcContext.MovedObjects | src/SharpDetect.Profiler/LibProfiler/GarbageCollectionContext.cpp:90-99 | every address a move inserts maps to the tracked id of the old object it was shifted from |
| GcContext.KeptIds | src/SharpDetect.Profiler/LibProfiler/GarbageCollectionContext.cpp:60-69 | surviving ids are among the previous tracked ids |
| GcContext.MovedIds | src/SharpDetect.Profiler/LibProfiler/GarbageCollectionContext.cpp:90-99 | moved ids are among the previous tracked ids |
| GcContext.InsertAllKeeps | src/SharpDetect.Profiler/LibProfiler/GarbageCollectionContext.cpp:66-97 | std::unordered_map::insert never overwrites: existing addresses keep their ids and the keys are the union |
| GcContext.InsertAllConsistent | src/SharpDetect.Profiler/LibProfiler/GarbageCollectionContext.cpp:66-97 | inserting entries whose addresses are new records each with its own tracked id |
| GcContext.BinarySearch | src/SharpDetect.Profiler/LibProfiler/GarbageCollectionContext.cpp:103-125 | a non-negative result indexes an entry with that address; a negative result means the address is absent, and its complement is the insertion point (~0 on an empty heap) |
| GcContext.ClosestIndex | src/SharpDetect.Profiler/LibProfiler/GarbageCollectionContext.cpp:51-58 | the search result, complemented when negative, is the insertion point of the address |
| GcContext.PositionSplits | src/SharpDetect.Profiler/LibProfiler/GarbageCollectionContext.cpp:103-125 | all entries before the insertion point have smaller addresses and the rest have larger or equal ones |
| GcContext.PositionUnique | src/SharpDetect.Profiler/LibProfiler/GarbageCollectionContext.cpp:103-125 | an index that splits the sorted heap that way is the insertion point |
| InterProcessQueue.Open | src/SharpDetect.InterProcessQueue/MemoryMappedQueue.cs:38-45 | a capacity below header + 4 + 1 is rejected; otherwise a valid, empty queue |
| InterProcessQueue.MemoryMappedQueue.constructor | src/SharpDetect.InterProcessQueue/MemoryMappedQueue.cs:38-59 | the ring after the header has capacity minus header bytes, both offsets are 0 and no message is pending |
| InterProcessQueue.MemoryMappedQueue.HasEnoughSpace | src/SharpDetect.InterProcessQueue/MemoryMappedQueue.cs:178-190 | a non-negative length fits exactly when the unread bytes plus the length fit in the ring; a negative length always passes |
| InterProcessQueue.FitsExactly | src/SharpDetect.InterProcessQueue/MemoryMappedQueue.cs:178-190 | for non-negative lengths the early size test adds nothing to the unread-plus-length test |
| InterProcessQueue.MemoryMappedQueue.Enqueue | src/SharpDetect.InterProcessQueue/MemoryMappedQueue.cs:67-103 | fails without the write lock; fails with NotEnoughFreeMemory, changing nothing, exactly when unread + 4 + len exceeds the ring; otherwise the message is appended to the pending ones, its frame is written after the unread bytes and WriteOffset advances by exactly 4 + len |
| InterProcessQueue.MemoryMappedQueue.Dequeue | src/SharpDetect.InterProcessQueue/MemoryMappedQueue.cs:105-148 | fails without the read lock; NothingToRead, changing nothing, when no message is pending; otherwise returns the oldest message byte for byte, drops it from the pending ones and advances ReadOffset by 4 + its size |
| InterProcessQueue.Frame | src/SharpDetect.InterProcessQueue/MemoryMappedQueue.cs:83-88 | a frame is the 4-byte length prefix followed by the payload |
| InterProcessQueue.FrameRoundTrip | src/SharpDetect.InterProcessQueue/MemoryMappedQueue.cs:123-129 | reading a frame's prefix back as an int gives the payload length, and the bytes after it are the payload |
| InterProcessQueue.Stream | src/SharpDetect.InterProcessQueue/MemoryMappedQueue.cs:83-91 | the unread bytes are the frames of the pending messages, empty exactly when none is pending |
| InterProcessQueue.StreamSnoc | src/SharpDetect.InterProcessQueue/MemoryMappedQueue.cs:83-91 | enqueueing appends the new frame to the unread bytes |
| InterProcessQueue.EnqueueWrites | src/SharpDetect.InterProcessQueue/MemoryMappedQueue.cs:85-88 | writing the prefix and then the payload after the unread bytes leaves the ring holding the unread bytes followed by the frame |
| InterProcessQueue.ReadBack | src/SharpDetect.InterProcessQueue/MemoryMappedQueue.cs:124-129 | reading the offsets that hold some bytes returns exactly those bytes |
| InterProcessQueue.MemoryMappedQueue.WriteRing | src/SharpDetect.InterProcessQueue/MemoryMappedQueue.cs:87-88 | the circular write stores the bytes at consecutive offsets modulo the ring size and leaves the rest of a lap unchanged |
| InterProcessQueue.MemoryMappedQueue.ReadRing | src/SharpDetect.InterProcessQueue/MemoryMappedQueue.cs:124-129 | the circular read returns the bytes at consecutive offsets modulo the ring size |
| InterProcessQueue.AdmitsAsWrittenOverflow | src/SharpDetect.InterProcessQueue/MemoryMappedQueue.cs:80 | as written, `4 + data.Length` in int arithmetic wraps for a payload of int.MaxValue bytes, so an empty 100-byte ring admits it although the frame does not fit |
| InterProcessQueue.AdmitsFrame | src/SharpDetect.InterProcessQueue/MemoryMappedQueue.cs:80-81 | with the frame size computed without wrap-around, an admitted frame fits beside the unread bytes |
| ArgumentsHelper.Index | src/SharpDetect.Core/Utilities/ArgumentsHelper.cs:20-21 | the argument index is the upper 16 bits of the info, below 2^16 |
| ArgumentsHelper.Size | src/SharpDetect.Core/Utilities/ArgumentsHelper.cs:22-23 | the argument size is the lower 16 bits of the info, below 2^16 |
| ArgumentsHelper.PackRoundTrip | src/SharpDetect.Profiler/SharpDetect.Concurrency.Profiler/CorProfiler.cpp:1018 | decoding the profiler's `(index << 16) \| size` recovers both fields when each is below 2^16 |
| ArgumentsHelper.UnpackRoundTrip | src/SharpDetect.Core/Utilities/ArgumentsHelper.cs:19-23 | every 32-bit info is the packing of its decoded index and size |
| ArgumentsHelper.Infos | src/SharpDetect.Core/Utilities/ArgumentsHelper.cs:13 | one 32-bit little-endian info per 4 bytes of the offsets buffer |
| ArgumentsHelper.ParseArguments | src/SharpDetect.Core/Utilities/ArgumentsHelper.cs:10-34 | the cursor loop computes ParseFrom over the infos from cursor 0 |
| ArgumentsHelper.ParseNext | src/SharpDetect.Core/Utilities/ArgumentsHelper.cs:19-30 | the loop body: a failure is the failure of the whole parse from this info on; a success yields this info's (index, argument) entry and the cursor advanced by its size, so the rest of the parse continues from there |
| ArgumentsHelper.ParseStep | src/SharpDetect.Core/Utilities/ArgumentsHelper.cs:18-31 | one step: an index outside the parameters or a slice past the values fails; otherwise the value slice at the cursor is parsed, the entry appended, and the cursor advances by the size |
| ArgumentsHelper.ParseFromShape | src/SharpDetect.Core/Utilities/ArgumentsHelper.cs:13-15 | a successful parse yields one entry per info, and the sizes together fit within the values |
| ArgumentsHelper.ParseFromEntry | src/SharpDetect.Core/Utilities/ArgumentsHelper.cs:26-30 | entry k carries the info's index and the parse of the value bytes between the sums of the sizes before it and up to it, so values are consumed in order |
| ArgumentsHelper.ParseArgument | src/SharpDetect.Core/Utilities/ArgumentsHelper.cs:36-84 | a by-ref parameter is looked through; a non-value type is read as an 8-byte pointer; an unsupported element type is NotSupported |
| ArgumentsHelper.PointerNull | src/SharpDetect.Core/Utilities/ArgumentsHelper.cs:44-47 | a reference argument is the null pointer exactly when its 8 bytes are all zero |
| ArgumentsHelper.FromLEZero | src/SharpDetect.Core/Utilities/ArgumentsHelper.cs:44-46 | a little-endian number is zero exactly when all its bytes are zero |
| ArgumentsHelper.ParseArgumentRoundTrip | src/SharpDetect.Core/Utilities/ArgumentsHelper.cs:54-75 | every supported integral element type reads back the value its little-endian encoding was made from |
| MethodBodyHelpers.ReadHeaderInfo | src/SharpDetect.Profiler/LibProfiler/MethodBodyHelpers.cpp:12-31 | a header byte whose low two bits are not 0b11 is tiny: header size 1, code size the byte shifted right by 2 (below 64), cursor plus 1; otherwise fat: header size 12, the code size is the little-endian CodeSize field at bytes 4..8, cursor plus 12; reading outside the body is an error |
| MethodBodyHelpers.ReadOpCode | src/SharpDetect.Profiler/LibProfiler/MethodBodyHelpers.cpp:46-67 | a 0xFE lead byte selects the two-byte table and consumes two bytes, any other byte the one-byte table and one byte; the opcode returned is the table entry; an empty entry is MissingOpCode |
| MethodBodyHelpers.OperandWidth | src/SharpDetect.Profiler/LibProfiler/MethodBodyHelpers.cpp:69-93 | each operand type has width 0, 1, 2, 4 or 8, and width 0 exactly for InlineNone and InlinePhi |
| MethodBodyHelpers.ReadOperand | src/SharpDetect.Profiler/LibProfiler/MethodBodyHelpers.cpp:69-93 | the cursor advances by the operand width; no operand exactly for width 0; an integral operand is the little-endian value at the cursor; an unknown operand type is an error |
| MethodBodyHelpers.ReadInstructionAdvances | src/SharpDetect.Profiler/LibProfiler/MethodBodyHelpers.cpp:33-44 | an instruction records its start offset, and the cursor passes the opcode, the operand and, for a switch, 4·N target bytes |
| MethodBodyHelpers.SignedUnsignedRoundTrip | src/SharpDetect.Profiler/LibProfiler/MethodBodyHelpers.cpp:109-134 | reading a signed operand and reinterpreting it unsigned gives back the stored bits |
| MethodBodyHelpers.ReadOperandOfWritten | src/SharpDetect.Profiler/LibProfiler/MethodBodyHelpers.cpp:69-93 | an integral operand written little-endian at a position reads back as the same value, with the cursor after it |
| OpCodes.EmptyTables | src/SharpDetect.Profiler/LibProfiler/OpCodes.h:23-28 | both 256-entry tables start empty, so no code is found |
| OpCodes.LookupRegistered | src/SharpDetect.Profiler/LibProfiler/OpCodes.h:30-37 | after registering, a code with high byte 0 is found at OneByteOpCodes[low byte] and one with high byte 0xFE at TwoByteOpCodes[low byte]; a code with any other high byte is found nowhere, and every other code is found as before |
| OpCodes.RegisteredWellFormed | src/SharpDetect.Profiler/LibProfiler/OpCodes.h:30-37 | registering keeps every table entry at the index its code's low byte names |
| OpCodes.RegisterIdempotent | src/SharpDetect.Profiler/LibProfiler/OpCodes.h:41-42 | registering the same opcode twice is the same as registering it once |
| OpCodes.LastWithCode | src/SharpDetect.Profiler/LibProfiler/OpCodes.h:39-270 | the last registration carrying a code, if any |
| OpCodes.LookupRegisteredAll | src/SharpDetect.Profiler/LibProfiler/OpCodes.h:39-270 | after a sequence of registrations a code is found as the last registration carrying it when its high byte is 0 or 0xFE, and as before otherwise |
| OpCodes.OpCodeTables.constructor | src/SharpDetect.Profiler/LibProfiler/OpCodes.h:23-28 | two fresh 256-entry arrays, all entries empty |
| OpCodes.OpCodeTables.Register | src/SharpDetect.Profiler/LibProfiler/OpCodes.h:30-37 | a high byte of 0 stores the opcode at OneByteOpCodes[low byte], 0xFE at TwoByteOpCodes[low byte], any other high byte leaves both arrays unchanged; the arrays' contents are Registered of the old ones |
| OpCodes.OpCodeTables.RegisterEach | src/SharpDetect.Profiler/LibProfiler/OpCodes.h:39-270 | the registration loop leaves the tables as RegisteredAll of the old ones |
| OpCodes.OpCodeTables.Initialize | src/SharpDetect.Profiler/LibProfiler/OpCodes.h:39-270 | registers the opcode list in source order |
| Instrumentation.ScanSitesWellPlaced | src/SharpDetect.Profiler/LibProfiler/Instrumentation.cpp:43-56 | every site the scan keeps is a one-byte call or callvirt at its own offset, at or after the scan start, whose 4-byte operand is a key of the token map, and sites are in ascending order at least five bytes apart |
| Instrumentation.ApplyPatches | src/SharpDetect.Profiler/LibProfiler/Instrumentation.cpp:71-82 | patching keeps the body's length |
| Instrumentation.ApplyPatchesOutside | src/SharpDetect.Profiler/LibProfiler/Instrumentation.cpp:71-82 | a byte outside every site's 4-byte operand keeps its original value |
| Instrumentation.ApplyPatchesAt | src/SharpDetect.Profiler/LibProfiler/Instrumentation.cpp:74-82 | the operand at offset+1 of every site reads back, little-endian, as the replacement token the map gives for the original one |
| Instrumentation.FindPatchSites | src/SharpDetect.Profiler/LibProfiler/Instrumentation.cpp:37-56 | the scan loop returns exactly the sites (or the decoding error) of the scan specification, and they are well placed |
| Instrumentation.PatchSites | src/SharpDetect.Profiler/LibProfiler/Instrumentation.cpp:70-82 | a fresh copy of the body with every found site's operand replaced |
| Instrumentation.PatchMethodBody | src/SharpDetect.Profiler/LibProfiler/Instrumentation.cpp:14-99 | an empty token map gives E_FAIL; a decoding error is reported; otherwise S_OK exactly when some site was found, and then the new body is the original with every site's operand replaced, the same length as before |
| Instrumentation.LoadArguments | src/SharpDetect.Profiler/LibProfiler/Instrumentation.cpp:152-165 | the argument loads take one byte per parameter for the first four and two bytes (ldarg.s, index) for every later one |
| Instrumentation.LoadArgumentsLayout | src/SharpDetect.Profiler/LibProfiler/Instrumentation.cpp:152-165 | parameter i < 4 is loaded by ldarg.0 + i, and parameter i >= 4 by ldarg.s followed by the byte i |
| Instrumentation.TinyHeader | src/SharpDetect.Profiler/LibProfiler/Instrumentation.cpp:146-148 | the tiny header's low two bits are 0b10 and its upper six bits hold the code size |
| Instrumentation.TokenBytes | src/SharpDetect.Profiler/LibProfiler/Instrumentation.cpp:167-171 | the four shifted bytes of the call operand are the token's little-endian encoding |
| Instrumentation.WrapperFitsIff | src/SharpDetect.Profiler/LibProfiler/Instrumentation.cpp:175-179 | the wrapper code fits in a tiny header (at most 63 bytes) exactly when the method has at most 30 parameters |
| Instrumentation.CreateManagedWrapperMethod | src/SharpDetect.Profiler/LibProfiler/Instrumentation.cpp:101-222 | S_OK exactly when the parameter count in signature byte 1 is at most 30; the wrapper is named "." + the wrapped name whatever the outcome; on success it gets the special-name flags and the IL/managed/no-inlining/no-optimisation implementation flags, and its body is a tiny header followed by the argument loads, call of the wrapped token and ret |
| Instrumentation.EmitWrapperCode | src/SharpDetect.Profiler/LibProfiler/Instrumentation.cpp:151-173 | the emitted code is the argument loads, call with the wrapped token and ret |
| Instrumentation.TokenOperand | src/SharpDetect.Profiler/LibProfiler/Instrumentation.cpp:168-171 | the call operand is the token in 4 little-endian bytes |
| Instrumentation.WrapperHeaderRoundTrip | src/SharpDetect.Profiler/LibProfiler/Instrumentation.cpp:181-196 | the method-body reader reads the wrapper's header back as a 1-byte tiny header with the wrapper's code size |
| FastMethodAssembler.GetToken | src/SharpDetect.Dnlib.Extensions/FastMethodAssembler.cs:233-260 | a stub token wins; otherwise a token provider, string, method signature or field signature operand yields a token and any other operand fails |
| FastMethodAssembler.OpCodeBytes | src/SharpDetect.Dnlib.Extensions/FastMethodAssembler.cs:152-163 | an opcode takes as many bytes as its size |
| FastMethodAssembler.SwitchTargetBytes | src/SharpDetect.Dnlib.Extensions/FastMethodAssembler.cs:223-227 | each switch target takes four bytes |
| FastMethodAssembler.OperandBytes | src/SharpDetect.Dnlib.Extensions/FastMethodAssembler.cs:165-203 | an operand fails exactly for InlinePhi, NOT_USED_8 and a token operand with no token; otherwise it takes the instruction's size less its opcode's |
| FastMethodAssembler.CodeBytesLength | src/SharpDetect.Dnlib.Extensions/FastMethodAssembler.cs:142-150 | the code written up to instruction k is as long as instruction k's offset, and all of it as long as the code size |
| FastMethodAssembler.FatHeaderBytes | src/SharpDetect.Dnlib.Extensions/FastMethodAssembler.cs:120-140 | the fat header is 12 bytes |
| FastMethodAssembler.FatHeaderLayout | src/SharpDetect.Dnlib.Extensions/FastMethodAssembler.cs:120-140 | fat header: flags 0x3 in the low bits, 0x10 set exactly when locals are initialised, 0x08 exactly when there are exception handlers, header size 3 in byte 1, then the max stack size, code size and local-signature token read back little-endian |
| FastMethodAssembler.SmallClause | src/SharpDetect.Dnlib.Extensions/FastMethodAssembler.cs:345-369 | a small exception clause is 12 bytes |
| FastMethodAssembler.FatClause | src/SharpDetect.Dnlib.Extensions/FastMethodAssembler.cs:306-331 | a fat exception clause is 24 bytes |
| FastMethodAssembler.SmallClauseExact | src/SharpDetect.Dnlib.Extensions/FastMethodAssembler.cs:345-369 | every field of a small clause reads back: handler type, try start, try length, handler start, handler length and class token or filter offset |
| FastMethodAssembler.SmallClausesExact | src/SharpDetect.Dnlib.Extensions/FastMethodAssembler.cs:270-295 | when small clauses are chosen there are at most 20 handlers and every offset and length fits its small field, so each reads back unchanged |
| FastMethodAssembler.SmallClauses | src/SharpDetect.Dnlib.Extensions/FastMethodAssembler.cs:345-369 | n small clauses take 12 * n bytes |
| FastMethodAssembler.FatClauses | src/SharpDetect.Dnlib.Extensions/FastMethodAssembler.cs:306-331 | n fat clauses take 24 * n bytes |
| FastMethodAssembler.SmallSectionHeaderBytes | src/SharpDetect.Dnlib.Extensions/FastMethodAssembler.cs:344 | a small section header has kind byte 1 and its 3-byte size is 12 * n + 4 |
| FastMethodAssembler.FatSectionHeaderBytes | src/SharpDetect.Dnlib.Extensions/FastMethodAssembler.cs:305 | a fat section header has kind byte 0x41 and its 3-byte size is 24 * n + 4 (modulo 2^24) |
| FastMethodAssembler.Padding | src/SharpDetect.Dnlib.Extensions/FastMethodAssembler.cs:97-99 | the padding is below 4 and brings the length to a multiple of 4 |
| FastMethodAssembler.Zeros | src/SharpDetect.Dnlib.Extensions/FastMethodAssembler.cs:100 | n zero bytes |
| FastMethodAssembler.AssembledStart | src/SharpDetect.Dnlib.Extensions/FastMethodAssembler.cs:75-90 | a tiny method starts with the byte 2 + 4 * code size; a fat one starts with the 12-byte fat header |
| FastMethodAssembler.AssembledHeaderRead | src/SharpDetect.Dnlib.Extensions/FastMethodAssembler.cs:75-90 | the profiler's method-body reader reads back a 1-byte tiny or 12-byte fat header exactly as chosen, with the code size |
| FastMethodAssembler.HeaderRead | src/SharpDetect.Dnlib.Extensions/FastMethodAssembler.cs:75-87 | bytes starting with the tiny byte 0x02 plus four times the code size or with the fat header read back through the header reader as that header kind with that code size |
| FastMethodAssembler.SectionAligned | src/SharpDetect.Dnlib.Extensions/FastMethodAssembler.cs:95-107 | with exception handlers the section starts at a multiple of four after the code, the gap is zero bytes and the section ends the method body |
| FastMethodAssembler.LiteralReadsBack | src/SharpDetect.Dnlib.Extensions/FastMethodAssembler.cs:173-174 | an InlineI or (with the corrected 64-bit writer) InlineI8 literal reads back through the profiler's operand reader as the same value |
| FastMethodAssembler.I8OperandAsWritten | src/SharpDetect.Dnlib.Extensions/FastMethodAssembler.cs:173-174 | the InlineI8 bytes of this model equal those of the uint-casting writer the source reaches exactly when the literal lies in [0, 2^32) |
| FastMethodAssembler.BranchReadsBack | src/SharpDetect.Dnlib.Extensions/FastMethodAssembler.cs:180-181 | a branch operand reads back as the target offset relative to the end of the instruction |
| FastMethodAssembler.SwitchOperandBytes | src/SharpDetect.Dnlib.Extensions/FastMethodAssembler.cs:217-228 | a switch operand is the target count followed by each target relative to the end of the switch |
| FastMethodAssembler.SwitchDelta | src/SharpDetect.Dnlib.Extensions/FastMethodAssembler.cs:220-226 | the int casts of the exit offset and of the difference give the 32-bit two's-complement of target - exit |
| FastMethodAssembler.WriteSwitchTargets | src/SharpDetect.Dnlib.Extensions/FastMethodAssembler.cs:223-227 | the loop writes the switch target bytes at the position and advances by 4 per target |
| FastMethodAssembler.WriteSwitchTarget | src/SharpDetect.Dnlib.Extensions/FastMethodAssembler.cs:225-226 | one target written as 4 bytes of target - exit |
| FastMethodAssembler.AlignSections | src/SharpDetect.Dnlib.Extensions/FastMethodAssembler.cs:95-107 | the result is the code, zero padding to a multiple of four, then the extra sections |
| FastMethodAssembler.WriteFatClauses | src/SharpDetect.Dnlib.Extensions/FastMethodAssembler.cs:306-331 | the Guard fails exactly when some handler has an end instruction not after its start; otherwise writes the fat clauses after the 4-byte section header |
| FastMethodAssembler.WriteFatClauseAfter | src/SharpDetect.Dnlib.Extensions/FastMethodAssembler.cs:306-330 | one iteration writes the next handler's 24-byte fat clause right after the clauses already written, so the buffer holds one more clause of the section |
| FastMethodAssembler.WriteFatClause | src/SharpDetect.Dnlib.Extensions/FastMethodAssembler.cs:308-330 | one fat clause at the position, 24 bytes further on |
| FastMethodAssembler.WriteClassTokenOrFilterOffset | src/SharpDetect.Dnlib.Extensions/FastMethodAssembler.cs:324-329 | catch class token, filter start or zero, as 4 bytes |
| FastMethodAssembler.WriteSmallClauses | src/SharpDetect.Dnlib.Extensions/FastMethodAssembler.cs:345-370 | the Guard fails exactly when some handler has an end instruction not after its start; otherwise writes the small clauses after the section header |
| FastMethodAssembler.WriteSmallClauseAfter | src/SharpDetect.Dnlib.Extensions/FastMethodAssembler.cs:345-369 | one iteration writes the next handler's 12-byte small clause right after the clauses already written, so the buffer holds one more clause of the section |
| FastMethodAssembler.WriteSmallClause | src/SharpDetect.Dnlib.Extensions/FastMethodAssembler.cs:347-369 | one small clause at the position, 12 bytes further on |
| FastMethodAssembler.WriteLength | src/SharpDetect.Dnlib.Extensions/FastMethodAssembler.cs:355 | a one-byte length end - start |
| FastMethodAssembler.FastMethodAssembler.constructor | src/SharpDetect.Dnlib.Extensions/FastMethodAssembler.cs:37-67 | code size is the end of the last instruction, the max stack size is truncated to 16 bits, nothing written yet |
| FastMethodAssembler.FastMethodAssembler.Assemble | src/SharpDetect.Dnlib.Extensions/FastMethodAssembler.cs:69-110 | the assembled bytes are exactly the specification Assembled: tiny or fat header by RequiresFatHeader, the code, and when handlers exist the padded exception section; errors are those of the specification |
| FastMethodAssembler.FastMethodAssembler.WriteTinyMethod | src/SharpDetect.Dnlib.Extensions/FastMethodAssembler.cs:75-82 | a fresh array holding the tiny header 0x02 or (code size << 2) and then the code |
| FastMethodAssembler.FastMethodAssembler.WriteFatMethod | src/SharpDetect.Dnlib.Extensions/FastMethodAssembler.cs:84-93 | a fresh array holding the fat header and then the code |
| FastMethodAssembler.FastMethodAssembler.WriteFatHeader | src/SharpDetect.Dnlib.Extensions/FastMethodAssembler.cs:120-140 | writes the fat header bytes at offset 0 and moves to 12 |
| FastMethodAssembler.FastMethodAssembler.WriteInstructions | src/SharpDetect.Dnlib.Extensions/FastMethodAssembler.cs:142-150 | the loop writes every instruction's bytes from the first instruction offset, code-size bytes in all |
| FastMethodAssembler.FastMethodAssembler.WriteInstruction | src/SharpDetect.Dnlib.Extensions/FastMethodAssembler.cs:145-149 | writes one instruction's opcode and operand after those before it |
| FastMethodAssembler.FastMethodAssembler.WriteOpCode | src/SharpDetect.Dnlib.Extensions/FastMethodAssembler.cs:152-163 | one-byte opcodes as one byte, two-byte ones high byte first |
| FastMethodAssembler.FastMethodAssembler.WriteOperand | src/SharpDetect.Dnlib.Extensions/FastMethodAssembler.cs:165-203 | writes the operand bytes of the specification, failing exactly where it does |
| FastMethodAssembler.FastMethodAssembler.WriteTokenOperand | src/SharpDetect.Dnlib.Extensions/FastMethodAssembler.cs:185-191 | a token operand as 4 bytes, failing when no token is available |
| FastMethodAssembler.FastMethodAssembler.WriteInlineLiteral | src/SharpDetect.Dnlib.Extensions/FastMethodAssembler.cs:173-176 | an inline literal in its width |
| FastMethodAssembler.FastMethodAssembler.WriteVariable | src/SharpDetect.Dnlib.Extensions/FastMethodAssembler.cs:194-195 | a variable index as 2 bytes or 1 byte |
| FastMethodAssembler.FastMethodAssembler.WriteBranchTarget | src/SharpDetect.Dnlib.Extensions/FastMethodAssembler.cs:180-181 | a branch offset relative to the end of the instruction |
| FastMethodAssembler.FastMethodAssembler.WriteShortInlineI | src/SharpDetect.Dnlib.Extensions/FastMethodAssembler.cs:205-215 | a one-byte immediate, signed for ldc.i4.s and unsigned otherwise |
| FastMethodAssembler.FastMethodAssembler.WriteInlineSwitch | src/SharpDetect.Dnlib.Extensions/FastMethodAssembler.cs:217-228 | the count and every switch target |
| FastMethodAssembler.FastMethodAssembler.WriteExceptionHandlers | src/SharpDetect.Dnlib.Extensions/FastMethodAssembler.cs:262-268 | fat or small exception section according to NeedFatExceptionClauses, with its error |
| FastMethodAssembler.FastMethodAssembler.NeedFatExceptionClauses | src/SharpDetect.Dnlib.Extensions/FastMethodAssembler.cs:270-295 | the loop answers the specification FatClausesNeeded: more than 20 handlers, or a range that ends before it starts, starts beyond 0xFFFF or is longer than 0xFF |
| FastMethodAssembler.FastMethodAssembler.WriteFatExceptionClauses | src/SharpDetect.Dnlib.Extensions/FastMethodAssembler.cs:297-334 | the fat section of the specification, failing exactly where it fails |
| FastMethodAssembler.FastMethodAssembler.WriteSmallExceptionClauses | src/SharpDetect.Dnlib.Extensions/FastMethodAssembler.cs:336-375 | the small section of the specification, failing exactly where it fails |
| ByteArrayHelpers.Splice | SharpDetect.Dnlib.Extensions/Utilities/ByteArrayHelpers.cs:9-12 | overwriting bytes at a position keeps the buffer's length |
| ByteArrayHelpers.SpliceBytes | SharpDetect.Dnlib.Extensions/Utilities/ByteArrayHelpers.cs:9-12 | the written bytes are at the position and every other byte is unchanged |
| ByteArrayHelpers.SpliceConcat | SharpDetect.Dnlib.Extensions/Utilities/ByteArrayHelpers.cs:21-25 | writing a and then b right after it is writing a + b |
| ByteArrayHelpers.WriteReadBack | SharpDetect.Dnlib.Extensions/Utilities/ByteArrayHelpers.cs:34-40 | an unsigned value written in n little-endian bytes reads back as itself |
| ByteArrayHelpers.WriteReadBackSigned | SharpDetect.Dnlib.Extensions/Utilities/ByteArrayHelpers.cs:44-47 | a signed value written as its n-byte two's complement reads back as itself |
| ByteArrayHelpers.WriteByte | SharpDetect.Dnlib.Extensions/Utilities/ByteArrayHelpers.cs:9-12 | stores the byte at the position and advances by one |
| ByteArrayHelpers.WriteSByte | SharpDetect.Dnlib.Extensions/Utilities/ByteArrayHelpers.cs:15-18 | stores the one-byte two's complement and advances by one |
| ByteArrayHelpers.WriteUInt16 | SharpDetect.Dnlib.Extensions/Utilities/ByteArrayHelpers.cs:21-25 | stores 2 little-endian bytes and advances by two |
| ByteArrayHelpers.WriteInt16 | SharpDetect.Dnlib.Extensions/Utilities/ByteArrayHelpers.cs:28-31 | stores the 2-byte two's complement and advances by two |
| ByteArrayHelpers.WriteUInt32 | SharpDetect.Dnlib.Extensions/Utilities/ByteArrayHelpers.cs:34-40 | stores 4 little-endian bytes and advances by four |
| ByteArrayHelpers.WriteInt32 | SharpDetect.Dnlib.Extensions/Utilities/ByteArrayHelpers.cs:44-47 | stores the 4-byte two's complement and advances by four |
| ByteArrayHelpers.WriteUInt64 | SharpDetect.Dnlib.Extensions/Utilities/ByteArrayHelpers.cs:56-66 | stores 8 little-endian bytes and advances by eight |
| ByteArrayHelpers.WriteSingle | SharpDetect.Dnlib.Extensions/Utilities/ByteArrayHelpers.cs:69-73 | stores the float's 4 raw bytes and advances by four |
| ByteArrayHelpers.WriteDouble | SharpDetect.Dnlib.Extensions/Utilities/ByteArrayHelpers.cs:76-80 | stores the double's 8 raw bytes and advances by eight |
| ByteArrayHelpers.WriteInt64AsWritten | SharpDetect.Dnlib.Extensions/Utilities/ByteArrayHelpers.cs:50-53 | as written: the long is cast to uint, so only its low 4 bytes are stored, followed by 4 zero bytes |
| ByteArrayHelpers.Int64AsWrittenHighBytesZero | SharpDetect.Dnlib.Extensions/Utilities/ByteArrayHelpers.cs:50-53 | the upper four bytes written as written are always zero |
| ByteArrayHelpers.Int64AsWrittenLosesMinusOne | SharpDetect.Dnlib.Extensions/Utilities/ByteArrayHelpers.cs:50-53 | -1 written as written reads back as 0xFFFFFFFF |
| ByteArrayHelpers.WriteInt64 | SharpDetect.Dnlib.Extensions/Utilities/ByteArrayHelpers.cs:50-53 | corrected: stores the 8-byte two's complement of the long |
| ByteArrayHelpers.Int64RoundTrip | SharpDetect.Dnlib.Extensions/Utilities/ByteArrayHelpers.cs:50-53 | every long written by the corrected writer reads back as itself |
| ByteArrayHelpers.Int64WritersAgree | SharpDetect.Dnlib.Extensions/Utilities/ByteArrayHelpers.cs:50-53 | the as-written and corrected 8-byte writers produce the same bytes exactly for longs in [0, 2^32) |
| ByteArrayHelpers.WriteBytes | SharpDetect.Dnlib.Extensions/Utilities/ByteArrayHelpers.cs:83-87 | copies the source array at the position and advances by its length |
| Bytes.LE | SharpDetect.Dnlib.Extensions/Utilities/ByteArrayHelpers.cs:56-66 | the little-endian encoding in n bytes has n bytes |
| Bytes.FromLE | SharpDetect.Dnlib.Extensions/Utilities/ByteArrayHelpers.cs:56-66 | decoding n bytes gives a value below 256^n |
| Bytes.ToUnsigned | SharpDetect.Dnlib.Extensions/Utilities/ByteArrayHelpers.cs:44-47 | the n-byte two's-complement cast is below 256^n and keeps values already in range |
| Bytes.ToSigned | SharpDetect.Dnlib.Extensions/Utilities/ByteArrayHelpers.cs:44-47 | reading n bytes as signed gives a value in [-2^(8n-1), 2^(8n-1)) |
| Bytes.FromLEOfLE | SharpDetect.Dnlib.Extensions/Utilities/ByteArrayHelpers.cs:56-66 | decoding an encoding gives the value modulo 256^n |
| Bytes.LEOfFromLE | SharpDetect.Dnlib.Extensions/Utilities/ByteArrayHelpers.cs:56-66 | encoding a decoded byte sequence gives the sequence back |
| Bytes.LERoundTrip | SharpDetect.Dnlib.Extensions/Utilities/ByteArrayHelpers.cs:56-66 | a value below 256^n survives encoding and decoding |
| Bytes.LEHighBytesZero | SharpDetect.Dnlib.Extensions/Utilities/ByteArrayHelpers.cs:50-53 | a value that fits in k bytes encodes in n >= k bytes as its k-byte encoding followed by zeros |
| Bytes.SignedRoundTrip | SharpDetect.Dnlib.Extensions/Utilities/ByteArrayHelpers.cs:44-47 | a signed value in range survives the unsigned cast and back |
| Bytes.UnsignedOfSigned | SharpDetect.Dnlib.Extensions/Utilities/ByteArrayHelpers.cs:44-47 | an unsigned value survives the signed reading and back |
| ShadowRuntime.Next | src/SharpDetect.Core/Runtime/ShadowCLR.cs:86-166 | suspension events never change whether a collection is ongoing; a collection may start only while suspended for GC with none ongoing, and finish only while suspended for GC with one ongoing |
| ShadowRuntime.SuspendCycle | src/SharpDetect.Core/Runtime/ShadowCLR.cs:86-118 | from executing with no recorded reason, suspend-started, suspend-finished, resume-started, resume-finished returns to executing with no reason |
| ShadowRuntime.CollectionPause | src/SharpDetect.Core/Runtime/ShadowCLR.cs:130-166 | while suspended for GC, a collection start, surviving and moved references and the finish leave the runtime where it was |
| ShadowRuntime.CollectionCycle | src/SharpDetect.Core/Runtime/ShadowCLR.cs:86-166 | a whole GC suspension with one collection inside returns to executing with no reason and no collection ongoing |
| ShadowRuntime.CollectionNeedsGcSuspension | src/SharpDetect.Core/Runtime/ShadowCLR.cs:130-134 | a collection cannot start inside a suspension for any reason other than GC |
| ShadowRuntime.ReasonClearedOnlyOnResume | src/SharpDetect.Core/Runtime/ShadowCLR.cs:111-118 | resume-finished is the only accepted event after which no suspension reason is recorded; every other accepted event keeps the reason |
| ShadowRuntime.ReasonSetOnlyOnSuspend | src/SharpDetect.Core/Runtime/ShadowCLR.cs:86-93 | suspend-started is accepted only while executing and records its reason |
| ShadowRuntime.CollectionEvents | src/SharpDetect.Core/Runtime/ShadowCLR.cs:130-148 | the collection starts and finishes among the events, in order |
| ShadowRuntime.CollectionsAlternate | src/SharpDetect.Core/Runtime/ShadowCLR.cs:130-148 | over any accepted run, collection starts and finishes alternate, and a collection is ongoing at the end exactly when the last of them was a start |
| ShadowRuntime.CoherentRun | src/SharpDetect.Core/Runtime/ShadowCLR.cs:86-118 | over any accepted run of protocol events, a suspension reason is recorded exactly while the runtime is suspending, suspended or resuming |
| ShadowRuntime.TryAdd | src/SharpDetect.Core/Runtime/ShadowCLR.cs:63 | dictionary TryAdd: the key is present afterwards, existing entries keep their values, and a new key gets the given value |
| ShadowRuntime.TryRemove | src/SharpDetect.Core/Runtime/ShadowCLR.cs:83 | dictionary TryRemove of a key-value pair: the key goes only when it maps to that value; other entries are unchanged |
| ShadowRuntime.TryAddRemove | src/SharpDetect.Core/Runtime/ShadowCLR.cs:76-84 | creating and then destroying a thread that was not known leaves the thread map as it was |
| ShadowRuntime.ShadowThread.constructor | src/SharpDetect.Core/Runtime/Threads/ShadowThread.cs:28-35 | a new thread has its id and is running |
| ShadowRuntime.ShadowThread.EnterState | src/SharpDetect.Core/Runtime/Threads/ShadowThread.cs:113-114 | the thread takes the new state |
| ShadowRuntime.ShadowCLR.constructor | src/SharpDetect.Core/Runtime/ShadowCLR.cs:34-45 | initiated, no suspension reason, no collection, no threads and no modules |
| ShadowRuntime.ShadowCLR.Process | src/SharpDetect.Core/Runtime/ShadowCLR.cs:47-166 | an event is accepted exactly when the transition function accepts it, and the runtime then takes the transition's state; a rejected event changes nothing; threads and modules are untouched |
| ShadowRuntime.ShadowCLR.ThreadCreated | src/SharpDetect.Core/Runtime/ShadowCLR.cs:76-79 | the thread map gains the thread under its id unless the id is taken |
| ShadowRuntime.ShadowCLR.ThreadDestroyed | src/SharpDetect.Core/Runtime/ShadowCLR.cs:81-84 | the thread is removed only when its id maps to that very thread |
| ShadowRuntime.ShadowCLR.RuntimeThreadSuspended | src/SharpDetect.Core/Runtime/ShadowCLR.cs:120-123 | the thread enters the suspended state |
| ShadowRuntime.ShadowCLR.RuntimeThreadResumed | src/SharpDetect.Core/Runtime/ShadowCLR.cs:125-128 | the thread enters the running state |
| ShadowRuntime.ShadowCLR.ModuleLoaded | src/SharpDetect.Core/Runtime/ShadowCLR.cs:57-64 | a module that fails to load is ignored; a loaded one is added unless its handle is already known |

## Left out

- Profiler callbacks, COM glue, logging and the CLR's own services (GetILFunctionBody, AllocMethodBody, SetILFunctionBody, AddMethodDef, GetMethodProps) are not modelled: an allocation or runtime call that fails is outside the model, and PatchMethodBody and CreateManagedWrapperMethod take the method body and signature as values.
- The memory-mapped queue's timestamp compare-and-swap lock is I/O and concurrency; Enqueue and Dequeue take whether the lock was acquired as a parameter. The ring is modelled as an array addressed modulo its length; the shared-memory header is not part of this model, so its size is a constructor parameter.
- InterProcessQueue.MemoryMappedQueue.Enqueue: compares the frame size 4 + len with the free space without 32-bit wrap-around (the corrected check of the Findings row); for a span of 2^31 - 4 to 2^31 - 1 bytes, reachable only over native memory, the source's `4 + data.Length` wraps negative and its HasEnoughSpace admits the payload, which AdmitsAsWrittenOverflow shows but Enqueue does not model. Enqueue requires a payload of at most int.MaxValue bytes, the largest length a span has.
- Concurrency of the plugin host and of the shadow runtime (ConcurrentDictionary, volatile fields, Interlocked updates) is not modelled; every operation is a sequential step.
- FastTrack: epochs are u32 values whose thread is the top byte; ThreadState, Epoch, UpdateEpoch and IncrementEpoch are not part of this model, so an operation leaves the thread's epoch unchanged, and the shared-read epoch is a parameter. Read and Write model the race checks on the clocks and report the verdict; the diagnostics they raise are left out.
- FastTrack.Entry: thread ids wrap at 256 as the `i << 24` shift in 32 bits does.
- Floating point is modelled as raw bit patterns: ArgumentsHelper's R4/R8 values, ByteArrayHelpers.WriteSingle/WriteDouble and the InlineR/ShortInlineR operands.
- ArgumentsHelper.Pack: the profiler's packing `(index << 16) | size` is modelled for 16-bit fields only.
- ByteArrayHelpers: the array-bounds exceptions of the C# writers become preconditions that the write fits the array.
- MethodBodyHelpers: the `INT&` cursor of each reader is modelled as a returned next index, and reading past the end of the body is an error result.
- Code.h, Instruction.h, IMAGE_COR_ILMETHOD_FAT and OpCode are not part of this model; opcode numbers, operand widths and header layouts follow ECMA-335 Partitions II and III.
- OpCodes: the flow-control, opcode-type and stack-behaviour fields of an opcode are left out; the tables store its name, code and operand type.
- GcContext: addresses and ids are unbounded; std::sort by ObjectID (the object's address) is modelled as repeatedly taking the least address left; the old heap's addresses are distinct, so the sorted order is the same. A range [start, start + length - 1) excludes its last byte, as written.
- GcContext.Shifted: clamps a negative new address to 0, a case that never arises because every moved entry lies at or above its range's old start.
- LockSetTable.LockSetTable.GetOrCreateInternal: lock ids are object ids; the process id of a ProcessTrackedObjectId, which the source's AreSetsEqual also compares, is dropped, so two sets that differ only in the process of a lock share one index here where the source interns them separately (search, intersection, removal and the hash use only the object id, as in the source).
- LockSetTable: System.HashCode is randomly seeded, so the hash is a parameter of the constructor, and interning is proved for every hash function.
- WaitForGraph.DetectDeadlocks: proves that the components are pairwise disjoint, strongly connected and together cover every thread, and that the reported ones are those of two or more threads; that each component is maximal (no larger strongly connected set contains it) is not proved, so neither is that every deadlock is reported whole.
- FastMethodAssembler.OperandBytes: an InlineI8 operand is encoded with the corrected 8-byte writer of the Findings row, not with the source's uint-casting WriteInt64 reached from FastMethodAssembler.cs:174; the two agree exactly for literals in [0, 2^32) (I8OperandAsWritten), and for any other ldc.i8 literal the source emits the low 32 bits zero-extended.
- FastMethodAssembler.FastMethodAssembler.WriteInlineLiteral: calls the corrected ByteArrayHelpers.WriteInt64 for InlineI8, as above.
- FastMethodAssembler.FastMethodAssembler.WriteOperand: writes OperandBytes, so its InlineI8 bytes are the corrected ones, as above.
- FastMethodAssembler.FastMethodAssembler.Assemble: the assembled body is that of the corrected writer; it differs from the source's for every ldc.i8 literal outside [0, 2^32), as above.
- FastMethodAssembler.LiteralReadsBack: its InlineI8 case holds for the corrected writer; with the source's writer an ldc.i8 literal reads back as its low 32 bits (Int64AsWrittenLosesMinusOne: -1 reads back as 4294967295).
- FastMethodAssembler.OperandFits: the assembler requires each operand to have the kind and range its operand type calls for; the InvalidCastException the source's unboxing casts (`(int)instruction.Operand`, `(long)instruction.Operand`, ...) throw on a mistyped operand is not modelled.
- FastMethodAssembler.FastMethodAssembler.Assemble: instruction offsets are taken as given and required to be consistent with the instruction sizes; dnlib's body preparation that computes them is not part of this model.
- Instrumentation.PatchMethodBody: the profiler reads a switch count as a signed 32-bit value and moves its cursor by four times it, so a negative count can send the scan loop back to or before the current instruction, where the source may never leave the loop; the model stops the scan there with the error NoProgress.
- GcContext.KeepRange: addresses are unbounded, so for a zero-length range at address 0 `start + length - 1` is -1 and keeps nothing, where the source's unsigned arithmetic wraps to the largest address and keeps the whole old heap from that range's start; GcContext.MoveRange likewise.
- ShadowLock: the lock count is an unbounded integer; the source's int32 count would wrap after 2^31 - 1 nested acquisitions.
- ConcurrencyContext and DeliveryContext: KeyNotFoundException on a missing dictionary key is modelled as an error result.
- ShadowCLR: the resolver and emitter handlers (TypeInjected, MethodInjected, MethodWrapped, TypeReferenced, HelperMethodReferenced, WrapperMethodReferenced) call into dnlib and are not modelled; TypeLoaded and JITCompilationStarted do nothing; the ShadowGC calls are the garbage-collection context's business; a failed RuntimeContract assertion is a rejected event; modules are handles.
- ShadowThread: only its id and state are modelled; call stacks, jobs, epochs and the worker thread are not part of this model.
- WaitForGraph.WaitForGraph.GetWaitInfo and DeliveryContext.RecordedEventsDeliveryContext.HasUndeliveredEvents are plain lookups, modelled without a contract of their own.

## Findings

| source | as written | input that shows it | evidently intended | confidence | as-written member | corrected member |
|---|---|---|---|---|---|---|
| SharpDetect.Dnlib.Extensions/Utilities/ByteArrayHelpers.cs:50-53 | WriteInt64 casts the long to uint before writing 8 bytes, so the upper four bytes are always zero | an ldc.i8 operand of -1 is written as FF FF FF FF 00 00 00 00 and reads back as 4294967295 | write the 8-byte two's complement of the long | high, not executed | ByteArrayHelpers.WriteInt64AsWritten | ByteArrayHelpers.WriteInt64 |
| src/SharpDetect.InterProcessQueue/MemoryMappedQueue.cs:80 | the space check adds 4 to data.Length in 32-bit int arithmetic | data.Length = int.MaxValue wraps 4 + data.Length to a negative number, so an empty 100-byte ring admits it | compare the frame size 4 + data.Length without overflow | low, not executed | InterProcessQueue.AdmitsAsWrittenOverflow | InterProcessQueue.AdmitsFrame |
