# Orocos RTT in Dafny

A Dafny model of five parts of the Orocos Real-Time Toolkit, with proofs of what they promise.
`dafny verify dfyconfig.toml` checks all of it.

1. **The lock-free data object** (`rtt/base/DataObjectLockFree.hpp`): one writer, many readers, a
   ring of cells with reader counters. `DataObjectLockFree.dfy` is a transition system with one step
   for every access to shared memory; a value is a sequence of words copied one at a time, so a torn
   read would show. `DataObject.dfy` is the code of `Get` and `Set` on arrays, with an arbitrary
   schedule of the other threads running between any two accesses.
2. **The buffers** (`rtt/base/BufferLockFree.hpp`, `BufferLocked.hpp`, `BufferUnSync.hpp`).
   `BufferLockFreeProtocol.dfy` is the non-circular lock-free buffer under any number of pushing
   threads and one popping thread, its queue taken apart into single accesses. `Buffers.dfy` and
   `BufferLockFree.dfy` are the classes as one thread uses them, circular or not, and
   `BufferEquivalence.dfy` shows that such a thread cannot tell them apart.
3. **Property trees** (`rtt/PropertyBag.cpp`): lookup and listing by path (`PropertyTree.dfy`),
   storing and removing (`PropertyEdit.dfy`), flattening with its resetting iterator
   (`PropertyFlatten.dfy`), recursive update (`PropertyUpdate.dfy`, with `PropertyNames.dfy` on the
   ranks of equal names) and refresh (`PropertyRefresh.dfy`).
4. **The component life cycle and its engine** (`rtt/base/TaskCore.cpp`, `rtt/ExecutionEngine.cpp`).
   `Lifecycle.dfy` is the state machine with hooks that may return true, return false or throw, and
   may call `error()`; the user's code is an arbitrary function and every hook call is recorded in a
   trace. `TaskCore.dfy` has the classes. `FunctionQueue.dfy` is the round robin over the loaded
   functions, `WakeUp.dfy` the protocol of mutex and condition variable behind `waitForMessages`.
5. **The peer graph** (`rtt/TaskContext.cpp`): every component has a map of its peers and a list of
   its users. `PeerMaps.dfy` has the containers, `PeerGraph.dfy` what the operations do to all
   components together, `TaskContext.dfy` the class.

`Sequences.dfy` has the facts about sequences that several of these need, `Options.dfy` the type of a
value that may be missing.

Shared memory is sequentially consistent. The schedule of other threads, the outcomes of hooks, the
answers of the activity and the arrivals in a queue are parameters or arbitrary runs. In the scan of
`Set` the counter and `read_ptr` are read in one step, which is no restriction: only the writer
itself assigns `read_ptr`.

## Where the code does not do what its comments or its names suggest

- `DataObjectLockFree.hpp:72-73` asks for `readers + 2 * writers` cells, which is `readers + 2`. The
  ring needs `readers + 3`: the writer never fills a cell being read if and only if
  `readers + 1 <= MAX_THREADS`, so `MAX_THREADS` counts the writer too
  (`LockFreeRegister.SafeIffEnoughCells`).
- `TaskCore.cpp:153` and `ExecutionEngine.cpp:344` say that an `error()` inside `startHook` is
  noticed. If `startHook` then returns true the error is lost and no hook is called any more; if it
  returns false `errorHook` runs in a component that was not started; if it throws, `stopHook` does.
  Hooks are called in order if and only if no such `startHook` fails
  (`Lifecycle.ErrorInStartHookIsLost`, `Lifecycle.ErrorHookWithoutStart`,
  `Lifecycle.StopHookWithoutStart`, `Lifecycle.StartIsLegalIff`).
- After `fatal()`, `exception()` and `recover()` a component starts again with no `stopHook` called
  for the first start. A component is running exactly while it was started if and only if `fatal()`
  is called only while it is not running (`Lifecycle.FatalSkipsStopHook`,
  `Lifecycle.RunningIffStarted`).
- `processFunctions` need not end if its queue is empty at `size()` and functions arrive before the
  first `dequeue`; in all other cases it ends (`FunctionQueue.AlwaysEndsIff`).
- `processFunctions` ignores whether the function it queues again was taken. If another thread fills
  the queue while it runs, it is neither queued nor unloaded. None is lost, whatever they answer, if
  and only if nothing arrives during the executions or all that comes fits
  (`FunctionQueue.FullQueueLosesFunction`, `FunctionQueue.NoneIsLostIff`).
- A broadcast without the lock in between, as in `processFunctions`, can lose a wake-up
  (`WakeUp.SafeIffLocked`).
- `addPeer(0)` without an alias asks the null pointer for its name before testing it
  (`TaskContexts.TaskContext.AddPeer`).
- `disconnectPeers(name)` removes the first alias of that component in key order, which need not be
  `name`; called for the component itself it removes the first two (`PeerGraph.AliasSurvivesIff`).
- `removeProperty` looks the parent up with "." whatever the separator (`PropertyBag.cpp:435`). With
  another one, what is found under a path can be removed under it if and only if it is at the top level
  or in a bag there (`PropertyEdit.SeparatorNotPassedOn`, `PropertyEdit.SlashNotPassedOn`).
- `removeSelfFunction` answers true also when the function is not queued.
- A bag whose name ends in a part of a separator of several characters is split in the wrong place,
  and what is in it is listed but not found (`PropertyTree.SplitTooEarly`). Listed paths are found if
  and only if no name contains the separator and the bags that have something in them have no such
  name (`PropertyTree.ListedAreFoundIff`).

## Model

| member | source | states |
|---|---|---|
| LockFreeRegister.NoTornRead | rtt/base/DataObjectLockFree.hpp:164-216 | In every interleaving of one writer with fewer than MAX_THREADS readers, the cell being written is neither `read_ptr` nor copied by a validated reader, and what a copying reader has so far is a prefix of one published value. |
| LockFreeRegister.SetAlwaysPublishes | rtt/base/DataObjectLockFree.hpp:191-216 | `Set` never takes its drop exit; it publishes every value it is called with, in call order, within `width + readers + 5` steps of its own and at most `readers + 1` failed tests, and ends with `write_ptr != read_ptr`. |
| LockFreeRegister.Linearizable | rtt/base/DataObjectLockFree.hpp:164-216 | Every completed `Get` returns the value that was the latest published at its comparison; a later `Get`, by any reader, never returns an older one; failed comparisons never outnumber the publications made during the call. |
| LockFreeRegister.SafeIffEnoughCells | rtt/base/DataObjectLockFree.hpp:86-96 | All runs are safe if and only if `readers + 1 <= MAX_THREADS`. |
| LockFreeRegister.TooManyReaders | rtt/base/DataObjectLockFree.hpp:206-215 | With MAX_THREADS readers or more there is a run in which the writer writes into `read_ptr`. |
| LockFreeRegister.FailedTestUsesThreat | rtt/base/DataObjectLockFree.hpp:206-211 | The pigeonhole step: a cell that the scan finds occupied, and that is not `read_ptr`, uses up a reader that cannot be blamed for another one. |
| LockFreeRegister.ScanStaysShort | rtt/base/DataObjectLockFree.hpp:206-211 | The scan never comes round to the cell just written. |
| LockFreeRegister.WriterKeepsExclusive | rtt/base/DataObjectLockFree.hpp:202-215 | The cell the scan chooses stays free of validated readers until it is filled. |
| LockFreeRegister.ReaderKeepsCounters | rtt/base/DataObjectLockFree.hpp:170-183 | Each counter is the number of readers between their increment and their decrement. |
| LockFreeRegister.StepKeepsInv | rtt/base/DataObjectLockFree.hpp:164-216 | Every step of the writer or of a reader keeps the whole invariant. |
| LockFreeRegister.InitInv | rtt/base/DataObjectLockFree.hpp:133-142 | A new ring satisfies the invariant if there are fewer than MAX_THREADS readers. |
| DataObject.DataObjectLockFree.constructor | rtt/base/DataObjectLockFree.hpp:133-142 | The ring of `max_threads + 2` cells, all with the initial value. |
| DataObject.DataObjectLockFree.DataSample | rtt/base/DataObjectLockFree.hpp:218-226 | Every cell gets the sample and is linked to its successor, the last to the first; counters stay. |
| DataObject.DataObjectLockFree.Set | rtt/base/DataObjectLockFree.hpp:191-216 | Whatever readers do between its accesses, the call ends with exactly one publication more, of the value given. |
| DataObject.DataObjectLockFree.TestNext | rtt/base/DataObjectLockFree.hpp:206-211 | A failed test moves `write_ptr` on, never to the cell just written; otherwise a cell is chosen. |
| DataObject.DataObjectLockFree.Validate | rtt/base/DataObjectLockFree.hpp:170-178 | The retry loop ends with a locked cell that holds the latest publication, whatever the others do. |
| DataObject.DataObjectLockFree.Get | rtt/base/DataObjectLockFree.hpp:164-184 | The value returned was the latest published one at some moment of the call. |
| LockFreeBuffer.OwnershipPartition | rtt/base/BufferLockFree.hpp:142-229 | After any run each of the `bufsize + 1` cells is in exactly one place: free, with one writer, in one slot of the queue, or with the reader. |
| LockFreeBuffer.FillsItsOwnCell | rtt/base/BufferLockFree.hpp:149-162 | The cell a writer copies into is in no slot, not free, and with nobody else. |
| LockFreeBuffer.FifoConservation | rtt/base/BufferLockFree.hpp:142-223 | What was popped is a prefix of what was accepted, what was not popped yet is unaltered in its slot or on its way there, and accepted from a writer is, in call order, exactly what its calls returned true for; items handed out without release keep their value. |
| LockFreeBuffer.QuietConservation | rtt/base/BufferLockFree.hpp:142-223 | When no call is under way, popped followed by queued is exactly what was accepted. |
| LockFreeBuffer.NoLeak | rtt/base/BufferLockFree.hpp:142-229 | At any moment of any run the free cells, those the queue accounts for, those handed out and those in the hands of calls under way add up to `bufsize + 1`; when no call is under way, the first three do. |
| LockFreeBuffer.RefusedByPoolIff | rtt/base/BufferLockFree.hpp:144-156 | A push past its test for a full queue is refused for want of a cell if and only if all the cells that the queue does not account for are in other hands; if the queue has room then, there are at least two of these. |
| LockFreeBuffer.RealTimeOrder | rtt/base/BufferLockFree.hpp:142-179 | At any moment of any run, what pushes that have returned were told is accepted comes before all that pushes which begin later are told is accepted. |
| LockFreeBuffer.MissAndFull | rtt/internal/AtomicMWSRQueue.hpp:98-156 | A pop finds nothing exactly when the queue is empty or the oldest accepted push has not stored its pointer yet; the queue is full exactly when `bufsize` items are accounted for. |
| LockFreeBuffer.PushBeginsIff | rtt/base/BufferLockFree.hpp:142-149 | In every reachable state, a push that begins goes on to allocate a cell if and only if the queue has room; otherwise it is refused and nothing changes. |
| LockFreeBuffer.PushIsAcceptedIff | rtt/internal/AtomicMWSRQueue.hpp:98-122 | A push that has filled its cell is accepted in its next step if and only if the queue has room then; otherwise it goes on to give the cell back. |
| LockFreeBuffer.PushAloneIff | rtt/base/BufferLockFree.hpp:142-179 | A push made while no other call is under way ends within five steps; it is accepted if and only if the queue has room and the pool a cell, and takes nothing otherwise. |
| LockFreeBuffer.PopBeginsIff | rtt/internal/AtomicMWSRQueue.hpp:128-156 | A pop that begins goes on, with the oldest accepted item, if and only if its push has stored the pointer; otherwise nothing changes. |
| LockFreeBuffer.PopAloneIff | rtt/base/BufferLockFree.hpp:194-223 | A pop made while no other call is under way ends within five steps; it changes nothing if and only if the queue is empty, and otherwise returns the oldest item not taken, its cell free again or handed out. |
| LockFreeBuffer.ReleaseIs | rtt/base/BufferLockFree.hpp:225-229 | A release frees exactly the cell that was handed out, and changes nothing if none was. |
| LockFreeBuffer.IndexArithmetic | rtt/internal/AtomicMWSRQueue.hpp:183-222 | The index arithmetic of `size` and `isFull` counts the tickets given and not yet taken. |
| LockFreeBuffer.StepKeeps | rtt/base/BufferLockFree.hpp:142-229 | Every step of a writer, the reader or a release keeps the whole invariant. |
| BufferSpec.CircularKeepsLast | rtt/base/BufferLocked.hpp:117-135 | Pushing one by one into a circular buffer keeps the last `cap` items of old and new together, and takes all. |
| BufferSpec.PlainTakesFirst | rtt/base/BufferLocked.hpp:128-135 | Pushing one by one into a plain buffer takes exactly what fits. |
| DequeBuffers.DequeBuffer.Push | rtt/base/BufferLocked.hpp:100-111 | A full buffer refuses the item, or drops its oldest one if it is circular. |
| DequeBuffers.DequeBuffer.PushAll | rtt/base/BufferUnSync.hpp:104-123 | The clear, skip and drop arithmetic gives the contents and the count of pushing one by one. |
| DequeBuffers.DequeBuffer.Pop | rtt/base/BufferUnSync.hpp:125-133 | The oldest item, removed; failure exactly when empty. |
| DequeBuffers.DequeBuffer.PopAll | rtt/base/BufferUnSync.hpp:135-145 | All items in order, none left. |
| DequeBuffers.DequeBuffer.PopWithoutRelease | rtt/base/BufferLocked.hpp:162-174 | The oldest item moves to `lastSample`. |
| QueueAndPool.AtomicMWSRQueue.Enqueue | rtt/internal/AtomicMWSRQueue.hpp:229-238 | Appends unless the pointer is null or the queue is full. |
| QueueAndPool.AtomicMWSRQueue.Dequeue | rtt/internal/AtomicMWSRQueue.hpp:247-255 | Takes the oldest pointer; a failed call leaves its argument alone. |
| QueueAndPool.TsPool.Allocate | rtt/internal/TsPool.hpp:159-177 | Takes the first free item of the linked list, null if there is none. |
| QueueAndPool.TsPool.Deallocate | rtt/internal/TsPool.hpp:179-197 | Puts the item back in front; refuses null. |
| BufferLockFree.PoolPushIsFifo | rtt/base/BufferLockFree.hpp:142-179 | Both recovery branches of `Push` give the bounded FIFO if and only if the pool is not empty or the queue is full, which at most one unreleased item guarantees. |
| BufferLockFree.PoolPushWithoutCell | rtt/base/BufferLockFree.hpp:149-158 | With the pool empty and room in the queue, the oldest item gives way in a circular buffer that has one; otherwise the item is refused. |
| BufferLockFree.PartitionFacts | rtt/base/BufferLockFree.hpp:88 | Queued, free and held pointers are all different and together all of them. |
| BufferLockFree.BufferLockFree.Push | rtt/base/BufferLockFree.hpp:142-179 | The result in every state of queue and pool; unreleased items keep their value. |
| BufferLockFree.BufferLockFree.PushFifo | rtt/base/BufferLockFree.hpp:142-179 | With at most one unreleased item, drops the newest, or the oldest if circular. |
| BufferLockFree.BufferLockFree.DropAndEnqueue | rtt/base/BufferLockFree.hpp:170-176 | The retry loop ends, having dropped exactly the oldest item. |
| BufferLockFree.BufferLockFree.PushAll | rtt/base/BufferLockFree.hpp:181-191 | Contents and count of pushing one by one until the first refusal. |
| BufferLockFree.BufferLockFree.Pop | rtt/base/BufferLockFree.hpp:194-203 | The oldest item, its cell back in the pool. |
| BufferLockFree.BufferLockFree.PopAll | rtt/base/BufferLockFree.hpp:205-215 | All items in order, none left. |
| BufferLockFree.BufferLockFree.PopWithoutRelease | rtt/base/BufferLockFree.hpp:217-223 | Hands out the oldest item's cell, which is neither queued nor free from then on. |
| BufferLockFree.BufferLockFree.Release | rtt/base/BufferLockFree.hpp:225-229 | The cell is free again; the queue is untouched. |
| BufferEquivalence.Indistinguishable | rtt/base/BufferLockFree.hpp:115-229 | On any sequence of operations, `size`, `empty`, `full` and `capacity` included, with at most one unreleased item, the lock-free buffer and the deque buffers return the same results. |
| PropertyTree.ListPropertiesHelper | rtt/PropertyBag.cpp:344-356 | Appends the path of every property of the tree, each bag before its contents. |
| PropertyTree.ListingOrder | rtt/PropertyBag.cpp:344-356 | A property is listed after all that stands before it, with what is in that, and directly before what is in it. |
| PropertyTree.ListedIsFound | rtt/PropertyBag.cpp:309-356 | If names are not empty, unique among siblings, do not contain the separator and, for bags that have something in them, are separator-free (`PropertyTree.Proper`), `findProperty` on a listed path returns the very property it was listed for. |
| PropertyTree.ListedPathsDistinct | rtt/PropertyBag.cpp:344-379 | In such a tree, if the listed properties are all different, they are listed under different paths. |
| PropertyTree.FoundIsListed | rtt/PropertyBag.cpp:309-356 | Whatever `findProperty` finds, in any tree, under any path and separator, is listed, under any prefix. |
| PropertyTree.LeadingSeparator | rtt/PropertyBag.cpp:311-327 | A separator in front of a path makes no difference to a lookup. |
| PropertyTree.TrailingSeparator | rtt/PropertyBag.cpp:318-339 | Nor does one after a separator-free name. |
| PropertyTree.LeafEndsLookup | rtt/PropertyBag.cpp:329-339 | A path that goes on after a property that is no bag finds that property. |
| PropertyTree.ListedAreFoundIff | rtt/PropertyBag.cpp:309-356 | For a tree with non-empty names that are unique among siblings, and no property at two places: `findProperty` finds every listed path as it was listed if and only if no name contains the separator and, for every bag that has something in it, a separator put after its name is found there and no earlier. |
| PropertyTree.SplitTooEarly | rtt/PropertyBag.cpp:315-327 | With the separator "::", what is in a bag called "a:" is listed as "a:::b" and not found under that path. |
| PropertyTree.SharedIsFoundAnyway | rtt/PropertyBag.cpp:309-339 | Why no property may stand at two places: one that also stands next to such a bag is found under both its paths, though the first is split too early. |
| PropertyTree.FirstSeparator | rtt/PropertyBag.cpp:315-327 | A separator-free name is split off exactly. |
| PropertyTree.ListingPrefix | rtt/PropertyBag.cpp:344-356 | If no name is empty, listing under a prefix is listing with the prefix put in front. |
| PropertyEdit.FailedStoreChangesNothing | rtt/PropertyBag.cpp:388-418 | A failed store leaves the whole tree unchanged, whatever the path. |
| PropertyEdit.StoreEdits | rtt/PropertyBag.cpp:388-418 | For paths of separator-free names: a store succeeds if and only if no component of the path leads to a property that is no bag, and then changes only the bag the path leads to, missing bags created. |
| PropertyEdit.StoreLeadingSeparator | rtt/PropertyBag.cpp:388-403 | A separator in front of a path makes no difference to a store. |
| PropertyEdit.StoreHere | rtt/PropertyBag.cpp:90-100 | With the empty path or the separator alone, the item ends up at the end of the bag, once, even if it was in it; the others stay in order. |
| PropertyEdit.StoreNewIds | rtt/PropertyBag.cpp:388-418 | Whatever the path, a store of a new item adds its addresses and one new address for each bag it creates, and none if it fails. |
| PropertyEdit.StoreThenFind | rtt/PropertyBag.cpp:309-418 | For separator-free names: a stored item, not in that bag before, is found under its path if and only if its name was free there. |
| PropertyEdit.StoreKeepsLookups | rtt/PropertyBag.cpp:388-418 | If the item is not in the tree yet: everything found before, under any path, is still found, at most with more in it. |
| PropertyEdit.StoreListing | rtt/PropertyBag.cpp:388-418 | For paths of separator-free names: a store lists nothing new but the bags it created and the item with what is in it, and unlists nothing. |
| PropertyEdit.RemoveUndoesStore | rtt/PropertyBag.cpp:420-439 | For names without ".", the item's free: after storing and removing, the item cannot be found, and the tree is the one from before if the path existed. |
| PropertyEdit.FailedRemoveChangesNothing | rtt/PropertyBag.cpp:420-439 | A failed removal leaves the whole tree unchanged, whatever the path and the separator. |
| PropertyEdit.RemoveKeepsLookups | rtt/PropertyBag.cpp:309-439 | In any tree, a removal under any path and separator changes no lookup, under any path and separator, that does not come by the property removed: the same property is found, or none as before. |
| PropertyEdit.RemoveListing | rtt/PropertyBag.cpp:420-439 | For names without ".": removing a path whose bags exist unlists exactly the property of that path and what is in it; it fails, changing nothing, if and only if there is none. |
| PropertyEdit.RemoveLeadingSeparator | rtt/PropertyBag.cpp:429-434 | A separator in front of a name makes no difference to a removal. |
| PropertyEdit.RemoveNamedIs | rtt/PropertyBag.cpp:122-137 | The first property of the name is erased, the others stay in order. |
| PropertyEdit.NothingToRemove | rtt/PropertyBag.cpp:420-425 | Under the empty path and the separator alone nothing is removed. |
| PropertyEdit.SeparatorNotPassedOn | rtt/PropertyBag.cpp:420-439 | With a separator other than ".", for separator-free names without ".": what is found under a path can be removed under it if and only if it is at the top level or in a bag there. |
| PropertyEdit.SlashNotPassedOn | rtt/PropertyBag.cpp:430-439 | With "/", the property "a/b/x" is found and cannot be removed. |
| PropertyFlatten.FlattenPropertyBag | rtt/PropertyBag.cpp:774-803 | The loop with the resetting iterator ends; the result is the top level with its bags emptied, followed by each bag's flattened contents under prefixed names. |
| PropertyFlatten.FlatLeavesBagsEmpty | rtt/PropertyBag.cpp:786-799 | Every bag left is empty. |
| PropertyFlatten.FlatTop | rtt/PropertyBag.cpp:774-803 | The top level keeps its places, its bags emptied. |
| PropertyFlatten.FlatInner | rtt/PropertyBag.cpp:786-799 | The contents of the bags follow, bag after bag, each in the order of its own flattening, under names that begin with that of the bag. |
| PropertyFlatten.FlatIsListing | rtt/PropertyBag.cpp:774-803 | If no name is empty, the properties left are those listed before, each named by its path. |
| PropertyFlatten.FlatteningKeepsListing | rtt/PropertyBag.cpp:774-803 | If no name is empty, `listProperties` is unchanged up to order. |
| PropertyFlatten.FlatteningKeepsLookups | rtt/PropertyBag.cpp:774-803 | In a proper tree (see `PropertyTree.ListedIsFound`), a direct `find` of a listed path returns what `findProperty` returned before. |
| PropertyUpdate.UpdateProperties | rtt/PropertyBag.cpp:561-628 | Succeeds if and only if the types agree at every k-th property of a name; then the k-th target property of each name has the k-th source value, recursively, missing ones are added as copies at new addresses, grouped by name in the order the names first occur, and everything else is untouched. If it fails, everything up to the first disagreement is done, and nothing after it. A target that has all the values already is not changed, although `std::unique` leaves repeated names. |
| PropertyUpdate.UpdatedAbsorbs | rtt/PropertyBag.cpp:561-628 | An updated target has all the source's values. |
| PropertyUpdate.AbsorbedStays | rtt/PropertyBag.cpp:561-628 | A target that has them all agrees in types and is not changed by a completed update, at any depth. |
| PropertyUpdate.UpdatedCompatible | rtt/PropertyBag.cpp:440-492 | An update that went through shows that the types agreed. |
| PropertyUpdate.UpdateStep | rtt/PropertyBag.cpp:588-595 | Updating the k-th property of a name, again or for the first time, disturbs no other one. |
| PropertyUpdate.AppendStep | rtt/PropertyBag.cpp:596-622 | Adding a copy gives it the next rank of its name and disturbs no other one. |
| PropertyUpdate.Clone | rtt/PropertyBag.cpp:614-619 | The deep copy of a property of any depth never fails; its addresses are all different and exactly the new ones. |
| PropertyNames.PositionsComplete | rtt/PropertyBag.cpp:583-584 | Every property of the bag is among those of its name. |
| PropertyNames.PositionsOrdered | rtt/PropertyBag.cpp:583-584 | The properties of a name are taken in their order in the bag. |
| PropertyNames.UniqueIs | rtt/PropertyBag.cpp:578-579 | `std::unique` leaves no name next to its like, and drops nothing where there is none. |
| PropertyRefresh.RefreshProperties | rtt/PropertyBag.cpp:494-529 | Each property is matched with the first source property of its name, or, if it has none, with the one at its place. The call succeeds if and only if the types agree at all matches and, if strict, all have one. If the types agree, at every depth, exactly the matched ones take the values, even if some have no match. In no case is a property added, removed, renamed or retyped. |
| PropertyRefresh.StoppedByName | rtt/PropertyBag.cpp:515-518 | If the types disagree somewhere, the matches before the first such place have taken their values, and nothing after it has. |
| PropertyRefresh.SameListing | rtt/PropertyBag.cpp:494-529 | So the listing of the target stays, whether the refresh succeeds or not. |
| Lifecycle.TargetIsReached | rtt/base/TaskCore.cpp:104-237 | If every `startHook` that calls `error()` throws, then `mTaskState == mTargetState` after every operation of every run. |
| Lifecycle.TargetAlwaysReachedIff | rtt/base/TaskCore.cpp:104-237 | For any hooks, they are equal after every operation of a run if and only if the run has no start of a Stopped component whose `startHook` calls `error()` without throwing. |
| Lifecycle.TargetIsReachedIff | rtt/base/TaskCore.cpp:104-237 | For one operation: equal if and only if it is not a start whose `startHook` calls `error()` without throwing. |
| Lifecycle.UpdateOnlyWhileStarted | rtt/ExecutionEngine.cpp:327-389 | If every `startHook` that calls `error()` returns true: `prepareUpdateHook`, `updateHook` and `errorHook` run only after a `startHook` that returned true with no `stopHook` since. |
| Lifecycle.ConfiguredBeforeStart | rtt/base/TaskCore.cpp:104-144 | Whatever its hooks do, a component created PreOperational never runs `startHook` without a `configureHook` that returned true and no other `configureHook` or `cleanupHook` since. |
| Lifecycle.StopHookOnlyAfterStart | rtt/base/TaskCore.cpp:159-237 | If every `startHook` that calls `error()` returns true: `stopHook` runs only in a started component, or once more right after it threw. |
| Lifecycle.CleanupHookOnlyAfterConfigure | rtt/base/TaskCore.cpp:127-178 | Whatever its hooks do, `cleanupHook` of a component created PreOperational runs only in a configured one, or right after it or `configureHook` threw. |
| Lifecycle.RunningIffStarted | rtt/base/TaskCore.cpp:104-237 | If every `startHook` that calls `error()` returns true: a component is running, throughout a run, exactly while its last `startHook` or `stopHook` was a `startHook` that returned true, if and only if `fatal()` is called only while it is not running. |
| Lifecycle.FatalSkipsStopHook | rtt/base/TaskCore.cpp:146-190 | A call of `fatal()` in a running component, and what follows: `startHook` runs twice with no `stopHook` between. |
| Lifecycle.FatalErrorIsLeftOnlyByException | rtt/base/TaskCore.cpp:104-237 | FatalError is left if and only if `exception()` is called and `exceptionHook` does not throw; any other operation changes nothing. |
| Lifecycle.StartIsLegalIff | rtt/base/TaskCore.cpp:152-212 | A start and the update after it call hooks in order if and only if it is not the start of a Stopped component whose `startHook` calls `error()` and does not return true. |
| Lifecycle.StopHookWithoutStart | rtt/base/TaskCore.cpp:152-206 | If such a `startHook` throws, `exception()` calls `stopHook` in a component that never started. |
| Lifecycle.ErrorInStartHookIsLost | rtt/base/TaskCore.cpp:192-212 | An `error()` in a `startHook` that returns true leaves the state Running with no hook called any more. |
| Lifecycle.ErrorHookWithoutStart | rtt/ExecutionEngine.cpp:344-356 | If such a `startHook` returns false, `errorHook` runs next, in a component that was not started. |
| Lifecycle.PerformKeeps | rtt/base/TaskCore.cpp:104-237 | Every operation with every hook outcome keeps the invariant of states and trace, unless it is such a start; and it keeps running and started together if and only if it is not `fatal()` in a running component. |
| Lifecycle.PerformKeepsIff | rtt/base/TaskCore.cpp:104-237 | An operation keeps the invariant if and only if it is not such a start. |
| Lifecycle.RaiseKeeps | rtt/base/TaskCore.cpp:159-178 | Wherever `exception()` is called it keeps that invariant, and no component is started after it. |
| Lifecycle.RecoverUndoes | rtt/base/TaskCore.cpp:152-190 | `recover()` undoes `error()`; after `exception()` it succeeds if and only if no hook threw, and then the component is back in the state it was created in. |
| Lifecycle.WorksAgain | rtt/base/TaskCore.cpp:104-212 | From whatever state, FatalError included, `exception()`, `recover()`, `configure()` and `start()` bring a component back to Running if its hooks behave from then on, with exactly the hook calls that takes. |
| Lifecycle.ExceptionCallsInOrder | rtt/base/TaskCore.cpp:159-178 | `exception()` calls `stopHook` if the component ran, then `cleanupHook` if it was configured and is created PreOperational, then `exceptionHook`, up to the first that throws; it ends in FatalError if one throws and in Exception otherwise. |
| Lifecycle.AnswersTellTransitions | rtt/base/TaskCore.cpp:104-237 | `configure`, `cleanup`, `start` and `stop` return true if and only if their transition was made. |
| Lifecycle.UpdateCallsInOrder | rtt/ExecutionEngine.cpp:330-357 | If no hook throws, a running component gets `prepareUpdateHook`, `updateHook` and, if one of these called `error()`, `errorHook`. |
| Lifecycle.UpdateThrows | rtt/ExecutionEngine.cpp:330-342 | If `prepareUpdateHook` throws, or returns and `updateHook` throws, no other hook of the update is called, and then those of `exception()` in order up to the first that throws; the component ends in Exception, or FatalError if one did. |
| Lifecycle.UpdateErrs | rtt/ExecutionEngine.cpp:330-357 | If neither throws but one calls `error()`, `errorHook` is called, and `exception()` if it throws; otherwise the component stays in RunTimeError. |
| Lifecycle.ErrorHookInRunTimeError | rtt/ExecutionEngine.cpp:344-357 | A component in RunTimeError gets `errorHook` and no other hook of the update; if it throws, `exception()` is called. |
| Lifecycle.UpdateElsewhere | rtt/ExecutionEngine.cpp:330-357 | In any other state an update does nothing. |
| Lifecycle.HookReturns | rtt/base/TaskCore.cpp:104-237 | Where a hook that does not throw leads: a `configureHook` that returns false to PreOperational even from Stopped, a `startHook` that returns false to Stopped, a `cleanupHook` or `stopHook` that returns false as far as one that returns true. |
| Lifecycle.HookThrows | rtt/base/TaskCore.cpp:104-237 | If the hook of an operation throws, the hooks of `exception()` are called for the state the operation came from, or for RunTimeError if it is a `startHook` that called `error()` before. |
| Lifecycle.RefusedChangesNothing | rtt/base/TaskCore.cpp:104-237 | An operation that is not allowed in a state changes nothing. |
| Lifecycle.RefusedStop | rtt/base/TaskCore.cpp:214-226 | A stop that the activity refuses calls no hook and keeps the state, RunTimeError included. |
| Lifecycle.SinceMeans | rtt/base/TaskCore.hpp:84-97 | What started and configured mean in terms of the calls made. |
| TaskCores.TaskCore.Configure | rtt/base/TaskCore.cpp:104-125 | The state machine's transition, for every outcome of the hook. |
| TaskCores.TaskCore.Cleanup | rtt/base/TaskCore.cpp:127-144 | The state machine's transition, for every outcome of the hook. |
| TaskCores.TaskCore.Start | rtt/base/TaskCore.cpp:192-212 | The state machine's transition, for every outcome of the hook. |
| TaskCores.TaskCore.Stop | rtt/base/TaskCore.cpp:214-237 | The state machine's transition; a refused stop restores the state. |
| TaskCores.TaskCore.SetException | rtt/base/TaskCore.cpp:159-178 | The nested attempts of `exception()`: the first hook that throws leads to FatalError. |
| TaskCores.TaskCore.Process | rtt/ExecutionEngine.cpp:330-357 | One component's share of `processChildren`, of which `Lifecycle.UpdateThrows`, `UpdateErrs`, `ErrorHookInRunTimeError`, `UpdateElsewhere` and `UpdateCallsInOrder` say what it calls and where it leads. |
| TaskCores.ExecutionEngine.ProcessChildren | rtt/ExecutionEngine.cpp:327-389 | The owner and then the children in order, up to the first time the activity is found not running: each is updated as often as it stands among these, the others are untouched. |
| TaskCores.EachOnce | rtt/ExecutionEngine.cpp:327-389 | That is exactly once if no component was added twice. |
| TaskCores.ExecutionEngine.AddChild | rtt/ExecutionEngine.cpp:105-107 | The child is added at the end, again if it is there already; no component is run twice afterwards if and only if none was before and this one is new. |
| TaskCores.ExecutionEngine.RemoveChild | rtt/ExecutionEngine.cpp:109-113 | The first occurrence of the child is gone, the others stay in order; the child is gone if it was added once. |
| FunctionQueue.Functions.ProcessFunctions | rtt/ExecutionEngine.cpp:115-132 | If the queue was not empty the loop ends after as many passes as there were functions: each is executed exactly once, in order, and none that arrives; if there is room the queue then holds the early arrivals and the survivors in order among the others. In every case, whatever arrives and whether it fits, its first passes are those of the transition function the theorems below are about, and every function that was queued or arrived is queued, unloaded, refused on arrival, or lost. |
| FunctionQueue.Functions.RemoveSelfFunction | rtt/ExecutionEngine.cpp:190-207 | The first occurrence is removed and the rest rotated to start after it; without an occurrence the queue is as before. |
| FunctionQueue.QuietTail | rtt/ExecutionEngine.cpp:115-132 | If nothing arrives, exactly the survivors are left, in order. |
| FunctionQueue.RoundConserves | rtt/ExecutionEngine.cpp:115-132 | After any number of passes, with any arrivals and answers, each function that was queued or arrived is as often queued, unloaded, refused on arrival, or lost because it asked to go on and found the queue full. |
| FunctionQueue.NoneIsLostIff | rtt/ExecutionEngine.cpp:118-131 | In a round over a queue that was not empty none is lost, whatever the functions answer, if and only if nothing arrives during the executions or everything fits. |
| FunctionQueue.AllIsQueuedIff | rtt/ExecutionEngine.cpp:118-131 | After such a round the queue holds all that arrived and the survivors in order, whatever they answer, if and only if everything fits. |
| FunctionQueue.FullQueueLosesFunction | rtt/ExecutionEngine.cpp:127 | With one place in the queue, taken by another thread's function meanwhile, the function that asks to go on is lost. |
| FunctionQueue.AlwaysEndsIff | rtt/ExecutionEngine.cpp:118-131 | The loop ends, whatever the functions answer, if and only if the queue is not empty at `size()`, nothing arrives before the first `dequeue`, or nothing fits. |
| FunctionQueue.EarlyArrivalsNeverEnd | rtt/ExecutionEngine.cpp:118-131 | With an empty queue at `size()`, any functions arriving before the first `dequeue`, and answers that always ask to go on, no number of passes ends the loop. |
| FunctionQueue.EndsIffDrained | rtt/ExecutionEngine.cpp:118-131 | With an empty queue at `size()` and given answers it ends exactly when the queue drains. |
| FunctionQueue.RoundExecutes | rtt/ExecutionEngine.cpp:118-131 | With a queue that is not empty, and any arrivals: after n passes exactly the first n functions were executed, and it ends after as many passes as functions were queued. |
| FunctionQueue.PassTakesOldest | rtt/ExecutionEngine.cpp:120-131 | In any round, also one that began with an empty queue, a pass executes the oldest function and queues it behind what arrives meanwhile, if there is room, or unloads it. |
| WakeUp.NoLostWakeUp | rtt/ExecutionEngine.cpp:219-282 | For any number of waiting threads and nested calls: a thread asleep with a true predicate still has the broadcast of a call that executed a message to come. |
| WakeUp.SafeIffLocked | rtt/ExecutionEngine.cpp:228-238 | No wake-up is ever lost if and only if the lock is passed between the messages and the broadcast. |
| WakeUp.UnlockedLosesAWakeUp | rtt/ExecutionEngine.cpp:120-124 | The run that loses a wake-up if it is not. |
| WakeUp.ReturnedMeansTrue | rtt/ExecutionEngine.cpp:273-282 | In every run, with the lock passed or not, a thread that has returned has its predicate true. |
| WakeUp.ReturnsOnlyIfTrue | rtt/ExecutionEngine.cpp:273-282 | A thread returns only in a step of its own that finds its predicate true. |
| WakeUp.WokenTestsAgain | rtt/ExecutionEngine.cpp:279-281 | A woken thread whose predicate is false takes the lock, tests again and is back before its wait. |
| WakeUp.FalseGoesBackToSleep | rtt/ExecutionEngine.cpp:273-282 | While its predicate is false, each of a thread's own steps brings it closer to sleep, and steps of others do no more than wake it up. |
| WakeUp.WhoWakesUp | rtt/ExecutionEngine.cpp:237-252 | A sleeper wakes up in a broadcast or spuriously, and `processMessages` ends with a broadcast if and only if it executed a message. |
| WakeUp.GoesOnWhenEmpty | rtt/ExecutionEngine.cpp:219-236 | `processMessages` goes on to its broadcast only when it found the queue empty. |
| WakeUp.AwakeStaysAwake | rtt/ExecutionEngine.cpp:273-282 | An awake thread with a true predicate never sleeps again, and each of its steps brings it closer to its return. |
| WakeUp.NotStuck | rtt/ExecutionEngine.cpp:219-282 | At any time, a thread with a true predicate that neither sleeps nor has returned can make a step, or whoever has the lock can: another such thread, or the processing thread. |
| WakeUp.SleeperIsServed | rtt/ExecutionEngine.cpp:219-282 | If a thread sleeps with a true predicate, the processing thread has a broadcast to do and can make a step, or the thread that has the lock can. |
| WakeUp.ApplyKeepsWake | rtt/ExecutionEngine.cpp:219-282 | Every step keeps: whoever sleeps or is about to sleep with a true predicate will be woken up. |
| WakeUp.ApplyKeepsLock | rtt/ExecutionEngine.cpp:219-282 | Every step keeps the lock with the thread that is inside. |
| PeerGraph.PeersAgreeWithUsers | rtt/TaskContext.cpp:239-320 | After any operations on any components, `b` has as many aliases in the map of `a` as `a` occurs among the users of `b`. |
| PeerGraph.LinkKeeps | rtt/TaskContext.cpp:252-261 | Adding a peer keeps that, and the keys in order. |
| PeerGraph.UnlinkKeeps | rtt/TaskContext.cpp:263-280 | Removing an alias keeps that; the peer does have the user that is removed. |
| PeerGraph.DisconnectKeeps | rtt/TaskContext.cpp:292-311 | Disconnecting a component keeps that. |
| PeerGraph.StripUser | rtt/TaskContext.cpp:302-305 | The first user of a component has it as a peer, so that each pass of the first loop shortens the list. |
| PeerGraph.StrippedIsDisconnected | rtt/TaskContext.cpp:292-311 | When both loops are done nobody names the component, and everybody else has kept all other peers and users in order. |
| PeerGraph.AddPeerIs | rtt/TaskContext.cpp:252-261 | The alias, or the peer's name if it is empty, stands for the peer, which has one more entry for this user, and nothing else changes; nothing at all if it is taken. |
| PeerGraph.RemovePeerNamedIs | rtt/TaskContext.cpp:263-270 | The alias is gone and all others stay in order, the component it stood for loses one entry for this user, and nothing else changes; nothing at all without such an alias. |
| PeerGraph.RemovePeerIs | rtt/TaskContext.cpp:272-280 | The same for the first alias in key order that stands for the peer. |
| PeerGraph.ConnectPeersIs | rtt/TaskContext.cpp:282-290 | Each of two components has the other under its name and as one more user, and nothing else changes; nothing at all if one of the names is taken. |
| PeerGraph.ConnectSelfIs | rtt/TaskContext.cpp:282-290 | A component connected to itself gets itself as a peer once. |
| PeerGraph.DisconnectPeersIs | rtt/TaskContext.cpp:313-320 | Each of two components loses the first alias it has for the other, if any, and one entry for it among its users, and nothing else changes. |
| PeerGraph.DisconnectPeersUndoesConnectPeers | rtt/TaskContext.cpp:282-320 | For components that are not peers yet, or a component that is not its own peer yet, connecting and disconnecting restores everything. |
| PeerGraph.RemoveUndoesLink | rtt/TaskContext.cpp:252-280 | Removing a newly added peer restores everything. |
| PeerGraph.AliasSurvivesIff | rtt/TaskContext.cpp:313-320 | `disconnectPeers(name)` leaves `name` in place if and only if a smaller alias stands for the same component, or two of them if that is the component itself. |
| PeerMaps.LessAt | rtt/TaskContext.hpp:605-608 | The key order is that of strings: the first character that differs decides, and otherwise the length. |
| TaskContexts.TaskContext.AddPeer | rtt/TaskContext.cpp:252-261 | Dereferences null exactly for a null peer with the empty alias, is refused exactly for a null peer with an alias and for a taken alias; otherwise map and users change together, and nothing else. |
| TaskContexts.TaskContext.RemovePeerNamed | rtt/TaskContext.cpp:263-270 | The alias and one user entry go, nothing else changes. |
| TaskContexts.TaskContext.RemovePeer | rtt/TaskContext.cpp:272-280 | The first alias of the peer and one user entry go, nothing else changes. |
| TaskContexts.TaskContext.ConnectPeers | rtt/TaskContext.cpp:282-290 | Each gets the other under its name, or nothing changes; refused exactly if one of the names is taken. |
| TaskContexts.TaskContext.DisconnectPeers | rtt/TaskContext.cpp:313-320 | One alias goes on each side. |
| TaskContexts.TaskContext.Disconnect | rtt/TaskContext.cpp:292-311 | Both loops end; the component has no peers and no users, is in nobody's map and nobody's users, and all other pairs are as before. |
| TaskContexts.TaskContext.RemoveUser | rtt/TaskContext.cpp:245-250 | The first occurrence goes, the rest stays in order. |

## Left out

- Weak memory ordering (the `XXX smp_mb` comments), real threads, mutexes and scheduling.
- `data_sample` on an object or buffer that is in use.
- The circular `BufferLockFree::Push` under concurrency: its writers dequeue from a single-reader queue.
- The compare-and-swap loops inside `TsPool`, their tags and 16-bit indexes: in the concurrent model taking and giving back a cell is one step; the queue's 16-bit indexes are unbounded.
- BufferLocked and BufferUnSync are one class; the mutex makes each operation of the former one step. The sample that BufferUnSync leaves unset until the first pop is set here.
- DequeBuffers.DequeBuffer.constructor: a circular buffer has capacity 1 or more, since the code takes the front of an empty deque otherwise.
- BufferLockFree.BufferLockFree.constructor: likewise, since a circular `Push` with capacity 0 dequeues and enqueues for ever.
- PropertyEdit.StoreProperty: the separator is not empty; with an empty one the code calls itself with the same path for ever.
- Property trees are values with addresses, not heap objects: properties shared between bags, ownership and deletion, properties that are not ready and descriptions are not modelled.
- Bag type strings, the type registry, type conversion and composition: equal tags assign, different tags fail.
- PropertyEdit.RemoveUndoesStore: only for the separator ".", because line 435 does not pass the separator on.
- PropertyEdit.RemoveListing: only for the separator ".", for the same reason, and for names that do not contain it.
- Flattening of bags that own their properties, where moving a property deletes it.
- `updateProperty` and `refreshProperty` by path, `copyProperties`, decomposition: more of the same.
- Hooks that call operations other than `error()`, hooks that alter the list of children, and operations that overlap a step of the engine; `trigger()` inside `start()` is a step that follows it.
- The activities themselves: `stopTask` and `isRunning` are answers passed in, and `fatal()` stopping the activity is not modelled.
- FunctionQueue.Functions.RemoveSelfFunction: that nobody enqueues while it rotates the queue; a function that found no place would be lost there too.
- A null argument of `removeSelfFunction`, and `loaded`/`unloaded` of functions.
- Wake-ups of `waitAndProcessMessages` and `waitAndProcessFunctions`, in the processing thread itself.
- `connectPeers` of a null peer, which the code dereferences at once, and `removePeer` of one, which finds nothing.
- `std::map` is the sequence of its entries in key order; the destructors of components, ports and services.
- Logger, component loading, ports, services, operations, scripting, plugins: I/O, registries or templates.
