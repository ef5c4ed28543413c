# Verified model of the Encos motor-driver runtime

The runtime drives motors over adapters and buses. Its difficult parts are a lock-free mailbox, an
operation gate with a registry that is read without locks, and a manager that creates, routes to and
destroys objects from many threads. This project models those parts in Dafny and proves what they
are relied on for, over every interleaving and every run.

Run `dafny verify dfyconfig.toml` to verify it.

## How it is organised

Code shared by threads is a state machine: one step per atomic access or per critical section, any
number of threads, an invariant kept by every step (`NextInv`, `StepInv`, `StepKeeps`) and theorems
about whole runs. Code that runs under one lock, or in one thread, is a class or a method with loops,
whose contract ties the new state to a function of the old one; lemmas then prove the promises about
that function. Beside safety there are three other kinds of theorem about runs: what a call answers and
why (`LookupEnters`, `FrameReachesItsOwner`, `RefusedLookupHasAReason`), what it has achieved when it
is over (`RetireTakesEffect`, `NothingIsLeft`, `AllBusesReached`), and that nobody waits for ever
(`NoDeadlock`, `LookupIsNotBlocked`). History (what was pushed, when a call began, what `adapters` held) is recorded in
ordinary fields of the state, and no step depends on it.

| files | part of the runtime |
|---|---|
| `TripleCell`, `PortProtocol`, `PortTheorems` | `Port`: the wait-free overwriting ring under every interleaving, payload copied word by word |
| `PortQueue` | `Port` used by one thread: a drop-oldest queue |
| `SoftSync`, `SoftSyncBus` | soft-synchronised sending over per-device `Port<10>` channels and a bulk queue |
| `GateWord`, `Gate` | `OperationGate`: the retire-and-drain count in one 32-bit word |
| `Registry`, `SnapshotTable` | `BasicOperationRegistry`: immutable snapshots with hazard slots, and their hash table |
| `DeviceOperation` | nested public operations and their admissions |
| `RouteTables`, `RouteManager`, `RouteRuns` | receive routes, registrations, index reservation and migration |
| `Dispatch` | receive dispatch against detaching, draining and destroying |
| `ObjectTree` | creation and destruction of adapters, buses and devices |
| `AdapterFactory` | `CreateAdapterWithFactory`: leaders, followers and destroyers |
| `WasmStore`, `WasmOutcomes`, `WasmRuntime`, `WasmRuns` | the WASM handle and lease store |
| `Utf8` | the table-driven UTF-8 validator |
| `Csv` | the CSV row printer and an independent reader |

## Where the code does not keep a promise

Three claims one would like to make are false. For each the model has a run that breaks it, and an
exact condition on the state before the step in question: if it holds nothing breaks however the run
goes on, and if it does not, some continuation breaks. The tables the code holds under its locks may
show less than that condition; a test of them that is sufficient is named where it differs.

- A failed device creation erases `devices[key]` whoever is registered there
  (`src/driver_manager_create.cc:138`), while `MigrateMotorIndex` does not look at pending creations
  (`src/driver_manager_dispatch.cc:507-603`). `RouteRuns.RollbackErasesAMovedMotor` is a run from valid
  tables in which a reserved and migrated motor loses its entry. By
  `RouteRuns.MigrationIsSafeExactlyWhen` a migration is safe iff no creation at its target can still
  roll back. `pending_devices` also names creations that have already erased their key, so testing that
  the target is not in it is sufficient, not necessary.
- `CreateBus` takes a published bus back when initialising it throws, waiting for operations on the bus
  but not for devices created under it, nor for a concurrent destruction of it
  (`src/driver_manager_create.cc:244-276`). By `ObjectTree.RetractionIsSafeExactlyWhen` the retraction
  is safe iff the bus is registered and not being deleted, and has no registered device, no device whose
  destruction has still to free it, and none under construction. The tables keep a device that is being
  destroyed or rolled back until after it is freed; `ObjectTree.UncountedIsClear` gives the sufficient
  test of tables and creation counts, and `ObjectTree.CountedMayBeClear` shows that it is not necessary.
  An orphan need not last. In `ObjectTree.RetractionOrphansADevice` another thread, counted on the bus,
  constructs a device after the bus is freed; it cannot publish routes for it any more, since the bus is
  no longer in `bus_keys` (`src/driver_manager_impl.h:490`), and will give it up. A device that needs a
  writer is not even constructed (`src/driver_manager_impl.h:447-455`), an inertial sensor is. In
  `ObjectTree.RetractionOrphansARegisteredDevice` the routes were published before the retraction, and
  the device ends up registered on the freed bus.
- `CreateBus` publishes a bus before `InitializeBusSyncMode` gives it the adapter's default mode, which
  happens without draining it (`src/driver_manager_create.cc:219-248`,
  `src/adapter/base_adapter.cc:207-214`). In `SoftSync.InitializationReordersBulk` a caller that found
  the bus in between turns its sync mode on and submits a message; the initialisation turns the mode
  off again, and the next message overtakes the first. By `SoftSync.InitializationIsSafeExactlyWhen`
  the initialisation is safe iff the default mode is on or nothing is queued on the bus, both of which
  its locks let it see.

The theorems about whole runs of these three parts are for runs whose migrations, retractions and
initialisations meet the condition.

## Model

| member | source | states |
|---|---|---|
| TripleCell.Choose | include/utils/port.h:300-305 | the cell a publication writes is neither the active one nor the one under the reader's hazard |
| TripleCell.ScriptWritesImage | include/utils/port.h:202-219 | whatever a cell held, the stores of one publication in program order leave exactly the complete new contents |
| TripleCell.BeginWriteInv | include/utils/port.h:392-400 | choosing a cell keeps the invariant that a validated hazard names a complete cell nobody is filling |
| TripleCell.StoreWordInv | include/utils/port.h:402-405 | so does each single word store |
| TripleCell.PublishInv | include/utils/port.h:406-408 | and publishing the index |
| TripleCell.ReaderStepsInv | include/utils/port.h:315-324 | and each of the reader's load, hazard store, re-check and clear |
| TripleCell.ReadWordInv | include/utils/port.h:222-231 | every word loaded under a validated hazard is a word of the one value published in that cell |
| PortProtocol.SameSlot | include/utils/port.h:390 | two different numbers with the same slot are at least `Len` apart |
| PortProtocol.LatestCovers | include/utils/port.h:437-439 | the slot of an already published number never shows an older number |
| PortProtocol.HeadReadIsGenuine | include/utils/port.h:312-331 | a finished head read is never torn, and its number is neither ahead of the producer nor behind the consumer |
| PortProtocol.SlotReadIsGenuine | include/utils/port.h:505-538 | a finished slot read is never torn, names its own cell, and a matching number comes with the payload pushed under it, word for word |
| PortProtocol.SlotDeliveredInv | include/utils/port.h:534-537 | a delivery appends to the log the very message pushed under the consumer's position |
| PortProtocol.NextInv | include/utils/port.h:388-538 | every atomic step of `Push`, `Pop`, `Empty` and `Clear` keeps the protocol invariant in every interleaving |
| PortTheorems.HeldCellsAreNotWritten | include/utils/port.h:392-418 | while a validated hazard protects a cell, of a slot or of the head, no step of anyone writes a word of it |
| PortTheorems.NeverBackwards | include/utils/port.h:432-435 | the consumer's position, the head and the record of deliveries only grow |
| PortTheorems.EveryRunDelivers | include/utils/port.h:424-471 | over whole runs delivered messages are those pushed, numbers strictly increase, a number is passed over only by a call of `Clear` that moves over it, or when one `Len` later is already in its slot; the position is at most head + 1, and the head shows every completed push |
| PortTheorems.ClearedByClear | include/utils/port.h:469-471 | only a call of `Clear`, from its start to its end, discards a number, and only one it moves over |
| PortTheorems.ClearDiscards | include/utils/port.h:469-471 | `Clear` ends right behind the head it read and discards exactly the numbers from its position up to that head |
| PortTheorems.AnswersAreFresh | include/utils/port.h:424-471 | the head behind an empty answer of `Pop` or `Empty`, or the end of a `Clear`, is not older than the head at the call, so every push completed before the call is seen |
| PortTheorems.CallAnswers | include/utils/port.h:424-471 | every call ends with exactly one answer of its own kind |
| PortTheorems.EmptyMeansEmpty | include/utils/port.h:424-456 | `Pop` answers empty only if the head it read is below its position; the other empty exit and the torn-metadata branch are dead |
| PortTheorems.PushIsWaitFree | include/utils/port.h:388-418 | a push takes width + 13 producer steps whatever the consumer does, and each of its steps is one of them |
| PortTheorems.PopFinishesWithProducerFrozen | include/utils/port.h:424-456 | from any state with a `Pop` under way, the producer being frozen at whatever step it has come to, `Pop` returns after at most two further passes and 3 * (width + 16) steps; one further pass and 2 * (width + 17) steps if it is about to read the head |
| PortQueue.WindowAfterPush | include/utils/port.h:388-413 | after a push each of the last `Len` numbers is readable in its slot with its own message |
| PortQueue.RetainedAfterPush | include/utils/port.h:424-435 | the unread messages after a push are the newest `Len` of those before it followed by the new one |
| PortQueue.Port.Push | include/utils/port.h:388-418 | used sequentially, a push appends and drops the oldest beyond `Len` |
| PortQueue.Port.ReadTarget | include/utils/port.h:505-538 | returns the message exactly when the slot shows the target number, and otherwise says whether to retry and from which number |
| PortQueue.Port.Pop | include/utils/port.h:424-456 | returns the oldest retained message and removes just that one, or nothing exactly when there is none |
| PortQueue.Port.Empty | include/utils/port.h:464-466 | true exactly when nothing is retained, and changes nothing |
| PortQueue.Port.Clear | include/utils/port.h:469-471 | discards everything retained |
| SoftSync.Enqueue | src/adapter/base_adapter.cc:221-224 | queueing in a channel keeps its account: the newest ten since the last flush, in order, the missing ones being exactly the displaced ones |
| SoftSync.Flush | src/bus/bus.cc:459-467 | so does draining the channel |
| SoftSync.FromPending | src/bus/bus.cc:456-472 | what a drain hands over, seen per origin, is precisely each channel's queue and the bulk queue |
| SoftSync.DrainKeeps | src/adapter/base_adapter.cc:256-268 | handing over everything queued keeps all accounts, whether the bus then is in sync mode or not |
| SoftSync.StepKeeps | src/adapter/base_adapter.cc:143-285 | every submit, commit, mode change, registration and publication of a bus, and every initialisation that is clean, keeps the accounts of every bus |
| SoftSync.InitializeKeeps | src/adapter/base_adapter.cc:207-214 | giving a published bus the default mode keeps the accounts if that mode is on or the bus has nothing queued |
| SoftSync.UncleanInitializationReorders | src/adapter/base_adapter.cc:207-214 | otherwise one more submission is out of order |
| SoftSync.InitializationIsSafeExactlyWhen | src/driver_manager_create.cc:219-248 | an initialisation is clean iff everything stays in order however the run goes on |
| SoftSync.InitializationReordersBulk | src/driver_manager_create.cc:219-248 | a concrete run in which a bulk message overtakes an earlier one |
| SoftSync.ChannelSeen | src/bus/bus_impl.h:29 | handed-over messages followed by queued ones are increasing, genuine, and miss a message iff ten later ones came before the next flush |
| SoftSync.Conservation | src/adapter/base_adapter.cc:143-285 | over any run whose initialisations are clean: bulk messages handed over and queued, and immediate messages handed over, are those submitted, in order, once; each channel's likewise except exactly the displaced; outside sync mode nothing is queued |
| SoftSync.CallsAreConserved | src/adapter/base_adapter.cc:216-254 | and what was submitted is, frame by frame, what the calls of the run were given, for every origin |
| SoftSync.ImmediateIsSentAtOnce | src/adapter/base_adapter.cc:239-254 | an immediate submission is handed over at once in either mode and leaves every queue as it was |
| SoftSync.OneBusReached | src/adapter/base_adapter.cc:256-285 | a commit leaves the bus in sync mode and a mode change in the mode asked for; a commit, or leaving sync mode, hands over everything queued and nothing else; no other bus is concerned |
| SoftSync.AllBusesReached | src/adapter/base_adapter.cc:143-191 | the adapter-wide calls set the default mode and do that to every listed bus, leaving the others alone |
| SoftSync.SetupReaches | src/adapter/base_adapter.cc:193-214 | a published bus starts outside sync mode, takes the default mode when initialised, a new channel is empty, and none of this hands anything over |
| SoftSyncBus.TakeAll | src/bus/bus.cc:460-466 | ten pops always empty a channel, in order |
| SoftSyncBus.Bus.DrainOutgoing | src/bus/bus.cc:456-472 | over real `Port` objects the nested loops take exactly what the accounts say is queued and leave every queue empty |
| SoftSyncBus.Bus.SubmitDeviceMessage | src/adapter/base_adapter.cc:216-237 | queues in sync mode and hands over at once otherwise, touching no other channel |
| SoftSyncBus.Bus.SubmitMessages | src/adapter/base_adapter.cc:239-254 | queues non-immediate messages in sync mode, hands over all others |
| SoftSyncBus.Bus.Commit | src/adapter/base_adapter.cc:256-268 | one bus: enters sync mode and hands over everything queued |
| SoftSyncBus.Bus.CommitIfSynchronized | src/adapter/base_adapter.cc:154-161 | the whole adapter: a bus is drained only if it already was in sync mode |
| SoftSyncBus.Bus.SetSyncMode | src/adapter/base_adapter.cc:270-285 | leaving sync mode hands over everything queued, any other change hands over nothing |
| SoftSyncBus.Bus.InitializeSyncMode | src/adapter/base_adapter.cc:207-214 | sets the mode and leaves every queue as it is |
| SoftSyncBus.BaseAdapter.Commit | src/adapter/base_adapter.cc:143-166 | over distinct `Bus` objects, the loop commits each and sends the batches in order as one: the adapter ends as the specification says, bus by bus |
| SoftSyncBus.BaseAdapter.SetSyncMode | src/adapter/base_adapter.cc:168-191 | likewise for a mode change |
| GateWord.WordArithmetic | src/operation_gate.h:84-87 | admitting and leaving never carry into or borrow from the retiring bit, and retiring keeps the count |
| Gate.StepInv | src/operation_gate.h:38-81 | every load, exchange, decrement, notification, retirement, and every load, decision and sleep of a waiter keeps the gate's invariant |
| Gate.CountIsExact | src/operation_gate.h:38-66 | in every run the low bits count exactly the operations entered and not yet left, and `Leave` never terminates the process |
| Gate.RetiredIsFinal | src/operation_gate.h:38-66 | once retired a gate admits nobody and its count never rises again |
| Gate.RetireTakesEffect | src/operation_gate.h:64-66 | from a call of `Retire` on the gate is retired, and only operations inside at the call can still be |
| Gate.DrainedMeansIdle | src/operation_gate.h:76-81 | `WaitForDrain` does not return early: when a waiter that began after `Retire` has returned nobody is inside, then or later |
| Gate.DrainedSawZero | src/operation_gate.h:76-81 | any waiter returns only after loading a zero count |
| Gate.RefusedOnlyWhenClosed | src/operation_gate.h:38-50 | an attempt to enter is refused only on a word that is retired or full, and admits only on one that is not, counting it |
| Gate.ExchangeAdmits | src/operation_gate.h:38-50 | an exchange admits exactly when the word is the one expected and it does not fail spuriously; otherwise the attempt goes on unless the word now seen is closed |
| Gate.SleeperHasANotifier | src/operation_gate.h:52-61 | in every run, while a waiter that began after `Retire` sleeps, or is about to sleep, on a zero count, a notifier has still to come |
| Gate.SleeperIsWoken | src/operation_gate.h:52-81 | such a sleeper is woken by a notification, without any spurious wake-up, by at most four steps that wait for nobody else, wherever the notifier and the other waiters are |
| Gate.WaiterFinishes | src/operation_gate.h:76-81 | three more steps of its own end its wait, again without a spurious wake-up |
| Gate.NotificationWaitsForTheDecision | src/operation_gate.h:57-61 | between a waiter's load of the word and its sleep no notification can pass, and if the count has dropped to zero meanwhile a notifier has still to come |
| Registry.StepInv | src/operation_gate.h:155-248 | every step of readers and of the serialised writers keeps the registry's invariant, with freed addresses reused |
| Registry.StepComplete | src/operation_gate.h:386-392 | after every step the current snapshot holds every registered entry, registered gates are open, and no snapshot holds two entries of a key |
| Registry.LookupEnters | src/operation_gate.h:180-193 | while an entry of the key stays registered and its gate admits, a lookup ends with an admission to just that entry |
| Registry.RefusedLookupHasAReason | src/operation_gate.h:180-193 | a lookup is refused only if at some moment of it the key had no registered entry or its gate did not admit |
| Registry.AdmittedToItsKey | src/operation_gate.h:180-193 | a lookup that succeeds raises, in its last step, the count of an entry of its key that admitted at that moment |
| Registry.LookupIsNotBlocked | src/operation_gate.h:363-378 | a lookup never waits for anybody |
| Registry.RetireTakesEffect | src/operation_gate.h:221-233 | after `Retire` the entry is unregistered for good, and its gate retired once the call is over |
| Registry.ReclaimTakesIdleEntries | src/operation_gate.h:235-248 | `ReclaimRetired` takes out every entry of its key that was retired and idle when it began, unless an allocation fails |
| Registry.OnlyRetiredEntriesGo | src/operation_gate.h:221-248 | a registered entry stays, registered, until its own retirement |
| Registry.WriterWaitsForReadersOnly | src/operation_gate.h:376-392 | a writer can always move on, unless a lookup in progress has its hazard on the snapshot to be freed |
| Registry.ProtectedMemoryIsLive | src/operation_gate.h:363-392 | from a validated `ProtectSnapshot` up to and including the moment before `ClearHazard` the snapshot, and every entry reachable from it, is allocated |
| Registry.ProtectedSnapshotIsStable | src/operation_gate.h:376-392 | no step replaces or alters a protected snapshot, not even by reusing its address |
| Registry.ErasedEntriesAreIdle | src/operation_gate.h:235-248 | an erased entry has no admitted operation that has not decremented, and no reader can still reach it |
| Registry.RetiredEntryAdmitsNobody | src/operation_gate.h:180-233 | after `Retire` nobody is admitted to that entry |
| SnapshotTable.InsertKeeps | src/operation_gate.h:294-300 | filling the first free slot after an entry's start hides no other entry and accounts for `max_probe` |
| SnapshotTable.FullLap | src/operation_gate.h:285-298 | a table that is not full has a free slot on every probe sequence, so the insertion probe ends |
| SnapshotTable.NotPast | src/operation_gate.h:306-315 | a registered entry lies neither beyond an empty slot nor beyond `max_probe` |
| SnapshotTable.FoundEntryIsUnique | src/operation_gate.h:157-162 | with distinct registered keys the answer is unique |
| SnapshotTable.Snapshot.constructor | src/operation_gate.h:278-302 | for any hash the table holds exactly the registered entries and uses at most half its slots |
| SnapshotTable.Snapshot.Find | src/operation_gate.h:304-316 | finds an entry exactly when its key is registered, and then that entry |
| DeviceOperation.Thread.Construct | src/driver_manager.cc:54-75 | a frame whose gate is on the thread's stack gives its admission back, any other owns it |
| DeviceOperation.Thread.Destruct | src/driver_manager.cc:77-89 | removes the innermost frame and leaves its gate only if the frame owns the admission |
| DeviceOperation.StepInv | src/driver_manager.cc:49-89 | every step keeps each gate's count equal to the threads inside it, those between entering and construction, and the updates |
| DeviceOperation.SettledCount | src/driver_manager.cc:54-89 | in settled states of any run a gate counts each thread inside once, however deep, plus the adapter updates |
| DeviceOperation.OneOwningFrame | src/driver_manager.cc:62-75 | of a thread's frames on a gate exactly the outermost owns the admission |
| DeviceOperation.ReleasedWithTheOutermostFrame | src/driver_manager.cc:77-89 | ending a frame lowers a gate's count exactly when no frame of that gate is left on the thread |
| DeviceOperation.TakenWithTheOutermostFrame | src/driver_manager.cc:54-75 | beginning a frame puts it on top of its thread's stack and gives the admission back exactly when the thread was inside the gate already |
| DeviceOperation.OperationIsNotBlocked | src/driver_manager.cc:54-89 | an entered gate can be put on the stack and the innermost frame ended at any time |
| DeviceOperation.ZeroMeansIdle | src/operation_gate.h:76-81 | a drained gate has no live frame on any thread |
| RouteTables.UniqueIdIsInjective | include/encos/driver_manager.h:235-239 | ids of different (bus index, CAN id) pairs differ, and the bus index can be read back from the upper half |
| RouteTables.OneOwner | src/driver_manager_impl.h:518-534 | each exact (adapter, unique id) belongs to one entry of one registration |
| RouteTables.FreeIdsMayPublish | src/driver_manager_impl.h:518-534 | distinct 32-bit ids that are neither routed nor reserved can be published |
| RouteTables.PublishedRoutes | src/driver_manager_impl.h:518-556 | after publishing, each id of the recipe leads to a fresh record of the device, and no other route, claim, record or registration changes |
| RouteTables.ClaimedBusIsRouted | src/driver_manager_impl.h:490-516 | after a claim the bus leads to a fresh record of the device and nothing else changes |
| RouteTables.PublishKeepsConsistent | src/driver_manager_impl.h:518-556 | publishing exact ids keeps routes, claims, records and registrations consistent |
| RouteTables.ClaimKeepsConsistent | src/driver_manager_impl.h:490-516 | so does claiming a whole bus |
| RouteTables.DetachKeepsConsistent | src/driver_manager_impl.h:559-586 | removing exactly one device's records keeps the rest consistent |
| RouteManager.CollectEntries | src/driver_manager_impl.h:518-534 | entries are built exactly when every id is unpublished, unreserved and not repeated |
| RouteManager.InsertAll | src/driver_manager_impl.h:539-555 | all routes are inserted, or, when the k-th insertion throws, none is |
| RouteManager.RemoveFirst | src/driver_manager_impl.h:549-555 | the rollback restores the routes from before |
| RouteManager.SealRoutes | src/driver_manager_impl.h:567-583 | seals every entry and takes out exactly the routes and claims it still owns |
| RouteManager.Manager.PublishRoutes | src/driver_manager_impl.h:481-556 | all-or-nothing: refused exactly when the ids are not free or the device is registered, unchanged on refusal and on a throw, complete otherwise |
| RouteManager.Manager.DetachRegistration | src/driver_manager_impl.h:559-586 | returns the device's entries and removes and seals exactly them |
| RouteManager.DetachComplete | src/driver_manager_impl.h:559-586 | in consistent tables a device's entries are all routes and claims that lead to its records |
| RouteManager.Manager.ReserveMotorIndex | src/driver_manager_dispatch.cc:362-446 | holds the index exactly when it may be held; a throw while allocating, or in the hook, leaves the tables as they were |
| RouteManager.Manager.ReleaseMotorIndexReservation | src/driver_manager_dispatch.cc:448-474 | gives up the motor's own reservation and nobody else's |
| RouteManager.ReleaseUndoesReserve | src/driver_manager_dispatch.cc:422-446 | releasing a new reservation restores the tables |
| RouteManager.FreeIndexMayBeReserved | src/driver_manager_dispatch.cc:362-435 | an index that nobody has, holds or is creating can be reserved by any registered motor of a live bus, and is then held for it |
| RouteManager.ReserveThenMove | src/driver_manager_dispatch.cc:406-446 | reserving and then moving has the same effect as moving at once, and installs the callback stored under the new id |
| RouteManager.ReservedMayMigrate | src/driver_manager_dispatch.cc:507-558 | a motor that reserved an index can move there, with the callback prepared for it |
| RouteManager.Manager.MigrateMotorIndex | src/driver_manager_dispatch.cc:507-603 | atomic: false exactly when the move is not allowed and then nothing changes, otherwise everything moves together |
| RouteManager.MigrateKeepsValid | src/driver_manager_dispatch.cc:571-602 | a migration keeps routes, registrations and the device maps consistent |
| RouteManager.MigrationMovesOnlyThisDevice | src/driver_manager_dispatch.cc:571-583 | exactly this motor's key changes and the device table does not grow |
| RouteManager.MigrationMovesOnlyThisRoute | src/driver_manager_dispatch.cc:571-582 | exactly this motor's route moves to the new id, every other route, record and claim stays and the route table does not grow |
| RouteManager.CallbackFollowsTheMotor | src/driver_manager_dispatch.cc:583-591 | a callback waiting at the new id wins over the motor's own, none is left at the old id, nobody else's changes |
| RouteManager.InstalledFollows | src/driver_manager_dispatch.cc:552-594 | after a move the motor has the callback reserved with the index, or else the one now stored under the new id; every other motor keeps its own |
| RouteManager.MigratedMotorKnowsItsIndex | src/driver_manager_dispatch.cc:595 | the moved motor carries its new index, every other motor its own |
| RouteRuns.StepInv | src/driver_manager_create.cc:41-150 | every critical section of creation, rollback, destruction, reservation and migration keeps the tables consistent and `devices` and `device_keys` inverse, unless a migration targets a key whose creation can still roll back |
| RouteRuns.RunInv | src/driver_manager_create.cc:41-150 | so over whole runs |
| RouteRuns.MotorsKnowTheirIndex | src/driver_manager_create.cc:286-306 | in every run each motor of the tables carries, modulo 2^16, the index under which they know it |
| RouteRuns.CommitRegisters | src/driver_manager_create.cc:93-117 | a commit makes the device that of its key in both tables, and gives a motor the callback configured for its id |
| RouteRuns.NothingIsLeft | src/driver_manager_create.cc:118-150 | a destruction that ends, and a rollback, leave no key, registration, route or claim of the device |
| RouteRuns.MigrationIsSafeExactlyWhen | src/driver_manager_dispatch.cc:517-583 | a migration's target is not under construction iff `devices` and `device_keys` stay inverse however the run goes on |
| RouteRuns.ContestedMoveIsErased | src/driver_manager_create.cc:118-141 | after a migration onto a key under construction, that creation's rollback makes the two maps differ |
| RouteRuns.PublishedBlocksMigration | src/driver_manager_dispatch.cc:536-558 | a key whose creation has published its routes cannot be migrated to |
| RouteRuns.RollbackKeepsInverseExactlyWhen | src/driver_manager_create.cc:136-141 | a creation's rollback keeps the maps inverse iff nobody has moved onto its key |
| RouteRuns.RollbackErasesAMovedMotor | src/driver_manager_create.cc:138 | a concrete run in which a moved motor's entry is erased |
| RouteRuns.ReservationHolds | src/driver_manager_dispatch.cc:391-435 | a reserved id is unpublished, stays reserved, and becomes free only by its own motor's release or move |
| Dispatch.StepInv | src/driver_manager_dispatch.cc:253-335 | every lookup, callback and decrement, and every publication, migration, detach, drain and destruction, keeps the dispatch invariant |
| Dispatch.FrameReachesItsOwner | src/driver_manager_dispatch.cc:296-335 | in every run a frame whose id a device has published, or moved to, with a callback and not given up, is admitted to that device's record and no other, its callback is run, and the dispatch returns true |
| Dispatch.UnroutedFrameGoesToTheClaimer | src/driver_manager_dispatch.cc:296-312 | a frame without an eligible exact route is admitted to the claimer of its bus if that is eligible, to nobody otherwise, and the dispatch returns false |
| Dispatch.ClaimerIsTheClaimant | src/driver_manager_dispatch.cc:9-39 | the claimer found is the device that claimed the bus and has not been detached since |
| Dispatch.BroadcastReachesAll | src/driver_manager_dispatch.cc:253-294 | a system frame runs the callback of every eligible route of its bus, in turn, then reaches the claimer, and the dispatch returns false |
| Dispatch.DispatchIsNotBlocked | src/driver_manager_dispatch.cc:253-335 | a dispatch waits for nobody |
| Dispatch.DetachedIsUnreachable | src/driver_manager_impl.h:559-586 | from a device's detach on all its records are retiring and neither a route nor a claim leads to one |
| Dispatch.DrainWaitsForHoldersOnly | src/driver_manager_impl.h:589-604 | a destruction waits only for dispatches inside the device's records |
| Dispatch.InFlightIsExact | src/driver_manager_dispatch.cc:23-39 | `in_flight` of a record counts exactly the threads between admission and decrement |
| Dispatch.RetiringAdmitsNobody | src/driver_manager_dispatch.cc:269-273 | no step admits a new thread to a retiring record, and it stays retiring |
| Dispatch.RetiringOnlyEmpties | src/driver_manager_impl.h:567-569 | from the moment a record is retiring its holders only become fewer |
| Dispatch.AfterDrainNothingRuns | src/driver_manager_impl.h:589-604 | after the drain has passed a device's entries no thread holds any of its records, then or ever after |
| Dispatch.NoCallbackOnADestroyedDevice | src/driver_manager_destroy.cc:45-59 | in every run with any number of exact, claim and broadcast dispatches no callback runs, or is about to run, on a destroyed device |
| Dispatch.PublishedIsNotRetiring | src/driver_manager_dispatch.cc:298-304 | a published record is never retiring, so the lookups' test for it never fires |
| Dispatch.CollectSystemRoutes | src/driver_manager_dispatch.cc:257-274 | the broadcast loop takes every eligible route of its bus once and no other |
| ObjectTree.StepInv | src/driver_manager_impl.h:328-356 | every critical section of creation, destruction and `CreateBus`'s initialisation or clear retraction keeps counts, registrations and lives in order |
| ObjectTree.LiveChild | src/driver_manager_create.cc:20-150 | in every reachable state the parent of a live object is still registered |
| ObjectTree.NoOrphans | src/driver_manager_destroy.cc:235-308 | in every run a live device's bus and a live bus's adapter are live |
| ObjectTree.FreedOnlyWhenEmpty | src/driver_manager_impl.h:401-429 | an object is freed, by its destruction or by a retraction, only while it is live and when nothing under it is registered, live or still to be freed |
| ObjectTree.FreedOnlyWhenUncreated | src/driver_manager_impl.h:348-356 | nor is anything below it, at any depth, being created |
| ObjectTree.CommitRegisters | src/driver_manager_create.cc:93-117 | a commit registers the object constructed, live and under a registered parent |
| ObjectTree.StaysRegistered | src/driver_manager_create.cc:93-117 | a registered object stays registered and live until its own destruction erases it or its creator takes it back |
| ObjectTree.CreationsAreCounted | src/driver_manager_impl.h:328-346 | each object counts exactly the creations that hold it, and a creation in progress holds its parent and its parent's parent |
| ObjectTree.DyingAdmitsNobody | src/driver_manager_create.cc:41-104 | while an object is being destroyed no creation begins, publishes or commits under it or its children |
| ObjectTree.DestroyedIsGone | src/driver_manager_destroy.cc:235-308 | what a destruction or a retraction freed is neither live nor registered ever again |
| ObjectTree.DestructionAdvances | src/driver_manager_destroy.cc:235-308 | a destruction passes its stages one by one, and no step of anyone else touches it |
| ObjectTree.CreationAdvances | src/driver_manager_create.cc:20-150 | every step of a creation leaves it less to do: it takes at most seven |
| ObjectTree.NoDeadlock | src/driver_manager_impl.h:348-429 | in every run, as long as a creation or a destruction is unfinished, some step that finishes something is possible without anything new being asked for |
| ObjectTree.RetractionIsSafeExactlyWhen | src/driver_manager_create.cc:250-276 | taking a published bus back is clear (registered, not dying, no device registered, unfreed or under construction) iff, however the run goes on, no object is orphaned or freed twice |
| ObjectTree.UnclearRetractionCorrupts | src/driver_manager_create.cc:250-276 | after an unclear retraction at most two more steps orphan an object, or free one twice |
| ObjectTree.UncountedIsClear | src/driver_manager_impl.h:348-356 | a registered bus that nobody deletes, without counted creations and without devices in the tables, may be taken back |
| ObjectTree.CountedMayBeClear | src/driver_manager_impl.h:348-356 | a run in which a counted creation does no harm, so the counts are not the exact condition |
| ObjectTree.RetractionOrphansADevice | src/driver_manager_create.cc:250-276 | a concrete run that ends with a live device of a freed bus, which can no longer be registered |
| ObjectTree.RetractionOrphansARegisteredDevice | src/driver_manager_create.cc:93-150 | a concrete run that ends, with no creation in progress, with a registered device of a freed bus |
| AdapterFactory.StepInv | src/driver_manager.cc:153-255 | every step of callers and destroyers keeps tables, publications and calls in order |
| AdapterFactory.OneFactoryPerName | src/driver_manager_impl.h:206-225 | for each name at most one caller runs a factory |
| AdapterFactory.ReturnsARegisteredAdapter | src/driver_manager.cc:164-243 | a caller that returns normally returns the adapter registered under the name at some moment of its call |
| AdapterFactory.LookUpOutcome | src/driver_manager.cc:170-209 | a caller leads exactly when the name is neither registered nor being created; a registered adapter nobody destroys is returned at once, or updated |
| AdapterFactory.LeaderReturnsItsOwn | src/driver_manager.cc:218-242 | a leader that registers returns the adapter its own factory made, now the registered one |
| AdapterFactory.WaitsEnd | src/driver_manager.cc:179-212 | after a deletion, or a creation that succeeded, a waiting caller looks again; after one that failed it throws |
| AdapterFactory.ThrowsForAReason | src/driver_manager.cc:200-255 | a caller throws only because its own factory, registration or update did, the adapter it was to update was retiring, or the creation it waited for failed |
| AdapterFactory.ErrorsComeFromLeaders | src/driver_manager.cc:243-254 | a publication fails only by its leader |
| AdapterFactory.NoDeadlock | src/driver_manager.cc:170-209 | in every run, as long as a call or a destruction is unfinished, some step already begun is possible |
| AdapterFactory.DestructionHolds | src/driver_manager_destroy.cc:327-430 | an adapter is dying from the start of its destruction to its end, leaves both tables in between, and only so |
| AdapterFactory.ErasedStaysOut | src/driver_manager_destroy.cc:414-430 | an adapter taken out of the tables never comes back |
| AdapterFactory.CallStartsNow | src/driver_manager.cc:164-166 | that moment is not before the call |
| AdapterFactory.NeverReturnsNull | src/driver_manager.cc:214-216 | the exit that returns a publication's null result is dead |
| AdapterFactory.TablesStayInverse | src/driver_manager.cc:228-241 | `adapters` and `adapter_names` stay inverse, and an adapter being updated stays registered |
| WasmStore.CreatedInv | src/wasm/wasm_runtime.cc:51-103 | creating an adapter, real or fake, keeps the store's invariant |
| WasmStore.WithBusInv | src/wasm/wasm_runtime.cc:388-416 | so does taking a bus handle |
| WasmStore.WithMotorInv | src/wasm/wasm_runtime.cc:433-474 | and a motor handle, though other calls come between its two halves |
| WasmStore.AfterDisposeInv | src/wasm/wasm_runtime.cc:160-298 | and disposing, in each of its outcomes |
| WasmStore.PolledInv | src/wasm/wasm_runtime.cc:333-372 | and polling the pending deletions |
| WasmStore.CreatedHandleIsRight | src/wasm/wasm_runtime.cc:90-103 | a created handle resolves to the adapter registered under the name and no other handle changes |
| WasmStore.BusHandleIsRight | src/wasm/wasm_runtime.cc:400-416 | a bus handle resolves to the adapter handle and raw index asked for, and asking again gives the same one |
| WasmStore.MotorHandleIsRight | src/wasm/wasm_runtime.cc:459-474 | likewise a motor handle for its bus and index |
| WasmRuntime.RuntimeStore.DisposeValid | src/wasm/wasm_runtime.cc:188-298 | with the children extracted first, a disposal that returns a failure leaves the whole store as it was, one that succeeds drops the handle with exactly its children |
| WasmRuntime.RuntimeStore.RestoreChildren | src/wasm/wasm_runtime.cc:228-246 | putting the extracted children back, node by node, gives the tables from before |
| WasmStore.NoInternalError | src/wasm/wasm_runtime.cc:247-252 | the exits for missing leases and doubled deletions are never taken |
| WasmStore.DestroyedWithItsLastHandle | src/wasm/wasm_runtime.cc:253-298 | disposing destroys the adapter only with its last handle |
| WasmStore.PendingLeaseStaysOne | src/wasm/wasm_runtime.cc:59-62 | a pending deletion's name is refused and its lease stays one |
| WasmStore.ChildrenResolve | src/wasm/wasm_runtime.cc:540-572 | every bus and motor handle in the store resolves |
| WasmStore.DisposedChildrenAreGone | src/wasm/wasm_runtime.cc:196-227 | a disposed handle's buses and motors go, everybody else's stay |
| WasmStore.DeletionGivesUp | src/wasm/wasm_runtime.cc:333-372 | over any sequence of polls a deletion that keeps failing is tried 64 times at delays doubling up to 64 ms and then rests, its interface name and lease staying taken |
| WasmOutcomes.CreateOutcome | src/wasm/wasm_runtime.cc:51-158 | creating succeeds exactly when no deletion of the interface is pending, a handle is left and the manager returns an adapter, a fake one if that was asked for |
| WasmOutcomes.CreateAddsOneHandle | src/wasm/wasm_runtime.cc:65-103 | success adds exactly one handle, to the adapter returned; failure leaves handles and leases as they were |
| WasmOutcomes.BusOutcome | src/wasm/wasm_runtime.cc:388-416 | getting a bus succeeds exactly for a live handle whose adapter has the bus, a handle being left unless the bus has one |
| WasmOutcomes.BusFrame | src/wasm/wasm_runtime.cc:400-416 | and changes no other handle |
| WasmOutcomes.MotorOutcome | src/wasm/wasm_runtime.cc:433-450 | another motor of a live bus can be created unless one is being created already |
| WasmOutcomes.MotorFinish | src/wasm/wasm_runtime.cc:451-474 | it gets a handle exactly when the bus makes it and a handle is left; otherwise the store is as before |
| WasmOutcomes.KnownMotor | src/wasm/wasm_runtime.cc:433-443 | a motor that has a handle is found under it |
| WasmOutcomes.MotorFrame | src/wasm/wasm_runtime.cc:459-474 | and no other handle changes |
| WasmOutcomes.DisposeOneOfSeveral | src/wasm/wasm_runtime.cc:247-258 | disposing of one of several handles always succeeds unless a motor is being created on the adapter: just this handle goes and the adapter stays |
| WasmOutcomes.DisposeTheLast | src/wasm/wasm_runtime.cc:260-298 | of the last handle it destroys and forgets the adapter if the waiters have drained and the manager does, begins a pending deletion if they have not, and changes nothing if the manager refuses |
| WasmOutcomes.DisposeOtherwise | src/wasm/wasm_runtime.cc:160-194 | an unknown handle is refused, one already awaiting its disposal accepted |
| WasmOutcomes.DisposeAgain | src/wasm/wasm_runtime.cc:163-185 | disposing again revives a deletion that was given up, with one attempt and fresh counts, and does nothing otherwise |
| WasmOutcomes.PollCompletes | src/wasm/wasm_runtime.cc:364-369 | a poll carries out every pending deletion that is ready: lease, handle, name and adapter are gone |
| WasmOutcomes.PollKeeps | src/wasm/wasm_runtime.cc:333-372 | and every other adapter keeps its handles, lease and registration |
| WasmRuntime.RuntimeStore.CreateAdapter | src/wasm/wasm_runtime.cc:51-103 | reserves entry and lease node first and takes both back on every failure |
| WasmRuntime.RuntimeStore.CreateFakeAdapter | src/wasm/wasm_runtime.cc:105-158 | likewise, refusing an adapter of another type |
| WasmRuntime.RuntimeStore.DisposeAdapter | src/wasm/wasm_runtime.cc:160-298 | returns a lease, begins a pending deletion or destroys the adapter; restores the children otherwise |
| WasmRuntime.RuntimeStore.BeginPendingAdapterDeletion | src/wasm/wasm_runtime.cc:300-331 | begins exactly when the handle holds the only lease and no deletion is pending |
| WasmRuntime.PollAll | src/wasm/wasm_runtime.cc:333-372 | one attempt at every pending deletion, and the shortest delay of those to be tried again |
| WasmRuntime.RuntimeStore.GetBus | src/wasm/wasm_runtime.cc:388-416 | one handle per raw index of an adapter handle |
| WasmRuns.NoHandleTwice | src/wasm/wasm_runtime.cc:44-49 | over whole runs no handle value is issued twice, and none is 2^32 - 1 |
| WasmRuns.DestroyedOnlyWithItsLastHandle | src/wasm/wasm_runtime.cc:253-298 | whatever the operation, an adapter is destroyed only when its one remaining handle goes |
| WasmRuns.LeasesCountHandles | src/wasm/wasm_runtime.cc:82-99 | at every moment each lease count is the number of handles of that adapter, and one while its deletion is pending |
| Utf8.AcceptsExactlyUtf8 | external/IXWebSocket/ixwebsocket/IXUtf8Validator.h:50-92 | the automaton accepts exactly the concatenations of the well-formed sequences of section 4 of RFC 3629 |
| Utf8.ValidateUtf8 | external/IXWebSocket/ixwebsocket/IXUtf8Validator.h:168-176 | true exactly for those strings |
| Utf8.CharIsAccepted | external/IXWebSocket/ixwebsocket/IXUtf8Validator.h:84-92 | a well-formed sequence leads to acceptance, not earlier, with its character number in the 32-bit code point |
| Utf8.CodePointIsTheScalar | external/IXWebSocket/ixwebsocket/IXUtf8Validator.h:84-92 | at the end of each character of a string the code point is that character's number |
| Utf8.ScalarsAreShortest | external/IXWebSocket/ixwebsocket/IXUtf8Validator.h:50-73 | well-formed sequences encode scalar values only, in shortest form |
| Utf8.Parse | external/IXWebSocket/ixwebsocket/IXUtf8Validator.h:127-141 | a string that is not rejected is a run of well-formed sequences and an unfinished one |
| Utf8.PrefixFree | external/IXWebSocket/ixwebsocket/IXUtf8Validator.h:50-73 | no well-formed sequence is a proper prefix of another |
| Utf8.Unambiguous | external/IXWebSocket/ixwebsocket/IXUtf8Validator.h:127-141 | a string has at most one decomposition into characters |
| Utf8.DecodedIsFed | external/IXWebSocket/ixwebsocket/IXUtf8Validator.h:127-141 | stopping at the first rejecting byte does not change the verdict |
| Utf8.ChunksJoin | external/IXWebSocket/ixwebsocket/IXUtf8Validator.h:127-141 | decoding chunk by chunk equals decoding the concatenation |
| Utf8.Utf8Validator.Decode | external/IXWebSocket/ixwebsocket/IXUtf8Validator.h:127-141 | the loop computes that verdict and state from any state |
| Csv.EscapeCsvString | include/utils/log_writer.h:49-65 | quotes a field exactly when it holds a comma, quote or line break, doubling its quotes |
| Csv.QuotedExactlyWhenNeeded | include/utils/log_writer.h:49-65 | a field is printed as it is exactly when it has no comma, quote or line break; any other stands between quotes, one character longer for each quote in it |
| Csv.LogWriter.AppendRow | include/utils/log_writer.h:199-207 | appends the escaped fields separated by commas and ended by a line feed |
| Csv.PrintedAppend | include/utils/log_writer.h:199-207 | rows appended one after the other make up the text of all of them |
| Csv.ReadField | include/utils/log_writer.h:49-65 | a reader following section 2 of RFC 4180 recovers any field and stands where a separator ends it |
| Csv.RoundTrip | include/utils/log_writer.h:199-207 | for any positive number of columns it recovers every list of rows of arbitrary strings |
| Csv.PrintingIsInjective | include/utils/log_writer.h:199-207 | for any fixed number of columns, zero included, different lists of rows are printed differently |
| Csv.NoColumnsLookLikeOne | include/utils/log_writer.h:199-207 | the number has to be known: a row of no field and a row of one empty field print alike |

## Left out

- Weak memory orders, cache-line alignment, test hooks and instrumentation: atomics are sequentially
  consistent steps, as the `seq_cst` accesses of `Port` and of the snapshot hazards are in the source.
- PortProtocol.NextInv: sequence numbers are unbounded naturals, 32-bit metadata versions do wrap; the
  callback that `Push` runs after publishing is not modelled.
- Gate.SleeperIsWoken: says which few steps wake the sleeper and that they are enabled, not that the
  scheduler is fair; an operation is over at the decrement in `Leave`, and nothing is claimed about the
  gate's memory afterwards.
- Registry.ProtectedMemoryIsLive: one reader per hazard slot; claiming a slot when a thread first reads,
  and running out of slots, are not part of this model.
- SnapshotTable.Snapshot.constructor: `& (capacity - 1)` is written as a remainder, the capacity being
  eight times a power of two.
- SoftSync.Conservation: `Send` appends to one output sequence; its exceptions, its re-entry and
  unregistering a device channel with messages still queued are outside the claim, as are runs with an
  initialisation that is not clean, see above.
- RouteRuns.StepInv: the bus table is fixed, since a bus outlives its devices by `ObjectTree`; an
  allocation failure inside the commit itself is not modelled.
- RouteManager.InstalledFollows: configuring a status callback is not a step of `RouteRuns`; a callback
  reserved with an index is the one that was stored when it was reserved.
- Dispatch.NoCallbackOnADestroyedDevice: replacing a callback of a live route, cancelling waiters, the
  refusal to destroy a device from its own callback, and deadlock of destruction issued inside
  callbacks are not part of this model.
- ObjectTree.FreedOnlyWhenEmpty: an id denotes one object, so reuse of a freed object's address before
  its mark is cleared is not modelled; the tables of devices and buses appear as sets of registered
  objects, their keys being the subject of `RouteRuns`. Runs in which `CreateBus` takes a bus back
  that is not clear are excluded, see above. The followers of `CreateDevice` and `CreateBus`, which do
  not look the object up again after waiting, are not modelled.
- AdapterFactory.ReturnsARegisteredAdapter: for adapters only, for the same reason.
- WasmRuntime.RuntimeStore.DisposeValid: an exception from the extraction, from the manager or while
  registering the pending deletion, after which the code restores nothing and leaves the entry marked as
  disposing, is not among the outcomes.
- WasmStore.CreatedInv: creating an adapter is one step; a second creation entered while the first is
  inside the manager, which the reserved lease node makes fail, is not modelled.
- WasmStore.AfterDisposeInv: batteries and inertial sensors, which repeat the motors' pattern, raw
  driver objects, error messages and the timers that schedule a poll are left out; the manager's
  answers are parameters, constrained only by what `AdapterFactory` proves.
- Utf8.AcceptsExactlyUtf8: the lookup table is given by its ranges.
- Csv.RoundTrip: formatting numbers and booleans as text, the file header, compression and the
  background thread are left out.
- Gloves and calibrators, device protocols, status filters, motor feedback arithmetic, plugin loading,
  the C interface, and the rest of IXWebSocket: they add special cases or input and output, not state
  whose safety is in question here.
