# Verified models of the Helios engine

This project models the parts of the engine whose correctness is hardest to see by reading one function, and proves
what they promise. Each module follows one source file or one protocol. `dafny verify dfyconfig.toml` checks all of
it.

## What is modelled

**Epoch-fenced authority** (`AuthorityTypes`, `FenceSpec`, `FenceForest`, `FenceInvariant`, `FenceTheorems`,
`FenceOutcomes`, `MemoryFence`, `AgTable`, `AuthoritySystem`, `AuthorityHandover`). A fence keeps rows of authority
groups that form trees and moves whole trees from epoch to epoch by compare-and-swap. `FenceSpec` says what each
operation does to a store; the class `InMemoryFence` does the same with rows updated in place, passes over the row map
and a queue of deferred calls, and is proved equal to it. The store stays a forest in lockstep, and the consequences
over whole runs follow; `FenceOutcomes` says, from the rows alone, when each operation succeeds, what it answers
otherwise and what it leaves, and that the release notices are exactly those that the log calls for. Its depth limit
is another matter: heights are measured over at most 64 rows, so `LimitHoldsIffWalkable` shows that a limit is kept
exactly when it is from 1 to 64. `AgTable` is one cell's view with late answers, late notices and incarnations;
`AuthoritySystem` runs one fence and any number of tables under any schedule and shows that a tree has one holder per
epoch, over the whole run and not only at one moment. `AuthorityHandover` follows a tree that another cell takes: its
holder is told, drops it on the notice, and never holds it at an old epoch again.

**Leases and clocks** (`Lease`, `ZoneClock`, `ZoneOutcomes`). The lease holder's floors, what its events say when
replayed, and what each signal decides. The zone clock's announced dilation changes, the integer accounting of the
dilatable clock below it, and how much wall time counts around a hold. The promise that a listener always agrees with
the clock is not true of every run: `ImmediateChangeCanBeMissed` is a run where it fails, and
`ListenerAgreesIffTimely` gives the exact condition.

**Jobs** (`JobQueue`, `WakeProtocol`, `TaskGraph`, `TaskGraphRun`). The growing ring deque against a plain sequence of
stamped jobs, the sleep and wake-up protocol as a state machine with a step for each atomic action, in which no
wake-up and no job is lost, Kahn's algorithm with its heap order, and the run of a graph by atomic countdowns.

**Paks** (`ByteStrings`, `Sums`, `PakFormat`, `PakWriter`, `PakPlan`, `PakReader`, `HpakReader`, `PakRoundTrip`,
`PakIntegrity`, `BlockVerification`, `BlockOutcomes`, `MountTable`). From adding assets to the bytes of the file, and
from any file's bytes to its assets: what was added is read, byte for byte. `PakPlan` and `HpakReader` are the loops
of the writer and the reader; `PakWriter` and `PakReader` say what they compute, and `PakIntegrity` says of any file,
whoever wrote it, when it opens and what of it can be read. `BlockVerification` runs any number of concurrent readers
with repairs and retries, one atomic step at a time. The refetch hook is promised to run once per block;
`HookCanRunTwice` shows the one way it can run again, and `HookRunsOnce` bounds it exactly by that; `BlockOutcomes`
says why blocks change state and why fetches fail.

**Derived data** (`SettingsWalk`, `SettingsAmbiguity`, `DdcTrim`). The byte stream behind the settings hash. The
source says that different walks never write the same bytes (`engine/assetpipe/src/importer.cpp:52-53`). The walk
writes an enum's underlying type when it has one and nothing when it has none (line 82), and the stream does not say
which. So the claim holds exactly on the classes of types in which no enum's head occurs both with and without an
underlying type (`TellsApartIffHeadsDecide`); otherwise two maps over u8, u16 and that enum write the same bytes
(`OppositeEnumsCollide`). Types from the reflection builder and the code generator always have the underlying type, so
the claim holds for them; records filled in by hand, which line 82 provides for, can leave it out. The cache's running
byte total never undercounts the disk, and a trim evicts no more than it must.

**Text** (`TextCheck`, `CVarText`, `CVarLines`, `CVarConfig`, `CVarSaved`, `CVarOutcomes`). Chunked UTF-8 validation
against the grammar of RFC 3629, section 4. The console variables' printer, tokenizer and configuration loop: what
saving and reading back restores, and exactly for which values; which statements a text stands for, and what each
does.

**Performance history** (`PerfHistory`, `PerfOutcomes`). A metric's nights on changing host classes, with a history
that keeps the last sixty: what the anchor of a class is and which nights are regressions. Numbers are reals and the
lists are those of the source.

`Options`, `OrderedSets` and `Naturals` hold what several modules share.

Where the source changes state in place, the model has a class or a method with loops that is proved against a
function on values, and the properties are proved about that function. Concurrent code is a state machine whose steps
are the atomic actions of the source, under sequential consistency; a run is any sequence of enabled steps.

## Model

| member | source | states |
|---|---|---|
| `FenceTheorems.ReachableIsForest` | engine/authority/src/memory_fence.cpp:154-424 | In every store reached from an empty one: rows sharing a root agree on epoch, owner and state, every parent chain ends at that root and never repeats a row, within the depth limit when that is from 1 to 64, and TreeMismatch cannot occur |
| `FenceTheorems.LimitHoldsIffWalkable` | engine/authority/src/memory_fence.cpp:198-213 | The depth limit holds for every row of every reachable store exactly when it is from 1 to 64: the height of a subtree is measured over at most 64 rows of a chain, so a larger limit is never enforced |
| `FenceTheorems.TowerBuilt` | engine/authority/src/memory_fence.cpp:280-305 | Under a limit above 64 there is a run that builds a chain of any length, by joins alone |
| `FenceTheorems.EpochsNeverFall` | engine/authority/src/memory_fence.cpp:215-424 | Over any run no row disappears and no row's epoch falls |
| `FenceTheorems.StaleNeverWins` | engine/authority/src/memory_fence.cpp:237-278 | After an advance from epoch e succeeded, no later advance or park stamped e can succeed on that tree, whatever ran in between, and the late call changes nothing: a compare-and-swap is won at most once |
| `FenceTheorems.NewestEventIsCurrent` | engine/authority/src/memory_fence.cpp:223-231 | In every reachable store the events of one AG have strictly increasing epochs, and the newest event of a current root carries its row's epoch and owner |
| `FenceTheorems.MigrateIffExact` | engine/authority/src/memory_fence.cpp:386-424 | A migration is Ok exactly when the request is valid and the manifest lists each active root of the region once at its current epoch; then every row of those trees is one epoch later, active and owned by the target, and the region still has the same roots |
| `FenceTheorems.AdvanceManyIsAllOrNothing` | engine/authority/src/memory_fence.cpp:329-362 | A bundle handoff is Ok exactly for a non-empty list of distinct active roots at their current epochs under a valid owner; then all listed trees and no other row move, otherwise nothing changes |
| `FenceTheorems.RecoveryMovesOnlyOwnedTrees` | engine/authority/src/memory_fence.cpp:364-384 | Recovery moves exactly the rows that are active under the region at the given generation or an older one; dormant rows and younger generations are untouched, and the trees are reported in AG order |
| `FenceTheorems.JoinedSubtree` | engine/authority/src/memory_fence.cpp:169-184 | After a join, the rows below the member are exactly the rows of its former tree |
| `FenceTheorems.LeaveUndoesJoin` | engine/authority/src/memory_fence.cpp:280-327 | A leave stamped with the epoch a join returned succeeds and gives every row its root and parent back; both trees end two epochs past the higher of the two, under the root's owner, and no other row changes |
| `FenceOutcomes.AdvanceIffCurrent` | engine/authority/src/memory_fence.cpp:237-263 | An advance is Ok exactly when the arguments are valid, the root is its own root at the epoch the call is stamped with, a load finds it dormant and a handoff or abort finds it active |
| `FenceOutcomes.AdvanceRefused` | engine/authority/src/memory_fence.cpp:237-263 | Otherwise nothing changes, and the answer is InvalidArgument, NotFound, NotRoot, NeedsTakeover exactly for a load of a tree that is active at that epoch, and else Stale with the current epoch and owner |
| `FenceOutcomes.AdvanceMoves` | engine/authority/src/memory_fence.cpp:237-263 | A successful advance puts every row of the tree, and no other, at the next epoch, active under the owner; it answers with the owner before, logs one event, and tells that owner exactly when a load or takeover by another cell took the tree from it |
| `FenceOutcomes.ParkIffOwned` | engine/authority/src/memory_fence.cpp:265-278 | A park is Ok exactly for the cell that owns the active root, at its current epoch; otherwise nothing changes and the answer says why |
| `FenceOutcomes.ParkMoves` | engine/authority/src/memory_fence.cpp:265-278 | A parked tree is dormant and nobody's, one epoch later, and each of its rows remembers the final checkpoint |
| `FenceOutcomes.OnlyParksMark` | engine/authority/src/memory_fence.cpp:237-424 | No operation but a successful park of its tree changes the checkpoint that a row remembers |
| `FenceOutcomes.JoinIffOwned` | engine/authority/src/memory_fence.cpp:280-305 | A join is Ok exactly for two different active roots of the cell at their current epochs, when no chain to the member has a row too many for the depth limit |
| `FenceOutcomes.JoinRefused` | engine/authority/src/memory_fence.cpp:280-305 | Otherwise nothing changes; the member is looked at before the root, and epochs and owners before the depth |
| `FenceOutcomes.JoinMoves` | engine/authority/src/memory_fence.cpp:280-305 | The joined trees have one root, the member hangs below it, and all their rows are active under the root's owner one epoch past the higher of the two |
| `FenceOutcomes.LeaveIffOwned` | engine/authority/src/memory_fence.cpp:307-327 | A leave is Ok exactly for a row that is not a root, in an active tree of the cell, at its current epoch; otherwise nothing changes and the answer says why |
| `FenceOutcomes.LeaveMoves` | engine/authority/src/memory_fence.cpp:307-327 | The rows whose chain reaches the member become its tree, the others keep their root, and all are one epoch later under the same owner |
| `FenceOutcomes.ManyRefused` | engine/authority/src/memory_fence.cpp:329-362 | A bundle handoff is refused for its first entry that repeats a tree, names none, or is not active at its current epoch, with the status of that entry |
| `FenceOutcomes.MigrateAndRecoveryRefused` | engine/authority/src/memory_fence.cpp:364-424 | A migration with valid arguments is refused as stale or not at all, and a recovery refuses invalid arguments only; a refused call changes nothing |
| `FenceOutcomes.BulkLogs` | engine/authority/src/memory_fence.cpp:329-424 | A bulk operation logs one event, and answers one entry, for each tree it moved, with the owner before and the cause of the operation, in one order |
| `FenceOutcomes.NoticesFollowLog` | engine/authority/src/memory_fence.cpp:223-231 | In every reachable store the release notices are exactly those that the log calls for, in its order: one for each load, takeover or recovery that took a tree from another cell |
| `FenceOutcomes.TakenIsNotified` | engine/authority/src/memory_fence.cpp:223-231 | Whenever a load, takeover or recovery takes an owned tree to another cell, the cell it was taken from is told, at the new epoch |
| `FenceOutcomes.CreateOutcome` | engine/authority/src/memory_fence.cpp:41-52 | A row is created exactly for a valid new AG, as a dormant tree of its own, and nothing else changes |
| `FenceInvariant.ApplyKeepsInv` | engine/authority/src/memory_fence.cpp:237-424 | Every operation, successful or refused, keeps the forest, the lockstep of each tree and the consistency of the event and notice logs |
| `FenceInvariant.FailureChangesNothing` | engine/authority/src/memory_fence.cpp:237-424 | A call that is not Ok leaves rows, events and notices as they were |
| `FenceInvariant.OkRaisesExactlySelected` | engine/authority/src/memory_fence.cpp:237-424 | A call that is Ok raises the epoch of exactly the rows in the trees it selects and leaves every other row alone |
| `FenceInvariant.MoveEachRows` | engine/authority/src/memory_fence.cpp:355-360 | Moving the listed trees one after the other puts each one epoch later under the owner and touches no other row |
| `FenceTheorems.ManifestChecked` | engine/authority/src/memory_fence.cpp:393-416 | What migrateRegion checks of a manifest is exactly that it lists each active root once at its current epoch |
| `FenceInvariant.CreateKeepsInv` | engine/authority/src/memory_fence.cpp:41-52 | A new row keeps the forest and the logs |
| `FenceInvariant.JoinKeepsInv` | engine/authority/src/memory_fence.cpp:280-305 | A successful join keeps the forest and the logs |
| `FenceInvariant.LeaveKeepsInv` | engine/authority/src/memory_fence.cpp:307-327 | A leave cuts the subtree off so that both parts are trees again, with the logs consistent |
| `FenceForest.Forest` | engine/authority/src/memory_fence.cpp:154-221 | Consequences of the forest invariant for one row: a chain to its root, within a depth limit from 1 to 64, no repetition, the root's epoch, owner and state |
| `FenceForest.RootsCollect` | engine/authority/src/memory_fence.cpp:154-167 | collectTree fails exactly for a missing row (NotFound) or one that is not a root (NotRoot): in a lockstep store it never finds a mismatch |
| `FenceForest.JoinShape` | engine/authority/src/memory_fence.cpp:292-301 | Hanging a tree whose height fits below a root gives chains that end at that root within the depth limit |
| `FenceForest.LeaveShape` | engine/authority/src/memory_fence.cpp:320-322 | Cutting a member's subtree off leaves two well-formed trees |
| `MemoryFence.InMemoryFence.constructor` | engine/authority/src/memory_fence.cpp:37-38 | A new fence is empty and satisfies the invariant, whatever its depth limit |
| `MemoryFence.InMemoryFence.CreateRow` | engine/authority/src/memory_fence.cpp:41-52 | Adds a dormant single-row tree at the given epoch, once; otherwise nothing changes |
| `MemoryFence.InMemoryFence.CollectTree` | engine/authority/src/memory_fence.cpp:154-167 | The loop over all rows returns the status, epoch and exactly the rows of the tree |
| `MemoryFence.InMemoryFence.GrowOnce` | engine/authority/src/memory_fence.cpp:174-182 | One pass adds rows whose parent is already in, never a row whose chain misses the member, and reports whether it added one |
| `MemoryFence.InMemoryFence.Subtree` | engine/authority/src/memory_fence.cpp:169-184 | The repeated passes end with exactly the rows whose parent chain reaches the member |
| `MemoryFence.InMemoryFence.Walk` | engine/authority/src/memory_fence.cpp:186-213 | The walk over at most 64 rows of a parent chain finds the member at its distance, or proves that the chain does not reach it within them |
| `MemoryFence.InMemoryFence.SubtreeHeight` | engine/authority/src/memory_fence.cpp:198-213 | The loop over all rows computes the height of the subtree as far as chains are followed; with a limit up to 64 that is the true height |
| `MemoryFence.InMemoryFence.MoveRows` | engine/authority/src/memory_fence.cpp:215-221 | The loop gives the listed rows the epoch, owner and state and changes no other row |
| `MemoryFence.InMemoryFence.EmitEvent` | engine/authority/src/memory_fence.cpp:223-231 | Appends one event, and a release notice exactly when a load, takeover or recovery takes the tree from another cell |
| `MemoryFence.InMemoryFence.DoAdvance` | engine/authority/src/memory_fence.cpp:237-263 | Equals the specified advance: same branches, same errors, same rows, events and notices |
| `MemoryFence.InMemoryFence.DoPark` | engine/authority/src/memory_fence.cpp:265-278 | Equals the specified park, including the stream sequence it remembers |
| `MemoryFence.InMemoryFence.DoJoin` | engine/authority/src/memory_fence.cpp:280-305 | Equals the specified join, including the order of its checks and of its passes over the rows |
| `MemoryFence.InMemoryFence.DoLeave` | engine/authority/src/memory_fence.cpp:307-327 | Equals the specified leave |
| `MemoryFence.InMemoryFence.CollectListed` | engine/authority/src/memory_fence.cpp:336-354 | Collects every listed tree or returns the first failure in list order |
| `MemoryFence.InMemoryFence.MoveTrees` | engine/authority/src/memory_fence.cpp:355-360 | Moves the collected trees in list order although rows change under way |
| `MemoryFence.InMemoryFence.DoAdvanceMany` | engine/authority/src/memory_fence.cpp:329-362 | Equals the specified bundle handoff |
| `MemoryFence.InMemoryFence.RecoverTrees` | engine/authority/src/memory_fence.cpp:374-382 | The loop that collects and moves at once ends in the same state as collecting every tree first |
| `MemoryFence.InMemoryFence.DoAdvanceOwnedBy` | engine/authority/src/memory_fence.cpp:364-384 | Equals the specified recovery |
| `MemoryFence.InMemoryFence.CollectManifest` | engine/authority/src/memory_fence.cpp:402-416 | Collects every tree of a manifest, or returns why the first entry cannot migrate |
| `MemoryFence.InMemoryFence.DoMigrate` | engine/authority/src/memory_fence.cpp:386-424 | Equals the specified migration |
| `MemoryFence.InMemoryFence.Submit` | engine/authority/src/memory_fence.cpp:111-137 | A call is applied at once, or queued at the end while the fence is deferred |
| `MemoryFence.InMemoryFence.Pump` | engine/authority/src/memory_fence.cpp:99-109 | Applies the first queued calls in call order and leaves the others queued |
| `MemoryFence.AttemptKeepsInv` | engine/authority/src/memory_fence.cpp:115-128 | A call through the queue keeps the invariant, and an unavailable fence answers Unavailable and changes nothing |
| `MemoryFence.CallsRunInOrder` | engine/authority/src/memory_fence.cpp:99-137 | Deferred calls run in the order of the queue, each on the store that the one before left, and each gets its own reply |
| `AuthoritySystem.SingleHolder` | engine/authority/src/ag_table.cpp:20-96 | For any number of cells and any schedule of calls, delayed answers, late notices, drops and reloads, and over the whole run: two tables that hold a tree at the same epoch are the same table |
| `AuthoritySystem.HolderIsFenced` | engine/authority/src/ag_table.cpp:20-96 | A held tree's epoch never exceeds the fence row's; when equal, the row is active and owned by the holder's cell |
| `AuthoritySystem.ReleaseIsJustified` | engine/authority/src/ag_table.cpp:86-96 | A release notice drops a tracking only when the fence row has already reached the notice's epoch, past the table's own |
| `AuthoritySystem.GateShutsWhileInFlight` | engine/authority/src/ag_table.cpp:120-123 | The ledger gate is open exactly for held trees, and it is shut exactly while a call of the current tracking is unanswered |
| `AuthoritySystem.PollIsEnabled` | engine/authority/src/ag_table.cpp:45-54 | In every state that keeps the invariant a table can poll: each ticket it waits for belongs to a single-tree call |
| `AuthoritySystem.StepKeepsInv` | engine/authority/src/ag_table.cpp:20-101 | Every step of the fence and the tables keeps the system invariant |
| `AuthoritySystem.PollKeepsTable` | engine/authority/src/ag_table.cpp:45-84 | Applying every answer that has arrived, with stale ones dropped by incarnation, keeps a table consistent with the fence |
| `AuthorityHandover.NoticeDrops` | engine/authority/src/ag_table.cpp:86-96 | A notice ends the tracking of its tree exactly when the table's epoch, plus one while loading, is below the notice's; nothing else changes |
| `AuthorityHandover.HolderIsTold` | engine/authority/src/memory_fence.cpp:223-231 | When another cell's load, takeover or recovery takes the tree that a table holds at the fence's epoch, a notice with the next epoch is there for the table's cell |
| `AuthorityHandover.TakenIsNeverHeldAgain` | engine/authority/src/ag_table.cpp:20-101 | After a table heard that its tree was taken, it never again holds the tree at an epoch below the notice's, whatever it loads and whatever late replies arrive |
| `AuthorityHandover.PollDecides` | engine/authority/src/ag_table.cpp:45-84 | A poll decides every waiting tracking by its own call: a won load is held at the epoch it asked for, a lost call and a park end the tracking, and without an answer nothing changes; held trees stay and nothing new is tracked |
| `AuthorityHandover.LoadTracks` | engine/authority/src/ag_table.cpp:20-33 | Any valid tree that is not tracked can be loaded; the call asks for the next epoch, and the tracking waits for it under an incarnation higher than all before |
| `AuthorityHandover.ParkWaits` | engine/authority/src/ag_table.cpp:35-43 | A held tree, and no other, can be parked; the call is stamped with the epoch held and the gate shuts |
| `AuthorityHandover.DropForgets` | engine/authority/src/ag_table.cpp:98-101 | Dropping everything forgets every tracking and every reply still to come, and nothing else |
| `AgTables.AgTable.Load` | engine/authority/src/ag_table.cpp:20-33 | Tracks an untracked tree under a fresh incarnation with one advance in flight; refuses a tracked or invalid one |
| `AgTables.AgTable.Park` | engine/authority/src/ag_table.cpp:35-43 | Starts parking a held tree with one park in flight; refuses any other |
| `AgTables.AgTable.Receive` | engine/authority/src/ag_table.cpp:53-81 | One answer: ignored for a forgotten or newer tracking, otherwise the tree becomes held at the answered epoch or is forgotten |
| `AgTables.AgTable.Poll` | engine/authority/src/ag_table.cpp:45-84 | The loop that erases while it goes applies every arrived answer in issue order and keeps the others |
| `AgTables.AgTable.OnReleased` | engine/authority/src/ag_table.cpp:86-96 | Forgets the tree exactly when the notice is newer than what the table holds or is loading |
| `AgTables.AgTable.DropAll` | engine/authority/src/ag_table.cpp:98-101 | Forgets everything, while incarnations keep counting |
| `AgTables.AgTable.LedgerGateOpen` | engine/authority/src/ag_table.cpp:120-123 | Open exactly when the tracking is held and none of its calls is in flight |
| `Lease.AcquiredGenerationsIncrease` | engine/authority/src/lease.cpp:20-117 | Within one registration, whatever stale, repeated or reordered lists and rejections arrive, the generations at which a region is acquired strictly increase |
| `Lease.RunReplays` | engine/authority/src/lease.cpp:20-117 | Replaying all emitted Lost and Acquired events gives exactly the held regions and generations, and no held generation is below its region's floor |
| `Lease.EventsReplay` | engine/authority/src/lease.cpp:41-117 | The same for one signal: its events turn the holdings before into the holdings after |
| `Lease.EventsAreOrdered` | engine/authority/src/lease.cpp:41-81 | A list emits its losses and then its gains, each in region order, one event for each holding that ended and each that began, with the right reason |
| `Lease.AcquiresFresh` | engine/authority/src/lease.cpp:45-58 | A region is acquired only above every generation its registration has used up |
| `Lease.SpentStaysSpent` | engine/authority/src/lease.cpp:20-34 | A generation given up stays below the floor until the registration ends |
| `Lease.RegistrationsStartAfresh` | engine/authority/src/lease.cpp:83-89 | What happened before a registration ended does not change what the next one does |
| `Lease.ListDecides` | engine/authority/src/lease.cpp:41-81 | After a list, exactly the regions are held that some entry assigns at a generation not below the floor; the last such entry decides name and generation, unless it is older than what is held; a holding that ended raises its floor past its generation |
| `Lease.HigherGenerationDecides` | engine/authority/src/lease.cpp:91-98 | A higher generation seen elsewhere ends a holding at a lower one, with its event, and raises the floor of that region only |
| `Lease.RejectionEnds` | engine/authority/src/lease.cpp:100-105 | A rejected checkpoint ends the holding, with its event, and its generation is below the floor from then on |
| `Lease.EndLosesAll` | engine/authority/src/lease.cpp:83-117 | The end of a registration loses every region, with one event each in region order, and forgets all floors |
| `Lease.OthersOnlyMark` | engine/authority/src/lease.cpp:107-110 | A rejected tree fence only asks for a verification, and an unreachable control plane changes nothing |
| `Lease.LeaseHolder.LoseRegion` | engine/authority/src/lease.cpp:20-29 | Drops a held region with its event; a loss inside the registration raises the floor above the lost generation |
| `Lease.LeaseHolder.RaiseFloor` | engine/authority/src/lease.cpp:31-34 | Raises one region's floor and never lowers it |
| `Lease.LeaseHolder.Accept` | engine/authority/src/lease.cpp:44-58 | The first loop: the assignment that counts for each listed region, stale ones ignored |
| `Lease.LeaseHolder.DropSuperseded` | engine/authority/src/lease.cpp:59-71 | The erasing loop drops exactly the regions no longer listed or listed at another generation, and confirms the rest |
| `Lease.LeaseHolder.TakeNew` | engine/authority/src/lease.cpp:72-78 | The last loop takes exactly the incoming regions that are not held |
| `Lease.LeaseHolder.OnAssignmentList` | engine/authority/src/lease.cpp:41-81 | Equals the specified effect of a list: holdings, floors and events |
| `Lease.LeaseHolder.LoseAll` | engine/authority/src/lease.cpp:83-89 | Loses every region in region order and forgets the floors |
| `Lease.LeaseHolder.OnLeaseLost` | engine/authority/src/lease.cpp:83-89 | Equals the specified end of a registration |
| `Lease.LeaseHolder.GiveUpAll` | engine/authority/src/lease.cpp:112-117 | Equals the specified release |
| `Lease.LeaseHolder.OnHigherGenerationSeen` | engine/authority/src/lease.cpp:91-98 | Loses the region when the generation seen is higher and raises its floor to it in any case |
| `Lease.LeaseHolder.OnRegionCheckpointRejected` | engine/authority/src/lease.cpp:100-105 | Loses the region, with the floor above its generation |
| `Lease.LeaseHolder.OnAgFenceRejection` | engine/authority/src/lease.cpp:107-110 | Only marks the region for verification |
| `DilatableClocks.AdvanceConserves` | engine/core/src/time.cpp:76-96 | No scaled time is lost or made up: steps, remainder and dropped time together grow by the counted wall time times the scale, and the backlog stays under its cap |
| `DilatableClocks.CapKeepsPhase` | engine/core/src/time.cpp:88-95 | The cap drops whole steps only and keeps the position within the step |
| `DilatableClocks.AdvanceSplits` | engine/core/src/time.cpp:76-87 | While nothing is dropped, advancing in two calls equals advancing once: the remainder carries what a call could not turn into whole nanoseconds |
| `ZoneOutcomes.AdvanceCounts` | engine/core/src/time.cpp:76-96 | Advancing counts the wall time, an hour at most, at the running scale; the backlog is cut to exactly the allowed whole steps, and only when there are more |
| `DilatableClocks.DilatableClock.Advance` | engine/core/src/time.cpp:76-96 | Equals the specified accounting |
| `DilatableClocks.DilatableClock.ConsumeStep` | engine/core/src/time.cpp:98-103 | Consumes exactly one step when one is due |
| `ZoneClocks.ListenerAgreesIffTimely` | engine/authority/src/zone_clock.cpp:129-166 | Between start or rejoin, a listener that keeps only the latest announced change agrees with the clock at every tick begun exactly when every tick was timely, that is, when no immediate change was still unheard behind a later announcement; the promise holds on no larger set of runs |
| `ZoneClocks.FollowingStep` | engine/authority/src/zone_clock.cpp:129-204 | One operation: a tick leaves listener and clock equal exactly when it was timely |
| `ZoneClocks.ImmediateChangeCanBeMissed` | engine/authority/src/zone_clock.cpp:189-204 | A run in which agreement fails: a schedule for a passed tick, then one for a later tick, then a tick |
| `ZoneClocks.FutureSchedulesAreTimely` | engine/authority/src/zone_clock.cpp:189-204 | Schedules that always name a later tick keep the listener in agreement |
| `ZoneClocks.SelfLedAlwaysAgrees` | engine/authority/src/zone_clock.cpp:144-166 | Without external schedules the listener agrees at every tick, however the demand moves |
| `ZoneClocks.SettledByItsTick` | engine/authority/src/zone_clock.cpp:151-166 | Without external schedules, a change is applied or cancelled no later than the tick it was first announced for, however often the demand changes |
| `ZoneOutcomes.FeedAccrues` | engine/authority/src/zone_clock.cpp:105-123 | Feeding accrues exactly the wall time since the last feeding during which the clock was not held, and a hold is over once its deadline has passed |
| `ZoneOutcomes.FeedingsAccrue` | engine/authority/src/zone_clock.cpp:105-123 | However wall time is cut into feedings, and whatever part a hold covers, an hour of feedings accrues exactly the time that was not held |
| `ZoneOutcomes.BeginDecides` | engine/authority/src/zone_clock.cpp:125-142 | A tick begins exactly when the clock is started, not held, and a step or a rejoin is due; it takes the one or the other and runs a change whose tick has come |
| `ZoneOutcomes.MeasureDecides` | engine/authority/src/zone_clock.cpp:144-166 | A self-led zone whose demand differs from its target announces one change, at the tick already announced if that is to come, else after the lead; it stays pending unless it is back at the running value |
| `ZoneOutcomes.InstallDecides` | engine/authority/src/zone_clock.cpp:189-204 | A schedule of another step length changes nothing; one for a passed tick takes effect at once, a later one is pending; its value is brought into range and announced |
| `ZoneOutcomes.HoldDecides` | engine/authority/src/zone_clock.cpp:206-214 | A hold is taken exactly when its deadline is still to come, and ends on request |
| `ZoneOutcomes.RejoinRunsCurrent` | engine/authority/src/zone_clock.cpp:216-224 | After a rejoin the next tick begun is the current one, at once, with nothing pending and no time carried over |
| `ZoneOutcomes.FirstFeedStarts` | engine/authority/src/zone_clock.cpp:96-109 | The first feeding starts the clock and accrues nothing |
| `ZoneClocks.ZoneClock.AdvanceTo` | engine/authority/src/zone_clock.cpp:105-123 | Wall time accrues except while held; a hold releases itself at its deadline and only the time after it accrues |
| `ZoneClocks.ZoneClock.BeginTick` | engine/authority/src/zone_clock.cpp:129-142 | Begins a due tick and applies a pending change exactly at its tick |
| `ZoneClocks.ZoneClock.OnTickMeasured` | engine/authority/src/zone_clock.cpp:144-149 | A self-led zone schedules a demand that differs from its target |
| `ZoneClocks.ZoneClock.Schedule` | engine/authority/src/zone_clock.cpp:151-166 | A change announced for a later tick keeps its tick and changes its value, and is cancelled when the demand returns |
| `ZoneClocks.ZoneClock.ApplySchedule` | engine/authority/src/zone_clock.cpp:189-204 | A passed anchor takes effect at once, a later one becomes pending; each is announced; another step length is refused |
| `ZoneClocks.ZoneClock.ApplyHold` | engine/authority/src/zone_clock.cpp:206-210 | Holds the clock until a deadline that is still to come |
| `ZoneClocks.ZoneClock.Rejoin` | engine/authority/src/zone_clock.cpp:216-224 | Restarts the clock so that the current tick is due at once |
| `JobQueues.JobQueue.Grow` | engine/core/src/jobs.cpp:105-112 | Doubling moves every entry to its slot in the larger ring; the sequence of jobs and their absolute indices stay |
| `JobQueues.JobQueue.Push` | engine/core/src/jobs.cpp:31-37 | Appends one job, growing a full ring |
| `JobQueues.JobQueue.PushMany` | engine/core/src/jobs.cpp:89-98 | Appends the jobs in order, growing as often as needed |
| `JobQueues.JobQueue.PopBack` | engine/core/src/jobs.cpp:39-47 | Takes the newest job, or finds the queue empty |
| `JobQueues.JobQueue.PopBackAbove` | engine/core/src/jobs.cpp:51-59 | Takes the newest job exactly when its index is at or above the floor |
| `JobQueues.JobQueue.PopFront` | engine/core/src/jobs.cpp:65-73 | Takes the oldest job, or finds the queue empty |
| `JobQueues.JobQueue.PopFrontMany` | engine/core/src/jobs.cpp:76-86 | Takes up to the given number of oldest jobs in order |
| `JobQueues.SlotsDiffer` | engine/core/src/jobs.cpp:31-37 | Indices less than a ring apart never share a slot |
| `JobQueues.AboveFloorIsNewer` | engine/core/src/jobs.cpp:61-63 | Whatever is pushed, popped and stolen after the owner read its tail, entries at or above that index were pushed after the read |
| `JobQueues.PopAboveIsNewer` | engine/core/src/jobs.cpp:288-305 | So popBackAbove with that floor returns a job pushed after the read |
| `JobQueues.BatchKeepsOrder` | engine/core/src/jobs.cpp:253-262 | The reversed batch of popGlobal comes back out of the worker's own end in submission order |
| `WakeProtocol.NoLostWakeUp` | engine/core/src/jobs.cpp:361-379 | While the system runs: with a job queued and no submitter on its way, there is a wake token or a worker awake that will still look at that queue, despite the token cap, the non-atomic scans and the batch moves |
| `WakeProtocol.ShutdownWakesEveryone` | engine/core/src/jobs.cpp:407-415 | After notifyAll there is a token for every waiting worker, and each can take one |
| `WakeProtocol.SleepersAreCounted` | engine/core/src/jobs.cpp:319-322 | The sleeper count is exact, so a submitter that reads 0 may skip the notification |
| `WakeProtocol.JobsAreConserved` | engine/core/src/jobs.cpp:249-261 | In every reachable state, the jobs submitted are those in the queues, those that workers carry from a global batch to their own queue, and those that were started: none is lost and none runs twice |
| `WakeProtocol.DrainedMeansStarted` | engine/core/src/jobs.cpp:249-286 | When the queues are empty and nobody carries a batch, every job submitted was started |
| `WakeProtocol.TokensAreCapped` | engine/core/src/jobs.cpp:132-155 | While the system runs there is at most one token for each worker, however many jobs were submitted; shutting down adds at most one more for each |
| `WakeProtocol.StepKeepsInv` | engine/core/src/jobs.cpp:249-429 | Every load, store, queue operation and critical section keeps the protocol's invariant |
| `TaskGraphs.KahnCompletesIffAcyclic` | engine/core/src/jobs.cpp:551-577 | The order contains every node exactly when the graph has no cycle, and is then a topological order |
| `TaskGraphs.KahnIsLeast` | engine/core/src/jobs.cpp:561-568 | No topological order is lexicographically smaller |
| `TaskGraphs.CycleForbidsOrder` | engine/core/src/jobs.cpp:569-575 | A graph with a cycle has no topological order |
| `TaskGraphs.StuckHaveCycle` | engine/core/src/jobs.cpp:569-575 | Nodes that each wait for another of them contain a cycle |
| `TaskGraphs.TaskGraph.AddNode` | engine/core/src/jobs.cpp:526-534 | Adds one node without edges |
| `TaskGraphs.TaskGraph.AddEdge` | engine/core/src/jobs.cpp:536-549 | Adds the edge once; unknown nodes and self-dependencies are refused; the predecessor counts stay those of the edges |
| `TaskGraphs.TaskGraph.CountDown` | engine/core/src/jobs.cpp:565-567 | Counting down the successors leaves the counts and the ready set of one more ordered node |
| `TaskGraphs.TaskGraph.TopologicalOrder` | engine/core/src/jobs.cpp:551-577 | Succeeds exactly on acyclic graphs, with the lexicographically least order that respects every edge |
| `TaskGraphRun.PredecessorsReturnFirst` | engine/core/src/jobs.cpp:584-594 | Under every schedule a node is launched only after the functions of all its predecessors returned |
| `TaskGraphRun.RunsEachNodeOnce` | engine/core/src/jobs.cpp:584-615 | No node is launched twice, and when run has returned each was launched once and has made its last access |
| `TaskGraphRun.NothingRunsAfterReturn` | engine/core/src/jobs.cpp:593-615 | After run returned no step is left that could touch the shared state |
| `TaskGraphRun.NeverStuck` | engine/core/src/jobs.cpp:596-615 | On an acyclic graph some step is always possible until run has returned |
| `TaskGraphRun.RunsAreBounded` | engine/core/src/jobs.cpp:596-615 | Every run is bounded by a number its start fixes, so run returns under every schedule |
| `TaskGraphRun.CountersHold` | engine/core/src/jobs.cpp:584-594 | No atomic counter is ever decremented below zero |
| `BlockVerification.FetchReturnsMatching` | engine/asset/src/hpak_reader.cpp:364-397 | If bytes only ever change from not matching to matching, then whatever readers, repairs and retries interleave, a successful fetch returns only blocks that match their checksum |
| `BlockVerification.VerifiedIsFinal` | engine/asset/src/hpak_reader.cpp:407-422 | A block that is Verified stays Verified and matches |
| `BlockVerification.HookRunsOnce` | engine/asset/src/hpak_reader.cpp:431-469 | Between two resets of a block the hook is called at most once plus the number of re-reads after a Repaired answer that failed with an I/O error |
| `BlockVerification.HookCanRunTwice` | engine/asset/src/hpak_reader.cpp:452-453 | A run without retries in which the hook is called twice for one block because that re-read fails: the stated exception is real |
| `BlockVerification.VerifiedNeverReportedChanged` | engine/asset/src/hpak_reader.cpp:444-468 | A reader that finds the block Verified never fails with "changed after it was verified" |
| `BlockOutcomes.HookOnlyForMismatch` | engine/asset/src/hpak_reader.cpp:432-452 | In every run, a thread at the refetch hook, or deciding about its answer, holds a copy of the block, read under the repair lock, that does not match |
| `BlockOutcomes.StateChanges` | engine/asset/src/hpak_reader.cpp:407-497 | A block changes state in three ways only: a reader with a matching copy verifies it, a reader with a copy that does not match records the hook's answer, and a retry resets it |
| `BlockOutcomes.SettlesAsAnswered` | engine/asset/src/hpak_reader.cpp:452-466 | A block turns Pending only when the hook said so, and Bad only when the hook failed, or said repaired and the block still did not match |
| `BlockOutcomes.MatchingRereadVerifies` | engine/asset/src/hpak_reader.cpp:440-461 | A reader whose read under the repair lock matches goes on and leaves the block Verified, whatever the others do meanwhile |
| `BlockOutcomes.MatchingCopyVerifies` | engine/asset/src/hpak_reader.cpp:424-430 | A reader whose first copy matches goes on and leaves the block Verified, unless it turned Pending or Bad meanwhile |
| `BlockOutcomes.FailureHasCause` | engine/asset/src/hpak_reader.cpp:364-469 | A fetch fails only for an I/O error, or while a block of its range is Pending or Bad |
| `BlockOutcomes.RetryResets` | engine/asset/src/hpak_reader.cpp:485-497 | A retry resets each Pending or Bad block of its range, touches no other, and gives the lock back |
| `BlockVerification.StepKeepsInv` | engine/asset/src/hpak_reader.cpp:364-497 | Every atomic step of a reader, a repair or retryBlocks keeps the invariant |
| `PakFormat.HeaderRoundTrip` | engine/asset/src/hpak_format.cpp:20-64 | Decoding an encoded header gives every field back |
| `PakFormat.EntryRoundTrip` | engine/asset/src/hpak_format.cpp:70-99 | Decoding an encoded table entry gives every field back |
| `PakFormat.HashedPartFixed` | engine/asset/src/hpak_format.cpp:66-68 | The hashed part of the header does not depend on the stored hash |
| `PakWriter.StoreAssetOk` | engine/assetpipe/src/hpak_writer.cpp:96-132 | However an asset is stored, its blocks decode to its pieces, fit the limits and are no longer than the asset |
| `PakWriter.BlobPlaced` | engine/assetpipe/src/hpak_writer.cpp:189-198 | Every stored asset lies in the region at its aligned offset |
| `PakWriter.BlockHasher.Feed` | engine/assetpipe/src/hpak_writer.cpp:175-188 | Feeding bytes in any pieces keeps exactly the checksums of the full 64 KiB blocks so far and the rest pending |
| `PakWriter.BlockHasher.Finish` | engine/assetpipe/src/hpak_writer.cpp:199-200 | Closing the partial block gives the checksums of all blocks of what was fed |
| `PakWriter.FeedZeros` | engine/assetpipe/src/hpak_writer.cpp:193-197 | The padding loop feeds exactly that many zeros |
| `PakWriter.HashBlobs` | engine/assetpipe/src/hpak_writer.cpp:173-199 | The incremental hasher equals hashing each 64 KiB chunk of the joined padded blobs |
| `PakWriter.PlanLayout` | engine/assetpipe/src/hpak_writer.cpp:50-71 | A layout is planned exactly for files within the limits, with aligned consecutive offsets and the right sizes |
| `PakWriter.SumsAgree` | engine/assetpipe/src/hpak_writer.cpp:134-147 | Sizes do not depend on the order of the assets |
| `PakWriter.BuildLength` | engine/assetpipe/src/hpak_writer.cpp:36-38 | The built file has exactly the computed size |
| `PakWriter.HpakWriter.Store` | engine/assetpipe/src/hpak_writer.cpp:103-132 | The compression loop stores frames exactly when together they are smaller than the asset |
| `PakWriter.HpakWriter.Add` | engine/assetpipe/src/hpak_writer.cpp:86-148 | Refuses with the right error and changes nothing, or adds exactly this asset; the running totals stay exact |
| `PakWriter.AddsKeepPlan` | engine/assetpipe/src/hpak_writer.cpp:134-148 | The running size is the size of the file that build would write, and within the limit |
| `PakWriter.FramesOnlyWhenSmaller` | engine/assetpipe/src/hpak_writer.cpp:102-134 | Frames are stored exactly when together they are smaller than the asset; otherwise its pieces are stored as they are |
| `PakWriter.AddRefusedIff` | engine/assetpipe/src/hpak_writer.cpp:86-147 | Why an asset is refused, in the order of the checks; the last is that the pak built with it would be above the limit |
| `PakPlan.StoreNumbers` | engine/assetpipe/src/hpak_writer.cpp:216-225 | Writing numbers through the cursor overwrites exactly their bytes |
| `PakPlan.StoreEntries` | engine/assetpipe/src/hpak_writer.cpp:205-221 | Writing entries and block sizes at two cursors into one zeroed buffer puts each into its region |
| `PakPlan.WriteToc` | engine/assetpipe/src/hpak_writer.cpp:202-225 | The buffer ends up as entries, block sizes and block checksums |
| `PakPlan.PlaceBlobs` | engine/assetpipe/src/hpak_writer.cpp:189-191 | Every asset gets the offset of its blob in the file order |
| `PakPlan.MakePlan` | engine/assetpipe/src/hpak_writer.cpp:150-225 | Planning cannot fail for what add accepted, and its counts and sizes are those of the parts |
| `PakPlan.EmitBlobs` | engine/assetpipe/src/hpak_writer.cpp:244-251 | Header, blobs and padding in file order |
| `PakPlan.BuildPak` | engine/assetpipe/src/hpak_writer.cpp:150-265 | Building succeeds for every valid writer, gives the file that the round trip reads, and has the running size |
| `PakRoundTrip.OpensAsWritten` | engine/asset/src/hpak_reader.cpp:138-256 | A built pak opens, for its own platform or any, with exactly the tables that were written |
| `PakRoundTrip.WhatIsWrittenIsRead` | engine/asset/src/hpak_reader.cpp:138-362 | For any assets and any blob order, opening the built pak succeeds and reading an id gives the bytes added under it, or NotFound |
| `PakRoundTrip.AddedIsRead` | engine/asset/src/hpak_reader.cpp:138-362 | The same for whatever sequence of adds a writer accepted |
| `PakRoundTrip.FindIsExact` | engine/asset/src/hpak_reader.cpp:258-262 | The binary search finds an id exactly when an entry has it |
| `PakRoundTrip.ParsedIdsAscend` | engine/asset/src/hpak_reader.cpp:200-212 | Whatever bytes a pak was opened from, its ids ascend |
| `PakRoundTrip.BlocksMatch` | engine/asset/src/hpak_reader.cpp:386-396 | Every block of a built file matches its stored checksum |
| `PakRoundTrip.HeaderSays` | engine/assetpipe/src/hpak_writer.cpp:224-241 | The header of a built pak carries the writer's options, the counts of what was added and where the table starts |
| `PakIntegrity.OpensIffIntact` | engine/asset/src/hpak_reader.cpp:138-256 | A file opens exactly when its size is within the limits, its header is of version 0, intact and for the platform asked for, its table fits, is intact and lists proper entries, told from the bytes; then the tables are those in the file |
| `PakIntegrity.OpenRefused` | engine/asset/src/hpak_reader.cpp:138-256 | Otherwise the error is the limit, another version, another platform, or corruption, in this order of checks |
| `PakIntegrity.FetchIffCovered` | engine/asset/src/hpak_reader.cpp:364-397 | A fetch gives the file's bytes exactly when every pak block that covers one of them matches its checksum |
| `PakIntegrity.ReadIffIntact` | engine/asset/src/hpak_reader.cpp:258-362 | Of any pak that opened: a read gives the bytes of the entry with the id exactly when each stored block matches its checksums and decodes to its piece and the whole has the cooked hash; NotFound exactly when no entry has the id, and otherwise Corrupt |
| `HpakReaders.HpakReader.Parse` | engine/asset/src/hpak_reader.cpp:138-256 | The checks and loops of opening give the specified tables or the specified error, and a pak that opens is valid |
| `HpakReaders.LoadEntries` | engine/asset/src/hpak_reader.cpp:200-246 | The entry loop refuses exactly what the specification refuses |
| `HpakReaders.CheckSizes` | engine/asset/src/hpak_reader.cpp:230-240 | The inner loop accepts exactly the block sizes that fit the entry and add up |
| `HpakReaders.HpakReader.FindEntry` | engine/asset/src/hpak_reader.cpp:258-262 | The halving loop equals the specified search |
| `HpakReaders.HpakReader.FetchBytes` | engine/asset/src/hpak_reader.cpp:364-397 | Returns the bytes exactly when every covering block matches; the covering blocks are fewer than 64, as the source asserts |
| `HpakReaders.HpakReader.DecodeAsset` | engine/asset/src/hpak_reader.cpp:307-362 | The decoding loop equals the specified decoding |
| `HpakReaders.HpakReader.ReadAsset` | engine/asset/src/hpak_reader.cpp:264-297 | Equals the specified read |
| `HpakReaders.BlockInside` | engine/asset/src/hpak_reader.cpp:365-368 | Whatever file was opened, each stored block of an accepted entry lies in the blob region: what fetch asserts of its callers |
| `MountTables.PakMountTable.Mount` | engine/asset/src/mount_table.cpp:10-24 | Puts a pak on top with a fresh id, or refuses one already mounted or of another platform |
| `MountTables.PakMountTable.Unmount` | engine/asset/src/mount_table.cpp:26-38 | Takes exactly that mount out and indexes the others again |
| `MountTables.PakMountTable.FindMount` | engine/asset/src/mount_table.cpp:29-31 | The first mount of an id, or none |
| `MountTables.PakMountTable.IndexAll` | engine/asset/src/mount_table.cpp:34-35 | Indexing every mount from the bottom up gives the index of "topmost mount wins" |
| `MountTables.PakMountTable.IndexMount` | engine/asset/src/mount_table.cpp:40-44 | Lets one mount's entries replace those below it |
| `MountTables.PakMountTable.Find` | engine/asset/src/mount_table.cpp:46-52 | Finds an id exactly when some mounted pak has it, in the topmost one |
| `MountTables.PakMountTable.ReadAsset` | engine/asset/src/mount_table.cpp:54-58 | Reads from the topmost pak that has the id, or finds none |
| `MountTables.OverlaidIndexes` | engine/asset/src/mount_table.cpp:40-44 | Overlaying one mount keeps the index equal to "topmost mount wins" |
| `MountTables.HoldsStillMounted` | engine/asset/src/mount_table.cpp:10-38 | After any mounts and unmounts, the table holds exactly the mounts that succeeded and that no later operation took out |
| `MountTables.LatestMountWins` | engine/asset/src/mount_table.cpp:10-58 | After any mounts and unmounts, reading an id gives what the latest pak still mounted that has it holds |
| `MountTables.AddedToLatestIsRead` | engine/asset/src/mount_table.cpp:54-58 | So when that pak was written here, the read gives exactly the bytes added to it under the id |
| `MountTables.NobodyHasIt` | engine/asset/src/mount_table.cpp:54-56 | An id that no pak still mounted has is not found |
| `MountTables.MountRefusedIff` | engine/asset/src/mount_table.cpp:10-19 | After any mounts and unmounts, a mount is refused exactly when its reader is still mounted, or else when a pak still mounted is of another platform |
| `MountTables.MountedReads` | engine/asset/src/mount_table.cpp:54-58 | A mounted pak that was written here has exactly the assets added and reads back their bytes |
| `SettingsAmbiguity.TellsApartIffHeadsDecide` | engine/assetpipe/src/importer.cpp:52-162 | For every choice of which types may occur: equal bytes mean isomorphic types for all of them exactly when no enum's head may occur both with and without an underlying type. The claim of the source holds on exactly these classes of types |
| `SettingsAmbiguity.OppositeEnumsCollide` | engine/assetpipe/src/importer.cpp:75-82 | For any two enum heads, equal or not, that occur with an underlying type in one place and without in another: two maps over u8, u16 and these enums that the walk accepts write the same bytes, although in one the key's enum and in the other the value has the underlying type |
| `SettingsAmbiguity.MapsDiffer` | engine/assetpipe/src/importer.cpp:75-92 | Those two maps are not isomorphic |
| `SettingsAmbiguity.BuiltTypesAreToldApart` | engine/assetpipe/src/importer.cpp:52-53 | For types whose enums always have their underlying type, as builder and code generator make them, the claim of the source holds |
| `SettingsWalk.TreesDecode` | engine/assetpipe/src/importer.cpp:52-106 | The byte stream is decodable: two walks with the same bytes in front are the same, and so is what follows, when no enum's head comes both with and without an underlying type |
| `SettingsWalk.EqualBytesMeanIsomorphic` | engine/assetpipe/src/importer.cpp:52-162 | Under that condition two graphs of types that write the same bytes agree type by type under first-visit numbering: kinds, names, ids, versions, flags, defaults, sharing and recursion |
| `SettingsWalk.RenamingKeepsBytes` | engine/assetpipe/src/importer.cpp:52-162 | Only the structure counts: renamed or reordered types write the same bytes |
| `SettingsWalk.WalkKeeps` | engine/assetpipe/src/importer.cpp:56-66 | A walk ends on recursive graphs; it only adds types to those seen, each once |
| `SettingsWalk.SmallGraphsAreHashed` | engine/assetpipe/src/importer.cpp:56-66 | Graphs of up to 64 types are accepted, however they are shared and recursive |
| `SettingsWalk.NestedHashedIff` | engine/assetpipe/src/importer.cpp:57-60 | Types nested in one another are accepted exactly up to 65 of them: the depth limit is that of the source |
| `SettingsWalk.SettingsTypeWalk.Type` | engine/assetpipe/src/importer.cpp:56-106 | The recursive method updates the hasher and the seen map exactly as specified, and fails exactly for types nested too deep |
| `SettingsWalk.SettingsTypeWalk.FirstVisit` | engine/assetpipe/src/importer.cpp:66-105 | A type's first visit writes its head and its parts |
| `SettingsWalk.SettingsTypeWalk.Parts` | engine/assetpipe/src/importer.cpp:73-131 | The loops over fields, values, alternatives, key and element write them in order and stop at the first failure |
| `DdcTrim.NeverBelowDisk` | engine/assetpipe/src/ddc.cpp:270-387 | For every interleaving of puts and trims, the running total plus the puts not yet counted is never below the bytes on disk |
| `DdcTrim.QuietTrimIsExact` | engine/assetpipe/src/ddc.cpp:320-387 | A trim during which nothing was put leaves the total equal to the bytes on disk |
| `DdcTrim.TotalCountsPuts` | engine/assetpipe/src/ddc.cpp:296-301 | Between the ends of trims the running total grows by exactly what the puts add, each its size once |
| `DdcTrim.TrimSetsTotal` | engine/assetpipe/src/ddc.cpp:372-387 | The end of a trim sets the total to what the trim listed and has not removed, plus what was added since it started |
| `DdcTrim.StepKeepsInv` | engine/assetpipe/src/ddc.cpp:270-387 | Every rename, count, listing step, ordering, removal and end of a trim keeps the accounting |
| `DdcTrim.TrimEvictsShortestPrefix` | engine/assetpipe/src/ddc.cpp:320-387 | At the end of any trim of any run in which no removal failed, the keys removed are the shortest least recently used prefix of what was listed that leaves no more than cap times percent over 100, whatever puts came in between |
| `DdcTrim.SumInSequence` | engine/assetpipe/src/ddc.cpp:349-358 | Sorting does not change the total: the listed sizes add up the same in any order |
| `DdcTrim.Evict` | engine/assetpipe/src/ddc.cpp:359-369 | The loop stops at the first total within the target; when no removal fails, it has removed the shortest prefix that reaches it |
| `DdcTrim.TargetIsFloor` | engine/assetpipe/src/ddc.cpp:351-353 | The target computed without overflow is the floor of cap times percent over 100 |
| `TextCheck.CheckTextDocument` | apps/tools/helios-cook/content_check.cpp:603-639 | Accepts exactly the files that are UTF-8 by the grammar of RFC 3629 section 4 without NUL bytes, however reading splits them; otherwise names the offset of a NUL byte or of the first malformed character |
| `TextCheck.NextChunk` | apps/tools/helios-cook/content_check.cpp:614-637 | One read: at most 3 bytes are carried, the buffer is not overrun, and the verdict is that of the file |
| `TextCheck.CheckChunk` | apps/tools/helios-cook/content_check.cpp:621-632 | The checks of a chunk decide about the file, not about the chunk |
| `TextCheck.ReadInto` | apps/tools/helios-cook/content_check.cpp:614-620 | The piece goes behind the carried bytes and fits the buffer |
| `TextCheck.Keep` | apps/tools/helios-cook/content_check.cpp:633-636 | Moves the carried bytes to the front, also where they overlap |
| `TextCheck.CompleteUtf8Prefix` | apps/tools/helios-cook/content_check.cpp:574-585 | Leaves at most 3 bytes, and what is malformed in the prefix stays malformed whatever follows |
| `TextCheck.FirstInvalidUtf8` | apps/tools/helios-cook/content_check.cpp:587-598 | The offset of the first malformed character |
| `TextCheck.Decode` | engine/core/src/utf.cpp:9-55 | Decodes a well-formed character to its code point, and gives the replacement character for anything else |
| `TextCheck.CharAtIsGrammar` | engine/core/src/utf.cpp:9-55 | The decoder's table accepts exactly the characters of the grammar |
| `TextCheck.WholeIsUtf8` | engine/core/src/utf.cpp:107-115 | Decoding to the end succeeds exactly for strings of the grammar |
| `TextCheck.IsValidUtf8` | engine/core/src/utf.cpp:107-115 | Equals the grammar |
| `TextCheck.ReplacementIsItsEncoding` | apps/tools/helios-cook/content_check.cpp:593-594 | A well-formed character decodes to U+FFFD exactly when its bytes are the encoding of U+FFFD |
| `CVarSaved.RestoredIffRestorable` | engine/core/src/cvar.cpp:273-408 | Executing what was saved, on a registry at defaults, restores every saved String variable exactly when each saved value has no line feed, has no carriage return unless it is quoted, and may be written by a configuration; then no line fails and nothing else changes |
| `CVarSaved.ConfigRestores` | engine/core/src/cvar.cpp:310-328 | With restorable values every line succeeds and sets its own variable |
| `CVarSaved.LineRestores` | engine/core/src/cvar.cpp:329-386 | One saved line gives its variable its value |
| `CVarSaved.LineTouchesOne` | engine/core/src/cvar.cpp:329-408 | A line without line feeds touches its own variable only; unless the value is restorable, the variable stays as it was or gets another value |
| `CVarSaved.ConfigStoresNoFeed` | engine/core/src/cvar.cpp:310-386 | Whatever the text, executing it stores no line feed |
| `CVarSaved.ConfigKeepsAway` | engine/core/src/cvar.cpp:310-386 | A variable that its own line cannot restore is not restored by the lines of the others either |
| `CVarOutcomes.RestorableIff` | engine/core/src/cvar.cpp:38-99 | What a value must be to be restored, in characters |
| `CVarOutcomes.QuotedOnlyWhenNeeded` | engine/core/src/cvar.cpp:38-48 | A value is quoted exactly when it is empty or has a space, tab, semicolon, quote, slash or number sign |
| `CVarOutcomes.SavedLines` | engine/core/src/cvar.cpp:273-286 | The saved text is the lines of the saved variables that differ from their defaults, in key order, and nothing else |
| `CVarLines.LineByLine` | engine/core/src/cvar.cpp:310-328 | Tokenizing a configuration line by line gives exactly the statements of tokenizing it whole, and a line fails just when the whole text does |
| `CVarLines.LineEnds` | engine/core/src/cvar.cpp:56-99 | A line followed by a line feed is tokenized to its end, where a quoted string must be over |
| `CVarLines.TrimKeeps` | engine/core/src/cvar.cpp:31-35 | Trimming a line does not change its statements, nor whether it fails |
| `CVarText.QuoteIfNeeded` | engine/core/src/cvar.cpp:37-48 | Quotes and escapes exactly when needed |
| `CVarText.Tokenize` | engine/core/src/cvar.cpp:50-99 | The character loop with its flags equals the specified tokenizer |
| `CVarText.TakeStep` | engine/core/src/cvar.cpp:66-93 | One character, escape or comment moves the tokenizer as specified |
| `CVarText.SkipLine` | engine/core/src/cvar.cpp:87-88 | A comment ends at the line feed or at the end of the text |
| `CVarText.LineReadsBack` | engine/core/src/cvar.cpp:37-99 | Tokenizing a saved line gives its name and its value back |
| `CVarText.EscapedScan` | engine/core/src/cvar.cpp:40-46 | Inside quotes, what was escaped is read back |
| `CVarOutcomes.ProgramReadsBack` | engine/core/src/cvar.cpp:50-99 | Any statements, each ended by a semicolon, a line feed or a comment of either kind, are tokenized to themselves |
| `CVarOutcomes.UnclosedFails` | engine/core/src/cvar.cpp:66-95 | A quoted string that its line or the text ends before it is closed makes the text unreadable, whatever precedes it |
| `CVarOutcomes.HashInToken` | engine/core/src/cvar.cpp:87-93 | Inside a token a number sign is a character like any other |
| `CVarConfig.CVarRegistry.SerializeSaved` | engine/core/src/cvar.cpp:273-286 | One line for each saved variable that differs from its default, in key order |
| `CVarConfig.CVarRegistry.ExecuteConfig` | engine/core/src/cvar.cpp:310-328 | Executes line after line and counts the lines that fail |
| `CVarConfig.CVarRegistry.ExecuteText` | engine/core/src/cvar.cpp:297-308 | Executes the statements up to the first that fails |
| `CVarConfig.CVarRegistry.ExecuteStatement` | engine/core/src/cvar.cpp:329-408 | Performs one statement with the verbs, counts of arguments and kinds of error of the source |
| `CVarConfig.CVarRegistry.Set` | engine/core/src/cvar.cpp:201-217 | Sets a variable, or remembers the value for one that registers later |
| `CVarConfig.CVarRegistry.Store` | engine/core/src/cvar.cpp:425-449 | Writes a value unless the variable is replicated on a client |
| `CVarConfig.TrimSpaces` | engine/core/src/cvar.cpp:31-35 | The two loops equal the specified trim |
| `CVarOutcomes.TrimIsExact` | engine/core/src/cvar.cpp:31-35 | Trimming cuts the spaces, tabs and carriage returns at both ends, and nothing else |
| `CVarOutcomes.KeyFoldsCase` | engine/core/src/cvar.cpp:17-29 | Names are compared without regard to the case of ASCII letters |
| `CVarOutcomes.StatementWrites` | engine/core/src/cvar.cpp:329-386 | A statement writes a variable exactly when it gives it a value and the variable is not locked; a value for an unknown name waits for it; nothing else changes |
| `CVarOutcomes.StatementFails` | engine/core/src/cvar.cpp:329-386 | When a statement fails, and with which error: a wrong number of words, a name that no variable has, or a locked variable |
| `CVarOutcomes.TextRunsStatements` | engine/core/src/cvar.cpp:297-308 | A text that cannot be tokenized does nothing; otherwise its statements run in order, each on what the one before left, up to the first that fails |
| `CVarOutcomes.ConfigRunsEveryLine` | engine/core/src/cvar.cpp:310-327 | A configuration runs every line that is not blank, whether or not lines before it failed, and counts those that fail |
| `PerfHistory.AnchorIsFirstMedian` | tools/scorecard/perf.py:263-366 | After any nights, whatever other host classes came in between and whatever aged out of the 60 nights, a class's anchor is the median of its first values up to the window |
| `PerfHistory.VerdictIsExact` | tools/scorecard/perf.py:263-366 | A night is a regression exactly when its class has its window of values and tonight's is worse than their median by more than the budget; before that it is ungated |
| `PerfOutcomes.RegressionIsBeyondBudget` | tools/scorecard/perf.py:263-366 | In numbers: tonight's value lies beyond the budget, in per cent of the median of the class's first values, above it where lower is better and below it where higher is |
| `PerfOutcomes.MedianIsMiddle` | tools/scorecard/perf.py:333-345 | The median is the mean of the one or two middle values of any ascending arrangement |
| `PerfOutcomes.BaselineIsWorse` | tools/scorecard/perf.py:330-358 | Once a class has its anchor, the baseline stored is the worse of the anchor and the median of its last clean values |
| `PerfOutcomes.CalibratingLevels` | tools/scorecard/perf.py:340-347 | While a class calibrates, anchor and baseline are the median of all its values, tonight's included |
| `PerfOutcomes.CleanAreListed` | tools/scorecard/perf.py:163-176 | The clean values are those of the kept nights of the class that were not regressions, oldest first |
| `PerfOutcomes.NightStored` | tools/scorecard/perf.py:430-445 | A night is stored with its value, class and levels, its class alone gets these levels, and when host classes keep changing, a night that nothing gated fails as churn |
| `PerfOutcomes.NightWithout` | tools/scorecard/perf.py:454-475 | A night without the metric changes no level, and its entry carries the newest one |
| `PerfOutcomes.NightsKept` | tools/scorecard/perf.py:476 | The history keeps the last sixty nights |
| `PerfHistory.NewHostClassIffOther` | tools/scorecard/perf.py:323-331 | A first night reads new-host-class exactly when another class was measured before, otherwise new |
| `PerfHistory.AnchorDecides` | tools/scorecard/perf.py:353-366 | The held baseline decides nothing: a row is a regression exactly when it is over budget against the anchor |
| `PerfHistory.EveryHistoryMatches` | tools/scorecard/perf.py:390-481 | Every history's stored levels, calibration values and entries agree with all values ever measured |
| `PerfHistory.Aged` | tools/scorecard/perf.py:476-481 | Dropping old entries loses values and levels and adds none |
| `PerfHistory.SortIsSorted` | tools/scorecard/perf.py:333-345 | The order behind the median: ascending, with the same values |
| `PerfHistory.BaselineValues` | tools/scorecard/perf.py:163-176 | The loop collects the last values that were not regressions |
| `PerfHistory.Evaluate` | tools/scorecard/perf.py:263-366 | The row is the specified one, case by case |
| `PerfHistory.Compare` | tools/scorecard/perf.py:390-481 | A night appends its entry and updates the class's levels as specified |

## Left out

Fence and tables:
- Locks and threads of the fence: an operation is one step. The handler for release notices is a list of notices that
  may be delivered late, again or never. Row pointers are the identifiers they point to.
- Epochs, identifiers and generations are unbounded; 0 stays the invalid identifier.
- Statistics counters, log lines and the name functions, here and in the other parts.

Leases and clocks:
- ZoneClocks.ZoneClock.OnTickMeasured: takes the demand as an input; the controller that computes it works in floating
  point. `nextTickWallNs` and `dueSinceWallNs` are left out for the same reason.
- ZoneClocks.ListenerAgreesIffTimely: the listener hears each announcement before the next tick begins.
- The clocks' counters are unbounded.

Jobs:
- JobQueues.PopAboveIsNewer: says that the job was pushed after the read, not that it is a descendant, because
  `popGlobal` pushes other jobs into the worker's own queue.
- The ring index `i & mask` is `i % capacity`; that the capacity is a power of two is kept as an invariant.
- How many jobs a batch takes from a global queue: any number, at least one. Priorities are queues of their own.
- Weak memory orders, spinning and back-off, stack limits, thread pinning, counters of other kinds and the background
  pool.
- The text of the cycle error, which names a node that may only be downstream of a cycle.

Paks:
- zstd and the hashes are parameters: compressing and decompressing a piece gives it back, its frame states its size
  and is at most 263168 bytes long. The two sorts of the writer are inputs: any order of the blobs, and the
  identifiers in order.
- PakFormat.HeaderRoundTrip: encoding returns bytes instead of writing into the caller's buffer.
- Folding identifiers out of GUIDs, `writeFile`, `resealHpak`, the cap on decoded sizes, `readInto` and the growth of
  the output buffer, text of errors. A source is its bytes; files and I/O errors are left out outside
  `BlockVerification`.
- HpakReaders.HpakReader.FetchBytes: is the first read of a block; states of blocks are in `BlockVerification`, where
  bytes are represented by whether they match.
- `verifyAll`, and a refetch hook that calls `retryBlocks` itself, which would wait for the lock it holds.

Derived data:
- The 128-bit hash itself: what is proved is about the bytes it is fed. Defaults are given as their JSON text.
- SettingsWalk.EqualBytesMeanIsomorphic: is about classes of types in which no enum's head comes both with and without
  an underlying type; `SettingsAmbiguity.TellsApartIffHeadsDecide` shows that no other class will do.
- SettingsAmbiguity.BuiltTypesAreToldApart: what builder and code generator fill in is read off their source
  (`engine/reflect/include/helios/reflect/builder.h:189`, `tools/schemac/src/gen_cpp.cpp:838`); they are not modelled.
- DdcTrim.Evict: takes the sizes in their sorted order; sorting is a step of `DdcTrim.Do` that yields the one order
  there is. Paths are compared as their keys' numbers.
- `get`, stale temporary files, the threshold at which puts start a trim, several processes.

Text:
- TextCheck.CheckTextDocument: reads are non-empty pieces of at most 64 KiB and then the end; read errors are left
  out.
- CVarConfig.CVarRegistry.ExecuteStatement: gives the kind of error, not its text nor what a statement prints; there
  are no console commands, and all variables are of type String.
- CVarSaved.RestoredIffRestorable: is about variables of type String with plain names that are not verbs; other types
  parse numbers.
- Change callbacks and registration, and statements that do not come from a configuration.

Performance history:
- PerfHistory.Evaluate: leaves out accept records, bounds and metrics that are not gated; a stored level is always
  whole, so the branches without a baseline do not occur.
- PerfHistory.Compare: is about one metric; rows of missing metrics, the churn count and the dropping of metrics no
  longer declared are left out.
- PerfHistory.VerdictIsExact: is about a gated, declared metric without a bound and without accept records, with
  positive values and a window of at least one night. Whether a run's host classes keep changing is an input of each
  night.
- Rounding, JSON, the summary and the command line; histories of the older version.
