# phpcloud: the replicated store and the protocols around it

A Dafny model of the leaderless storage of phpcloud and of the two protocols that use or surround it.

* **Hybrid logical clocks** (`Hlc`, `HlcRuns`, `HlcText`): the timestamp order, `Now`, `Update` and `Witness`
  exactly as coded, runs of many clocks exchanging stamps, and the stored text form of a timestamp.
* **Entries and merges** (`TextOrder`, `Lww`, `Crdt`): sessions, locks and metadata registers, their
  last-writer-wins merges, and the order on maps those merges induce.
* **The manager** (`Store`, `Operations`, `MergeLoops`, `BareMerges`, `Manager`): every operation as a step on
  a value (`Store`) and told from the fields of the entries (`Operations`), the merge loops in every order of
  iteration (`MergeLoops`) and by themselves (`BareMerges`), and the class whose methods perform those steps in
  place (`Manager`).
* **Whole-system results**: growth of a replica (`Growth`), the cluster invariant and strong convergence
  (`Cluster`), anti-entropy (`AntiEntropy`), deltas against full snapshots (`DeltaSync`), invisibility of
  garbage collection (`Collection`), and locks over whole runs (`LockRuns`).
* **Migrations** (`Migration`, `MigrationRuns`, `LateReleases`, `MigrationWaits`): the migrator and the engine's
  start-up code as classes, any number of migrators that share one manager interleaved step by step, what
  happens when they release the lock late, and what a completed wait means.
* **The SQL proxy** (`SqlProxy`, `SqlWords`, `Shutdown`): the relay with its error packet, which chunks it
  blocks, and the two-stage shutdown.

## How the code is read

* Wall-clock readings are parameters. An operation that reads the clock several times takes several
  readings; a loop takes one per key. Clock results assume nothing about them; cluster, collection and
  lock results assume they never go back.
* Each manager method is one atomic step. For `AcquireLock` this matters: its takeover of a dead lock is a
  load followed by a separate store (`internal/db/db.go:222-232`), and mutual exclusion rests on nothing
  coming between them.
* Map iteration picks keys in an arbitrary order, so the contracts of the loops hold for every order.
* Integers are unbounded. `HlcRuns.StampsFitInt64` shows that no stamp leaves 64 bits in a run of fewer
  than 2^63 events, `Hlc.WrappedUpdateExactly` and `Hlc.WrappedTickExactly` what wrap-around does to a full
  counter, which only a foreign message could carry; `HlcText` models the 64-bit bound of parsing explicitly.
* Logical counters start at zero. Where a negative one, which only a foreign message could carry, would
  change a result, the hypothesis `WellFormed` says so.

## What turned out not to hold

* `Update` can set a clock back, or leave it where it was, when the wall clock lags behind it and the
  message is stale, although the package promises causal order. `Hlc.UpdatedExactly` and
  `HlcRuns.CausalityExactly` give the exact conditions, `Hlc.UpdateCanGoBack` a concrete case.
* The comment on `SaveSession` says a tombstone is not resurrected; the code lets any strictly newer save
  replace it, and under a dominating clock every local save is newer (`Growth.SaveIsNewer`).
  Under any clock, a tombstone stays exactly when the tick has not passed it (`Growth.TombstoneKeptExactly`).
* `Update` does not exceed a received stamp whose counter is 2^63 - 1 at the instant it ends up at: the counter
  wraps around (`Hlc.WrappedUpdateExactly`).
* The bare merge methods do not witness stamps of absent keys, so the clock need not stay above what is
  stored (`BareMerges.BareSessionsDominateExactly` and its two companions), and a later save or metadata write
  can be lost; `BareMerges.SaveLostExactly` and `BareMerges.SetLostExactly` say when. Importing a message
  whose version is above its entries does not have this problem (`Store.ImportStep`).
* The merge loops can leave different clocks for different orders of the keys when a message carries
  negative logical counters; `MergeLoops.SameClockExactly` says when.
* Lock merging is not last-writer-wins in general (`Crdt.LockMergeDependsOnTime`);
  `Crdt.NewerLockWinsExactly` says when it is.
* A delta misses entries the sender relays from a third node with an old stamp
  (`DeltaSync.RelayedEntryIsLost`); `DeltaSync.DeltaSufficesExactly` says when a delta does as well as the
  whole state, `DeltaSync.LockDeltaSufficesExactly` the same for locks.
* With gossip, collecting a session or a lock lets an arriving copy revive it: a released lock can be in force
  again (`Collection.CollectedReleaseIsUndone`). `Collection.CollectionShowsExactly` and
  `Collection.CollectionShowsLocksExactly` say which copies make a difference. Without gossip collection
  cannot be observed.
* The migration lock keeps apart only migrators that share a manager. Nodes with a manager each are both
  granted it unless the second has imported the first one's lock while it is in force
  (`MigrationRuns.SeparateManagersExactly`), and gossip is a placeholder.
* Migrators that share a manager normally share a host name too, and a release after the lock's expiry can
  then free the next migrator's lock (`MigrationRuns.ReleaseTakesExactly`). If releases may come at any time,
  `LateReleases.OneInsideExactly` says when two never meet inside Run, and `LateReleases.StoredOnceExactly`
  when the version is stored at most once.
* A completed wait is logged as a completed migration, but a winner that fails completes it too
  (`MigrationWaits.FailureCompletesWait`); `MigrationWaits.CompletedWaitMeansStored` says when the version is stored.
* The proxy's error packets go into the connection on which the other relay writes the target's bytes, so the
  client's stream is the target's only if nothing was blocked (`SqlProxy.ClientSeesTargetExactly`).
* When the accept loop does not stop in time, an empty connection group does not mean that all connections
  are over (`Shutdown.TimeoutLosesConnection`); `Shutdown.SettledExactly` says when it does.

## Model

| member | source | states |
|---|---|---|
| `Hlc.LessIsTotalOrder` | internal/hlc/hlc.go:32-52 | `Less` is a strict total order and two stamps are concurrent exactly when equal |
| `Hlc.Max` | internal/hlc/hlc.go:195-200 | One of the two stamps, and at or above both |
| `Hlc.Min` | internal/hlc/hlc.go:203-208 | One of the two stamps, and at or below both |
| `Hlc.Clock.constructor` | internal/hlc/hlc.go:63-71 | A new clock stands at its wall reading with counter zero |
| `Hlc.Clock.Now` | internal/hlc/hlc.go:75-94 | Returns and stores the stamp `Ticked` describes |
| `Hlc.TickedIsLeast` | internal/hlc/hlc.go:79-93 | `Now` issues the least stamp above the clock's latest that is not behind the wall clock |
| `Hlc.Clock.Update` | internal/hlc/hlc.go:99-140 | The four-branch update, tied to the specification `Updated` |
| `Hlc.UpdatedExactly` | internal/hlc/hlc.go:99-140 | `Update` always exceeds the received stamp (wrap-around aside), never lowers the physical part, and exceeds the clock's latest if and only if the wall clock has caught up with it or the received stamp is not behind it |
| `Hlc.UpdatedIsLeast` | internal/hlc/hlc.go:99-140 | `Update` issues the least stamp above the received one that is behind neither the wall clock nor the clock's physical part and, where it advances, is above the clock |
| `Hlc.WrappedUpdateExactly` | internal/hlc/hlc.go:114-137 | With 64-bit wrap-around: the result exceeds the received stamp unless it overflows at that stamp's instant, and exceeds the clock if and only if it advances and does not overflow at the clock's instant |
| `Hlc.WrappedTickExactly` | internal/hlc/hlc.go:79-93 | With 64-bit wrap-around a tick exceeds the clock if and only if the wall clock is ahead or the counter is not full |
| `Hlc.UpdateCanGoBack` | internal/hlc/hlc.go:126-132 | Concrete clocks that a message sets back |
| `Hlc.Clock.Witness` | internal/hlc/hlc.go:144-161 | The two-step witness, tied to `Witnessed` |
| `Hlc.WitnessedIsJoin` | internal/hlc/hlc.go:144-161 | Witnessing is the maximum of clock, received stamp and wall clock |
| `Hlc.RunMonotoneExactly` | internal/hlc/hlc.go:75-161 | Over any mix of calls with any wall clock, every issued stamp exceeds the clock it came from exactly when no lagging clock meets a stale message; `Now` and `Witness` never lower it |
| `HlcRuns.DriftBound` | internal/hlc/hlc.go:75-161 | In every run of many clocks no clock exceeds the largest wall reading taken so far and no counter exceeds the number of stamps issued so far |
| `HlcRuns.PhysicalNeverFalls` | internal/hlc/hlc.go:79-160 | A node's physical part never decreases |
| `HlcRuns.StampsFitInt64` | internal/hlc/hlc.go:16-19 | No 64-bit overflow in fewer than 2^63 events |
| `HlcRuns.CausalityExactly` | internal/hlc/hlc.go:1-5 | Stamps respect happens-before in a run if and only if every receive at a node with earlier events is in time |
| `HlcRuns.SharedWallIsCausal` | internal/hlc/hlc.go:75-140 | One wall clock that never goes back makes every run causal |
| `HlcText.ScanPrinted` | internal/hlc/hlc.go:184-190 | Scanning a printed number consumes exactly it and fails exactly outside 64 bits |
| `HlcText.RoundTrip` | internal/hlc/hlc.go:183-192 | Reading back the text of any 64-bit timestamp, signs included, returns it; reading fails exactly when a component does not fit |
| `HlcText.BytesInjective` | internal/hlc/hlc.go:183-185 | Different timestamps have different texts |
| `HlcText.FromBytesExactly` | internal/hlc/hlc.go:188-192 | A text is read as a timestamp without error exactly when it is two numerals, each perhaps with blanks and a sign, joined by a colon, that denote the components and fit 64 bits; anything may follow |
| `HlcText.DecimalExactly` | internal/hlc/hlc.go:183-192 | Numbers are written and read in decimal: one more digit multiplies by ten |
| `HlcText.BytesExactly` | internal/hlc/hlc.go:183-185 | The text is the two numbers, a minus sign before a negative one, joined by a colon |
| `HlcText.FailureKeepsFirst` | internal/hlc/hlc.go:188-192 | When reading fails, a first number that could be read is kept and the rest is zero |
| `TextOrder.Trichotomy` | internal/crdt/crdt.go:63-66 | The node tie-break decides between any two different ids |
| `TextOrder.BelowExactly` | internal/crdt/crdt.go:63-66 | An id is below another exactly when it is a proper prefix of it or has the smaller character where they first differ |
| `Crdt.MergesMaximiseRank` | internal/crdt/crdt.go:52-69 | Each of the three merges keeps the entry of the larger rank: stamp then node, and for locks liveness first |
| `Crdt.MergesExactly` | internal/crdt/crdt.go:52-69 | Of two entries the later one is kept, on equal stamps that of the larger node id; of two locks the unexpired one if only one is |
| `Crdt.TieGoesToLargerNode` | internal/crdt/crdt.go:63-66 | Of sessions stamped alike on node-a and node-b, that of node-b is kept on either side |
| `Lww.MergeLaws` | internal/crdt/crdt.go:214-222 | Merging is idempotent and associative, and commutes exactly when the entries are equal or their ranks differ |
| `Lww.MergeMapIsJoin` | internal/db/db.go:345-384 | Merging maps is the least upper bound and changes nothing exactly when nothing newer arrives |
| `Lww.MergeMapAssociative` | internal/db/db.go:345-384 | Grouping of map merges does not matter |
| `Lww.SameVersionsSameMap` | internal/db/db.go:345-384 | Replicas handed the same versions, in any order, duplication and grouping, hold the same map |
| `Lww.EntrySurvives` | internal/crdt/crdt.go:52-69 | An entry outlives every sequence of merges that brings nothing newer |
| `Crdt.NewerLockWinsExactly` | internal/crdt/crdt.go:140-167 | The newer of two locks wins at every time and on either side if and only if it does not expire first |
| `Crdt.LockMergeDependsOnTime` | internal/crdt/crdt.go:146-156 | Two locks whose merge changes with the time, reviving a released one |
| `Crdt.AlignedMergesAreLww` | internal/crdt/crdt.go:140-167 | On versions where newer never expires earlier, any sequence of merges at any times yields the newest |
| `Crdt.ReleasedStaysReleased` | internal/crdt/crdt.go:190-194 | On such versions a release that is newest is never revived |
| `Store.LocalWritesWin` | internal/db/db.go:156-181 | When the clock dominates the store, a save or a metadata write replaces what is stored |
| `Store.SaveStoresExactly` | internal/db/db.go:156-181 | Under any clock, a save is stored exactly when its key is new or what is there is the same or yields to it |
| `Store.LocalStep` | internal/db/db.go:89-340 | Every local operation keeps the clock dominating and stamps what it writes above everything stored |
| `Store.LocalStepTime` | internal/db/db.go:89-340 | Local operations keep the clock at or below the wall clock |
| `Operations.ReadExactly` | internal/db/db.go:130-152 | A read finds a session through its last instant unless it is a tombstone, and removes one past it, but never a tombstone |
| `Operations.DeletionExactly` | internal/db/db.go:194-200 | A deletion marks and restamps the session and changes nothing else |
| `Operations.AcquisitionExactly` | internal/db/db.go:219-237 | A lock is taken exactly when there is none, it is released, or its expiry has passed; the clock ticks in any case |
| `Operations.ReleaseExactly` | internal/db/db.go:254-267 | A release counts exactly when it comes from the holder, before the expiry, of a lock not yet released; all but the mark and the stamp stays |
| `Operations.HeldExactly` | internal/db/db.go:270-285 | A lock is held strictly before its expiry unless released |
| `Operations.MetaReadExactly` | internal/db/db.go:304-310 | The stored value, or the empty text, which counts as absent |
| `Operations.TicksExactly` | internal/db/db.go:130-321 | While the wall clock stands still each operation raises the counter by the number of its ticks: two for a creation, none for reads, collections, and deletions and releases without effect |
| `Operations.SnapshotExactly` | internal/db/db.go:389-416 | All entries, the node id, and a fresh version that is remembered |
| `Operations.DeltaExactly` | internal/db/db.go:445-473 | Exactly the entries stamped strictly later, the node id, and a fresh version that is not remembered |
| `Operations.EmptyImportExactly` | internal/db/db.go:419-441 | A message without entries moves the clock as `Update` does and changes nothing else |
| `Operations.CollectionKeepsExactly` | internal/db/db.go:94-100 | A collection keeps a session until it expires, and a tombstone for at most an hour after its deletion |
| `Operations.CollectionKeepsLocksExactly` | internal/db/db.go:103-109 | A collection keeps a lock in force, and any lock for five minutes after its stamp |
| `Operations.TombstoneLastsAnHour` | internal/db/db.go:89-114 | In its first hour an unexpired tombstone survives every collection, and keeps out the copies it outranks, through any local operations on other sessions and any imports |
| `Store.ImportStep` | internal/db/db.go:419-441 | Importing a fit message keeps the clock dominating, moves it strictly up, and stores only what was stored or carried |
| `MergeLoops.OrderDoesNotMatter` | internal/db/db.go:345-384 | For every enumeration of the incoming map the loop leaves the pointwise merge, and without negative counters a clock that is the maximum of the old clock, the stamps of present keys and the wall clock |
| `MergeLoops.SameClockExactly` | internal/db/db.go:345-384 | For any counters, all orders leave the same clock if and only if no newest stamp with a negative counter ties with the wall clock as read for an older one |
| `MergeLoops.OrderMattersForNegativeCounters` | internal/hlc/hlc.go:150-160 | A concrete message for which two orders leave two clocks |
| `BareMerges.BareSessionsDominateExactly` | internal/db/db.go:345-356 | The session loop alone keeps the clock dominating if and only if no entry stored under a new key is stamped above it |
| `BareMerges.BareLocksDominateExactly` | internal/db/db.go:359-370 | The same for locks |
| `BareMerges.BareMetaDominatesExactly` | internal/db/db.go:373-384 | The same for metadata |
| `BareMerges.SaveAfterMergeExactly` | internal/db/db.go:345-356 | After any such merge that brings a new key, its next save is lost if and only if what was merged keeps it out: a tombstone the tick has not passed, or another entry of no smaller rank |
| `BareMerges.SetAfterMergeExactly` | internal/db/db.go:373-384 | The same for a metadata write, by rank |
| `BareMerges.SaveLostExactly` | internal/db/db.go:345-356 | From a dominating clock, a save after any such merge is lost if and only if its key was new in the merge and what was merged keeps it out |
| `BareMerges.SetLostExactly` | internal/db/db.go:373-384 | The same for a metadata write |
| `Manager.Manager.constructor` | internal/db/db.go:44-71 | A new manager is empty, with a dominating clock and the id `unknown` for an empty one |
| `Manager.Manager.GetSession` | internal/db/db.go:130-152 | Returns a visible session, and removes an expired one |
| `Manager.Manager.SaveSession` | internal/db/db.go:156-181 | The tombstone and merge branches; under a dominating clock the map holds the stamped session |
| `Manager.Manager.CreateSession` | internal/db/db.go:184-191 | Creates, stamps twice and saves with the given expiry |
| `Manager.Manager.DeleteSession` | internal/db/db.go:194-200 | Turns a present session into a tombstone, ticking only then |
| `Manager.Manager.AcquireLock` | internal/db/db.go:219-237 | Succeeds exactly when the key is absent or its lock dead, and then installs the new lock |
| `Manager.Manager.GetLock` | internal/db/db.go:240-251 | Returns the stored lock unless it is dead |
| `Manager.Manager.ReleaseLock` | internal/db/db.go:254-267 | Changes a lock only if the caller holds it, and then to a released one |
| `Manager.Manager.IsLockHeld` | internal/db/db.go:270-276 | Neither dead at the first reading nor past expiry at the second |
| `Manager.Manager.IsLockHeldBy` | internal/db/db.go:279-285 | The same, by this holder |
| `Manager.Manager.GetMeta` | internal/db/db.go:304-310 | The stored value, present exactly when not empty |
| `Manager.Manager.SetMeta` | internal/db/db.go:313-321 | Merges the new register; under a dominating clock it replaces the old one |
| `Manager.Manager.MergeSessions` | internal/db/db.go:345-356 | The pointwise merge, and the clock as the loop leaves it for some order of the keys; without negative counters the maximum, for every order |
| `Manager.Manager.MergeLocks` | internal/db/db.go:359-370 | The same for locks, each merged at its own reading |
| `Manager.Manager.MergeMeta` | internal/db/db.go:373-384 | The same for metadata |
| `Manager.Manager.GetStateSnapshot` | internal/db/db.go:389-416 | All three maps, versioned by a fresh tick that is remembered |
| `Manager.Manager.ImportStateSnapshot` | internal/db/db.go:419-441 | Update, then the three merge loops in turn, each in some order; without negative counters one outcome; nil is ignored |
| `Manager.Manager.GetDeltaSince` | internal/db/db.go:445-473 | Exactly the entries stamped above the given version |
| `Manager.Manager.ApplyDelta` | internal/db/db.go:476-500 | The same effect as importing, skipped parts included |
| `Manager.Manager.CleanupExpired` | internal/db/db.go:89-114 | Drops exactly the collectable entries and leaves the clock alone |
| `Growth.SaveIsNewer` | internal/db/db.go:156-181 | A save moves its key strictly up and the next read returns it unless deleted or expired |
| `Growth.TombstoneKeptExactly` | internal/db/db.go:164-174 | Under any clock, a live save over a tombstone leaves it if and only if the tick has not passed it, and otherwise resurrects the session |
| `Growth.DeleteIsNewer` | internal/db/db.go:194-200 | A deletion moves its key strictly up and the next read finds nothing |
| `Growth.MetaIsNewer` | internal/db/db.go:313-321 | A metadata write moves its key strictly up and the next read returns it |
| `Growth.OpGrows` | internal/db/db.go:130-340 | No operation loses metadata, and none but a collection or a read of an expired session loses a session |
| `Growth.ImportGrows` | internal/db/db.go:419-441 | An import covers both the store and the message |
| `Growth.TombstoneSurvives` | internal/db/db.go:194-200 | A tombstone survives any later merges of older versions |
| `Cluster.ClusterSafety` | internal/db/db.go:156-500 | In every run over a losing, duplicating, reordering network: stamps are not ahead of the wall clock, clocks dominate stores, message versions dominate their entries, and stamp with node identifies a version |
| `Cluster.ApplyKeepsInv` | internal/db/db.go:156-500 | Every single step of any node keeps that invariant |
| `Cluster.StrongConvergence` | internal/db/db.go:345-384 | In every run nodes reached by the same versions hold the same metadata, the newest of each key; and the same sessions if the run has no collection and no read of an expired session, which remove sessions |
| `AntiEntropy.AntiEntropyConverges` | internal/db/db.go:389-441 | Once quiet, nodes that have heard of all others by snapshots, directly or relayed, all hold the join of the stores, even if messages under way with nothing newer arrive meanwhile; locks too if merged at one time |
| `AntiEntropy.LateMessagesAreOutdated` | internal/db/db.go:389-500 | After any run no message under way carries newer metadata than the nodes hold, and none newer sessions if the run has no collection and no read of an expired session |
| `DeltaSync.DeltaDoesAsWell` | internal/db/db.go:445-500 | After importing a snapshot, a sender's delta since it does as well as its whole state if the sender only ran local operations: for metadata always, for sessions if the replica neither collected nor read expired ones |
| `DeltaSync.DeltaSufficesExactly` | internal/db/db.go:445-500 | A delta does as well as the whole state if and only if the replica covers every session and register of the sender not stamped above the starting version |
| `DeltaSync.LockDeltaSufficesExactly` | internal/db/db.go:456-462 | The same for locks: if and only if the replica holds, for each lock left out, one that beats it when they are merged |
| `DeltaSync.PartSufficesExactly` | internal/db/db.go:449-470 | Merging part of a map does as well as all of it if and only if the rest is already covered |
| `DeltaSync.LocalRunStamps` | internal/db/db.go:156-340 | After local operations every entry is an old one or stamped above the old clock |
| `DeltaSync.RelayedEntryIsLost` | internal/db/db.go:449-470 | A relayed entry that a delta omits and a snapshot carries |
| `Collection.CollectionIsInvisible` | internal/db/db.go:89-114 | Over every run of local operations with non-decreasing time, removing all collections changes no answer |
| `Collection.StepAgrees` | internal/db/db.go:130-340 | The simulation behind it: one operation on both managers answers alike and keeps them in agreement |
| `Collection.CollectAgrees` | internal/db/db.go:94-109 | A collection drops only entries that are already invisible |
| `Collection.ClocksDrift` | internal/db/db.go:194-200 | The two clocks do drift apart |
| `Collection.CollectionShowsExactly` | internal/db/db.go:94-100 | With gossip a copy arriving for a collected session makes a difference to the next read if and only if it is readable and does not outrank what was collected |
| `Collection.CollectionShowsLocksExactly` | internal/db/db.go:103-109 | With gossip a copy arriving for a collected lock makes a difference to whether it is held if and only if it is in force and does not outrank what was collected when they are merged |
| `Collection.CollectedReleaseIsUndone` | internal/db/db.go:103-109 | A concrete release that is collected and then undone by a snapshot sent before it |
| `LockRuns.MutualExclusion` | internal/db/db.go:219-267 | Over every run, grants of one key, up to release or expiry, never overlap |
| `LockRuns.AcquireMatchesLog` | internal/db/db.go:219-237 | In every reachable state an acquisition succeeds exactly when the last grant is released or past expiry |
| `LockRuns.HolderMatchesLog` | internal/db/db.go:254-285 | In every reachable state a lock is held by exactly the holder of the grant in force, whoever else releases or collects |
| `LockRuns.HeldMatchesLog` | internal/db/db.go:270-276 | In every reachable state a lock is held exactly while a grant is in force |
| `LockRuns.ManagerLocksMergeLikeLww` | internal/crdt/crdt.go:127-194 | One manager's versions of a lock with fixed time to live merge like last-writer-wins at any times, so a release is not undone by stale copies as long as it is among the copies merged, that is, not collected |
| `Migration.SecondRunDoesNothing` | internal/migration/migration.go:110-145 | After a successful Run the next one finds nothing to do while the version file is unchanged |
| `Migration.NeededExactly` | internal/migration/migration.go:110-130 | When a migration is needed, not needed, or cannot be told |
| `Migration.NothingToRun` | internal/migration/migration.go:53-61 | A Run that cannot read the version file fails and one that finds the stored version succeeds, and neither touches the store |
| `Migration.CommandMustSucceed` | internal/migration/migration.go:66-69 | A needed Run fails and stores nothing when its command fails: the configured one, or the profile's first |
| `Migration.RunExactly` | internal/migration/migration.go:51-87 | A needed Run fails when a hook fails or the version file cannot be read again, and otherwise stores what the file says |
| `Migration.Migrator.constructor` | internal/migration/migration.go:25-38 | The holder is the host name, or the fallback if there is none |
| `Migration.Migrator.AcquireLock` | internal/migration/migration.go:41-43 | Acquires the configured key for this holder |
| `Migration.Migrator.ReleaseLock` | internal/migration/migration.go:46-48 | Releases it |
| `Migration.Migrator.RunHooks` | internal/migration/migration.go:148-168 | Runs non-empty hooks in order up to the first failure |
| `Migration.Migrator.RunMigrationCommand` | internal/migration/migration.go:171-192 | Executes the configured command, or the profile's first, or nothing |
| `Migration.Migrator.CheckNeeded` | internal/migration/migration.go:110-130 | Compares the version file with the stored version |
| `Migration.Migrator.UpdateVersion` | internal/migration/migration.go:133-145 | Stores what the version file says, or fails, or has nothing to do |
| `Migration.Migrator.Run` | internal/migration/migration.go:51-87 | Check, hooks, command, hooks and store; returns what was executed, in order up to the first failure; a failed Run changes nothing in the store |
| `Migration.Migrator.WaitForCompletion` | internal/migration/migration.go:90-107 | The outcome of the polling loop |
| `Migration.WaitCompletesExactly` | internal/migration/migration.go:94-106 | The wait completes exactly when the lock is seen free before a cancellation |
| `Migration.Engine.RunMigrations` | internal/bootstrap/bootstrap.go:290-332 | The winner runs and releases in every case, a loser waits, and the migrator is kept only on success |
| `Migration.WinnerFreesLock` | internal/bootstrap/bootstrap.go:306-318 | A timely release leaves the lock free |
| `MigrationRuns.AtMostOneMigration` | internal/bootstrap/bootstrap.go:290-332 | Over every interleaving of any number of migrators that share one manager, with its other uses and imports of gossip that carry neither the lock nor the version, if no Run outlives its lock and no release hits the later lock of a namesake, at most one is inside Run, the version is stored at most once, and storing is reached at most once more than its file read fails |
| `MigrationRuns.FiveStepsAreRun` | internal/migration/migration.go:51-87 | The interleaved steps, taken in a row, are one call of Run |
| `MigrationRuns.OtherKeepsLock` | internal/db/db.go:89-340 | Other users and collection leave a migration lock in force alone |
| `LateReleases.LateReleaseLetsTwoIn` | internal/db/db.go:254-267 | With lock times above zero, any two namesakes and any third migrator have an on-time run in which a late release brings two inside Run |
| `MigrationRuns.ReleaseTakesExactly` | internal/db/db.go:254-267 | A release takes another migrator's unexpired lock if and only if the host names are equal and it comes before that lock's expiry |
| `LateReleases.PunctualIsPossible` | internal/migration/migration.go:46-48 | Runs whose releases come no later than the expiry of their own lock, or whose host names differ, satisfy the hypothesis of the theorem |
| `LateReleases.OneInsideExactly` | internal/bootstrap/bootstrap.go:290-332 | With releases at any time, migrators sharing a manager never meet inside Run if and only if all host names differ, or there are at most two migrators, or the lock time is not positive |
| `LateReleases.StoredOnceExactly` | internal/migration/migration.go:133-145 | With releases at any time, the version is stored at most once if and only if one of these holds or the version is already stored |
| `MigrationRuns.SeparateManagersExactly` | internal/bootstrap/bootstrap.go:215-232 | A second node with its own manager is granted the lock too, if and only if it has not imported the first node's lock or that has expired |
| `MigrationWaits.CompletedWait` | internal/migration/migration.go:94-103 | From a free lock and without failures, a wait completes only when the version is stored or another migrator is inside Run |
| `MigrationWaits.CompletedWaitMeansStored` | internal/bootstrap/bootstrap.go:322-327 | If moreover releases are harmless and no Run is at work at the very expiry of its lock, the version is stored when a wait completes |
| `MigrationWaits.FailureCompletesWait` | internal/bootstrap/bootstrap.go:309-312 | Any two migrators have a run in which the winner fails and releases, and the wait of the other completes with nothing stored |
| `SqlProxy.Proxy.IsWriteQuery` | internal/sqlproxy/proxy.go:200-224 | Some write word occurs in the upper-cased payload of a chunk of five bytes or more |
| `SqlProxy.Proxy.IsMigrationQuery` | internal/sqlproxy/proxy.go:227-248 | The same for migration words |
| `SqlWords.KeptBackExactly` | internal/sqlproxy/proxy.go:176-248 | During a migration a chunk of five bytes or more from the client is kept from the target if and only if one of the twelve write words occurs from its fifth byte on, in any letter case, and none of the six migration phrases does |
| `SqlWords.ShortPasses` | internal/sqlproxy/proxy.go:202-204 | A shorter chunk always passes |
| `SqlProxy.CreateMySQLError` | internal/sqlproxy/proxy.go:251-279 | The packet parses exactly when its payload fits the 3-byte length, and carries code 1290, state HY000 and the message |
| `SqlProxy.ReadOnlyPacketBytes` | internal/sqlproxy/proxy.go:183 | The bytes of the packet sent for a blocked chunk |
| `SqlProxy.Proxy.ProxyWithInspection` | internal/sqlproxy/proxy.go:158-197 | Forwards the unblocked chunks in order, answers each blocked one with the error packet, stops at the first failed write, and counts every chunk read once |
| `SqlProxy.PassedExactly` | internal/sqlproxy/proxy.go:173-196 | What passes are exactly the unblocked chunks, each once, in order |
| `SqlProxy.ConcatAppends` | internal/sqlproxy/proxy.go:164-196 | A byte stream is the concatenation of its chunks in order |
| `SqlProxy.TransparentUnlessMigrating` | internal/sqlproxy/proxy.go:176-187 | A relay forwards its chunks unchanged outside migration mode, and always towards the client |
| `SqlProxy.ClientSeesTargetExactly` | internal/sqlproxy/proxy.go:144-152 | However the writes of the two relays alternate, the client receives the target's bytes and one error packet for each blocked chunk; it receives just the target's bytes if and only if none was blocked |
| `SqlProxy.Proxy.StartMigration` | internal/sqlproxy/proxy.go:289-303 | Enters migration mode once |
| `SqlProxy.Proxy.EndMigration` | internal/sqlproxy/proxy.go:306-320 | Leaves migration mode |
| `SqlProxy.PeriodsCounted` | internal/sqlproxy/proxy.go:289-320 | Over any sequence of switches the mode follows the last one and each period is counted once |
| `Shutdown.TwoStageShutdown` | internal/sqlproxy/proxy.go:334-369 | Over every interleaving: no addition after the wait has begun if stage one joined the accept loop, and then an empty group means no active connection and a complete total |
| `Shutdown.StepsInOrder` | internal/sqlproxy/proxy.go:104-129 | The accept loop returns and the listener is closed only in a shutdown, and no connection is active before it is counted |
| `Shutdown.AcceptErrorExactly` | internal/sqlproxy/proxy.go:107-116 | A failed accept ends the loop if and only if a shutdown has begun |
| `Shutdown.StopReturns` | internal/sqlproxy/proxy.go:349-368 | Stop can go on and return from stage one whatever the loop and the connections do |
| `Shutdown.SettledExactly` | internal/sqlproxy/proxy.go:104-155 | With the listener closed, an empty group means that all is over for good if and only if the accept loop holds no connection |
| `Shutdown.TimeoutLosesConnection` | internal/sqlproxy/proxy.go:349-366 | After a timeout of stage one a connection can become active once Stop has returned |

## Left out

- Entries as objects: `Update`, `Delete`, `Release` and `Set` assign fields of shared entries in place; entries are values here, so aliasing between a snapshot and live entries of the same process is not captured.
- Races inside one manager method on its concurrent maps: methods are atomic.
- JSON serialisation of snapshots and timestamps, and `String`: formatting by the standard library.
- `SessionCRDT.Lock`, `Unlock` and `Update`: used outside the manager, which restamps on save.
- The failed type assertion in the merges: entries of different kinds cannot meet in typed maps.
- `GetAllSessions`, `GetAllLocks`, `GetAllMeta`, `DeleteMeta` and the clock context: filters and wrappers that add only easy members.
- The cleanup ticker, logging, node restarts and persistence.
- The gossip transport: the repository has a placeholder; the network is a set of messages that may be delivered any number of times.
- The bytes of a chunk whose write failed part-way: such a chunk counts as not forwarded.
- Sockets, dialing the database, the two timers of Stop and the database's answers: these are steps that may or may not happen.
- AntiEntropy.AntiEntropyConverges: for locks, assumes that messages under way bring nothing that would beat the locks held; for metadata that is proved of every run, for sessions of every run that drops none.
- Cluster.StrongConvergence: says nothing of sessions in runs that collect or read an expired one; a copy arriving later is then judged by `Collection.CollectionShowsExactly`.
- DeltaSync.DeltaDoesAsWell: does not compare locks, for which merging is not last-writer-wins; `DeltaSync.LockDeltaSufficesExactly` says when a delta suffices for them.
- SqlProxy.ClientSeesTargetExactly: takes each write to the client as a whole and all replies as written.
- Commands, hooks and reads of the version file: outcomes chosen by the environment.
- MigrationRuns.AtMostOneMigration: is about migrators sharing one manager; it assumes that no Run outlives its lock's expiry, that no release hits the later lock of a migrator with the same host name, that other users and imported messages keep away from the migration lock and the stored version, and that imports do not set the clock back. Migrators on different nodes, with a manager each, are not kept apart (`MigrationRuns.SeparateManagersExactly`).
- The rest of bootstrap, cluster membership and leader choice, PHP process control, gateway, cron, metrics and configuration loading.
