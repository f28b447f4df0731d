# Verification models of Codebase Atlas

Codebase Atlas keeps an index of a repository on disk and answers queries about
it. This project models the parts where a mistake would be hardest to see and
proves what they promise. `dafny verify dfyconfig.toml` checks everything.

**Publication with crash recovery.** `FileSystem.dfy` is a small POSIX-like disk:
names lead to inodes and inodes hold contents; linking, renaming, unlinking and
creating are atomic and durable; renaming one hard link of a file over another
does nothing (IEEE Std 1003.1, `rename()`). Every step may succeed, raise without
effect, or be the last one of its process. On top of it `Publication.dfy` has the
journal that both refresh coordinators share in outline (the two lists of phases
and artifacts are the two values of `Protocol`), `Staging.dfy` the staged files,
`Transaction.dfy` what holds between the first journal and acceptance,
`RustRefresh.dfy` and `Refresh.dfy` the two coordinators, `Withdrawal.dfy` the
rollback of the second one, and `Lifecycle.dfy` the
journal of enable, update and stop. The methods follow the source statement by
statement; their contracts say what the disk shows and what recovery would make
of it at every place where the process can stop.

The central notion is the generation that recovery *has decided for* on a disk
(`Publication.Settles`): without a journal, or with one of an accepting phase, the
one that the disk shows, otherwise the one that the journal leads back to, every byte
of which is in its backups or already back in place. A disk decides for one
generation only (`Publication.SettlesOnce`). Every run of the Rust coordinator, a
crash at any step included, keeps that generation or replaces it by the whole new one
(`RustRefresh.Refresh`), so that any history is a sequence of whole refreshes with
every acknowledged one in it (`RustRefresh.History`).

Some promises of the code hold only under a condition, which is proved exactly:

- The Python/TypeScript coordinator does not lower the journaled phase when it rolls
  back in process. `Withdrawal.dfy` follows its five staged rollbacks and the
  journal's own: at every step each artifact is the old one, the new one or, once
  the private backups have been given up, missing. `Refresh.LateRollback` and
  `Refresh.TornAfter` say exactly when a crash among them makes recovery accept a torn
  mixture; `Refresh.TornDisk` is one.
- Both coordinators report `previous_generation_preserved` when recovery itself has
  failed. Then recovery has still decided for the previous generation, but the disk
  shows it exactly under the condition of `Publication.ShowsDecided`;
  `RustRefresh.PreservedMixture` is a disk on which it does not.
- The journal of enable, update and stop can be recovered exactly when no artifact
  has mode bits beyond `0o777` (`Lifecycle.RunningRecoverable`);
  `Lifecycle.SetuidStuck` is an input on which it cannot.
- Installing and removing the managed block is a round trip exactly for bodies that do
  not end in a carriage return (`RoutingAssets.InstallThenRemove`).

The steps of both coordinators also say what happens without faults: which runs
succeed, and which rollbacks bring everything back; and what a single fault may
leave behind.

**Leases and retries.** `Lease.dfy` interleaves the steps of any number of
processes that query and refresh one project; `Retry.dfy` is the polling loop
with its backoff.

**Graph search.** `Graph.dfy` proves the breadth-first search of `impact` against
shortest distances over admissible edges, and that the path it reports to a node is
the first of all shortest ones in the order of seeds and edges (`Graph.PathFirst`),
so that answers do not depend on the order of insertion (`Graph.PathsAgree`).

**Ignore rules and source scope.** `Glob.dfy` proves the memoised matcher with its
budget against a declarative meaning of patterns, `Ignore.dfy` that pruning a
directory walk agrees with filtering, `RustScope.dfy` the closure over Rust
modules.

**Continuation paging.** `Tokens.dfy` has the token format, `Continuation.dfy` the
byte-bounded cache and the paging. `RoutingAssets.InstallThenRemove` and its
neighbours in `RoutingAssets.dfy` are about the managed block in `AGENTS.md`,
`RoutingTransaction.dfy` about publishing and withdrawing it (a single exception
leaves every file and directory as it was), `Diff.dfy` about the
diff of a refresh plan, `Scanner.dfy` and `Candidates.dfy` about the two tree walks
of the native scanner and its records. `Ordering.dfy` and `Basics.dfy` are shared.

Hashes and signatures are injective functions given from outside, JSON, TOML and
the parsers are values they would return, clocks and random names are arbitrary
values, and other processes are arbitrary steps.

## Model

| member | source | states |
|---|---|---|
| `FileSystems.Disk.Renamed` | src/codebase_atlas/refresh_recovery.py:114 | renaming one hard link of a file over another leaves the disk as it is; otherwise the source name goes and the destination shows the source's content |
| `Publication.WriteAtomic` | src/codebase_atlas/refresh_recovery.py:74-88 | the journal is replaced as a whole or not at all, and no other file changes |
| `Publication.BackupAll` | src/codebase_atlas/refresh_recovery.py:91-104 | every artifact that exists gets a backup with its content under a fresh name, every other one is recorded as absent; the published files stay as they are, also on failure |
| `Publication.Prepare` | src/codebase_atlas/rust_refresh_recovery.py:153-169 | the backups before the first journal: a failure by a single fault leaves no name that was not there |
| `Publication.Begin` | src/codebase_atlas/refresh_recovery.py:132-164 | after a successful begin the journal is on disk and leads back to the published files of that moment; after a failed one there is no journal and the published files are unchanged; a journal that could not be written leaves its backups behind and nothing else |
| `Publication.RecoveryJournal.Advance` | src/codebase_atlas/refresh_recovery.py:166-175 | the phase strictly grows in the order of the phase list and the journal on disk then records it; on failure the disk is as before |
| `Publication.RecoveryJournal.Restore` | src/codebase_atlas/refresh_recovery.py:107-117 | one restored artifact shows its old content or its old absence, and the backups still lead back for all artifacts not yet restored |
| `Publication.RecoveryJournal.RestoreAll` | src/codebase_atlas/refresh_recovery.py:184-186 | restoring every artifact in order, with a memory that may have lost backups: a completed run shows all old files; one that stops at a label has restored exactly the later labels, keeps the journal and every backup of the other labels; without faults it stops exactly at a lost backup |
| `Publication.RecoveryJournal.Rollback` | src/codebase_atlas/refresh_recovery.py:184-187 | a completed rollback shows the old files and removes the journal; a cut-short one keeps the journal, has restored exactly the labels behind its stop (all of them when it stops after the last), and has spent no backup of the others; without faults it completes exactly when no needed backup is missing |
| `Publication.RecoveryJournal.Commit` | src/codebase_atlas/refresh_recovery.py:189-192 | a completed commit removes the journal, a cut-short one only backups; no published file changes; after a completed one every backup it recorded has gone |
| `Publication.RecoveryJournal.RemoveShard` | src/codebase_atlas/rust_refresh_recovery.py:194-196 | a shard that was not there before goes, and the rest of the way back is kept |
| `Publication.BackedUpFrame` | src/codebase_atlas/refresh_recovery.py:107-117 | changes to published files and to files of other steps touch neither the backups nor the files that the journal does not protect |
| `Publication.BackedUpRestored` | src/codebase_atlas/refresh_recovery.py:107-117 | after one restored artifact all backups that are left, and all files that the journal does not protect, are still those of the old generation, also when both names are links of one file |
| `Publication.BackedUpDiscarded` | src/codebase_atlas/refresh_recovery.py:120-124 | after deleting backups, those that are left and the unprotected files are still those of the old generation; that the deleted ones were spent is IntactStep and Rollback |
| `Publication.IntactStep` | src/codebase_atlas/refresh_recovery.py:107-117 | a restore spends at most the backup of the artifact it has brought back: where a backup is gone, the artifact is the old one |
| `Publication.IntactRestored` | src/codebase_atlas/refresh_recovery.py:184-187 | so does a rollback that is cut short after any number of restores |
| `Publication.SettlesOnce` | src/codebase_atlas/refresh_recovery.py:195-240 | the generation that recovery has decided for is one generation: the disk determines every byte of it |
| `Publication.RestoredWorld` | src/codebase_atlas/refresh_recovery.py:184-187 | when every journaled artifact shows its old content, all published files do |
| `Publication.ShowsDecided` | src/codebase_atlas/refresh_recovery.py:195-240 | a disk shows the generation that recovery has decided for exactly when no journal makes recovery go back, or every artifact equals its backup as far as that is left, artifacts recorded as absent are absent, and so is a new shard |
| `Publication.CleanupOwnedStageFiles` | src/codebase_atlas/refresh_recovery.py:36-67 | exactly the staging files of this protocol go; published files, journal and other names stay |
| `Publication.Recover` | src/codebase_atlas/refresh_recovery.py:195-240 | recovery, cut short anywhere and repeated, stays with the one generation it has decided for and loses no byte of it; it completes without faults exactly when the journal is well formed and no needed backup is missing, and then neither journal nor staging files remain; otherwise it changes nothing or stops at the first lost backup with exactly the later labels restored; completed, it leaves no name of this protocol but those that other steps clean up |
| `Staging.Stage` | src/codebase_atlas/refresh_planner.py:125-150 | a staged file holds the given bytes under a fresh private name; nothing else changes |
| `Staging.StagedManifest.Publish` | src/codebase_atlas/refresh_planner.py:46-67 | on success the manifest shows the staged bytes and the private backup is a copy of the old ones; on failure every published file is as before; it fails only through a fault |
| `Staging.StagedManifest.Rollback` | src/codebase_atlas/refresh_planner.py:69-78 | a published manifest goes back to the backup's bytes or to absence, an unpublished one only loses its temporary file; without faults it succeeds while the backup is there |
| `Staging.StagedManifest.Commit` | src/codebase_atlas/refresh_planner.py:80-87 | only the private backup may go, never by an exception, and a clean commit has removed it |
| `Staging.StagedManifest.Close` | src/codebase_atlas/refresh_planner.py:89-93 | closing touches no published file and removes an unpublished temporary file |
| `Staging.StagedRegistration.Publish` | src/codebase_atlas/python_registration_store.py:217-245 | on success the sidecar is the staged file itself and the private backup a copy of the old one; in any case nothing but the sidecar and the temporary file changes; a single fault leaves the old index in place, unless it strikes after the rename and before the new file is identified |
| `Staging.StagedRegistration.Rollback` | src/codebase_atlas/python_registration_store.py:271-288 | it succeeds only on the very file that was published, and without faults whenever that file and the backup are there; then the backup's bytes or absence come back |
| `Staging.StagedRegistration.Commit` | src/codebase_atlas/python_registration_store.py:259-269 | only the private backup may go, and a clean commit has removed it |
| `Staging.ProviderDatabaseBackup.Rollback` | src/codebase_atlas/refresh_coordinator.py:133-140 | the database goes back to the linked backup or to absence |
| `Staging.ProviderDatabaseBackup.Commit` | src/codebase_atlas/refresh_coordinator.py:142-149 | only the private backup may go, and a clean commit has removed it |
| `Staging.RestoreFile` | src/codebase_atlas/refresh_coordinator.py:76-92 | a published file is rewritten with remembered bytes, or removed when there were none, or nothing changes |
| `Transaction.OpenFrame` | src/codebase_atlas/refresh_recovery.py:127-131 | steps on published files and private names keep an open transaction recoverable |
| `Transaction.OpenAdvanced` | src/codebase_atlas/refresh_recovery.py:166-175 | a journal rewritten with a later phase keeps the way back |
| `Transaction.OpenLanded` | src/codebase_atlas/refresh_recovery.py:234-237 | once an accepting phase is journaled, recovery keeps what is published |
| `Transaction.OpenSettles` | src/codebase_atlas/refresh_recovery.py:238-240 | before that, recovery has decided for the old files |
| `Transaction.PositionRank` | src/codebase_atlas/refresh_recovery.py:166-175 | the phases of each protocol are advanced in the order of its list, so an advance to a later one is never refused |
| `Transaction.ClosedFrame` | src/codebase_atlas/rust_refresh.py:257-262 | removing private files changes no published file, no journal and nothing that recovery has decided |
| `Transaction.PublishManifestStep` | src/codebase_atlas/refresh_coordinator.py:552 | inside a transaction the manifest becomes the staged bytes and the way back is kept |
| `Transaction.RecordIndexState` | src/codebase_atlas/index_state.py:281-311 | inside a transaction the state file becomes the new state, or the transaction is as before; a single exception leaves no temporary file |
| `RustRefresh.PublishShard` | src/codebase_atlas/providers/rust_syntax.py:205-216 | an existing shard is never replaced; a new one shows the staged bytes; without faults it raises exactly when an existing shard differs |
| `RustRefresh.Publish` | src/codebase_atlas/rust_refresh.py:177-202 | the forward path: the disk stays recoverable to the old files until the journal records state_published, and then shows the whole new generation; without faults it succeeds exactly when no existing shard differs |
| `RustRefresh.Attempt` | src/codebase_atlas/rust_refresh.py:104-202 | the try statement up to `accepted`: accepted exactly when it succeeds, every early stop is recoverable, and without faults it succeeds exactly when no existing shard differs |
| `RustRefresh.Finish` | src/codebase_atlas/rust_refresh.py:203-214 | nothing after acceptance can lose the new generation, whichever of its two clauses lets an interrupt pass; a pending journal is one that recovery accepts; without faults it journals committing and removes the private backup of the manifest |
| `RustRefresh.Handle` | src/codebase_atlas/rust_refresh.py:234-244 | the except clause commits after acceptance and rolls back before it; at any stop inside it recovery has decided for that same generation, no byte of which is lost, and without faults the journal has gone |
| `RustRefresh.CloseAll` | src/codebase_atlas/rust_refresh.py:257-262 | the finally clause, which ends at its first failure, changes no published file, not the journal, and nothing that recovery has decided; completed, it leaves no staged file |
| `RustRefresh.Refresh` | src/codebase_atlas/rust_refresh.py:73-264 | from any disk that recovery has decided: however the run ends, recovery has decided for the same generation or for the new one; a refreshed status means the new one for good, pending journal or not; a failure reported as preserved means the same one: it leaves no journal and the disk shows that generation, or it leaves the very journal of before, and the disk shows the generation exactly under the condition of ShowsDecided; one reported as not preserved means the new one or leaves a journal; without faults it refreshes and leaves no journal exactly when recovery can complete and no existing shard differs; after a single fault anywhere but in a recovery that goes back, the next recovery can complete |
| `RustRefresh.PreservedMixture` | src/codebase_atlas/rust_refresh.py:234-255 | an input on which the preserved flag is not true of the disk: the rollback of an open transaction has moved the backup of the state and died; recovery misses that backup, raises, reports a preserved generation and leaves files of two generations behind the journal |
| `RustRefresh.MixtureStays` | src/codebase_atlas/rust_refresh_recovery.py:191-197 | a recovery of that disk without faults stops at the lost backup and changes nothing |
| `RustRefresh.MixtureMoved` | src/codebase_atlas/rust_refresh_recovery.py:191-197 | that disk is the first move of the rollback of an open transaction, whose last label is the state |
| `RustRefresh.History` | src/codebase_atlas/rust_refresh.py:73-280 | any number of refreshes, recoveries and crashes at any step are a sequence of whole refreshes in the order of the requests: every acknowledged one is in it, no one reported as preserved is, and recovery has decided for its last |
| `RustRefresh.Applied` | src/codebase_atlas/rust_refresh.py:177-202 | manifest, pointer, state and shard of such a sequence are those of its last request |
| `Refresh.CallProvider` | src/codebase_atlas/refresh_coordinator.py:474-491 | the provider replaces its database as a whole or leaves it |
| `Refresh.IndexProvider` | src/codebase_atlas/refresh_coordinator.py:478-505 | after the provider phase the database is the new one, and the transaction can still be rolled back, also when the phase stops early |
| `Refresh.PublishSidecar` | src/codebase_atlas/refresh_coordinator.py:543-551 | the sidecar joins the new generation when there is one, and the transaction can still be rolled back; it journals sidecar_published exactly when there is a sidecar |
| `Refresh.PublishGeneration` | src/codebase_atlas/refresh_coordinator.py:552-562 | manifest and state join the new generation; from state_published on recovery accepts it |
| `Refresh.Activate` | src/codebase_atlas/refresh_coordinator.py:563-566 | the phases after publication change no published file; completed, it has journaled committing |
| `Withdrawal.StagedRollbacks` | src/codebase_atlas/refresh_coordinator.py:594-608 | at every stop inside the five staged rollbacks each artifact is as published, restored or removed; with all private backups in hand none is ever missing, and before any failure exactly those of the first k rollbacks are restored; without faults all five succeed |
| `Withdrawal.Handle` | src/codebase_atlas/refresh_coordinator.py:593-614 | without faults staged rollbacks and journal rollback bring every artifact back, the journal goes, and with all private backups in hand no error is reported; at every stop before that the files are a mixture as in StagedRollbacks and the journal is unchanged |
| `Withdrawal.MixedWhole` | src/codebase_atlas/refresh_coordinator.py:593-614 | a mixture is all of the old or all of the new generation exactly when each artifact, as restored, removed or left, is that of this generation |
| `Refresh.HandleUnjournaled` | src/codebase_atlas/refresh_coordinator.py:593-608 | a failure before the journal exists leaves the published files as they were, and without further faults no error is reported; the staged registration index goes |
| `Refresh.CommitStaged` | src/codebase_atlas/refresh_coordinator.py:567-570 | deleting the private backups changes no published file and nothing of the journal; what is left of the backups is intact; without faults none is left |
| `Refresh.Finish` | src/codebase_atlas/refresh_coordinator.py:567-572 | a completed clean-up shows the new generation without a journal; a failed one still shows it, with the journal in hand for the except clause |
| `Refresh.Run` | src/codebase_atlas/refresh_coordinator.py:457-650 | one run including the except clause after a failed final commit: success is the whole new generation without a journal, a preserved failure the whole old one without a journal, and every other stop is decided or a mixture behind an accepting journal; without faults it succeeds |
| `Refresh.Except` | src/codebase_atlas/refresh_coordinator.py:592-614 | the except clause: without errors the old files are back and the journal has gone, and from any stop inside the transaction that is so whenever the rollback itself meets no fault; cut short after a stop inside the transaction, before any rollback failed and with an accepting journal left, the old artifacts back are exactly those of the first k staged rollbacks |
| `Refresh.Refresh` | src/codebase_atlas/refresh_coordinator.py:351-650 | as for Rust, with one exception, which has its exact condition: a run is exposed exactly when it leaves an accepting journal with a mixture that is neither all old nor all new; a refreshed or current status means that generation without a journal, a failure reported as preserved that recovery has decided for the previous one, which the disk shows without a journal or which the very journal of before leads to; without faults it succeeds exactly when recovery can; after a single fault anywhere but in a recovery that goes back, the next recovery can complete |
| `Refresh.LateRollback` | src/codebase_atlas/refresh_coordinator.py:561-614 | whatever a run leaves, recovery shows one whole generation exactly when no accepting phase is journaled or the artifacts restored and removed so far leave all of the old or all of the new generation |
| `Refresh.TornAfter` | src/codebase_atlas/refresh_coordinator.py:594-602 | after the first k staged rollbacks the mixture is torn exactly when some differing artifact is back and another one is not |
| `Refresh.TornBetween` | src/codebase_atlas/refresh_coordinator.py:594-602 | when all four artifacts differ, a crash is harmless before the first staged rollback and after the fifth, and at none of the four places between |
| `Refresh.TornDisk` | src/codebase_atlas/refresh_coordinator.py:561-614 | an open transaction at state_published, its first staged rollback and a crash: recovery then completes and accepts the old manifest with the new state |
| `Refresh.History` | src/codebase_atlas/refresh_coordinator.py:351-650 | as for Rust, as long as no run was exposed: acknowledged refreshes are never lost, and recovery has decided for the last refresh that took effect; an exposed run has answered nothing, and without faults there is none |
| `Lifecycle.WriteJson` | src/codebase_atlas/lifecycle_recovery.py:96-117 | the journal is replaced as a whole or not at all |
| `Lifecycle.Restore` | src/codebase_atlas/lifecycle_recovery.py:133-158 | an artifact gets back its bytes and mode, or its absence, and the backup stays, so that restoring can be repeated |
| `Lifecycle.Validate` | src/codebase_atlas/lifecycle_recovery.py:381-390 | no error means that no repository-owned file is outside its allowed digests; nothing changes |
| `Lifecycle.RepositoryFiles` | src/codebase_atlas/lifecycle_recovery.py:380-390 | only the configuration, the Codex file, the rule and the skill can make a conflict |
| `Lifecycle.RestoreAll` | src/codebase_atlas/lifecycle_recovery.py:391-398 | a run without errors has restored all ten artifacts; a cut-short one has kept every backup and created no conflict |
| `Lifecycle.Finish` | src/codebase_atlas/lifecycle_recovery.py:376-420 | accepting keeps what is published, rolling back shows what begin saw, a conflict changes nothing and keeps the journal |
| `Lifecycle.CleanupOrphans` | src/codebase_atlas/lifecycle_recovery.py:41-76 | exactly the journal temporaries and backups go |
| `Lifecycle.Recover` | src/codebase_atlas/lifecycle_recovery.py:423-448 | recovery can be cut short any number of times; it completes without faults exactly when the journal is acceptable and there is no conflict, and otherwise changes nothing at all; a single exception leaves no temporary file behind, and a completed recovery no backup |
| `Lifecycle.AcceptableModes` | src/codebase_atlas/lifecycle_recovery.py:336-372 | of what begin writes, validation rejects exactly the modes beyond 0o777 |
| `Lifecycle.RunningRecoverable` | src/codebase_atlas/lifecycle_recovery.py:207-237 | what an operation leaves can be recovered exactly when every recorded mode is within 0o777 |
| `Lifecycle.SetuidStuck` | src/codebase_atlas/lifecycle_recovery.py:207-237 | a set-user-id configuration file: no journal that an operation leaves over it can be recovered |
| `Lifecycle.TrackAll` | src/codebase_atlas/lifecycle_recovery.py:205-237 | every artifact that exists gets a backup with its bytes and mode, and exactly its own and the planned digest are allowed; without faults this fails only for a file that is too large |
| `Lifecycle.LifecycleRecoveryJournal.Begin` | src/codebase_atlas/lifecycle_recovery.py:167-255 | a journal on disk that leads back to the files begin saw, allowing of each what it saw and the planned digest, or no new journal; without faults it succeeds exactly when no journal is there and every artifact but the provider database has at most 16 MiB; published files are unchanged either way, and the recorded modes are within 0o777 exactly when those of the files are; a failure by a single fault leaves no backup or temporary file behind |
| `Lifecycle.LifecycleRecoveryJournal.Allow` | src/codebase_atlas/lifecycle_recovery.py:257-267 | a further digest is allowed on disk, or nothing changes; the way back stays |
| `Lifecycle.LifecycleRecoveryJournal.Accept` | src/codebase_atlas/lifecycle_recovery.py:269-271 | acceptance is one atomic step: the journal accepts what is published or still restores |
| `Lifecycle.LifecycleRecoveryJournal.Rollback` | src/codebase_atlas/lifecycle_recovery.py:273-274 | in process, with a memory that may allow more than the journal on disk: without faults the files begin saw are back and the journal has gone; cut short, the journal still restores them and no conflict has arisen; then its backups have gone too |
| `Lifecycle.LifecycleRecoveryJournal.Commit` | src/codebase_atlas/lifecycle_recovery.py:276-279 | accepted exactly when the accepted phase got to disk; no published file changes, and without faults the journal has gone, with its backups |
| `Lifecycle.Lifetime` | src/codebase_atlas/lifecycle_recovery.py:161-279 | one operation that writes and removes artifacts, with a rollback or commit in process or a crash anywhere in them, and any number of interrupted recoveries: once the journal has gone the disk shows what begin saw or, if accepted, the result of all its edits; without faults, and with every file within the size that is tracked, a commit is accepted; without special mode bits a recovery without faults always gets there; without faults it leaves no file that was not there but the artifacts |
| `Lease.LeaseInv` | src/codebase_atlas/lifecycle.py:141-231 | taking and releasing leases keeps the writer alone and readers without a writer |
| `Lease.ReadInv` | src/codebase_atlas/refresh_coordinator.py:251-296 | the steps of query_snapshot keep the cached generation that of the observed manifest |
| `Lease.WriteInv` | src/codebase_atlas/refresh_coordinator.py:383-391 | a writer's changes keep the invariant, because every new manifest has a new identity |
| `Lease.RunInv` | src/codebase_atlas/lifecycle.py:141-275 | the invariant holds in every state of every interleaving |
| `Lease.SnapshotIsPublished` | src/codebase_atlas/refresh_coordinator.py:238-298 | while a query body runs there is no journal and no writer, and its generation id is that of the manifest on disk whenever there is one |
| `Lease.SnapshotIsStable` | src/codebase_atlas/refresh_coordinator.py:238-298 | no published artifact changes while a query body runs |
| `Lease.OverlappingSnapshotsAgree` | src/codebase_atlas/refresh_coordinator.py:238-298 | two overlapping query bodies were given the same generation |
| `Lease.LeaseGranted` | src/codebase_atlas/lifecycle.py:141-231 | an idle process gets the shared lease exactly without a writer and the exclusive one exactly without a writer and readers |
| `Lease.QueryRuns` | src/codebase_atlas/refresh_coordinator.py:238-298 | without a writer and a journal a query gets its snapshot, of the generation of the manifest, in five steps of its own |
| `Lease.RefreshRuns` | src/codebase_atlas/refresh_coordinator.py:383-391 | a process that is alone publishes under a new identity and gives the lease back in three steps of its own |
| `Lease.AnyoneMayDie` | src/codebase_atlas/lifecycle.py:141-231 | a process may die wherever it stands; its lease and its memory go and the disk stays |
| `Retry.BackoffSchedule` | src/codebase_atlas/refresh_coordinator.py:674-682 | the waits are 10, 20, 40, 80 and from then on 100 ms |
| `Retry.TotalBackoffClosed` | src/codebase_atlas/refresh_coordinator.py:674-682 | closed form of the total wait before an attempt |
| `Retry.TryOnce` | src/codebase_atlas/refresh_coordinator.py:684-784 | one attempt records what the refresh and, behind another owner, the snapshot reported, and settles the call exactly by its own result, by a different published generation, by a snapshot timeout or by an exception of either call |
| `Retry.TriedAgain` | src/codebase_atlas/refresh_coordinator.py:684-784 | an attempt is followed by another one exactly when the refresh timed out or lost a race with a changing snapshot, or was owned elsewhere and the snapshot bound does not show a new generation |
| `Retry.Pause` | src/codebase_atlas/refresh_coordinator.py:753-784 | a wait is cut at the deadline, and another attempt starts only after whole waits |
| `Retry.RefreshWithRetry` | src/codebase_atlas/refresh_coordinator.py:653-811 | terminates for every sequence of outcomes, exceptions included; the log is exactly what the calls reported; attempts are bounded by max_attempts and by the schedule before the deadline, no sleep passes it, and only the verdict of the last attempt is the result; the first call is given the whole time and every later one what is left of it, and the last permitted attempt is not followed by a sleep |
| `Graph.EvidenceGraph.AddNode` | src/codebase_atlas/graph.py:48-52 | a conflicting identity is refused, anything else is stored |
| `Graph.EvidenceGraph.AddEdge` | src/codebase_atlas/graph.py:54-59 | an edge joins both adjacency lists once, or is refused because an end is missing |
| `Graph.ChainVisited` | src/codebase_atlas/graph.py:81-96 | whatever a chain of at most max_depth admissible edges reaches has been visited no deeper than the chain is long |
| `Graph.SearchComplete` | src/codebase_atlas/graph.py:78-96 | a finished search has exactly the shortest distances within max_depth |
| `Graph.EvidenceGraph.Impact` | src/codebase_atlas/graph.py:61-111 | exactly the non-seed nodes within max_depth, each with its shortest distance and a chain of that many admissible edges from a seed, in the order of the sort key; an unknown seed and a depth below one are errors, and the third error, an unsupported direction, is ruled out by the type; each chain is also given as a walk over edges of the graph that starts at a seed, follows source to target downstream and target to source upstream, and without include_heuristic holds exact edges alone; of all shortest walks to a node the path is the first, by the order of the seeds and then of source, target and relation along the way |
| `Graph.AnswersWalked` | src/codebase_atlas/graph.py:87-92 | every answer rests on such walks, each no longer than any other walk to its node |
| `Graph.ExactAlone` | src/codebase_atlas/graph.py:87-92 | without include_heuristic the answer has the nodes and depths of a heuristic query over the exact edges alone |
| `Graph.AnswersAgree` | src/codebase_atlas/graph.py:61-111 | two answers over the same edges hold the same nodes at the same depths in the same order, whatever the insertion order |
| `Graph.PathFirst` | src/codebase_atlas/graph.py:78-96 | the path a finished search has recorded for a node comes before every other shortest chain to it |
| `Graph.DiscoveredAhead` | src/codebase_atlas/graph.py:78-96 | of two nodes of one depth the one that was discovered first has the way that comes first |
| `Graph.PathsAgree` | src/codebase_atlas/graph.py:61-111 | two answers over the same edges and seeds reach each node over edges with the same ends and relations, whatever the insertion order |
| `Graph.DistinctOrder` | src/codebase_atlas/graph.py:72 | of two seeds the one that was named first stays first |
| `Glob.CharacterClass` | src/codebase_atlas/cbmignore.py:20-37 | the answer of a class and the offset after it, with ranges, inversion and an unclosed bracket |
| `Glob.MatchesStep` | src/codebase_atlas/cbmignore.py:44-76 | one unfolding of the declarative meaning of *, **, **/, ?, classes and literals |
| `Glob.StarMeans` | src/codebase_atlas/cbmignore.py:61-68 | * matches any stretch without a slash |
| `Glob.DeepSlashMeans` | src/codebase_atlas/cbmignore.py:51-60 | **/ matches nothing or any stretch that ends in a slash |
| `Glob.ClassMeans` | src/codebase_atlas/cbmignore.py:20-37 | a closed class matches one character that it admits |
| `Glob.UnclosedMeans` | src/codebase_atlas/cbmignore.py:20-37 | an unclosed bracket matches itself |
| `Glob.Matcher.Match` | src/codebase_atlas/cbmignore.py:43-76 | cached answers are never wrongly true and are right while budget lasts; each pair of offsets spends budget once |
| `Glob.GlobMatches` | src/codebase_atlas/cbmignore.py:40-78 | never true where the declarative meaning says no, and exactly that meaning whenever (pattern length + 1) x (value length + 1) is below 20000 |
| `Ignore.IgnoredBelow` | src/codebase_atlas/cbmignore.py:128-134 | everything below an ignored directory is ignored, whatever later patterns say |
| `Ignore.CbmIgnore.MatchResult` | src/codebase_atlas/cbmignore.py:114-126 | the last pattern that applies decides |
| `Ignore.CbmIgnore.Ignores` | src/codebase_atlas/cbmignore.py:128-134 | ignored exactly when the path or a directory on the way to it is |
| `Ignore.PrunedBelow` | src/codebase_atlas/providers/python_inventory.py:109-120 | a directory the walk does not enter holds no wanted file |
| `Ignore.Walk` | src/codebase_atlas/providers/python_inventory.py:101-132 | the pruned walk lists exactly the files that filtering every file would keep |
| `RustScope.EnqueueModule` | src/codebase_atlas/rust_scope.py:546-580 | one existing choice is taken; none or several are recorded as unresolved or ambiguous |
| `RustScope.ExpandDeferred` | src/codebase_atlas/rust_scope.py:583-592 | put-off declarations are resolved in directories that invoke their macro, the others are kept |
| `RustScope.Visit` | src/codebase_atlas/rust_scope.py:600-649 | one source: everything it declares, invokes or includes is followed, put off or excluded |
| `RustScope.TakeChained` | src/codebase_atlas/rust_scope.py:600-603 | a file that is taken hangs on a chain from a target root |
| `RustScope.Reachable` | src/codebase_atlas/rust_scope.py:523-650 | terminates; every reachable file is a candidate with a chain from a root; declarations and includes of reachable files are closed over or excluded, also those of macros nobody invokes; partial exactly when something is excluded; every exclusion has its cause: a target that is no candidate, an unreadable source, a declaration without exactly one existing choice, an include outside the candidates or not literal |
| `RustScope.NothingExcluded` | src/codebase_atlas/rust_scope.py:581-650 | when nothing is excluded every root, declaration and include was found without doubt and is reachable |
| `RustScope.ExactHasNoReason` | src/codebase_atlas/rust_scope.py:581-650 | an exact closure gives no cause for an exclusion |
| `RustScope.ModuleDirs` | src/codebase_atlas/rust_scope.py:406-407 | the directory of the child modules of dir/name.rs and of dir/name/mod.rs is the same, and that of a crate root is its own |
| `RustScope.ChoicesBelow` | src/codebase_atlas/rust_scope.py:555-564 | a declaration without a path attribute has exactly two choices, whose child modules are searched below its name |
| `RustScope.ChoicesAt` | src/codebase_atlas/rust_scope.py:555-560 | a path attribute leaves one choice, and an empty one counts as none |
| `RustScope.BuildScope` | src/codebase_atlas/rust_scope.py:707-733 | every candidate is a source or listed as outside the scope, never both, and complete_exact implies the exact closure; every exclusion has a cause in the repository, so that, when no source declares modules inside a macro, the scope is partial exactly when a manifest is excluded, there is no package or no target, or the closure is not exact |
| `Tokens.DecodeEncode` | src/codebase_atlas/service.py:1196-1209 | unpadded base64url decodes to the bytes it encodes (section 5 of RFC 4648) |
| `Tokens.OneSpelling` | src/codebase_atlas/service.py:1200-1209 | bytes have exactly one accepted spelling |
| `Tokens.ParseToken` | src/codebase_atlas/service.py:1211-1226 | a token parses back to the entry and offset it was made from |
| `Tokens.AcceptedIsSigned` | src/codebase_atlas/service.py:1228-1259 | accepted is exactly the one spelling of a signed payload that passes the checks |
| `Tokens.IdsAreHex` | src/codebase_atlas/service.py:1247-1256 | the ids a token may name are exactly those that 16 random bytes give as hexadecimal digits |
| `Tokens.PlaceExactly` | src/codebase_atlas/service.py:1247-1259 | a payload names a place exactly when it has the three fields and no other, a version that equals one, such an id and a positive offset |
| `Tokens.TokenFits` | src/codebase_atlas/service.py:113-121 | a request accepts the length of a token exactly when its payload has at most 340 bytes |
| `Continuation.Continuations.Clear` | src/codebase_atlas/service.py:1152-1155 | everything goes and the counter is zero |
| `Continuation.Continuations.Remove` | src/codebase_atlas/service.py:1157-1165 | entry, order, query and weight go together; the clamp at zero changes nothing |
| `Continuation.Continuations.MakeRoom` | src/codebase_atlas/service.py:1279-1285 | the oldest entries go, no more than needed, and there is room afterwards |
| `Continuation.Continuations.Store` | src/codebase_atlas/service.py:1261-1295 | only an oversized entry is refused; otherwise it replaces the entry of its query and becomes the newest, within 32 entries and 64 MiB |
| `Continuation.Continuations.Touch` | src/codebase_atlas/service.py:1418 | the entry becomes the last to be evicted |
| `Continuation.QueryContinuation` | src/codebase_atlas/service.py:1389-1421 | a page comes exactly for a valid token of a cached entry with the same query and fingerprint; each error has its exact condition and leaves the cache alone, but a stale entry goes |
| `Continuation.PageMeans` | src/codebase_atlas/service.py:1342-1371 | a page is the next stretch of the stored list, short only at its end; it is truncated exactly when more follows, and then its token stands for the next offset |
| `Continuation.TimedOutIsEmptyPage` | src/codebase_atlas/service.py:1298-1324 | a late page says what a page without room for any node would say: nothing, and the same token again |
| `Continuation.BoundedMeans` | src/codebase_atlas/service.py:1621-1660 | an ordinary answer holds the first nodes, as many as fit, and is truncated exactly when it is late or leaves a node out |
| `Continuation.CachedInitial` | src/codebase_atlas/service.py:1423-1443 | a first page comes from the cache exactly when the query has an entry with the current fingerprint, and then it is that entry's first page or the time budget; otherwise the entry is dropped |
| `Continuation.CacheInitial` | src/codebase_atlas/service.py:1445-1480 | a first page with a token stands for a stored entry; any other answer is the ordinary one |
| `Continuation.Follow` | src/codebase_atlas/service.py:1326-1371 | with any page sizes, late retries and other traffic, what has been read is the stored list in order; without interference it is complete exactly when the requests on time had room for it |
| `Continuation.ReadWhole` | src/codebase_atlas/service.py:1445-1480 | first page and tokens together give back the whole answer exactly when there was room for it |
| `Continuation.ReadSigned` | src/codebase_atlas/service.py:1445-1480 | the same with signed tokens, for any lawful serialization and signature |
| `RoutingAssets.CountOne` | src/codebase_atlas/routing_assets.py:100-101 | a marker is counted once exactly when it occurs in exactly one place |
| `RoutingAssets.InstallThenRemove` | src/codebase_atlas/routing_assets.py:217-218 | for a body without markers, removing gives it back and installing again changes nothing exactly when it does not end in a carriage return; the status is absent before the installation and matching after it, or owned-old behind a carriage return |
| `RoutingAssets.CreatedThenRemoved` | src/codebase_atlas/routing_assets.py:233-234 | a rule file the installation created goes away again with the recorded ownership, and stays empty without it |
| `RoutingAssets.TextAroundSurvives` | src/codebase_atlas/routing_assets.py:219-237 | the text around an owned block survives both plans; anything else is left untouched |
| `RoutingAssets.EditedBlockStays` | src/codebase_atlas/routing_assets.py:93-120 | a block between the two markers that was edited in anything but its line ends is left untouched by both plans, as a conflict, and has no remainder |
| `RoutingAssets.KnownExactly` | src/codebase_atlas/routing_assets.py:93-99 | a payload is known exactly when it is published, or all its line ends are CRLF and with LF it is published |
| `RoutingAssets.MisplacedMarkers` | src/codebase_atlas/routing_assets.py:219-222 | a body with markers, but not with exactly one of each, is left untouched as a conflict |
| `RoutingAssets.OwnedIsInOrder` | src/codebase_atlas/routing_assets.py:102-120 | an owned block is not empty and the text around it holds no marker |
| `RoutingAssets.InstallTwice` | src/codebase_atlas/routing_assets.py:217-237 | installing twice equals installing once, for every body a plan may change, exactly when the text in front of the block does not end in a carriage return |
| `RoutingAssets.CheckoutThenRemove` | src/codebase_atlas/routing_assets.py:83-90 | after a checkout with CRLF line ends the rule is still owned and its removal gives the checkout of the original body |
| `RoutingTransactions.RoutingTransaction.Publish` | src/codebase_atlas/routing_transaction.py:141-172 | a publication has happened or not, nothing else but temporary files changes, and created directories are listed |
| `RoutingTransactions.RoutingTransaction.Rollback` | src/codebase_atlas/routing_transaction.py:221-242 | a complete rollback has every applied asset in its original state and no listed directory left; without faults it restores every asset; without faults it is complete when nothing but what it restores lies in the listed directories |
| `RoutingTransactions.RoutingTransaction.Apply` | src/codebase_atlas/routing_transaction.py:174-191 | a failure with a complete rollback leaves every asset and directory as it was; success publishes every plan; without faults and changes it succeeds; a single exception, of any step, ends in a complete rollback that leaves every file, temporary ones included, and every directory as it was |
| `RoutingTransactions.RoutingTransaction.ApplyRecovery` | src/codebase_atlas/routing_transaction.py:193-219 | from any mixture of removed and restored assets to all restored; a conflict changes nothing; cut short it leaves a mixture again; its list holds what it has changed |
| `RoutingTransactions.ModeAfter` | src/codebase_atlas/routing_transaction.py:128-134 | an unchanged asset keeps its mode, a new one gets 0o644 and a recorded one its recorded mode |
| `RoutingTransactions.Undone` | src/codebase_atlas/routing_transaction.py:186-190 | a complete rollback of whatever was reached is the start again |
| `RoutingTransactions.LastVacant` | src/codebase_atlas/routing_transaction.py:233-241 | the directory that was made last is empty once the assets are back and the directories made after it are gone |
| `Diff.Compare` | src/codebase_atlas/refresh_planner.py:453-487 | added, modified and deleted rebuild the new files from the old; dirty paths are exactly where they differ; all lists sorted without repetition |
| `Diff.Pair` | src/codebase_atlas/refresh_planner.py:461-473 | for each hash the k-th deleted file is renamed to the k-th added one, as long as there are both; no path is paired twice |
| `Scanner.SameOwners` | native/rust-syntax-scanner/src/main.rs:206-323 | both passes see every node under the same owner |
| `Scanner.OwnersFromAbove` | native/rust-syntax-scanner/src/main.rs:206-262 | a node is visited under the title of the nearest titled node above it, or under the owner it was given |
| `Scanner.FactsExactly` | native/rust-syntax-scanner/src/main.rs:206-262 | the facts are exactly those that some visited node gives |
| `Scanner.SignatureMeans` | native/rust-syntax-scanner/src/main.rs:210-212 | the owner an impl block gives is its text up to the first brace without the white space around it |
| `Scanner.Spaces` | native/rust-syntax-scanner/src/main.rs:212 | white space is the Unicode property White_Space |
| `Scanner.CollectFacts` | native/rust-syntax-scanner/src/main.rs:206-262 | the explicit stack visits nodes in recursive pre-order with inherited owners, and the facts are those of that walk |
| `Scanner.Push` | native/rust-syntax-scanner/src/main.rs:256-260 | pushing the children in reverse makes the first child the next one |
| `Candidates.UnhexHex` | native/rust-syntax-scanner/src/main.rs:65-72 | eight hexadecimal digits read back to the word |
| `Candidates.Intern` | native/rust-syntax-scanner/src/main.rs:290-293 | an owner keeps its number or gets the next one |
| `Candidates.OwnerList` | native/rust-syntax-scanner/src/main.rs:325-328 | the owner list inverts the numbering: owner interning is a bijection onto 0..n-1 |
| `Candidates.CollectCandidates` | native/rust-syntax-scanner/src/main.rs:283-323 | the candidates of a file are its identifiers that name a definition, in pre-order, written after those of the files before |
| `Candidates.SecondPass` | native/rust-syntax-scanner/src/main.rs:272-330 | records, count and owners encode exactly the candidates of all files; it fails only when some word exceeds u32 |
| `Candidates.ReadBack` | native/rust-syntax-scanner/src/main.rs:296-306 | 56-digit records read back to the candidates they were written from |
| `Candidates.Scan` | native/rust-syntax-scanner/src/main.rs:206-330 | what both passes write reads back as every identifier that names a definition, under the owners of the first pass |

## Left out

- Refresh.Refresh: the plan, the provider's answer and the health checks are outcomes of steps; whether a refresh is needed at all is an arbitrary choice.
- RustRefresh.Refresh: that an exception is an interrupt, which is raised again instead of reported, counts as one more fault.
- Interrupts that land between the effect of a step and the next statement are modelled only for renaming and unlinking in the routing transaction; elsewhere a step that raises had no effect.
- Writers that edit a file in place, such as the provider inside its database, are taken as one atomic replacement.
- Symbolic links, permissions, size limits, inode races and directory fsync are part of the atomic steps; Windows branches are not part of this model.
- Journals are typed documents: schema, identity and path checks are reduced to the ones that decide what recovery may do.
- One project per cache directory, because the clean-up of staging names in it carries no project.
- Lifecycle.Finish: does not model the removal of empty skill directories after a rollback (lifecycle_recovery.py:399-413).
- Writers that do not take the refresh lease (repair, onboarding, migration) are not part of the lease model, and one coordinator process runs one query at a time.
- Retry.RefreshWithRetry: counts in whole nanoseconds; merging of timing fields and of the last result is left out.
- Graph: nodes and edges carry only the fields that identity, order and admission use.
- Glob.GlobMatches: says nothing beyond soundness once the budget can run out, because the answer then depends on the order of the search.
- Ignore.Walk: takes the tree and the set of wanted extensions as input; the Git inventory and the checks of `_regular_source` are left out.
- RustScope.Reachable: takes the module events of a file as input, since brace-delimited macro calls skip a brace that is not counted (rust_scope.py:498-511); for declarations inside macros only soundness and bookkeeping are stated, because their result depends on the order of the traversal.
- RustScope.BuildScope: manifests, packages and targets are inputs; the scope document and its validation are left out.
- Tokens.ParseToken: that nobody else can sign a payload is not stated; HMAC is a function of the payload.
- Continuation.Continuations.Store: the weight of an entry and the drawn id are inputs, and ids of one session do not repeat.
- RoutingAssets: hashes of known payloads are the payloads; the published wording is any text whose only `<` are those of its two markers. The skill file has no text around it and is left out.
- RoutingTransactions.RoutingTransaction.ApplyRecovery: takes validated records; the record format with its CRLF restriction (routing_transaction.py:105-120) is left out.
- RoutingTransactions.RoutingTransaction.Apply: other programs do not write while a transaction runs.
- Diff.Compare: files are maps by path; the lists of reasons and the early exits of plan_refresh are left out.
- Candidates.Scan: trees are inputs; a file is the same in both passes; size limits, parse errors and the output document are left out.
- Equality of the incremental and the full registration index is not modelled.
- Subprocesses, MCP, HTTP, command line, release installation, response shaping and timing fields are glue.
