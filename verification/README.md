# nutdb, modelled and proved

nutdb is a small database written from scratch: a B-tree index over checksummed
pages, a write-ahead log, a crash-safe key-value store, snapshot-isolated
transactions, a SQL layer, a Raft cluster and a checker for register histories.
This project models those layers in Dafny and proves what each one is for.
`dafny verify dfyconfig.toml` checks all of it.

| layer | files | main results |
|---|---|---|
| Raft | `raft_state`, `raft_harness`, `raft_invariant`, `raft_steps`, `raft_replication`, `raft_safety`, `raft_progress`, `raft_program` | election safety, log matching, leader completeness and state machine safety over every run, for any number of nodes, and the exact answer of every election and every replication on disks with room |
| B-tree | `btree`, `btree_insert`, `btree_change`, `btree_index` | the arena tree refines a sorted map and stays balanced, unshared and within its key bounds |
| MVCC | `mvcc_versions`, `mvcc_log`, `mvcc_rules`, `mvcc_safety`, `mvcc_records`, `mvcc_bytes`, `mvcc_program` | snapshot reads, first committer wins, collection, what a new transaction sees, and recovery down to the bytes of the log, against the history of committed write sets |
| Shared | `octets`, `bytes`, `keys`, `fields` | little-endian numbers, strings in lexicographic order, fields of payloads |
| Log | `crc`, `wal`, `command` | replay is exact for any cut, four-byte damage is always detected |
| Store | `store_disk`, `store_runs`, `store_program` | crash consistency at every step, exactly when each state of a checkpoint is safe, and opening never fails |
| Pages | `page`, `pager`, `tree_pages`, `tree_load` | slotted pages and the page cache; every saved index loads to the same nodes, root, length and contents; loading ends exactly off a cycle |
| SQL | `sql_ast`, `parser`, `catalog`, `sql_eval`, `sql_table`, `sql_changes`, `sql_view`, `sql_schemas`, `sql_select`, `sql_meaning`, `sql_program`, `sql_runs` | the parser is exact; over every run of statements, CREATE TABLE included, commits and crashes, every transaction finds every table sound under the schema it loads, and the index plan means the scan; expressions and statements do exactly what a separate definition of their meaning says |
| Checker | `linearizability` | the search decides exactly linearizability |

How the model is built:

- Where the source updates an object in place there is a class whose methods are
  proved equal to functions on values (`RaftState`, `MvccRules`, `StoreDisk`, ...);
  the theorems over whole runs are about those functions.
- A failed append or sync ends a run: the next step is opening the files again.
  In the Raft model every node has a `room`, the number of records its disk still
  takes, so the failure can fall on any record. In the transactional store a crash
  may fall inside any call and keeps any prefix of the log at least as long as what
  was synced. In the key-value store every call leaves a trace of all states its
  files pass through, and a crash may catch any of them.
- Renames are atomic and ordered, and resetting the log is all or nothing. Opening
  syncs the log only where it cuts a torn tail off, as the code does.
- A run of SQL statements interleaves the writes of all open transactions with
  begins, commits, aborts, collections and crashes. Each statement loads the schema
  of its table from what its own transaction sees.
- Strings are byte sequences in lexicographic order.

Where the code falls short of its promise:

- `store.rs` says a crash at any point of a checkpoint is harmless. With only the
  `.bak` snapshot left (after an earlier crash between the two renames),
  `publish_snapshot` removes it first. `StoreRuns.CarelessRunLoses` gives a run that
  loses an acknowledged write this way.
- Opening does not sync a log that ends in whole records. If a batch survives a crash
  unsynced, a checkpoint publishes it, and a power failure then takes it out of the
  log after all, replay mixes old values into the new snapshot:
  `StoreRuns.UnsyncedRunMixes` gives a run that ends in a state no choice of what the
  crash left can explain. `StoreDisk.StateSafeIff` says for each state of a
  checkpoint exactly when a crash in it is safe, `StoreDisk.CheckpointSafeIff` when
  all are, and `StoreDisk.CheckpointGuard` gives a guard a caller can test. Even then
  the store opens: `StoreRuns.OpenNeverFails` holds over every run.
- With a literal of the wrong type, a lookup by primary key fails where a scan of an
  empty table succeeds: `SqlTable.WrongTypeDiffers`. `SqlTable.PlanPreservesMeaning`
  gives the exact condition.
- Loading a file whose pages are intact but link to each other in a cycle never
  returns: `TreeLoad.CyclicFile` gives such a file of two pages, and
  `TreeLoad.EndlessIff` says that loading goes on forever exactly for such files. No
  saved index is one (`TreeLoad.SavedIsLoaded`).

## Model

| member | source | states |
|---|---|---|
| RaftSafety.ElectionSafety | src/raft/mod.rs:57-101 | over every run, reopenings included, two nodes that ever hold role Leader in one term are the same node |
| RaftSafety.OneVotePerTerm | src/raft/state.rs:104-167 | over every run a node's vote in a term never changes once given, also after it is reopened from its records |
| RaftSafety.LogMatching | src/raft/state.rs:187-221 | in every reachable state two logs with the same term at an index are identical up to it |
| RaftSafety.LeaderCompleteness | src/raft/mod.rs:116-133 | once replicate returns an index, every node that leads in that term or later, after any faults and reopenings, holds the command there |
| RaftSafety.StateMachineSafety | src/raft/mod.rs:233-242 | of any two applied lists at any two moments of a run one is a prefix of the other |
| RaftSafety.AppliedOnlyGrows | src/raft/mod.rs:233-242 | between opens no applied list changes except by extension |
| RaftSafety.NeverPanics | src/raft/state.rs:267-274 | no run ever indexes past a log: commit never exceeds it, also at the previous-term lookups of replication |
| RaftSafety.ReplicationSettles | src/raft/mod.rs:139-231 | after every round of replication that ends well, also one that finds no majority for the new command, every reached follower has the leader's log and term, follows it and knows at least its commit index, commit is at the end of the leader's log or unchanged, and everything committed is applied |
| RaftSafety.StepOk | src/raft/mod.rs:57-270 | every call keeps the invariant or, on an I/O error, leaves files that reopen to a state that satisfies it; reopening always succeeds |
| RaftSafety.Chronicle | src/raft/mod.rs:22-270 | every run has a history of votes, leaders, leader logs and commits that only grows and that every state agrees with |
| RaftSafety.ReopenOk | src/raft/mod.rs:23-44 | opening the whole cluster from its files succeeds and keeps the invariant |
| RaftProgress.ElectionExact | src/raft/mod.rs:57-101 | on disks with room an election is won if and only if no linked peer is past its term and the candidate with the linked peers free to vote for it, in term and log, are a majority; the winner leads the new term with all their votes, the loser stays a candidate or steps down, and nobody else changes |
| RaftProgress.ElectAnswers | src/raft/mod.rs:57-101 | so every election of every run answers, and exactly a won one leaves a leader |
| RaftProgress.RoundExact | src/raft/mod.rs:139-231 | on disks with room a round fails exactly over a follower in a later term, and the leader then steps down; otherwise the whole log is committed if and only if its last entry is of the leader's term and the leader with the followers it can send to are a majority |
| RaftProgress.ReplicateExact | src/raft/mod.rs:116-133 | on disks with room replicate returns the next index if and only if nobody it can send to is in a later term and they, with the leader, are a majority; else it names which of the two is missing |
| RaftProgress.ReplicateAnswers | src/raft/mod.rs:116-133 | so every replicate of every run answers |
| RaftProgress.ReplicateApplies | src/raft/mod.rs:202-242 | once replicate returns, the leader and every follower it can send to have applied exactly the leader's whole log, the new command last |
| RaftProgress.RefusedCalls | src/raft/mod.rs:57-66 | calls on stopped or unknown nodes, and commands for a node that does not lead, change nothing |
| RaftProgress.IsolatedIsPowerless | src/raft/mod.rs:248-254 | an isolated node of a cluster of two or more wins no election and has no command acknowledged |
| RaftProgress.IsolateExact | src/raft/mod.rs:248-254 | isolation cuts exactly the links of one node, both ways |
| RaftProgress.PartitionExact | src/raft/mod.rs:244-246 | a partition cuts one link both ways and no other |
| RaftProgress.FaultsExact | src/raft/mod.rs:256-266 | stopping, starting and healing change what they name and nothing else |
| RaftProgress.ReopenExact | src/raft/mod.rs:23-44 | reopening keeps every term, vote and log, makes everyone a follower with nothing applied, and clears all faults |
| RaftSteps.ElectOk | src/raft/mod.rs:57-101 | an election keeps the invariant, whichever peers answer and wherever a disk fails |
| RaftSteps.CandidateHolds | src/raft/state.rs:152-155 | a candidate whose log is up to date for a voter holds every entry committed with that voter |
| RaftReplication.ReplicateExistingOk | src/raft/mod.rs:139-231 | probing, replicating, committing, publishing and applying keep the invariant and settle the followers reached |
| RaftReplication.CommitJumps | src/raft/state.rs:248-265 | with the counts replication produces, commit jumps to the end of the log if a majority and the term allow it, and otherwise stays |
| RaftReplication.MergedIsLeaders | src/raft/state.rs:199-221 | merging the suffix a leader sends into a follower that matches before it gives exactly the leader's log |
| RaftState.PersistentRoundTrip | src/raft/state.rs:295-351 | every term, vote and log that encodes decodes to itself |
| RaftState.DecodedIsEncoded | src/raft/state.rs:321-350 | nothing decodes but encodings, up to the eight unused bytes of an absent vote |
| RaftState.Encode | src/raft/state.rs:295-319 | the buffer built field by field is the specified encoding, refused exactly if a length does not fit |
| RaftState.Decode | src/raft/state.rs:321-350 | the cursor loop reads what the specification reads and rejects the same inputs |
| RaftState.RaftNode.StartElection | src/raft/state.rs:104-119 | a new term, a vote for itself, a request with the last log position, all persisted first |
| RaftState.RaftNode.HandleRequestVote | src/raft/state.rs:137-167 | grants at most one vote per term and only to up-to-date logs, persisting before it answers |
| RaftState.RaftNode.HandleAppendEntries | src/raft/state.rs:169-234 | rejects stale terms and gaps, otherwise merges, truncates and raises commit as specified |
| RaftState.RaftNode.AppendAsLeader | src/raft/state.rs:236-246 | only a leader appends, in its own term |
| RaftState.RaftNode.AdvanceCommit | src/raft/state.rs:248-265 | the loop finds the highest index of the current term on a majority |
| RaftState.RaftNode.TakeApplied | src/raft/state.rs:267-274 | hands out exactly the committed entries not yet applied |
| RaftState.RaftNode.ObserveTerm | src/raft/state.rs:126-135 | a higher term makes the node a follower without a vote |
| RaftState.OpenNode | src/raft/state.rs:40-66 | a node is what its last persisted record says |
| RaftProgram.RaftCluster.Elect | src/raft/mod.rs:57-101 | the loop over peers does what the election function says, failures included; `RaftProgress.ElectionExact` says what that is |
| RaftProgram.RaftCluster.Replicate | src/raft/mod.rs:116-133 | appends, replicates and acknowledges only what was committed |
| RaftProgram.RaftCluster.ReplicateExisting | src/raft/mod.rs:139-231 | the loops over followers do what the replication function says; `RaftProgress.RoundExact` and `RaftSafety.ReplicationSettles` say what that is |
| RaftProgram.RaftCluster.ApplyAll | src/raft/mod.rs:233-242 | every node's applied list grows by its committed entries |
| RaftProgram.RaftCluster.Isolate | src/raft/mod.rs:248-254 | every link of one node is cut, both ways |
| RaftProgram.OpenCluster | src/raft/mod.rs:23-44 | opens every node from its file, or fails with the first that cannot be read |
| BTreeProgram.BTreeIndex.Get | src/btree.rs:71-82 | agrees with a plain map |
| BTreeProgram.BTreeIndex.Insert | src/btree.rs:84-99 | updates the map at one key and keeps the tree sorted, balanced, unshared, counted and within 7 to 15 keys per node below the root; the calls that would panic on a duplicate are never reached with one |
| BTreeProgram.BTreeIndex.Replace | src/btree.rs:101-118 | changes the value of a key that is present and nothing else, or reports it absent |
| BTreeProgram.BTreeIndex.InsertNonFull | src/btree.rs:120-146 | adds the pair at its place in the order and nothing else |
| BTreeProgram.BTreeIndex.SplitChild | src/btree.rs:148-174 | splits a full child around its median |
| BTreeProgram.BTreeIndex.GrowRoot | src/btree.rs:88-96 | a full root gets a new root above it and the entries stay the same |
| BTreeProgram.BTreeIndex.Delete | src/btree.rs:176-190 | removes exactly the key, and tells whether it was there |
| BTreeProgram.BTreeIndex.Range | src/btree.rs:192-197 | the sorted list of exactly the pairs between the bounds |
| BTreeProgram.BTreeIndex.AllEntries | src/btree.rs:199-222 | the sorted list of exactly the map's pairs, as many as `len` |
| BTreeProgram.BTreeIndex.Collect | src/btree.rs:211-222 | appends the entries of a subtree in key order |
| BTreeProgram.BinarySearch | src/btree.rs:77-81 | finds the key or the only place it can go |
| BTreeInsert.SplitOk | src/btree.rs:148-174 | a split keeps the entries, the depth, the bounds and that no slot is used twice, and adds one slot |
| BTreeChange.InsertedAbove | src/btree.rs:143-145 | an insertion into a child is an insertion into its parent's subtree |
| BTreeChange.InsertedAfterSplit | src/btree.rs:133-145 | splitting first and inserting then is one insertion |
| BTreeChange.ReplacedAbove | src/btree.rs:112-114 | a replacement in a child is one in the parent's subtree |
| BTreeChange.ToMapIns | src/btree.rs:97-98 | a pair at its place in a sorted list is an update of the map the list spells |
| BTreeShape.Descend | src/btree.rs:75-82 | between two keys of a node only the child between them can hold a key |
| BTreeShape.Frame | src/btree.rs:29-46 | slots outside a subtree can change without changing it |
| Keys.SortedUnique | src/btree.rs:199-203 | a sorted list is determined by its map |
| MvccSafety.SnapshotReads | src/txn.rs:374-385 | in every reachable state a read at an active snapshot or the current timestamp equals the fold of all write sets committed up to it |
| MvccSafety.TransactionReads | src/txn.rs:239-245 | an open transaction sees its own writes over the history up to its snapshot |
| MvccSafety.StableReads | src/txn.rs:192-216 | whatever commits, collections and crashes lie between, what an open transaction reads of the store never changes |
| MvccSafety.BeginSeesAll | src/txn.rs:150-171 | while ids are left, begin opens a transaction that sees, for every key, the fold of all write sets committed so far |
| MvccSafety.BeginAfterCommit | src/txn.rs:150-171 | over every run a transaction begun after a commit returned its timestamp, whatever crashes lie between, starts at that timestamp or later |
| MvccSafety.EndedLeaves | src/txn.rs:309-372 | a transaction that commits, aborts or is dropped is open no more and holds no snapshot |
| MvccSafety.FirstCommitterWins | src/txn.rs:309-322 | a transaction may commit if and only if no commit after its snapshot set a key it wrote or deleted one with a value |
| MvccSafety.ConflictsExact | src/txn.rs:387-393 | the check on one key says exactly whether the history changed it since the snapshot |
| MvccSafety.CollectionKeepsConflicts | src/txn.rs:192-216 | collection never changes an open transaction's conflict decision on any key |
| MvccSafety.CollectionExact | src/txn.rs:192-216 | collection drops exactly the versions that ended before every snapshot in use |
| MvccSafety.IdleCollection | src/txn.rs:192-216 | with no transaction open, what is left after collection is one version per key that has a value, with that value, and nothing for other keys |
| MvccSafety.RecoveryExact | src/txn.rs:85-148 | after a crash inside any call, opening any surviving prefix succeeds and rebuilds exactly the transactions whose commit record is in it, each whole, at every snapshot |
| MvccSafety.AcknowledgedSurvives | src/txn.rs:324-341 | a commit that returned its timestamp is in every later history at that timestamp with all its writes, after everything committed before it |
| MvccSafety.IdsNeverReused | src/txn.rs:150-171 | ids handed out grow over the whole run, crashes included |
| MvccSafety.StepSound | src/txn.rs:84-353 | every call and every crash keeps memory and log in agreement |
| MvccRules.CallOk | src/txn.rs:150-353 | every call keeps the invariant |
| MvccRules.Recovered | src/txn.rs:85-148 | every prefix of a proper log opens to a store that agrees with it |
| MvccRules.CleanOk | src/txn.rs:192-216 | collection at the watermark keeps every snapshot in use |
| MvccLog.ReplayRebuilds | src/txn.rs:93-131 | replay never fails on a log the store wrote and rebuilds commits, pending writes, counters and version chains |
| MvccLog.Replay | src/txn.rs:93-131 | the loop stops at the first record it must reject and otherwise is the fold over all records |
| MvccVersions.WrittenTells | src/txn.rs:400-413 | a write extends what a chain tells by one commit |
| MvccVersions.KeptTells | src/txn.rs:201-210 | a collected chain still shows every later snapshot, and its last change unless that is older |
| MvccVersions.ConflictExact | src/version.rs:11-21 | last modification after a snapshot means an effective change after it |
| MvccVersions.AppliedFaithful | src/txn.rs:395-415 | applying a write set appends exactly it to the history the chains tell |
| MvccRecords.RecordRoundTrip | src/txn.rs:434-497 | every record that fits decodes to itself |
| MvccRecords.DecodedIsEncoded | src/txn.rs:467-497 | nothing decodes but encodings |
| MvccRecords.FitsExact | src/txn.rs:558-564 | the size guard of the model is the log's own limit on payloads |
| MvccRecords.Decode | src/txn.rs:467-497 | the cursor reads what the specification reads and rejects the same inputs |
| MvccBytes.RecordsReadBack | src/txn.rs:434-497 | every record of every reachable log fits the log's frame and decodes to itself |
| MvccBytes.BytesRecover | src/txn.rs:85-148 | cut at any byte past what was synced by a crash inside any call, the log replays to whole payloads that decode to a prefix of its records, and opening that prefix succeeds |
| MvccProgram.MvccStore.Begin | src/txn.rs:150-171 | a fresh transaction at the current timestamp, its record synced first; refused when ids run out; `MvccSafety.BeginSeesAll` says what it sees |
| MvccProgram.MvccStore.Gc | src/txn.rs:192-216 | the watermark is the oldest active snapshot, or past the last commit when none is, and exactly the versions dead before it go |
| MvccProgram.Transaction.Get | src/txn.rs:239-245 | reads its own write or the snapshot; refused after the end |
| MvccProgram.Transaction.ScanPrefix | src/txn.rs:247-271 | the sorted list of exactly the pairs with the prefix that a point read shows, so the early break loses nothing |
| MvccProgram.PrefixRun | src/txn.rs:257-260 | past the prefix, a key without it is followed by no key with it |
| MvccProgram.Transaction.Put | src/txn.rs:273-307 | logs and remembers the write, or refuses one too large and changes nothing |
| MvccProgram.Transaction.Commit | src/txn.rs:309-341 | commits, or aborts over the least key in conflict, or gives up when timestamps run out |
| MvccProgram.Transaction.Abort | src/txn.rs:343-353 | logs the abort, syncs and leaves |
| MvccProgram.Transaction.Drop | src/txn.rs:364-372 | an unfinished transaction leaves the active set without a record |
| MvccProgram.ApplyVersions | src/txn.rs:395-415 | the loop over the write set changes exactly its keys' chains |
| MvccProgram.VisibleValue | src/txn.rs:374-385 | finds the newest visible version |
| MvccProgram.OpenStore | src/txn.rs:85-148 | a store in the state replay rebuilt, or the error replay met |
| Crc.BurstDetected | src/crc.rs:10-21 | data of any length changed within four consecutive bytes has another checksum |
| Crc.Crc32 | src/crc.rs:10-21 | the nested loops compute the bitwise division the theorems are about |
| Crc.KnownVectors | src/crc.rs:28-32 | the standard's values for no data, for `a` and for `123456789` |
| Crc.Window | src/crc.rs:12-19 | up to four bytes act on the register as one word added before as many steps |
| Wal.CutReport | src/wal.rs:111-170 | whatever replay reports of a log cut at any byte is exactly the records wholly before the cut, valid up to the last of them, short of the cut exactly off a record boundary |
| Wal.DamageStops | src/wal.rs:156-159 | a payload damaged within four bytes stops replay right before its record, whatever follows |
| Wal.ReplayUnique | src/wal.rs:111-170 | a file has exactly one longest run of intact records |
| Wal.Replay | src/wal.rs:111-170 | for any file at all, reports that run, and truncated if and only if bytes follow it |
| Wal.RepairedAppends | src/wal.rs:88-96 | once the torn tail is cut off, appended records replay after the old ones |
| Wal.WalFile.Append | src/wal.rs:55-69 | adds one frame, or refuses a payload of 4 GiB and adds nothing |
| Wal.WalFile.Recover | src/wal.rs:92-96 | keeps exactly the valid prefix |
| Commands.CommandRoundTrip | src/command.rs:28-67 | every command the log accepts decodes to itself |
| Commands.DecodedIsEncoded | src/command.rs:46-67 | nothing decodes but encodings |
| Commands.Decode | src/command.rs:46-67 | the cursor reads what the specification reads and rejects the same inputs |
| Commands.Encode | src/command.rs:29-44 | the buffer built piece by piece is the specified encoding |
| StoreDisk.ReplayIdempotent | src/store.rs:165-173 | replaying a whole log over its own result changes nothing |
| StoreDisk.BatchCrashSafe | src/store.rs:75-90 | after a crash in any state of a batch, at any byte, opening gives what was on disk for sure plus a first part of what else was logged, and all of it once the batch is synced |
| StoreDisk.CheckpointCrashSafe | src/store.rs:109-123 | a crash in a state of a checkpoint that is fit for it recovers a promised state, and so will any further crash; only the states from the removal of the old backup to the sync of the mark ask for a condition |
| StoreDisk.StateSafeIff | src/btree.rs:369-382 | for each of the ten states of a checkpoint: every crash in it recovers a promised state if and only if, while a sole backup is gone, the log can do without it, and, while the new snapshot stands beside an unsynced log, no part of the log that may survive undoes it |
| StoreDisk.CheckpointCrashSound | src/store.rs:32-61 | whatever state of a checkpoint a crash catches, fit or not, what opens is the snapshot of that state with a first part of the log, or with none once it is reset |
| StoreDisk.CheckpointSafeIff | src/btree.rs:369-382 | every crash in a checkpoint recovers a promised state if and only if the main snapshot is there or no backup is or the log can do without it, and no part of the log that may survive undoes the new snapshot |
| StoreDisk.CheckpointGuard | src/store.rs:109-123 | with the whole log synced and the main snapshot there, or none, every crash in a checkpoint recovers exactly the data |
| StoreDisk.SyncedReplayable | src/store.rs:109-123 | with the whole log on disk the second condition always holds and exactly the data is promised |
| StoreDisk.OpenSucceeds | src/store.rs:32-61 | a disk whose log is any cut of a proper log opens |
| StoreRuns.RunRecovers | src/store.rs:32-123 | over every run in which no checkpoint crashes in a state that is not fit for it, the data is at every point exactly the acknowledged batches and first parts of those cut short, in order, even if later crashes take more of them |
| StoreRuns.OpenNeverFails | src/store.rs:32-61 | over every run at all, whatever state of a call a crash catches, opening succeeds |
| StoreRuns.RunSound | src/store.rs:32-123 | over every run at all, log, snapshots and memory agree |
| StoreRuns.CheckpointExact | src/store.rs:109-123 | a checkpoint that returns leaves the data in the main snapshot alone: empty log, no backup, no temporary file |
| StoreRuns.QuietCrash | src/store.rs:75-123 | after a batch or a checkpoint that returned, opening after any crash gives exactly the data |
| StoreRuns.CarelessRunLoses | src/btree.rs:369-382 | a run of one write, a checkpoint and two crashed checkpoints that loses the write |
| StoreRuns.UnsyncedRunMixes | src/store.rs:39-50 | a run with an unsynced batch and a crashed checkpoint that ends in a state nothing explains |
| StoreProgram.Store.ApplyBatch | src/store.rs:75-90 | logs all, syncs once, then changes memory; refuses a checkpoint command untouched; stops short over a command too large with memory unchanged |
| StoreProgram.Store.Apply | src/store.rs:157-163 | one command logged, synced and applied, or refused untouched |
| StoreProgram.Store.Save | src/btree.rs:237-282 | writes the tree's pages and publishes them through exactly the states of the trace, if and only if every node fits its page; otherwise nothing is published |
| StoreProgram.Store.MakeCheckpoint | src/store.rs:109-123 | snapshot, checkpoint record, sync, reset, in this order; refused exactly for a tree that does not fit its pages |
| StoreProgram.OpenStore | src/store.rs:32-61 | opens to what replay over the loaded snapshot gives, syncs only by cutting a torn tail, fails only if nothing could be opened, and does not return exactly if the snapshot it comes to links in a cycle |
| StoreProgram.Load | src/btree.rs:284-298 | takes the main snapshot if its pages load, the backup if they are damaged or gone, or an empty tree; does not return exactly over a cycle |
| StoreProgram.LoadExact | src/btree.rs:300-365 | of a snapshot file, damaged or not: gives an index with the contents the file stands for, rejects it, or does not return |
| StoreProgram.PagesShown | src/btree.rs:237-282 | the pages saved from an index stand for exactly its contents |
| SlottedPages.InsertedHolds | src/page.rs:95-114 | an insertion adds the cell at the end and moves no other; slots and cells never overlap |
| SlottedPages.RoomExact | src/page.rs:96-104 | an insertion is accepted if and only if the cells still fit with one more |
| SlottedPages.FinishedAccepted | src/page.rs:63-142 | every finished page is accepted with its kind and its cells in order |
| SlottedPages.DamageRefused | src/page.rs:79-84 | a finished page changed within four bytes, inside or outside its checksum, is refused |
| SlottedPages.SlottedPage.Insert | src/page.rs:95-114 | the in-place writes give the page with one more cell, or change nothing when it does not fit |
| SlottedPages.SlottedPage.Cells | src/page.rs:116-134 | returns exactly the inserted cells in order |
| SlottedPages.SlottedPage.Finish | src/page.rs:136-141 | the bytes are accepted and hold the same cells |
| SlottedPages.FromBytes | src/page.rs:63-89 | accepts exactly the sound pages and reads their cells |
| Pagers.Pager.Read | src/pager.rs:90-96 | reads what an uncached array of pages holds; the cache stays within capacity and gives up only the page used longest ago |
| Pagers.Pager.Write | src/pager.rs:98-121 | updates or extends the array by one page, or refuses a gap; same cache law |
| Pagers.Pager.Allocate | src/pager.rs:83-88 | extends the array by a blank page |
| Pagers.Pager.Flush | src/pager.rs:123-134 | makes the file equal the array |
| Pagers.Pager.EvictIfNeeded | src/pager.rs:158-171 | drops the least recently used page after writing it, and loses nothing |
| Pagers.LastAccessExact | src/pager.rs:92-94 | the clock value of a page is the moment of its last access |
| TreePages.SaveLoadRoundTrip | src/btree.rs:237-360 | the arena, root and length read from the pages of a saved arena are the identical ones |
| TreePages.OnlyStored | src/btree.rs:300-360 | only stored arenas load: of a file that is read, page 0 is the cell of the arena and every other page the cells of its node |
| TreePages.NodeRoundTrip | src/btree.rs:321-355 | a node is read back from its own cells |
| TreePages.PairRoundTrip | src/btree.rs:423-456 | a pair is read back from its cell, whatever follows it |
| TreePages.TreeArenaOk | src/btree.rs:54-61 | every tree the index builds has an arena that can be saved and loaded |
| TreePages.Save | src/btree.rs:237-277 | succeeds if and only if every node's cells fit a page, and then the file stores the arena |
| TreePages.ReadArena | src/btree.rs:300-360 | reads the arena the specification reads and rejects the same files |
| TreeLoad.SavedIsLoaded | src/btree.rs:300-365 | for every index, load_exact accepts what save wrote, its last comparison of the entry count with a traversal included, and gives the identical arena |
| TreeLoad.SaveAndLoad | src/btree.rs:237-365 | saving succeeds exactly if every node fits its page, and loading then gives an index with the same nodes, root, length and contents |
| TreeLoad.SaveIndex | src/btree.rs:237-282 | an index is saved exactly if every node fits, and its pages load to its arena |
| TreeLoad.LoadIndex | src/btree.rs:300-365 | tells the three outcomes apart for any file: an index with the arena it holds, a refusal, or a traversal that does not return |
| TreeLoad.GatheredTree | src/btree.rs:199-222 | on a tree the traversal returns its entries |
| TreeLoad.EndlessIff | src/btree.rs:300-365 | loading does not return if and only if all pages are sound and some chain of children from the root comes back to a node |
| TreeLoad.CyclicFile | src/btree.rs:300-365 | a file of two sound pages, one node that is its own child, that loading never returns from |
| TreeLoad.LostIffCyclic | src/btree.rs:211-222 | a traversal not done after as many levels as there are nodes has met a cycle, and over a cycle it is never done |
| TreeLoad.DamagedIsRefused | src/btree.rs:300-320 | a file with one unsound page is refused, whatever its other pages link to |
| TreeLoad.LowerThanArena | src/btree.rs:42-46 | an unshared tree is lower than its arena is long |
| Parser.ParsesExactly | src/sql/parser.rs:203-284 | a token list parses to an expression with nothing left over if and only if the grammar spells it so |
| Parser.ParseRoundTrip | src/sql/parser.rs:203-284 | every expression, written with parentheses only where precedence or left association needs them, parses back to itself |
| Parser.Unambiguous | src/sql/parser.rs:203-272 | no token list spells two expressions |
| Parser.ExprParser.Disjunction | src/sql/parser.rs:203-217 | the OR loop parses what the specification parses, and the offset never passes the end token |
| Parser.ExprParser.Conjunction | src/sql/parser.rs:219-229 | the same for AND |
| Parser.ExprParser.Comparison | src/sql/parser.rs:231-252 | the same for a comparison, which does not chain |
| Parser.ExprParser.Primary | src/sql/parser.rs:254-272 | the same for atoms and parentheses |
| Parser.ExprParser.LiteralValue | src/sql/parser.rs:274-284 | exactly the tokens of literals are literals |
| Parser.ExprParser.Advance | src/sql/parser.rs:364-370 | moves on, but never past the end token |
| Catalog.RowRoundTrip | src/catalog.rs:97-117 | every row that fits its schema is read back from its text |
| Catalog.OnlyRows | src/catalog.rs:104-117 | nothing is read as a row but the text of a row that fits the schema |
| Catalog.KeysInjective | src/catalog.rs:85-95 | different primary values have different row keys |
| Catalog.TablesApart | src/catalog.rs:71-73 | no key lies under the prefixes of two tables |
| Catalog.HexRoundTrip | src/catalog.rs:222-253 | hexadecimal text is read back and holds no colon |
| Catalog.OnlyHex | src/catalog.rs:233-253 | only lower-case digits in pairs are read |
| Catalog.ValueRoundTrip | src/catalog.rs:189-220 | every value is read back, negative integers included |
| Catalog.OnlyValues | src/catalog.rs:205-220 | nothing is read as a value but its encoding |
| Catalog.PrimaryFound | src/catalog.rs:18-50 | a validated schema has its primary column where its name is found |
| Catalog.SchemaRoundTrip | src/catalog.rs:136-187 | every validated schema whose column names are words is read back from its text |
| Catalog.OnlySchemas | src/catalog.rs:161-187 | nothing is read as a schema but the lines of that schema |
| Catalog.CatalogApart | src/catalog.rs:67-73 | each table has its own catalog key, and no such key lies under a table's rows |
| SqlTable.PlanPreservesMeaning | src/sql/plan.rs:21-49 | on a sound table, a lookup by primary key selects what the scan with the same filter selects, if and only if the literal is NULL or of the key's type or the table has a row |
| SqlTable.WrongTypeDiffers | src/sql/executor.rs:260-275 | on an empty table with a literal of another type the lookup fails and the scan finds nothing |
| SqlRuns.TablesAlwaysSound | src/sql/executor.rs:46-258 | at every moment of every run of CREATE TABLE and other statements, commits, aborts, collections and crashes, every open transaction can load the schema of every table it has an entry for, finds every row under its own key and fitting that schema, and finds no row of any other table |
| SqlRuns.TablesStay | src/catalog.rs:52-65 | once a transaction that saw a table has committed, every later transaction, after any crashes, loads the same schema for it |
| SqlRuns.RunPlanPreservesMeaning | src/sql/plan.rs:21-49 | on every table built by such a run, under the schema the transaction loads, the index plan means the scan, whenever the literal is NULL or has the key's type, with the exact exception otherwise |
| SqlRuns.StatementCompletes | src/sql/executor.rs:96-134 | whatever runs beside it, a statement that has made its writes leaves its transaction seeing exactly what the statement makes of what it saw |
| SqlRuns.RunUpdateExact | src/sql/executor.rs:210-241 | in every run, whatever runs beside it, a successful UPDATE leaves every row its filter is true of with its assigned values under its new key, every other row as it was, nothing else, and as many rows as before |
| SqlRuns.StatementRowWrites | src/sql/executor.rs:136-258 | every statement writes only into its own table, and only rows under their own keys that fit the schema it loaded |
| SqlRuns.SqlStepOk | src/sql/executor.rs:46-94 | every step of a run keeps every committed state and every open view coherent |
| SqlSchemas.CommitCoherent | src/txn.rs:309-341 | a transaction whose own view is coherent stays so committed over newer data, if no key it wrote has come or gone and it created only tables its snapshot did not have |
| SqlSchemas.HistoryGrows | src/txn.rs:309-341 | so a commit without conflicts keeps every state of the history coherent and no table ever changes its columns |
| SqlSchemas.TablePutKeeps | src/sql/executor.rs:98-115 | a new table keeps what a transaction sees coherent |
| SqlSchemas.RowPutKeeps | src/sql/executor.rs:136-258 | so does a row written into a table under the schema the transaction loads for it |
| SqlTable.AllRowsRead | src/sql/executor.rs:277-283 | reading a sound table never fails and gives exactly its rows in key order |
| SqlTable.EqualityMatches | src/sql/executor.rs:336-384 | `key = literal` on a row is NULL, an error or equality, whichever side the column is on |
| SqlMeaning.EvalExact | src/sql/executor.rs:343-408 | an expression evaluates to a value if and only if it stands for it: comparisons by the order of values, NULL with NULL, AND and OR the lesser and greater of false, NULL and true; an error exactly if it stands for none |
| SqlMeaning.AndOrPass | src/sql/executor.rs:386-408 | `p AND q` keeps the rows both keep, `p OR q` those either keeps |
| SqlMeaning.AnswerExact | src/sql/executor.rs:167-208 | SELECT's answer is, in the asked order and direction with ties as they were, the first rows up to the limit of exactly the table's rows the filter is true of, under the columns asked for; it fails if and only if a column is unknown or the filter has no value on some row |
| SqlMeaning.FilterExact | src/sql/executor.rs:291-314 | a filter keeps, in order, exactly the rows it is true of |
| SqlMeaning.PlanExact | src/sql/plan.rs:21-49 | the plan is a lookup if and only if the filter compares the primary column with a literal, either way round |
| SqlMeaning.InsertExact | src/sql/executor.rs:136-165 | INSERT succeeds if and only if the names are columns, each once, that take their values, the primary key is not NULL and free, and the log takes the row; it then stores exactly that row |
| SqlMeaning.FateExact | src/sql/executor.rs:218-238 | UPDATE moves a row if and only if the filter is true of it, every assignment names a column that takes its value and the new key is not NULL; each column then has the value of the last assignment that names it, or its old one |
| SqlMeaning.UpdateMeaning | src/sql/executor.rs:210-241 | after a successful UPDATE every row the filter is true of is stored with its assigned values under its own new key, every other row is as it was, and nothing else is in the table |
| SqlMeaning.UpdateSucceeds | src/sql/executor.rs:210-241 | UPDATE succeeds whenever no row is in error, the new keys are free and different, and the log takes the rows |
| SqlMeaning.DeleteMeaning | src/sql/executor.rs:243-258 | after a successful DELETE exactly the rows the filter is true of are gone |
| SqlMeaning.DeleteFails | src/sql/executor.rs:243-258 | DELETE fails if and only if the filter has no value on some row or the log refuses a key |
| SqlChanges.InsertKeeps | src/sql/executor.rs:136-165 | INSERT keeps every table sound and adds exactly one row when it succeeds |
| SqlChanges.RowBuilt | src/sql/executor.rs:146-159 | the row of an INSERT has each named value, NULL elsewhere, and fits the schema |
| SqlChanges.UpdateExact | src/sql/executor.rs:210-241 | a successful UPDATE leaves every selected row under its new key, the others in place, and as many rows as before |
| SqlChanges.UpdateKeeps | src/sql/executor.rs:210-241 | however far UPDATE gets before an error, the table is sound and nothing outside it changes |
| SqlChanges.DeleteExact | src/sql/executor.rs:243-258 | DELETE removes exactly the selected rows, and every table stays sound even if it stops at an error |
| SqlChanges.OtherTableKept | src/catalog.rs:71-73 | a change inside one table leaves the others sound |
| SqlChanges.UpdatePutsExact | src/sql/executor.rs:210-241 | the writes of an UPDATE, one after another up to its end or failure, make exactly its change and lie in its table |
| SqlView.PerformedView | src/txn.rs:273-307 | writes change what a transaction sees one key at a time, in order |
| SqlProgram.CreateTable | src/sql/executor.rs:98-115 | succeeds if and only if the schema is validated, the transaction does not see the table and the log takes the text; the schema then loads as it was given |
| SqlProgram.LoadSchema | src/catalog.rs:52-59 | loads what the transaction's own view holds, or nothing |
| SqlProgram.DecodeSchema | src/catalog.rs:161-187 | the loop over lines reads what the specification reads and rejects the same texts |
| SqlProgram.Insert | src/sql/executor.rs:136-165 | the statement makes exactly the specified writes; it succeeds exactly if there is a row to store, and then stores it |
| SqlProgram.Update | src/sql/executor.rs:210-241 | the loop over the rows found at the start does what the specification does, counts exactly the rows the filter is true of, assigns their columns, and keeps the table sound on errors too |
| SqlProgram.Delete | src/sql/executor.rs:243-258 | removes and counts exactly the rows the filter is true of |
| SqlProgram.SelectRows | src/sql/executor.rs:167-184 | whichever plan is chosen, the rows are those of the scan with the filter, under the exact condition on the literal |
| SqlProgram.RunSelect | src/sql/executor.rs:167-208 | under that condition SELECT returns exactly the answer its clauses promise, whatever the plan, and fails only when it has to |
| SqlSelect.SortIsStable | src/sql/executor.rs:185-197 | ORDER BY sorts, and leaves every group of ties as it was |
| SqlSelect.StableSortUnique | src/sql/executor.rs:185-197 | there is only one such result, whatever the algorithm |
| SqlSelect.Present | src/sql/executor.rs:185-208 | sorts, cuts and projects, and fails exactly over an unknown column |
| Linearizability.IsLinearizable | src/linearizability.rs:30-33 | true if and only if some order of all entries respects real time and, for some choice of indeterminate writes, every successful read observes the register |
| Linearizability.Search | src/linearizability.rs:35-66 | decides whether the unused entries can be completed, terminates on their number, and restores the array |
| Linearizability.LinearizableIsCompletable | src/linearizability.rs:30-66 | the declarative definition and the step-by-step one agree |
| Linearizability.HasUnorderedPredecessor | src/linearizability.rs:68-78 | tells whether another unused entry completed before the candidate was invoked |

## Left out

- `src/server.rs`, `src/client.rs` and `src/raft/transport.rs` beyond its set of blocked pairs: TCP, timeouts and liveness probes.
- Election timeouts, `elect_by_timeout` and `leader`: they only pick a node.
- `synchronize` on a node without role Leader: the code does not check the role; the runs of the model call it on leaders only.
- I/O errors followed by continued use of the same object, and mutex poisoning: the run ends there.
- `get_at` with a snapshot older than every one in use: collection may have forgotten it.
- Two stores open on the same files at once.
- SlottedPages.DamageRefused: changes across the edge of the checksum field are not covered. In the four-byte windows that start at bytes 10, 11 and 15 a change of the field and one of the bytes beside it can agree with each other; in those that start at 9, 13 and 14 they cannot, which is not proved here.
- Pagers.Pager.Allocate: counts the page inside the write rather than before it, which leaves the same state.
- StoreProgram.LoadExact: a snapshot file that is still being written is taken not to load; only the temporary file is ever in that state. A complete file that loads is taken to hold an index: pages that are intact yet were not saved from one, with keys out of order, are left out.
- EXPLAIN, and that a statement outside BEGIN and COMMIT runs in a transaction of its own, are not modelled.
- The lexer and the statement-level parser: token lists end in exactly one end token, integers are in 64-bit range, and names are words, without colon, bar or line feed.
- Node counts and lengths of a tree are below 2^64, as `usize` counts are.
- UTF-8 validity, error messages, `Display` and the Windows form of `publish_snapshot`.
- `src/main.rs`, `src/bench.rs`, `src/gc.rs`.
