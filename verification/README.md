# DFSha: a Dafny model of its metadata protocols and block path

DFSha keeps the metadata of a distributed file system in a ControlNode database and the bytes, as
immutable blocks, on DataNodes. Every command of the ControlNode is one transaction; clients, nodes,
several ControlNode instances and the garbage collector interleave freely. This project models those
transactions on the tables they touch and proves what every interleaving keeps.

Each state-changing command appears twice: as a function from tables to tables, and as a method of a class
whose fields are the tables, with the loops of the original, proved to do what the function says. Facts that
hold over whole executions are lemmas about the functions, by induction over a list of events.

| file | what it models |
|---|---|
| `Common.dfy`, `Entities.dfy`, `Tables.dfy`, `Cluster.dfy` | shared vocabulary, table rows, the unit of work, node states |
| `Partition.dfy`, `Range.dfy` | cutting a file into blocks; reading a range |
| `Append.dfy`, `AppendRuns.dfy`, `AppendPlanning.dfy`, `AppendCommitting.dfy`, `AppendSafety.dfy`, `AppendOutcome.dfy`, `AppendExact.dfy`, `AppendSetting.dfy` | the two-phase append; its executions and their invariant, step by step; what a commit leaves; when each phase goes through; the other commands around it |
| `Leadership.dfy`, `LeadershipRuns.dfy`, `FileLock.dfy` | the leader lease with its fencing epoch; shared and exclusive file locks |
| `Scheduler.dfy`, `Recovery.dfy`, `RecoveryRuns.dfy`, `RecoveryExact.dfy`, `RecoveryCommands.dfy`, `RecoverySetting.dfy` | the recovery queue and its greedy scheduler |
| `Paths.dfy`, `Tree.dfy`, `FileNames.dfy`, `Namespace.dfy`, `NamespaceRuns.dfy`, `NamespaceExact.dfy`, `NamespaceCommands.dfy` | paths, the directory tree, names, and the namespace commands |
| `LifecycleRuns.dfy`, `LifecycleExact.dfy`, `UnequalReservations.dfy`, `Collector.dfy` | reservations, commits and the collector, among all commands; reservations of different lengths |
| `Membership.dfy` | registration, heartbeats, block reports, evaluation |
| `Transfer.dfy`, `Storage.dfy` | block transfer by the client; the block store of a node and its crashes |

## Assumptions

- A unit of work is atomic and sees no other one half done; a command that raises changes nothing. The partial
  unique indexes of the schema are checked at the end of the unit of work.
- Fresh keys never collide with keys in use. They are parameters (`slots`, `key`, `file`) or a counter (`next`);
  a key in use makes the command fail with `IntegrityViolation` or the step do nothing.
- Rows of blocks and copies refer to rows that exist, as the foreign keys demand (`BlocksRefer`, `CopiesRefer`).
- Placement may return any nodes (`Slot.nodes`); running out of slots stands for a policy that gives up. Permission
  checks are taken to have passed.
- Where SQL leaves an order open (the copies of a block, reservations created at the same instant) the model takes
  ascending ids. The scheduler's result does not depend on the order of its inputs (`Scheduler.OrderDoesNotMatter`).
- Within one command there is one instant, a parameter. Only the results on locks and names assume that it does not
  go back; the results on the lease assume nothing about clocks.
- SHA-256 is injective and the cipher is an opaque inverse pair that adds a fixed number of bytes.
- Reservations last the same in the results on names over whole executions (`Inv` has one length). What happens without
  that is `UnequalReservations`.
- A crash of a data node is its process dying: what it wrote before stays written. Loss of power, after which metadata and
  directories that were never synced may come back empty or unrenamed, is not covered.
- Append executions: clients send the block ids and the replaced tail of a plan they were given, all clients of a file
  agree on its cipher overhead, and a copy is recorded as stored only where the bytes are. A plan may be committed
  more than once, in which case only the size can change.

## Where the code and its comments disagree

The model follows the code.

- `src/dfsha/control_node/commands/filelock.py:148` says that a file without a live lock may be written whether or not
  the write carries a fencing pair; the code refuses a pair with no live lock as stale.
- `src/dfsha/control_node/commands/internal.py:94` announces one delete order per (block, node); a block with a live
  task gets no other, so only the first copy of an orphan is ordered (`RecoveryRuns.OneDeleteOrderPerBlock`).
- `src/dfsha/control_node/queries/namespace.py:141` derives the block count from the recorded size as always equal to
  the number of rows; a commit that trusts a stale size breaks that (`AppendOutcome.CommittedSizeIsRightExactlyWhenSeenIs`).
- `src/dfsha/control_node/repositories/sql.py:1541` says that the epoch of a file only rises; it is one more than the
  highest on record, which a release can lower (`FileLocks.ReleasedPairRevivesExactly`).
- `src/dfsha/control_node/domain/path.py:118` accepts with `child` names that `parse` would drop or split
  (`Paths.ChildSurvivesExactlyWhenClean`).

## Model

| member | source | states |
|---|---|---|
| Partition.BlockCountFor | src/dfsha/control_node/domain/partition.py:44-51 | the rounded-up division is the number of blocks of the plan, and the two inputs it refuses |
| Partition.PlanBlocks | src/dfsha/control_node/domain/partition.py:54-70 | the loop yields block k at offset k * blockSize with the size left there, just covering the file |
| Partition.PlanIsTheOnlyPartition | src/dfsha/control_node/domain/partition.py:54-70 | a list of sizes is the plan of a file if and only if all but the last are full, the last is not empty and they sum to the file |
| Partition.AppendKeepsPlan | src/dfsha/control_node/commands/files.py:384-431 | keeping the full blocks and planning tail plus added bytes gives the plan of the longer file, whether or not the tail was full |
| Partition.SlicesRejoin | src/dfsha/client/cli.py:1099-1104 | the slices a client cuts join to the original bytes and have the planned sizes |
| Partition.CutSlices | src/dfsha/client/cli.py:1099-1104 | the client's loop of clamped windows produces those slices |
| Partition.AppendedFile | src/dfsha/control_node/commands/files.py:384-431 | the kept blocks followed by the new slices are the old content plus the new bytes, again cut as a plan |
| Range.PlanRange | src/dfsha/control_node/domain/partition.py:88-147 | exactly the blocks that meet the range, once each, in order, each with its intersection; the inputs it refuses |
| Range.RangeReadIsExact | src/dfsha/client/cli.py:1001-1005 | joining the chosen pieces gives the requested bytes that exist, for any block sizes |
| Range.ReadRange | src/dfsha/control_node/api/routers.py:622-634 | the whole read with the endpoint's clamp returns those bytes, and fails only for a negative offset |
| Range.AnnouncedLengthIsDelivered | src/dfsha/control_node/api/routers.py:625-639 | with the right recorded size the announced length is the delivered one, and no length means the rest of the file |
| Append.AppendToFile | src/dfsha/control_node/commands/files.py:345-476 | the planning command does to the tables what PlanAppend says; when that goes through and what it leaves is AppendExact |
| AppendExact.CutIsTheEnd | src/dfsha/control_node/commands/files.py:384-393 | the cut is the one place where the file ends: the last block if it has room left, with its clear size and position, else the position after all blocks |
| AppendExact.PlanGoesThroughExactly | src/dfsha/control_node/commands/files.py:362-443 | a plan is made if and only if bytes are added to a committed file in a known directory, the lock lets the write pass, the sizes make sense, there are enough fresh slots and the rewritten tail, if any, has a stored copy; it names the tail, the position and the new blocks |
| AppendExact.PlanLeavesExactly | src/dfsha/control_node/commands/files.py:395-442 | it leaves the partition of the bytes to write as loose blocks in their final positions, planned on their nodes, and touches nothing else; every refusal leaves nothing but the one for an unreadable tail, which leaves those rows |
| Append.CommitAppendCommand | src/dfsha/control_node/commands/files.py:479-549 | the committing command is all or nothing and does what CommitAppend says; when that goes through and what it leaves is AppendExact |
| AppendExact.CommitGoesThroughExactly | src/dfsha/control_node/commands/files.py:510-549 | a commit goes through if and only if the file is open to the writer, every named block that exists has its quorum of stored copies, and no two blocks of the file end up at one position |
| AppendExact.CommitLeavesExactly | src/dfsha/control_node/commands/files.py:532-536 | it changes the owner of the named blocks and of the old tail and the size of the file, and nothing else |
| Append.LayOut | src/dfsha/control_node/commands/files.py:395-424 | the loop makes one loose row per block of the partition, shifted to the end of the file, and one planned copy per target |
| BlockTable.ListingIs | src/dfsha/control_node/repositories/sql.py:552-556 | a file whose blocks sit at 0, 1, 2, ... is listed in exactly that order |
| AppendCommitting.StalePlanAborts | src/dfsha/control_node/repositories/models.py:213 | a commit whose plan predates another committed append always fails whole |
| AppendCommitting.ReplayMovesNothing | src/dfsha/control_node/commands/files.py:532-536 | committing a plan a second time can only go through without moving a block |
| AppendCommitting.SwapTail | src/dfsha/control_node/commands/files.py:532-535 | detaching the tail and attaching loose blocks at the right positions leaves a contiguous file: kept blocks, then new ones |
| AppendCommitting.CommittedBytes | src/dfsha/client/cli.py:1093-1104 | with every block on disk the file reads as before plus the new bytes |
| AppendSafety.StepKeepsInv | src/dfsha/control_node/commands/files.py:345-549 | every plan, upload, commit, replay or other command keeps the invariant of the append protocol |
| AppendSafety.AppendsAreSerialisable | src/dfsha/control_node/commands/files.py:345-549 | in every execution a file is its initial content followed by the committed appends in commit order, contiguous and cut as planned; committed appends are never lost |
| AppendSafety.StartIsSound | src/dfsha/control_node/domain/partition.py:54-70 | any set of well-cut files is a legal start |
| AppendOutcome.CommitSucceedsExactlyWhenCurrent | src/dfsha/control_node/commands/files.py:479-549 | with lock and quorum in order, a first commit goes through if and only if no append was committed since its plan |
| AppendOutcome.ContentChangesOnlyByItsCommits | src/dfsha/control_node/commands/files.py:493-498 | readers see the same bytes until an append to that file is committed |
| AppendOutcome.CommittedSizeIsRightExactlyWhenSeenIs | src/dfsha/control_node/commands/files.py:536 | the size after a commit is the length of the file if and only if the client had read the right length |
| AppendOutcome.SizesStayRight | src/dfsha/control_node/queries/namespace.py:141-143 | with clients that read the size when they plan and commit once, the size is always right and the block count derived from it is the number of blocks |
| AppendOutcome.CollectedPlanCommitsShort | src/dfsha/control_node/repositories/sql.py:625-652 | a plan that lost blocks to a collector still commits, and the file has its planned blocks if and only if none was lost |
| AppendSetting.NamespaceLeavesAppendsAlone | src/dfsha/control_node/commands/namespace.py:36-178 | namespace commands, commits, aborts and locks are among the other commands of an append execution |
| AppendSetting.CollectionLeavesAppendsAlone | src/dfsha/control_node/repositories/sql.py:738-748 | so is a collection that takes no block of a followed file or of an uncommitted plan |
| AppendSetting.CreationLeavesAppendsAlone | src/dfsha/control_node/commands/files.py:83-185 | so is the creation of another file |
| Leadership.LeadershipTable.AcquireOrRenew | src/dfsha/control_node/commands/leadership.py:35-96 | renews, takes under the next epoch, or stands by: the row and answer of Hold, whose meaning is LeadershipRuns.RenewalKeepsTheEpoch and HoldAuthorisesExactly |
| Leadership.LeadershipTable.ReleaseLeadership | src/dfsha/control_node/commands/leadership.py:155-160 | the row of Leave, whose meaning is LeadershipRuns.LeavingFreesExactly |
| LeadershipRuns.HoldAuthorisesExactly | src/dfsha/control_node/domain/leadership.py:63-125 | the lease is refused if and only if another instance holds it, and the returned pair passes guarded writes if and only if it has not expired |
| LeadershipRuns.RenewalKeepsTheEpoch | src/dfsha/control_node/commands/leadership.py:57-96 | the live holder keeps leader and epoch and moves the expiry; an expired, free or missing lease goes to the caller under the next epoch |
| LeadershipRuns.LeavingFreesExactly | src/dfsha/control_node/commands/leadership.py:155-160 | a release by the pair on record lets anybody take the lease at once under the next epoch and ends that pair; any other release changes nothing |
| LeadershipRuns.CurrentUntilEnded | src/dfsha/control_node/domain/leadership.py:104-125 | in every execution a pair stays on record if and only if nobody asks for the lease after it has expired and its holder does not leave |
| LeadershipRuns.AcceptedUntilEnded | src/dfsha/control_node/commands/leadership.py:99-148 | a write under a pair is accepted after any events if and only if nothing ended the pair and its last renewal has not run out |
| LeadershipRuns.AttemptBeforeExpiry | src/dfsha/control_node/commands/leadership.py:57-96 | attempts of others before the expiry move nothing, those of the holder move only the expiry |
| LeadershipRuns.StepKeepsInv | src/dfsha/control_node/commands/leadership.py:35-160 | every attempt, guarded write or shutdown keeps the grant history increasing and never lowers the epoch |
| LeadershipRuns.FencingInEveryRun | src/dfsha/control_node/commands/leadership.py:99-148 | epochs never go down, each is granted once, accepted writes have nondecreasing epochs with one author each, for any clocks |
| LeadershipRuns.StalePairChangesNothing | src/dfsha/control_node/commands/leadership.py:99-148 | a pair below the current epoch is refused now and after any later events |
| LeadershipRuns.TakingTheLeaseFencesEverybody | src/dfsha/control_node/domain/leadership.py:109-125 | taking the lease, also by its previous holder, makes every earlier pair stale for ever |
| FileLocks.LockTable.AcquireLock | src/dfsha/control_node/commands/filelock.py:44-104 | grants or renews under the next epoch, or refuses and changes nothing |
| FileLocks.LockTable.ReleaseLock | src/dfsha/control_node/commands/filelock.py:107-130 | removes the holder's row, if any, and says so |
| FileLocks.RefusedExactlyOnConflict | src/dfsha/control_node/domain/filelock.py:153-208 | a lock is refused if and only if a live lock is in the way |
| FileLocks.GrantExcludesExactly | src/dfsha/control_node/commands/filelock.py:44-104 | after a grant another client is refused if and only if that lock lives and one of the two is exclusive, or an earlier lock is in the way |
| FileLocks.WritePassesExactly | src/dfsha/control_node/commands/filelock.py:133-207 | a write passes if and only if there is no live lock and no pair, or the pair is the sole live exclusive lock |
| FileLocks.GrantAuthorisesExactly | src/dfsha/control_node/commands/filelock.py:84-207 | after a grant its holder's writes pass under one epoch only, the next one after every lock on record, and only while the lock is exclusive and alive |
| FileLocks.ExclusionInEveryRun | src/dfsha/control_node/commands/filelock.py:44-130 | at every later instant live locks are all shared or one exclusive alone, and epochs of a file are distinct |
| FileLocks.GrantsRise | src/dfsha/control_node/repositories/sql.py:1540-1551 | successive grants to a holder rise unless it released in between |
| FileLocks.FrozenHolderIsRejected | src/dfsha/control_node/commands/filelock.py:178-195 | once another client took the file, the frozen exclusive holder is rejected for ever |
| FileLocks.ReleaseForgetsTheEpoch | src/dfsha/control_node/commands/filelock.py:107-124 | the epoch comes from the rows on record, so a holder that releases and comes back can be granted the same pair again: a run in which an old write is then accepted |
| FileLocks.ReleasedPairRevivesExactly | src/dfsha/control_node/repositories/sql.py:1498-1551 | for any events between a release and the return of its holder: the released pair is accepted again if and only if the new lock is exclusive and alive and the pair is next after the highest epoch on record; while nobody else releases, if and only if the grants to others since make up the difference |
| FileLocks.ComingStraightBackRevivesExactly | src/dfsha/control_node/commands/filelock.py:107-130 | on the table before the release: the pair revives if and only if it was next after all the other locks, until the new lock expires |
| FileLocks.EpochsCountGrants | src/dfsha/control_node/repositories/sql.py:1498-1551 | while nobody releases a file, its highest epoch grows by one with every grant and with nothing else |
| Scheduler.PrioritiseSorts | src/dfsha/control_node/domain/rereplication.py:78-91 | the queue is the same gaps, fewest copies first, block id as tie-break |
| Scheduler.ChoiceIsBest | src/dfsha/control_node/domain/rereplication.py:164-195 | a target is chosen if and only if some candidate is admissible, and it is the best: uncovered domain first, then least busy, then least id |
| Scheduler.AssignTargets | src/dfsha/control_node/domain/rereplication.py:94-161 | the loops compute Pass of the prioritised queue |
| Scheduler.EveryAssignmentIsBest | src/dfsha/control_node/domain/rereplication.py:134-159 | every assignment goes from a holder to the best target of its moment, never a holder and never twice the same |
| Scheduler.TargetsAreSpread | src/dfsha/control_node/domain/rereplication.py:134-159 | every target could take the copy, is in a domain without one if any other node that could is, and is then the least busy of those, the lowest id among equals |
| Scheduler.CapsHold | src/dfsha/control_node/domain/rereplication.py:174-178 | no target exceeds its cap, copies already in flight included |
| Scheduler.PassRespectsTotal | src/dfsha/control_node/domain/rereplication.py:135-136 | the cap of a pass is exceeded by less than one block's worth of copies, by none with one copy per block |
| Scheduler.FewestCopiesFirst | src/dfsha/control_node/domain/rereplication.py:134 | assignments follow the priority |
| Scheduler.NoBlockTwice | src/dfsha/control_node/domain/rereplication.py:107-119 | with one copy per block no block is assigned twice |
| Scheduler.WorkConserving | src/dfsha/control_node/domain/rereplication.py:128-159 | unless the pass is full, a gap not served in full has no copy to read or no admissible target even at the end |
| Scheduler.OrderDoesNotMatter | src/dfsha/control_node/domain/rereplication.py:81-87 | the result is the same for any order of gaps and candidates |
| RecoveryCommands.RecoveryDb.Enqueue | src/dfsha/control_node/repositories/sql.py:1106-1128 | queues a copy unless the block has a live task |
| RecoveryCommands.RecoveryDb.ScanAndEnqueue | src/dfsha/control_node/commands/rereplication.py:164-209 | the scanning loop does what Scan says, and a stale leader changes nothing |
| RecoveryCommands.RecoveryDb.ExpireStale | src/dfsha/control_node/repositories/sql.py:1222-1264 | returns or fails exactly the expired tasks and lists exactly their abandoned targets |
| RecoveryCommands.RecoveryDb.DropPlanned | src/dfsha/control_node/repositories/sql.py:508-521 | drops the abandoned rows that are still planned, and no stored one |
| RecoveryCommands.RecoveryDb.Triage | src/dfsha/control_node/commands/rereplication.py:262-276 | closes the tasks whose gap is gone and keeps the rest as gaps with their task |
| RecoveryCommands.RecoveryDb.DispatchCopies | src/dfsha/control_node/commands/rereplication.py:215-324 | the whole dispatch does what Dispatch says, and a stale leader changes nothing |
| RecoveryCommands.RecoveryDb.MarkBlockStored | src/dfsha/control_node/commands/internal.py:24-52 | does what MarkStored says, or nothing; what that records is RecoveryExact.ConfirmationIsExact and ConfirmationClosesExactly |
| RecoveryCommands.RecoveryDb.ConfirmGc | src/dfsha/control_node/commands/internal.py:56-78 | removes the blocks with their copies and tasks and nothing else (RecoveryExact.CollectionIsExact), which keeps the queue in order |
| RecoveryRuns.ExpireKeepsTask | src/dfsha/control_node/commands/rereplication.py:233-238 | expiring tasks drops no row that a task still under way relies on |
| RecoveryExact.ExpiryIsExact | src/dfsha/control_node/repositories/sql.py:1222-1261 | exactly the overdue tasks return to wait, or fail after their last attempt, and exactly the planned rows they were to fill are dropped |
| RecoveryRuns.LaunchKeepsCaps | src/dfsha/control_node/commands/rereplication.py:285-311 | the cap per node holds across passes |
| RecoveryRuns.DispatchKeepsInv | src/dfsha/control_node/commands/rereplication.py:215-324 | dispatch keeps one live task per block, the caps, the rows behind every copy and the attempt bound |
| RecoveryRuns.QueueInEveryRun | src/dfsha/control_node/commands/rereplication.py:164-349 | so does every execution of scans, dispatches, confirmations, deletions and collections |
| RecoveryRuns.ConfirmationCloses | src/dfsha/control_node/commands/internal.py:24-52 | the confirmation of a copy under way is accepted, recorded, and closes that task only |
| RecoveryExact.ConfirmationIsExact | src/dfsha/control_node/repositories/sql.py:569-591 | a confirmation is accepted if and only if node, block and that row exist; the nodes storing the block become the old ones and that one, and no other row nor the age of that one changes |
| RecoveryExact.ConfirmationClosesExactly | src/dfsha/control_node/commands/internal.py:40-52 | it closes the tasks of that block in flight to that node and no other |
| RecoveryExact.StoredInRunsByConfirmation | src/dfsha/control_node/commands/internal.py:24-52 | in every execution of the queue a copy becomes stored by the confirmation of that very copy, node reports apart |
| RecoveryRuns.StoredCopiesStay | src/dfsha/control_node/repositories/sql.py:508-521 | no step of the queue unrecords a stored copy |
| RecoveryRuns.StepAdvances | src/dfsha/control_node/repositories/sql.py:1222-1261 | every step leaves a copy task alone, removes it with its block, or lowers its measure |
| RecoveryRuns.CopyTasksEnd | src/dfsha/control_node/repositories/sql.py:1156-1175 | a copy task changes boundedly often in any execution |
| RecoveryRuns.ScanMissesNothing | src/dfsha/control_node/commands/rereplication.py:180-192 | after a scan every settled gap has a live task |
| RecoveryRuns.ScanInventsNothing | src/dfsha/control_node/commands/rereplication.py:180-192 | a scan creates tasks only for settled gaps that had none, as waiting copies with no attempt made |
| RecoveryExact.ScanQueuesExactly | src/dfsha/control_node/commands/rereplication.py:108-192 | after a scan a block has a live task if and only if it had one, or its file is visible, fewer copies than the factor are recorded and fewer can be read, and everything absent has been so for the grace period |
| RecoveryRuns.DispatchedCopies | src/dfsha/control_node/commands/rereplication.py:278-311 | an ordered copy is needed, comes from a usable copy, goes to a live node without one, and its task and row exist |
| RecoveryExact.DispatchSettlesEveryTask | src/dfsha/control_node/commands/rereplication.py:215-324 | a dispatch closes the waiting copies no longer needed and sends each of the others under its deadline and next attempt, unless the pass is full, nobody has the block, or every live node has it or is at its cap |
| RecoveryExact.GraceHoldsBack | src/dfsha/control_node/commands/rereplication.py:120-161 | a young planned copy, or a lost copy whose node has not been silent for the grace period beyond its death, keeps its block out of the queue |
| RecoveryExact.GuardedExactly | src/dfsha/control_node/commands/rereplication.py:177-216 | scans and dispatches go through if and only if they come from the leader |
| RecoveryRuns.OneDeleteOrderPerBlock | src/dfsha/control_node/repositories/sql.py:1078-1104 | of the copies of one orphan only the first gets a delete order |
| RecoveryExact.DeleteOrderIsExact | src/dfsha/control_node/repositories/sql.py:1078-1104 | a copy gets a delete order, in flight at once, if and only if its block has no live task |
| RecoverySetting.MembershipLeavesQueue | src/dfsha/control_node/commands/control_plane.py:67-354 | registrations, heartbeats, reports and evaluations keep the invariant of the queue |
| Paths.ParsePath | src/dfsha/control_node/domain/path.py:62-92 | the parsing loop computes Parse |
| Paths.ParseAcceptsExactly | src/dfsha/control_node/domain/path.py:62-92 | a text is accepted if and only if it is not empty, has a place to start from and holds only names, dots and separators; the result is the start followed by the names |
| Paths.NameAcceptedExactly | src/dfsha/control_node/domain/path.py:62-92 | a single name is accepted if and only if it is not the parent reference, has at most 255 characters and no control character |
| Paths.ParseUndoesPrint | src/dfsha/control_node/domain/path.py:133-134 | a path is read back from its printed form if and only if all its names are clean |
| Paths.ParsedIsClean | src/dfsha/control_node/domain/path.py:62-92 | whatever parse accepts has only clean names |
| Paths.ParseIsIdempotent | src/dfsha/control_node/domain/path.py:62-134 | parse is idempotent through printing, with repeated separators, dots and relative paths |
| Paths.ChildSurvivesExactlyWhenClean | src/dfsha/control_node/domain/path.py:118-119 | a child survives printing and parsing if and only if its name is not a dot and has no separator |
| Paths.RelativeIsJoined | src/dfsha/control_node/domain/path.py:73-92 | resolving a relative path is parsing it behind its directory |
| Paths.AncestorIsStrictPrefix | src/dfsha/control_node/domain/path.py:121-129 | ancestry is exactly the strict prefix relation |
| Paths.AncestryIsAnOrder | src/dfsha/control_node/domain/path.py:107-129 | ancestry is a strict order whose ancestors form a chain through the parent |
| Tree.FindDirectory | src/dfsha/control_node/services/resolver.py:36-46 | the loop computes Find |
| Tree.FindIsInverse | src/dfsha/control_node/services/resolver.py:36-46 | resolution finds exactly the live directory whose parent links spell the path |
| Tree.AbsolutePath | src/dfsha/control_node/services/resolver.py:105-117 | the climb ends, with the one path of the directory, and resolution of it returns the directory |
| Tree.MoveSubstitutesPaths | src/dfsha/control_node/repositories/sql.py:258-263 | moving a directory replaces the prefix of the paths of its subtree and no other path |
| Tree.MoveKeepsForest | src/dfsha/control_node/domain/rules.py:188-200 | the prefix test alone keeps the live directories a forest |
| Tree.MoveBelowItselfLosesTheSubtree | src/dfsha/control_node/domain/rules.py:195-200 | without the test a directory moved below itself has no path to a root |
| Tree.ListDescendants | src/dfsha/control_node/repositories/sql.py:281-301 | the walk by levels ends with exactly the live proper descendants |
| Tree.RemoveKeepsForest | src/dfsha/control_node/commands/namespace.py:106-112 | removing a subtree leaves a forest in which everything else keeps its path |
| FileNames.ShownFile | src/dfsha/control_node/repositories/sql.py:332-356 | a name shows its committed file, else a newest reservation, else nothing |
| FileNames.ShownSpeaksForAll | src/dfsha/control_node/repositories/sql.py:332-356 | with reservations of equal length the shown file holds the name if and only if some file does |
| FileNames.ShownSpeaksExactly | src/dfsha/control_node/repositories/sql.py:332-356 | for any rows: the shown file decides at every instant whether the name is held if and only if there is a committed file or no reservation outlasts the shown one |
| UnequalReservations.UnequalReservationsHide | src/dfsha/control_node/commands/files.py:108-140 | after an upload, two overwrites begun with lengths of their own and a removal, the name speaks for its files if and only if the older overwrite does not outlive the newer; else it is hidden exactly from the end of the newer to its own |
| UnequalReservations.HiddenReservationCollides | src/dfsha/control_node/commands/namespace.py:69-74 | while a reservation is hidden, a directory can take its name and the reservation can still be committed: the names of directories and files are no longer apart |
| NamespaceCommands.MakeDirectories | src/dfsha/control_node/commands/namespace.py:36-86 | mkdir does what Mkdir says, or nothing |
| NamespaceCommands.RemoveDirectory | src/dfsha/control_node/commands/namespace.py:90-114 | rmdir does what Rmdir says, or nothing |
| NamespaceCommands.RemoveFile | src/dfsha/control_node/commands/namespace.py:118-128 | rm is Rm, or nothing; what Rm does is NamespaceRuns.RmExactlyWhenVisible |
| NamespaceCommands.MoveEntry | src/dfsha/control_node/commands/namespace.py:132-178 | mv is Mv, or nothing; when Mv goes through and what it does is NamespaceExact.MvGoesThroughExactly, MovedFileArrives and MovedDirectoryRows |
| NamespaceCommands.CreateReservation | src/dfsha/control_node/commands/files.py:83-185 | create is CreateFile with the default for a missing or zero block size, or nothing; when that goes through and what it lays out is LifecycleExact |
| NamespaceCommands.CommitReservation | src/dfsha/control_node/commands/files.py:189-252 | commit is CommitFile, or nothing; when that goes through and what it shows is LifecycleExact |
| NamespaceCommands.AbortReservation | src/dfsha/control_node/commands/files.py:276-290 | abort is AbortFile, or nothing; what that does is LifecycleExact.AbortIsExact |
| NamespaceRuns.MkdirIsExact | src/dfsha/control_node/commands/namespace.py:51-86 | afterwards the path exists, old directories are as they were, and new ones lie on the path |
| NamespaceExact.MkdirGoesThroughExactly | src/dfsha/control_node/commands/namespace.py:51-86 | without parents: if and only if the parent exists and nothing holds the name; with parents: if and only if no file holds the first name on the way that is not a directory |
| NamespaceRuns.MkdirTwice | src/dfsha/control_node/commands/namespace.py:55-61 | creating a path with its parents is idempotent |
| NamespaceRuns.RmdirIsExact | src/dfsha/control_node/commands/namespace.py:90-114 | exactly the directory and its descendants go, exactly their files are deleted, everything else keeps its path |
| NamespaceExact.RmdirGoesThroughExactly | src/dfsha/control_node/commands/namespace.py:90-104 | rmdir goes through if and only if the directory exists, is no root and, without recursion, has no live subdirectory and no visible file |
| NamespaceRuns.RmExactlyWhenVisible | src/dfsha/control_node/commands/namespace.py:118-128 | rm goes through if and only if the path names a visible file, and deletes that one file |
| NamespaceRuns.MvKeepsInv | src/dfsha/control_node/commands/namespace.py:132-178 | mv keeps the forest, the unique names and the separation of files and directories |
| NamespaceRuns.MvSubstitutesPaths | src/dfsha/control_node/domain/rules.py:166-185 | a directory moves inside an existing destination under its own name, else to the given path; its subtree follows by prefix, all else stays, and resolution agrees |
| NamespaceExact.MvGoesThroughExactly | src/dfsha/control_node/commands/namespace.py:132-178 | mv goes through if and only if the source is a directory or a visible file, the directory of the target exists, the name there is free, and no directory goes below itself |
| NamespaceExact.MovedFileArrives | src/dfsha/control_node/repositories/sql.py:425-430 | the new path resolves to the same file, visible, with only its place changed; the old name shows no visible file; every other file, every directory and all blocks stay |
| NamespaceExact.MovedDirectoryRows | src/dfsha/control_node/repositories/sql.py:258-263 | a moved directory changes its parent and name, and no other row changes |
| LifecycleRuns.RefusedExactlyWhenReserved | src/dfsha/control_node/domain/rules.py:61-82 | a reservation is refused as taken if and only if the name has no committed file and a live reservation |
| LifecycleExact.CreateGoesThroughExactly | src/dfsha/control_node/commands/files.py:83-185 | a reservation is granted if and only if the directory exists, no directory has the name, it has a visible file or no live reservation, the sizes make sense and there are slots for every block |
| LifecycleExact.CreatedBlocks | src/dfsha/control_node/commands/files.py:138-178 | the new file is listed as exactly its slots in order, sized as the only partition of its size, planned on their nodes and stored nowhere; all other blocks and copies stay |
| LifecycleExact.CreatedRow | src/dfsha/control_node/commands/files.py:108-137 | the row of the new file; of the others at most an expired reservation under its name is closed |
| LifecycleExact.NewFileNeedsItsBlocks | src/dfsha/control_node/domain/rules.py:93-125 | right after its creation a file can be committed if and only if it is empty or no copy is asked for |
| LifecycleRuns.CommitFileEffect | src/dfsha/control_node/commands/files.py:215-252 | a commit that goes through had every block at quorum on distinct nodes, and retires exactly the committed file of its name |
| LifecycleExact.CommitGoesThroughExactly | src/dfsha/control_node/commands/files.py:215-236 | a commit goes through if and only if it comes from the owner, in time, with every block at its quorum, whatever else is visible under the name |
| LifecycleExact.CommittedIsShown | src/dfsha/control_node/commands/files.py:237-251 | afterwards the name shows this file and no other is visible under it |
| LifecycleExact.AbortIsExact | src/dfsha/control_node/commands/files.py:276-290 | an abort goes through if and only if it comes from the owner of an uncommitted file; it closes that reservation only and is idempotent |
| LifecycleRuns.StepKeepsInv | src/dfsha/control_node/commands/namespace.py:36-178 | every command keeps the invariant on tree and names |
| LifecycleRuns.NamesInEveryRun | src/dfsha/control_node/commands/files.py:108-116 | in every execution: a forest, one committed file per name, committed files under live directories, no directory sharing a name with a file that is or can become visible |
| LifecycleRuns.VisibleUntilRemoved | src/dfsha/control_node/commands/files.py:237-251 | in every execution a visible name is visible at every moment if and only if no event removes that name, removes a directory above it or moves that file |
| LifecycleRuns.StepHidesExactly | src/dfsha/control_node/commands/namespace.py:90-178 | a command hides a visible name if and only if it is a removal of that name, a recursive removal above it that goes through or a move of that file that goes through |
| LifecycleRuns.DeadStaysDead | src/dfsha/control_node/domain/rules.py:114-123 | deleted is absorbing, and an expired reservation is never committed |
| Collector.OrphanedExactlyWhenExpired | src/dfsha/control_node/repositories/sql.py:711-736 | a reservation's blocks are orphans if and only if its commit would be refused as expired |
| Collector.ListedExactlyWhenLost | src/dfsha/control_node/repositories/sql.py:711-736 | a block is listed if and only if it is in no file, or in one that is neither visible nor could be committed now |
| Collector.CollectedExactly | src/dfsha/control_node/repositories/sql.py:738-748 | a collection takes the named blocks with all their copies and nothing else |
| Collector.DoomedForEver | src/dfsha/control_node/repositories/sql.py:719-725 | a block listed for its deleted or expired file never belongs to a committed file later |
| Collector.CollectorIsSafe | scripts/gc.py:113-174 | confirming a stale list after any commands, other collections included, takes no block and no copy from a committed file; of the loose blocks on it, no later commit may name them |
| Collector.LooseForEver | src/dfsha/control_node/repositories/sql.py:711-736 | a loose block stays loose in every execution in which no commit of an append names it |
| AppendSafety.DetachedForEver | src/dfsha/control_node/commands/files.py:532-535 | in every execution of appends, a block that was in a file and is loose is never attached again |
| AppendSetting.ReplacedTailsMayBeCollected | src/dfsha/control_node/repositories/sql.py:719-748 | tails that appends have replaced may be collected from a list of any age: no file and no plan still to be committed uses them |
| Collector.Collect | scripts/gc.py:121-172 | confirms exactly the orphans gone from every listed replica, and nothing in a dry run |
| Membership.ControlPlane.RegisterNode | src/dfsha/control_node/commands/control_plane.py:67-132 | registration is Register; what that does is Membership.RegistrationKeepsIdentity and WipedDiskLosesAll |
| Membership.ControlPlane.RecordHeartbeat | src/dfsha/control_node/commands/control_plane.py:136-239 | a heartbeat is Heartbeat; what that does is Membership.HeartbeatIsExact and HeartbeatIsAnswered |
| Membership.ControlPlane.ApplyBlockReport | src/dfsha/control_node/commands/control_plane.py:243-302 | a report is Report; what that does is Membership.FullReportIsExact, IncrementalReportIsMild and ReportIsAnswered |
| Membership.ControlPlane.EvaluateMembership | src/dfsha/control_node/commands/control_plane.py:306-354 | the evaluating loop does what Evaluate says, and a stale leader changes nothing |
| Membership.SilenceDecides | src/dfsha/control_node/domain/membership.py:55-75 | a node is alive, suspect or dead by the length of its silence, counted from its registration if it never spoke |
| Membership.EvaluationIsExact | src/dfsha/control_node/domain/membership.py:101-118 | an evaluation goes through without a pair or for the leader; every node gets the state its silence deserves, and exactly the stored copies of newly dead nodes become missing |
| Membership.FullReportIsExact | src/dfsha/control_node/domain/divergence.py:40-61 | after a full report the stored copies are the reported ones among the expected, the missing ones the rest of the expected |
| Membership.IncrementalReportIsMild | src/dfsha/control_node/domain/divergence.py:43-55 | an incremental report marks nothing missing and touches only what it mentions |
| Membership.HeartbeatTouchesOnlyMentioned | src/dfsha/control_node/commands/control_plane.py:181-197 | a heartbeat touches only the blocks it mentions |
| Membership.HeartbeatIsExact | src/dfsha/control_node/commands/control_plane.py:150-197 | a heartbeat of the known boot makes the node alive as of now, stores the added copies the metadata expects and misses the removed ones; any other changes nothing; no other node or copy changes |
| Membership.HeartbeatIsAnswered | src/dfsha/control_node/commands/control_plane.py:150-239 | it is answered with the unexpected blocks, and asks for a full report if and only if there are any, a heartbeat was lost or the boot is unknown |
| Membership.ReportIsAnswered | src/dfsha/control_node/domain/divergence.py:40-61 | a report is answered with exactly the unexpected, the confirmed and, if full, the missing blocks |
| Membership.RegistrationKeepsIdentity | src/dfsha/control_node/repositories/sql.py:826-882 | a known id wins over a known address, only a node unknown by both is new and starts unheard, and no other node changes |
| Membership.WipedDiskLosesAll | src/dfsha/control_node/domain/membership.py:130-145 | exactly the stored copies of a known node with another boot id become missing |
| Membership.StepKeepsExpected | src/dfsha/control_node/repositories/sql.py:781-792 | no step forgets a copy that was stored or missing |
| Membership.OutagesAreLossless | src/dfsha/control_node/commands/control_plane.py:67-354 | after any outage with the disk intact one full report restores every copy, and the stored ones are exactly the expected on disk |
| Transfer.WriteSlots | src/dfsha/client/transfer.py:70-109 | the blocks in order of index whatever the order of the plan, offsets accumulating clear sizes, the first replica gets the bytes, the forwarding chain is the plan's own, a block without replicas is refused |
| Transfer.SlotsFollowThePartition | src/dfsha/client/transfer.py:70-109 | for a plan with one block per position, in any order, slot k is block k at the offset and with the size the partition gives it |
| Transfer.UploadCutsTheFile | src/dfsha/client/transfer.py:138-219 | in whatever order uploads finish, block k holds the k-th slice |
| Transfer.RunKeepsInv | src/dfsha/client/transfer.py:281-335 | every piece, verification and failed attempt keeps finished regions right and the rest within their own |
| Transfer.DownloadReturnsTheContent | src/dfsha/client/transfer.py:238-337 | whenever the download returns, the file is the content, followed by zeros exactly if more was reserved |
| Transfer.GoodReplicasReturn | src/dfsha/client/transfer.py:281-335 | if every block has a good replica, however many before it fail, the download can return, with the content |
| Transfer.RoundTrip | src/dfsha/client/transfer.py:112-337 | an uploaded file comes back as it was |
| Transfer.OverlongReplySpills | src/dfsha/client/transfer.py:379-384 | for any plan whose blocks all have replicas and one has a second: a run that returns with every byte behind that block wrong and the file too long |
| Transfer.RightWhateverArrivesExactly | src/dfsha/client/transfer.py:281-384 | with no assumption on replies, every download that returns yields the content and the reserved zeros if and only if some block has no replica or none has a second one |
| Transfer.ReturnedMeansAllFit | src/dfsha/client/transfer.py:301-335 | without second replicas, a download that returns got no reply longer than its block |
| Storage.BlockStorage.Write | src/dfsha/data_node/storage.py:81-147 | an existing block is untouched, a wrong checksum leaves no block, otherwise block and metadata appear |
| Storage.BlockStorage.Delete | src/dfsha/data_node/storage.py:176-187 | removes block and metadata, and says whether there were any |
| Storage.Stats | src/dfsha/data_node/storage.py:209-235 | counts exactly the visible blocks and their bytes |
| Storage.ListBlockIds | src/dfsha/data_node/storage.py:191-207 | lists exactly the visible blocks, in order |
| Storage.SoundAtEveryCrashPoint | src/dfsha/data_node/storage.py:81-147 | at every point, crashes included, a visible block has metadata with its exact size and checksum |
| Storage.VisibleBytesStay | src/dfsha/data_node/storage.py:86-97 | the bytes of a visible block do not change until it is deleted |
| Storage.AppearsOnlyVerified | src/dfsha/data_node/storage.py:112-128 | a block only appears by the last rename of a verified write, with its bytes |
| Storage.VerifiedWriteAppears | src/dfsha/data_node/storage.py:112-128 | a write with the announced checksum ends with the block visible, whole and described |
| Storage.RejectedLeavesNothing | src/dfsha/data_node/storage.py:112-132 | bytes with the wrong checksum are dropped and no block appears |
| Storage.LastRenameIsSoundExactly | src/dfsha/data_node/storage.py:125-187 | whatever happens to other blocks between the two renames of a write, the block it leaves is sound if and only if nobody deleted that id in between |

## Left out

- Paths below the virtual directory of shared entries, access control lists, groups: every path is in the caller's own tree.
- `mv` out of or into a shared tree: its target parent is resolved in the caller's tree.
- Delivery of queued orders to nodes and its resend timer (`pending_orders`, `orders_for`): it changes only a send time.
- Termination of delete tasks: an expired delete task goes back to waiting, where nothing dispatches it.
- Repair of a copy that is missing on a live node: such a gap never settles, so no eventual repair is stated.
- Counters of used bytes and node statistics, load reported by nodes, log sequence numbers, log messages.
- Names of lock holders and the instants locks were taken, file timestamps other than creation and expiry.
- Wrapped keys and the algorithms behind them; a decryption failure aborts a download instead of trying another replica.
- Transfer.UploadCutsTheFile: does not model what nodes do with the forwarding chain nor the count of acknowledged copies.
- Transfer.DownloadReturnsTheContent: does not say that a download returns; `Transfer.GoodReplicasReturn` says when it can. When it
  needs its assumption on the length of replies is `Transfer.RightWhateverArrivesExactly`.
- Storage.SoundAtEveryCrashPoint: does not cover a loss of power, because the original syncs the bytes of a block but neither its metadata nor the directory.
- Sorting of the blocks of a download plan by index: that plan is given in order (an upload plan is sorted).
- Validation of block ids as path components, sharding of the block directory, free disk space.
- Recovery of temporary files left by a crash: they are never visible and a later write replaces them.
- HTTP, gRPC, TLS, tokens, sessions, migrations, configuration and the demonstration scripts.
- Concurrency inside the database: each unit of work is one step.
