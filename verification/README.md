# A verified model of the HyperTide version server

HyperTide is a version-control server for large binary assets, with a command-line client. This project
models its stateful core in Dafny and proves what the code relies on but never checks:

- the **version store** (`VersionManager`): branches, changesets linked by parent, one snapshot per changeset, a
  Draft, Approved, Visible workflow, optimistic concurrency on the branch head, and the redundant views that
  must agree over every run;
- its **persistence** as relational rows, from which the histories are rebuilt, with saves landing late and out
  of order;
- the **event replay**, a second copy of the state that should refine the first;
- the **content-addressed store**, with concurrent `store` calls that share one temp file, the chunked upload,
  the manifest and its Merkle root;
- three run-level protocols: the **audit hash chain**, **refresh-token rotation** and the **rate limiter**.

Objects that the code updates in place are classes whose methods are proved against specification functions;
runs are sequences of those functions' steps, and the main results are lemmas about every run. Concurrency is
modelled where the code has it: `store` calls interleave step by step, saves land in any order, and any
operations may come between planning a rollback and submitting it.

The hash is any function that yields 64 lower-case hex digits. No theorem assumes it injective, which no such
function is: each names the finite set of inputs really hashed and asks that no two of those collide.

## Modules

| files | subject |
|---|---|
| `Prelude`, `Sorting`, `Decimals`, `Hashing` | shared notions |
| `Deltas`, `Lineage`, `Versioning` | deltas and snapshots, parent walks, the step of the store as a function |
| `VersionInvariant`, `VersionRuns`, `Observers` | what every step keeps, what every run keeps, what the answers mean |
| `Operations` | each operation's answer and effect, said of its inputs and the two states alone |
| `VersionManager` | the manager as a class, proved against `Versioning`, `Observers` and `Operations` |
| `RepoRows`, `RepoTables`, `StoredStates`, `StoredGrowth` | saving to rows, loading, saves landing in any order, what a new manager forgets |
| `Locks`, `Replay`, `ReplayOrder` | lock table, replay accumulator, replays of reordered and incomplete logs |
| `EventRefinement`, `ConsistencyCheck` | the refinement between log and state, what the full and the incremental check report |
| `StoreProtocol`, `StoreQuiescence`, `StoreCompleteness`, `Storage` | interleaved `store` calls, what they end in, when an object is complete before that, and the store as one caller sees it |
| `Chunking`, `BlobApi`, `ChunkUpload` | cutting and composing a file, the server's handlers, the client's upload |
| `Merkle`, `MerkleExactness` | the Merkle root and what it determines |
| `AuditChain`, `RefreshTokens`, `RateLimiter` | the three protocols |

## What the code does where a simpler claim fails

For each, the table below has the exact condition and, except where the condition says it all, a concrete run.

- A branch may start from a draft, so a history may hold one. A changeset is visible exactly when its *home*
  branch's history holds it.
- Promotion compares the head with the recorded base, and a first commit's base is the word `ROOT`. A hidden
  changeset can still become visible exactly when its base is the branch head right now, so a draft of a first
  commit never can.
- A rollback plan compares hashes only: an asset that merely moved keeps its present path. The whole target
  snapshot comes back exactly when no asset with unchanged content has another path.
- An empty snapshot has no rows. After a restart a rollback is refused anew exactly if its target is empty.
- A save that lands late may overwrite a newer one. A repository is stored as it is now exactly when its newest
  save is the one that landed last. A new manager started from the tables forgets nothing exactly when that is so
  of every repository; otherwise a head may move back to a changeset it had left.
- Following `next_cursor` delivers each entry once exactly when no commit lands before the last fetch.
- Creating a branch records no event, and renewing an expired lock drops it without one; branch keys join repository
  id and branch with `::`, and two repositories' keys can clash exactly when one id with the separator is a prefix of
  the other with it. The consistency check passes, in whatever order the rows are read, exactly when every branch
  with a head had a visible commit of its own, these branches have different keys, and no expired lock was dropped.
- A replay from a checkpoint starts from nothing. It agrees on a head exactly when that head moved after the
  checkpoint, or never. The check from a checkpoint compares it with the whole state, so it can only pass if nothing
  at all was visible at the checkpoint.
- One `store` call may return while the object is still empty. The object is complete exactly when every
  non-zero byte, and the last, was written since its file was last truncated.
- A Merkle root determines a list among all lists with distinct indices; among all lists, exactly when the
  length is zero or a power of two.
- The audit append asks for exactly one newest row, so on an empty table it fails before its `GENESIS`
  fallback; `Append` takes the intended fallback as a flag and says exactly when it fails.
- Audit fields are joined with `|` without escaping. A record's text determines its fields exactly when none of
  its free fields holds a bar.
- Replay of a refresh token retires the family exactly when the token is not itself revoked, or the family was
  retired before.
- Twice the rate limit can be admitted within one minute, for every limit, and never more.

## Model

| member | source | states |
|---|---|---|
| `VersionManagers.VersionManager.constructor` | crates/server/src/core/versioning.rs:263-269 | a new manager has no repositories, and its views agree |
| `VersionManagers.VersionManager.WithPg` | crates/server/src/core/versioning.rs:292-302 | a manager over loaded repositories whose views agree starts with agreeing views |
| `VersionManagers.VersionManager.CreateRepo` | crates/server/src/core/versioning.rs:304-330 | the new state is the `CreateRepo` step and the views still agree; a taken id is refused |
| `VersionManagers.VersionManager.CreateBranch` | crates/server/src/core/versioning.rs:352-418 | the new state is the `CreateBranch` step; the history stored for the branch is the lineage of its head; each error as reported; views still agree |
| `VersionManagers.AddBranch` | crates/server/src/core/versioning.rs:363-407 | inside one repository: the branch starts at the named changeset or the default head, with that head's lineage as its history, or the exact error |
| `VersionManagers.VersionManager.Submit` | crates/server/src/core/versioning.rs:456-488 | the new state is the `Submit` step on the repository, which is created on first use; views still agree for any fresh id |
| `VersionManagers.SubmitInternal` | crates/server/src/core/versioning.rs:869-1003 | base check, delta loop, record and head move together equal the specified effect and answer |
| `VersionManagers.VersionManager.Approve` | crates/server/src/core/versioning.rs:490-533 | only a draft is approved, nothing else changes, and every error is the specified one |
| `VersionManagers.VersionManager.Promote` | crates/server/src/core/versioning.rs:535-609 | the new state is the `Promote` step, with each error in the code's order; views still agree |
| `VersionManagers.VersionManager.ChangesetGate` | crates/server/src/core/versioning.rs:611-670 | the gate's answer with the reason that blocks promotion, or the error, changing nothing |
| `VersionManagers.VersionManager.History` | crates/server/src/core/versioning.rs:672-711 | one page: the records of the newest-first slice, none missing, and the next cursor |
| `VersionManagers.VersionManager.BuildRollbackPlan` | crates/server/src/core/versioning.rs:713-808 | the errors in order; otherwise a list that names each asset whose hash differs once, in order, with the delta towards the target, and nothing else |
| `VersionManagers.PlanBetween` | crates/server/src/core/versioning.rs:775-799 | the plan loop yields exactly the differing ids, ascending, each once |
| `VersionManagers.VersionManager.SyncSnapshot` | crates/server/src/core/versioning.rs:810-867 | each error; otherwise the named changeset, or without one the head, and a listing of the replay of all deltas of the branch history up to it |
| `VersionManagers.HistoryTo` | crates/server/src/core/versioning.rs:385-393 | for a repository whose views agree, the lineage of the head is found: the walk ends and is not None |
| `Operations.SubmitSucceedsIff` | crates/server/src/core/versioning.rs:887-921 | a submit, draft or not, succeeds exactly when the branch is there and the base is its head, or the word ROOT where there is no head; otherwise which error |
| `Operations.SubmitAddsTheChangeset` | crates/server/src/core/versioning.rs:923-1003 | a successful submit of either visibility adds one changeset, whose record, references and recorded deltas are those of the input on the head, whose snapshot is the head's with the deltas applied, and which is the answer; head and history move exactly if it is visible; nothing else changes |
| `Operations.RollbackIsRecorded` | crates/server/src/api/versioning.rs:643-664 | an accepted rollback is recorded as visible, of kind rollback, naming its target, on the planned head |
| `Operations.CreateBranchSucceedsIff` | crates/server/src/core/versioning.rs:366-380 | a branch is created exactly when its name is free and the changeset it is to start from, if named, is known; otherwise which error |
| `Operations.CreateBranchStartsThere` | crates/server/src/core/versioning.rs:373-409 | the new branch has the named changeset as head, or else the head of the default branch; its history ends there and follows parents from a parentless changeset; no other branch and no changeset changes |
| `Operations.CreateRepoStartsEmpty` | crates/server/src/core/versioning.rs:304-330 | a repository is created exactly when its id is free, with its default branch, empty, as its only one |
| `Operations.ApproveMarksTheDraft` | crates/server/src/core/versioning.rs:490-533 | exactly a draft is approved, in the approver's name, and nothing else changes; otherwise which error |
| `Operations.PromoteMovesTheHead` | crates/server/src/core/versioning.rs:535-609 | exactly an approved changeset on the head is promoted: head and history move to it, it becomes visible and keeps its approver, nothing else changes; otherwise which error |
| `Operations.GateShows` | crates/server/src/core/versioning.rs:611-670 | the gate shows base, references, status and the present head of the branch, and blocks exactly for status or head |
| `Operations.PageShows` | crates/server/src/core/versioning.rs:693-710 | a page has as many entries as asked for, between one and 200, as long as there are any, newest first after those skipped; the next cursor counts the entries passed, and is there exactly if any are left |
| `Operations.PlanIsRefusedFor` | crates/server/src/core/versioning.rs:713-772 | a plan is refused for an unknown branch, a target that is the head or not in the history, and a target without a snapshot |
| `Operations.PlanEntryShows` | crates/server/src/core/versioning.rs:785-799 | each entry of a plan goes from the present hash to the target's, under the target's path or, for an asset that disappears, the present one |
| `Operations.HistoryContents` | crates/server/src/core/versioning.rs:842-847 | the content at every point of a branch history is the replay of the deltas up to there |
| `Operations.ListingShows` | crates/server/src/core/versioning.rs:848-859 | a listing has every entry of the snapshot once, by path and then by asset id |
| `Deltas.ApplyAssets` | crates/server/src/core/versioning.rs:930-951 | the submit loop computes the snapshot the deltas lead to and records each delta with its key and the hash just before it |
| `Deltas.RecordedDelta` | crates/server/src/core/versioning.rs:930-935 | each delta is recorded under its asset id, or else its path, with the hash that asset had after the deltas before it |
| `Deltas.LastDeltaDecides` | crates/server/src/core/versioning.rs:937-948 | the last delta that names an asset decides it: gone without a hash, else with that hash and path |
| `Deltas.UnnamedStays` | crates/server/src/core/versioning.rs:930-951 | an asset that no delta names stays as it was |
| `Deltas.NormalisedAppliesAlike` | crates/server/src/core/versioning.rs:930-951 | the recorded deltas lead to the same snapshot as the submitted ones |
| `Deltas.NormaliseIsIdempotent` | crates/server/src/core/versioning.rs:930-951 | recording recorded deltas again changes nothing |
| `Deltas.DeltasAreInvertible` | crates/server/src/core/versioning.rs:930-951 | undoing recorded deltas last to first gives back the parent's id-to-hash map, even if one asset is touched several times |
| `Lineage.LineageTo` | crates/server/src/core/versioning.rs:1142-1152 | the walk that pushes ids and reverses them returns the unique chain from a parentless changeset, or None exactly when there is none |
| `Lineage.WalkIsUnique` | crates/server/src/core/versioning.rs:1142-1152 | from one changeset there is only one parent walk |
| `Lineage.WalkHasNoDuplicates` | crates/server/src/core/versioning.rs:1142-1152 | no changeset occurs twice on a walk that ends |
| `VersionInvariant.StepKeepsOk` | crates/server/src/core/versioning.rs:304-609 | every operation, successful or not, keeps all redundant views in agreement: histories, parent links, bases, snapshots, statuses, keys, default branch |
| `VersionInvariant.ReachableIsOk` | crates/server/src/core/versioning.rs:304-609 | hence they agree in every reachable state |
| `VersionInvariant.PromotedIsNotInHistory` | crates/server/src/core/versioning.rs:583-586 | the already-in-history guard of promotion never fires |
| `VersionInvariant.PromotedHasParent` | crates/server/src/core/versioning.rs:573-581 | a changeset that passes promotion's head check is based on its parent, never on ROOT |
| `VersionRuns.RunsOnlyGrow` | crates/server/src/core/versioning.rs:304-609 | over any run histories only extend as prefixes, deltas, links and snapshots never change, and a status only moves forward |
| `VersionRuns.HistoryIsLineage` | crates/server/src/core/versioning.rs:385-409 | in every state whose views agree, hence in every one that runs, restarts and late saves lead to, a cached history starts at a parentless changeset, follows parent links, repeats nothing, ends at the head, and is what the walk from the head returns |
| `VersionRuns.LineageAlwaysEnds` | crates/server/src/core/versioning.rs:1142-1152 | in every such state the parent walk ends, and not in None, from every changeset |
| `VersionRuns.OwnHistoryIsVisible` | crates/server/src/core/versioning.rs:583-592 | a changeset is visible exactly when it is in the history of its home branch; so an entry of any history is a draft exactly when its home branch does not list it |
| `VersionRuns.HistoryMayHoldADraft` | crates/server/src/core/versioning.rs:373-380 | a run after which a branch history holds a draft of another branch |
| `VersionRuns.SnapshotIsReplay` | crates/server/src/core/versioning.rs:923-951 | every snapshot is the replay, from empty, of all deltas along its lineage |
| `VersionRuns.BranchContentIsReplay` | crates/server/src/core/versioning.rs:842-859 | the content a branch syncs to is the replay of its whole cached history |
| `VersionRuns.ChangesetsAreInvertible` | crates/server/src/core/versioning.rs:930-951 | every stored changeset can be undone from its own record |
| `VersionRuns.PromoteInstallsTheDraft` | crates/server/src/core/versioning.rs:573-600 | promotion installs exactly the draft's deltas on the head current at that moment, though its snapshot was computed at submit |
| `VersionRuns.HeadsNeverReturn` | crates/server/src/core/versioning.rs:583-586 | over any two runs in a row: a head that has left a changeset never returns to it |
| `VersionRuns.VisibleSiblingsAreEqual` | crates/server/src/core/versioning.rs:904-921 | two visible changesets of one home branch never share a parent |
| `VersionRuns.PromotableIffCurrent` | crates/server/src/core/versioning.rs:573-581 | a hidden changeset can still become visible in some continuation exactly when its base is its branch's head right now |
| `VersionRuns.RootDraftsStayHidden` | crates/server/src/core/versioning.rs:573-581 | a draft of a first commit becomes visible in no continuation |
| `VersionRuns.OneDraftPerBase` | crates/server/src/core/versioning.rs:573-581 | once one of several changesets with the same base and branch is visible, the others are blocked in every continuation |
| `VersionRuns.FailureChangesNothing` | crates/server/src/core/versioning.rs:361-380 | a failed operation changes nothing, except that a failed submit or branch creation may leave a new empty repository |
| `Observers.GateDecidesPromote` | crates/server/src/core/versioning.rs:638-655 | promotion succeeds exactly when the gate says it can, and otherwise fails for the reason the gate names |
| `Observers.PagesListHistoryOnce` | crates/server/src/core/versioning.rs:693-710 | following the cursor from zero with any limits lists the reversed history exactly once and ends |
| `Observers.PagesUnderCommits` | crates/server/src/core/versioning.rs:693-710 | if commits land between fetches, every entry present at the start is still delivered |
| `Observers.EachEntryOnceIff` | crates/server/src/core/versioning.rs:693-710 | each entry of the first history is delivered exactly once, newest first, exactly when no commit lands before the last fetch made; otherwise some entry is delivered twice |
| `Observers.PagesMayRepeat` | crates/server/src/core/versioning.rs:693-710 | a pair of fetches around a commit that delivers an entry twice |
| `Observers.BranchPages` | crates/server/src/core/versioning.rs:693-710 | paging through a branch with any operations between the fetches: all entries of the first history are delivered, and each exactly once, newest first, exactly when the branch has not moved before the last fetch made |
| `Observers.PlanRestores` | crates/server/src/core/versioning.rs:775-799 | applying a plan restores the target's ids and hashes and the path of every changed asset, and the whole snapshot exactly when no unchanged asset moved |
| `Observers.RollbackRestoresTarget` | crates/server/src/api/versioning.rs:623-664 | with any operations between plan and submit, an accepted rollback leaves the new head with exactly the target's ids and hashes, with exactly the target's entry wherever the hash differed, and with the whole snapshot exactly when no asset merely moved |
| `Observers.RollbackMayLeaveAMove` | crates/server/src/core/versioning.rs:785-789 | a run in which the plan is empty, is accepted, and leaves a moved asset where it is |
| `Observers.PathIdsEverywhere` | crates/server/src/core/versioning.rs:930-948 | where all recorded deltas are filed under their paths, every snapshot's asset ids are its paths |
| `Observers.PathKeyedRollbackIsExact` | crates/server/src/api/versioning.rs:623-664 | so in such a repository an accepted rollback restores the whole target snapshot |
| `Observers.RestartObserved` | crates/server/src/core/versioning/repo_pg.rs:346-363 | after a restart gate, sync point, histories, records and snapshots are the same; rollback plans fail anew exactly for targets with an empty snapshot |
| `Observers.EmptySnapshotIsForgotten` | crates/server/src/core/versioning/repo_pg.rs:346-363 | a run after which a rollback is planned before a restart and refused after it |
| `RepoRows.LoadAfterSave` | crates/server/src/core/versioning/repo_pg.rs:114-245 | tables that hold a repository load back to the same branches, default, rebuilt histories, changesets and ordered deltas, and to its snapshots without the empty ones |
| `RepoRows.HeldRowsSay` | crates/server/src/core/versioning/repo_pg.rs:290-325 | the columns of a changeset's row, its status and kind under the texts that queries compare with |
| `RepoRows.HeldEntriesSay` | crates/server/src/core/versioning/repo_pg.rs:326-381 | the columns of every branch, delta and snapshot row |
| `RepoTables.VersionRepoPg.ReplaceRepoState` | crates/server/src/core/versioning/repo_pg.rs:253-385 | one transaction: afterwards the tables hold the repository and every other repository's rows and delta order are kept; the repository's row names the creator of its default branch; it is rolled back exactly when a changeset id belongs to another repository |
| `RepoTables.VersionRepoPg.LoadRepos` | crates/server/src/core/versioning/repo_pg.rs:81-250 | every repository with a row is rebuilt from its rows, histories from parent links |
| `RepoTables.LoadBranches` | crates/server/src/core/versioning/repo_pg.rs:102-137 | branches and default branch, row by row |
| `RepoTables.LoadChangesets` | crates/server/src/core/versioning/repo_pg.rs:139-206 | records first, then each delta row appended to its changeset in row order |
| `RepoTables.LoadSnapshots` | crates/server/src/core/versioning/repo_pg.rs:208-230 | snapshot maps, row by row |
| `RepoTables.RebuildHistories` | crates/server/src/core/versioning/repo_pg.rs:232-245 | each history is overwritten with the lineage of its head, empty if there is none |
| `RepoTables.OthersStillHeld` | crates/server/src/core/versioning/repo_pg.rs:253-385 | saving one repository leaves every other one loadable as it was |
| `RepoTables.LoadIsRestart` | crates/server/src/core/versioning.rs:292-302 | if the tables hold the present state, loading is exactly the store's Restart step |
| `RepoTables.HeldWalksEnd` | crates/server/src/core/versioning/repo_pg.rs:232-245 | on tables that hold a repository whose views agree, every parent walk of a load ends |
| `StoredStates.EveryStateIsOk` | crates/server/src/core/versioning.rs:461-484 | through commits, saves that land late, in any order or never, and new managers started from the tables at any time, the views of every state agree |
| `StoredStates.NoSaveIsRolledBack` | crates/server/src/core/versioning/repo_pg.rs:253-385 | on the real tables no save transaction ever fails on another repository's row, though clones are of different times |
| `StoredStates.StoredWasReal` | crates/server/src/core/versioning/repo_pg.rs:81-250 | loading the tables gives, of each repository ever saved, exactly what a manager really had when its last landed save was made, without empty snapshots |
| `StoredStates.RestartFromStoredIsOk` | crates/server/src/core/versioning.rs:292-302 | what is loaded from whatever is stored has all views in agreement |
| `StoredStates.Boot` | crates/server/src/core/versioning.rs:292-302 | the row loads on these tables end, and yield a manager whose views agree |
| `StoredStates.StoredIsPresentIff` | crates/server/src/core/versioning.rs:461-484 | a repository would be loaded as it is now exactly when the save of it that landed last is the newest one made |
| `StoredStates.SavesInOrderKeepUp` | crates/server/src/core/versioning.rs:461-484 | if none is lost and no older save lands on a newer one, the newest save is always on its way or stored; once none is on its way, the repository would be loaded as it is now |
| `StoredStates.StoredMayBeStale` | crates/server/src/core/versioning.rs:461-484 | a run in which an older save lands last |
| `StoredGrowth.NothingForgottenIff` | crates/server/src/core/versioning.rs:292-302 | when a new manager starts, what it loads has grown from what was in memory, no branch, head, changeset or status lost, exactly when the newest save of every repository is the one that landed last |
| `StoredGrowth.HeadMovesBackIff` | crates/server/src/core/versioning.rs:292-302 | each branch loaded has a prefix of its old history, and the old head exactly when that is all of it |
| `StoredGrowth.RunsGrowIff` | crates/server/src/core/versioning.rs:292-302 | over a run with any number of managers, every state has grown from every earlier one exactly when all was stored whenever a new manager started |
| `StoredGrowth.HeadsNeverReturnAcross` | crates/server/src/core/versioning.rs:583-586 | in such a run a head that has left a changeset never returns to it, whichever managers came between |
| `StoredGrowth.HeadMayMoveBack` | crates/server/src/core/versioning.rs:461-484 | a run in which a head goes from x to y and, the save of y lost and a new manager started, is x again |
| `Locks.LockManager.TryLock` | crates/server/src/core/lock.rs:76-128 | in memory a free path or an expired lock is taken, the owner's own returned unchanged, another's refused; with a database the owner's own is renewed and one without expiry handed on; memory and table stay equal |
| `Locks.LockManager.Upsert` | crates/server/src/core/lock/repo_pg.rs:75-124 | the statement overwrites a row that is free, the owner's own, expired or without expiry, and answers the row that is there then |
| `Locks.LockManager.RenewLock` | crates/server/src/core/lock.rs:130-172 | only the owner of a live lock extends it; an expired lock is removed and reported |
| `Locks.LockManager.Unlock` | crates/server/src/core/lock.rs:174-196 | only the owner removes a lock |
| `Locks.LockManager.ForceUnlock` | crates/server/src/core/lock.rs:198-206 | removes the lock whoever owns it and tells whether there was one |
| `Locks.LeaseIsExclusive` | crates/server/src/core/lock.rs:76-196 | while a lease lasts, no sequence of requests by others changes or removes the lock |
| `Locks.LeasesAlwaysExpire` | crates/server/src/core/lock.rs:84-91 | no sequence of requests creates a lock without an expiry |
| `Locks.RequestAnswers` | crates/server/src/core/lock.rs:76-196 | what acquiring, renewing and unlocking answer and leave on a path, from owner, expiry and clock |
| `Locks.LeaseLastsItsTime` | crates/server/src/core/lock.rs:215-240 | a lease granted at a time, by taking or renewing, lasts the configured seconds but at least thirty: whatever others request before then, they are refused and the owner can renew; from then on anyone is granted the path |
| `Replay.ReplayAccumulator.ApplyEvent` | crates/server/src/core/replay.rs:76-116 | one event changes counters, locks, visible set and heads as specified |
| `Replay.ReplayAccumulator.UpdateBranchHead` | crates/server/src/core/replay.rs:118-135 | a head moves only if the event names repository, branch and changeset |
| `Replay.EventDoes` | crates/server/src/core/replay.rs:76-148 | what one event of each kind does to locks, visible set and heads, from its fields |
| `Replay.Verify` | crates/server/src/core/replay.rs:199-289 | replaying from nothing and comparing reports exactly the differences, and none exactly when counts and heads agree |
| `Replay.Compare` | crates/server/src/core/replay.rs:219-278 | the two loops over heads report each wrong, missing and extra head and nothing else |
| `Replay.SplitReplayMerges` | crates/server/src/core/replay.rs:76-135 | over a split log counters add, visible sets unite, later heads override earlier ones, and the earlier locks that stay are those no later event names |
| `Replay.CheckpointAgreesWhereTouched` | crates/server/src/core/replay.rs:184-221 | on heads: a replay from a checkpoint agrees with the full replay on a head exactly when that head was moved after the checkpoint or never |
| `ReplayOrder.HeadIsLastMove` | crates/server/src/core/replay.rs:118-135 | a head is replayed exactly when some event moves it, and is what the last such event names |
| `ReplayOrder.SummaryCounts` | crates/server/src/core/replay.rs:83-115 | the summary counts all events and those of each kind |
| `ReplayOrder.ReorderedSets` | crates/server/src/core/replay.rs:76-135 | the same events in any other order replay to the same visible set and the same branches with heads |
| `ReplayOrder.ReorderedHeadStaysIff` | crates/server/src/core/replay.rs:118-135 | in another order a head stays exactly when the last event that moves it names the same changeset |
| `ReplayOrder.ReorderedLockStaysIff` | crates/server/src/core/replay.rs:84-96 | in another order a lock stays exactly when the last event for its path takes it in both orders or in neither |
| `ReplayOrder.LostEvent` | crates/server/src/core/replay.rs:76-135 | without one event the visible set, the heads and the locks are the same exactly when, for each, another event shows the changeset, a later one moves the head or it was that already, a later one names the path or it was so already |
| `EventRefinement.KeysClashIff` | crates/server/src/core/replay.rs:146-148 | two repositories can have branches with the same key exactly when one id followed by the separator begins with the other |
| `EventRefinement.IdsKeepHeadKeysApart` | crates/server/src/core/replay.rs:146-148 | where no two repository ids do so, all branches with a head have different keys |
| `EventRefinement.StepShows` | crates/server/src/api/versioning.rs:496-527 | a request makes visible at most the one changeset its event names |
| `EventRefinement.StepMovesHead` | crates/server/src/api/versioning.rs:496-527 | a request moves at most the head of the branch its event names, to the changeset it names |
| `EventRefinement.ServeRefines` | crates/server/src/api/versioning.rs:664-683 | every request with its event, version or lock, keeps log and state in agreement |
| `EventRefinement.ReplayRefinesServer` | crates/server/src/api/versioning.rs:496-527 | after any requests and restarts: the replayed visible set is the visible changesets; each key of a branch with a visible commit of its own, and no other, has the present head of some such branch, and all of these heads are right exactly when their keys differ; the replayed locks contain the held ones, with equality exactly when no expired lock was dropped |
| `ConsistencyChecks.CheckPassesExactlyWhen` | crates/server/src/core/replay.rs:219-278 | the consistency check finds nothing, in every order of the rows, exactly when no expired lock was dropped, every branch with a head had a visible commit of its own and these have different keys; and in some order exactly when no lock was dropped and every head's key is that of a branch with a visible commit of its own |
| `ConsistencyChecks.NewBranchIsReported` | crates/server/src/api/versioning.rs:333-348 | a run after which the check reports, in every order of the rows, a branch that was created from the default head |
| `ConsistencyChecks.DroppedLockIsReported` | crates/server/src/core/lock.rs:147-157 | a run after which the check reports, in every order of the rows, a lock that its owner renewed too late |
| `ConsistencyChecks.KeysMayClash` | crates/server/src/core/replay.rs:146-148 | a run after which two branches with commits of their own have one key: the replayed head is wrong for one of them, and the order of the rows decides whether the check reports |
| `ConsistencyChecks.IncrementalCheckPassesExactlyWhen` | crates/server/src/core/replay.rs:184-278 | the whole check from a checkpoint: it finds nothing exactly when nothing was visible at the checkpoint, the conditions of the full check on heads hold, and as many locks were kept since the checkpoint without an event as were dropped by a late renewal |
| `ConsistencyChecks.CheckpointForgetsCommits` | crates/server/src/core/replay.rs:184-278 | a run after which the full check finds nothing and the check from a checkpoint taken there reports the visible count and a missing head |
| `EventRefinement.LockRefines` | crates/server/src/api/lock.rs:62-262 | each lock handler with the event it records keeps the replayed locks equal to the held ones plus the dropped ones |
| `StoreQuiescence.StoresEndWell` | crates/server/src/core/storage.rs:92-165 | for any interleaving of any calls, over any stale temp files: boundedly many steps, no call fails, and when nothing can move every call has returned and `retrieve` of its hash gives its bytes |
| `StoreQuiescence.HashIsSettled` | crates/server/src/core/storage.rs:92-165 | once every call for one hash is over, each has returned and `retrieve` gives its bytes, whatever calls for other bytes still do |
| `StoreQuiescence.StepKeepsSound` | crates/server/src/core/storage.rs:105-157 | each step keeps, for every byte of every linked file, that it is right or will be written by a call that holds the file open |
| `StoreQuiescence.RunsAreShort` | crates/server/src/core/storage.rs:92-165 | a run has no more steps than the calls' remaining work |
| `StoreQuiescence.OtherObjectsStay` | crates/server/src/core/storage.rs:105-157 | no step touches an object whose hash no call stores |
| `StoreQuiescence.StoredObjectsStay` | crates/server/src/core/storage.rs:92-104 | in any run, an object that is there at the start keeps its file and bytes, and no call for it ever opens one |
| `StoreQuiescence.OkMayComeEarly` | crates/server/src/core/storage.rs:126-157 | a run in which a call has returned and the object of its hash is empty |
| `StoreCompleteness.ObjectIsCompleteIff` | crates/server/src/core/storage.rs:113-157 | at any moment of any run the object of a returned call is complete exactly when every byte that is not zero, and the last byte, was written since its file was last created or truncated |
| `StoreCompleteness.RunIsTraced` | crates/server/src/core/storage.rs:113-157 | every run has such a record of written bytes |
| `Storage.StorageManager.Store` | crates/server/src/core/storage.rs:92-165 | one caller: the object of the hash is there afterwards with the bytes, an existing one is left alone, and no other object changes |
| `Storage.StorageManager.WriteAll` | crates/server/src/core/storage.rs:115-122 | whatever the sizes of the pieces, the file ends up with exactly the bytes |
| `Storage.StorageManager.Retrieve` | crates/server/src/core/storage.rs:168-190 | the object's bytes, or which of the two errors |
| `Storage.StorageManager.Exists` | crates/server/src/core/storage.rs:192-200 | short names never exist |
| `Storage.StoreKeepsFiling` | crates/server/src/core/storage.rs:92-165 | every object stays filed under the hash of its bytes, none is lost and no other is added |
| `Chunking.SplitFile` | crates/cli/src/utils.rs:1250-1263 | the cutting loop yields the chunk list of the file for the size raised to the minimum |
| `Chunking.ChunksCoverTheFile` | crates/cli/src/utils.rs:1250-1263 | chunk k starts at k times the size, is full unless last, reaches the end if last, and carries the hash of exactly its bytes |
| `Chunking.ChunkCount` | crates/cli/src/utils.rs:1250-1263 | there are length divided by size, rounded up, chunks |
| `Chunking.CanonicalOrder` | crates/server/src/api/manifests.rs:174-182 | sorting and comparing neighbours accepts exactly the lists with distinct indices, and returns the same chunks in strictly ascending order |
| `Chunking.CanonicalIsOrderFree` | crates/server/src/api/manifests.rs:174-182 | the canonical list does not depend on the order of the request |
| `Chunking.ComposedIffAllFit` | crates/server/src/api/manifests.rs:377-405 | composing succeeds exactly when every chunk is stored with its declared size |
| `Chunking.ComposeNamesFirstMisfit` | crates/server/src/api/manifests.rs:377-405 | otherwise the error names the first chunk that is missing or has another size |
| `Chunking.ComposedHasDeclaredSize` | crates/server/src/api/manifests.rs:377-405 | the composed bytes are as long as the manifest declares |
| `Chunking.PermutedChunksCompose` | crates/server/src/api/manifests.rs:174-182 | chunks of a file sent in any order are listed in file order and compose to the file, whatever else the store holds |
| `BlobApi.BlobServer.MissingChunks` | crates/server/src/api/blobs.rs:50-121 | the answer lists each requested hash once, in order, that the chunk table, or without a database the store, lacks, and nothing else |
| `BlobApi.BlobServer.UploadChunk` | crates/server/src/api/blobs.rs:123-203 | a body is stored, and its row added, exactly when the name is long enough and is its hash; tells whether it was new; every row stays backed by an object |
| `BlobApi.BlobServer.CreateManifest` | crates/server/src/api/manifests.rs:151-361 | the rejections in their order, naming the missing chunks; otherwise the canonical manifest is stored under its hash, its row added unless there is one, with its Merkle root and chunk count |
| `BlobApi.RefusedFor` | crates/server/src/api/manifests.rs:156-240 | a manifest is refused, in this order, without chunks, for a policy of white space only, for a repeated index, and for lacking chunks, which are named; else accepted |
| `BlobApi.CreateKeepsFiling` | crates/server/src/api/manifests.rs:298-329 | every manifest row stays filed under the hash of its encoding |
| `BlobApi.RowIsTheManifest` | crates/server/src/api/manifests.rs:102-132 | the row under a manifest's hash is that manifest, unless encodings collide |
| `BlobApi.BlobServer.ComposeChunks` | crates/server/src/api/manifests.rs:377-405 | the concatenation loop yields the composed bytes or the first misfit |
| `BlobApi.BlobServer.ComposeBlob` | crates/server/src/api/manifests.rs:363-431 | the manifest, from the table or else the store, has its chunks concatenated and stored under their own hash; each failure leaves the store unchanged |
| `ChunkUpload.UploadMissing` | crates/cli/src/utils.rs:1294-1324 | after sending only what was reported missing the server offers every chunk, nothing is lost, and nothing but pieces of the file was added |
| `ChunkUpload.SendManifest` | crates/cli/src/utils.rs:1250-1347 | afterwards the manifest can be loaded under its hash and every chunk is stored, or the request was refused for the empty file or the blank policy |
| `ChunkUpload.ManifestDescribesTheFile` | crates/cli/src/utils.rs:1250-1292 | the manifest sent has version 1, the given policy, and the chunks that cover the file in order, of the given size but at least 65536 bytes |
| `ChunkUpload.UploadBlob` | crates/cli/src/utils.rs:1236-1370 | end to end, with and without a database: a non-empty file is afterwards stored unchanged under its own hash, which is the answer with its size; an empty file is refused and changes nothing; a blank policy is refused |
| `Merkle.MerkleRoot` | crates/server/src/api/manifests.rs:67-96 | the loop computes the root in exactly as many rounds as the tree is deep |
| `Merkle.RootIsTopNode` | crates/server/src/api/manifests.rs:67-96 | the root is the top of the binary tree over the hashed leaf texts, defined from the root down: left child, then right one, or the left one twice; without chunks it is the hash of nothing |
| `Merkle.LeafTextParts` | crates/server/src/api/manifests.rs:72-80 | a leaf text is index, hash and size between colons |
| `Decimals.DecimalReadsBack` | crates/server/src/api/manifests.rs:72-80 | a number's text reads back as the number and has no zeros in front |
| `Merkle.DepthIsLog2` | crates/server/src/api/manifests.rs:82-91 | the depth is the logarithm of the number of chunks, rounded up |
| `Merkle.LeafTextIsInjective` | crates/server/src/api/manifests.rs:72-80 | a leaf text determines index, hash and size |
| `Merkle.RootDeterminesChunks` | crates/server/src/api/manifests.rs:67-96 | two lists with distinct indices and the same root are equal, despite repeated last nodes and different depths, if nothing these two trees hash collides |
| `Merkle.RepeatedChunkKeepsRoot` | crates/server/src/api/manifests.rs:82-91 | among lists with repeated indices it fails: repeating the last chunk of a list of three keeps the root |
| `MerkleExactness.RootDeterminesAmongAllIff` | crates/server/src/api/manifests.rs:67-96 | a list with distinct indices is the only one at all with its root exactly when its length is zero or a power of two |
| `AuditChains.AuditChain.Append` | crates/server/src/core/audit_chain.rs:50-113 | the new row links to the newest one and hashes its own material; fails exactly on an empty table without the fallback |
| `AuditChains.MaterialParts` | crates/server/src/core/audit_chain.rs:77-89 | the hashed material is previous hash, action, actor, repository, target, payload hash and time, in this order, between bars |
| `AuditChains.AuditChain.VerifyChain` | crates/server/src/core/audit_chain.rs:115-169 | valid, with the number of rows, exactly when every link and hash is right; otherwise names the first wrong row, which of the two checks failed there, and the sequence number before that row's |
| `AuditChains.CheckedCountsRowsIff` | crates/server/src/core/audit_chain.rs:126-160 | the number reported as checked is never below that of the rows before the wrong one, and is that number exactly when no sequence number was skipped so far |
| `AuditChains.AppendKeepsVerifying` | crates/server/src/core/audit_chain.rs:65-90 | a verifying chain still verifies after an append |
| `AuditChains.AppendedChainsVerify` | crates/server/src/core/audit_chain.rs:65-90 | every chain built by appending verifies and holds the records in order, whatever sequence numbers were skipped |
| `AuditChains.AppendAll` | crates/server/src/core/audit_chain.rs:65-75 | with the fallback, or a first row, records are added in order and verification is kept; without both the table stays empty |
| `AuditChains.LastHashDeterminesChain` | crates/server/src/core/audit_chain.rs:126-168 | two verifying chains with the same last hash have the same length and the same material at every position |
| `AuditChains.TextDeterminesFieldsIff` | crates/server/src/core/audit_chain.rs:77-89 | a record shares its text with no record that has other fields, absent ids counting as empty, exactly when its free fields hold no bar |
| `AuditChains.LastHashDeterminesRecords` | crates/server/src/core/audit_chain.rs:126-168 | the last hash determines the fields of every record of a verifying chain whose free fields hold no bar, whatever the other chain holds |
| `RefreshTokens.AuthService.ExchangeKeyForTokens` | crates/server/src/core/auth.rs:356-413 | a valid key starts a family with one parentless token |
| `RefreshTokens.AuthService.InsertToken` | crates/server/src/core/auth/repo.rs:202-228 | a row is inserted unless the token exists |
| `RefreshTokens.AuthService.RefreshTokens` | crates/server/src/core/auth.rs:415-496 | the checks in their order and their effects: a replaced token revokes its family, an expired one is revoked, otherwise the successor is inserted and linked |
| `RefreshTokens.AuthService.RevokeRefreshToken` | crates/server/src/core/auth/repo.rs:275-288 | revokes one token, and tells whether that changed anything |
| `RefreshTokens.RequestAnswers` | crates/server/src/core/auth.rs:415-496 | what an exchange and a refresh answer, from the presented token's row and the clock |
| `RefreshTokens.RequestDoes` | crates/server/src/core/auth.rs:356-496 | what each request does to the rows: a replay revokes its family and no other, an expired token is revoked alone, any other refusal changes nothing |
| `RefreshTokens.TokenLastsItsTime` | crates/server/src/core/auth.rs:456-488 | in every run, a token issued at a time, by exchange or rotation, and neither replaced nor revoked since, is rotated at every moment before that time plus the lifetime, and from then on refused as expired and revoked |
| `RefreshTokens.FamiliesStayChains` | crates/server/src/core/auth.rs:434-488 | in every run each family is one doubly linked chain in order of issue, and only its last token can be neither replaced nor revoked |
| `RefreshTokens.RotationIffLastAndLive` | crates/server/src/core/auth.rs:434-488 | a token is rotated exactly when it decodes and is the last of its family's chain, unrevoked and unexpired; the successor has its owner and family, ends the chain, and is the only usable one of the two |
| `RefreshTokens.ReplayRetiresFamily` | crates/server/src/core/auth.rs:441-446 | presenting a replaced, unrevoked token leaves the family without a usable token in every continuation |
| `RefreshTokens.RetiredForever` | crates/server/src/core/auth.rs:434-488 | a family without a usable token never gets one again |
| `RefreshTokens.ReplayIsNoticedIff` | crates/server/src/core/auth.rs:436-446 | presenting a replaced token retires its family exactly when the token is not itself revoked or the family was retired already |
| `RefreshTokens.RevokedReplayGoesUnnoticed` | crates/server/src/core/auth.rs:436-446 | a run in which the replay of a revoked token leaves its successor usable |
| `RateLimiters.RateLimiter.Allow` | crates/server/src/state.rs:254-274 | the verdict and the new window for any three clock readings; other buckets are untouched; limit zero always admits |
| `RateLimiters.CallAnswers` | crates/server/src/state.rs:254-274 | a call is refused exactly if the bucket's window is younger than 60 seconds and full; an admitted call is counted in that window or in the one it starts |
| `RateLimiters.WindowAdmitsAtMostLimit` | crates/server/src/state.rs:254-274 | at every moment of every run the current window of a bucket has admitted at most the limit |
| `RateLimiters.RefusedMeansFull` | crates/server/src/state.rs:266-271 | a call is refused only in a window younger than a minute that has admitted the limit |
| `RateLimiters.AnyMinuteAdmitsAtMostTwice` | crates/server/src/state.rs:254-274 | any closed interval of 60 seconds admits at most twice the limit on a bucket |
| `RateLimiters.TwiceTheLimitIsReached` | crates/server/src/state.rs:262-265 | and for every limit that bound is reached |
| `RateLimiters.BucketsAreIndependent` | crates/server/src/state.rs:254-274 | a bucket's window and verdicts are what its own calls alone would give |

## Left out

- HTTP routing, JSON, authentication middleware, permissions, printing and argument parsing: no hard property.
- Timestamps other than lease, token and rate-limit clocks, and metadata that is only copied (intent, task, session, risk level, summary).
- `list_repos`, `list_branches`, `get_repo_info`, `list_entries`, readiness, metrics, retention, witnesses: they would add only easy members.
- `ensure_lock_access` and `ensure_blob_exists` only reject a submit before it reaches the store; the runs here contain every submit, rejected or not.
- Persistence to a JSON file: `RepoRows` covers the database form.
- VersionRuns: runs from a state include a restart that reloads all of memory; a manager started from late or lost saves begins a new run, from a state whose views agree (`StoredStates.EveryStateIsOk`), and what it may forget is in `StoredGrowth`.
- StoredStates: a save's transaction is one step; Postgres isolation inside it is not modelled.
- RepoTables.VersionRepoPg.ReplaceRepoState: foreign keys to rows other than changesets, and the uniqueness of delta and snapshot rows, are not modelled.
- Locks.LockManager.RenewLock: one atomic step; another request between its read and its write is not modelled. One call reads the clock once. Locks have one repository and scope, as the handlers pass them.
- EventRefinement: every event is recorded and requests are served one at a time, and a restart reloads all of memory. `ReplayOrder` says what changes if one event is lost or events are recorded in another order; a restart from late saves is not part of these runs.
- StoreProtocol: steps of calls that meet no file error, on paths not linked elsewhere; the error returns for failed creation, writing or syncing are not modelled. Directory creation is not modelled.
- Storage.StorageManager: the path is identified with the hash name; splitting a name after its second byte is not modelled.
- BlobApi.BlobServer: a query that fails is not modelled; a manifest row reads back as what was written to it.
- ChunkUpload.UploadBlob: the manifest's encoding is a parameter with a decoder that reads it back; the 32-bit chunk index and 64-bit sizes do not overflow at any file size that fits in memory. Requests of one upload follow each other, while `Chunking.PermutedChunksCompose` lets the store hold anything else.
- AuditChains.AuditChain: the payload is its serialised form; that the database returns a payload and a creation time that serialise to the same text is assumed. Appends are one at a time, as the advisory lock makes them.
- RefreshTokens: one refresh is one step, since the code has no transaction to state more; the table is keyed by the token, whose keyed hash is taken to be injective; a token decodes only to the claims it was signed with.
- RateLimiters: calls on one limiter are serialised, as the map's shard lock and the window's mutex make calls on one bucket; the clock never goes back.
- Hashing, signing and token formats are library code and are not part of this model.
