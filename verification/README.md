# Verified model of the branch and baseline manager

This project models the core of sashiki: a daemon that gives every branch its own database
by cloning a baseline snapshot, and two proxies that lead clients to their branch.

**The lifecycle machine** (`Names`, `Pool`, `Host`, `Store`, `Classify`, `Invariant`, `Manager`, `Lifecycle`, `Rebuild`,
`Requests`, `Reconcile`, `Recovery`, `BaselineOps`, `Refresh`, `Reaper`, `Runs`, `Start`). `Store.DB` holds the branches and
baselines tables, `Host.Host` the zfs pool and the engine processes. Every backend call returns `Ok`, `Failed` or `Died`:
a call may fail (clone, rename, start and stop even after they took effect), and the daemon may die before or after the
effect of any of them. The operations are methods of the same shape as the source, one step at a time. `Invariant.Inv`
holds after every single step, so also wherever the daemon dies; `Runs.Run` carries it over every sequence of operations,
failures, crashes, restarts, client writes and engine deaths; `Start` begins such runs on a fresh machine. It says: registered
baselines and branch origins exist; running, sleeping and wake-failed branches carry @init; a volume without registered
baselines has no clones; ports are distinct; at most one baseline is current. `Invariant.Clean` says that every snapshot was
taken of a stopped, clean datadir, as long as engines stop only through Stop and Kill. The ghost set `strays` holds exactly
the rows whose volume is not a clone of the origin they name. `Recovery` composes operations with Retry and restart.

**Admission and concurrency** (`Admission`, `Sections`, `Ops`, `Sessions`, `Cancels`). State machines over the steps that
interleave: the sections under the branch lock and `admitMu`, the sections of the operation runner, the sections of limiter and
connection counts, the steps on the table of cancel keys. Theorems hold for every behaviour of any number of threads. `Sections`
shows that the requests of the lifecycle machine are paths of the first of them.

**The proxies** (`Limiter`, `Gate`, `MysqlProxy`, `PgProxy`, `Refinement`, `Bits`, `Text`, `Base64`, `Scram`, `PgWire`,
`Tokens`, `MysqlWire`). The limiter is compared with an unbounded history of failures; a session of either proxy is followed from its
first bytes to its end, and shown to be a path of the machine in `Sessions`; both roles of SCRAM-SHA-256 (sections 3 and 5
of RFC 5802, RFC 7677) work on the real message texts and on base64 (section 4 of RFC 4648); the message formats of both
protocols round-trip.

**The source loader** (`Migrations`).

## Assumptions

- Storage is ebs-zfs. ResolveVolume fails exactly when the dataset is missing, and a dataset is its zfs commands.
- Statements on state.db do not fail, and each is one update. Baseline tags are not used twice.
- A whole operation is atomic towards the others in the lifecycle machine; interleaving is the subject of `Admission`, which the
  requests refine as far as row states, locks and ports go.
- A session of a proxy is one method; that others move in between is the subject of `Sessions`, which it refines. On the table of
  cancel keys others do move in between.
- A refresh script behaves like the source loader and never kills the base server.
- PBKDF2, HMAC, SHA-1, SHA-256 and SASLprep are functions about which only sizes are known and, where `CollisionFree` says so, that
  no two digests have the same digest.
- Go strings on the wire are byte sequences; in `Scram` they are texts whose characters stand for bytes.

## What the code does differently from what one would expect

- `Reset` on ebs-zfs marks a row resetting without an admission check (internal/workspace/manager.go:449): max_running
  can be exceeded, exactly when `Admission.ResetKeepsBoundIff` says so.
- A crash between destroying a baseline snapshot and deleting its row leaves a registered baseline without a snapshot. It can
  never be deleted again and may be made current (`BaselineOps.CutShortIsForGood`). The ghost set `lost` holds exactly these;
  `Runs.Run` traces each of them to its own deletion.
- `Retry` of a recreate needs a volume under the branch's own name. A rename that reports a failure after it took effect leaves none
  (`Recovery.StashThatFailsLate`), and every later Retry returns early (internal/workspace/manager.go:497-500). Apart from
  a failed @init snapshot, which is final, no other single failure has that consequence (`Recovery.RecreateThenRetry`); a crash
  between the stash rename and the clone has (`Recovery.RecreateThenRestart`).
- `Reset` after a Recreate that failed past its clone may run the branch under a row that names the wrong origin: exactly when the
  volume was replaced and the row's origin was not the current baseline (`Recovery.RecreateThenReset`,
  `Start.RecreateThenResetStrays`). A volume that no row knows of and that blocks a Create has the same effect. Over whole
  runs there is no other way (`Runs.StrayHistory`, `Runs.UsableStrayHistory`).
- Reconcile makes an error row whose volume is missing final (internal/workspace/reconcile.go:90-98), so a Create that failed in its
  clone can be retried before a restart but not after it (`Recovery.CreateThenRestart`).
- Every error text that contains "hook" counts as a recoverable hook failure (internal/workspace/errors.go:28), even when it is
  the branch name.
- `Promote` starts a sleeping branch and leaves its row sleeping, on every way out behind the stop
  (internal/workspace/baseline.go:84-95): without faults exactly if nothing refuses it before (`BaselineOps.PromoteBranch`). Over
  whole runs only this, and a restart whose probe fails (internal/workspace/reconcile.go:100-107), gives a sleeping row a process
  (`Runs.SleepwalkHistory`).
- The delay of the limiter is 8 s instead of 0 for the five lowest 64-bit counts, which no source reaches
  (internal/authlimit/limiter.go:129-139).
- The id that `StartExclusive` reports while busy may be that of a finished operation (`Ops.BusyIdMayBeStale`), exactly while a
  late publication stands (`Ops.StaleExactly`).
- The PostgreSQL proxy keeps one entry per cancel key (internal/pgproxy/pgproxy.go:407-441). If two backends hand out one key, the
  first session's cancel goes to the second backend, and is dropped when the second session ends (`Cancels.SharedKey`); if one
  backend hands out two, the first key outlives the session (`Cancels.SecondKey`). A cancel reaches its own backend exactly
  as `Cancels.ReachesIff` says, and the table is exactly the live sessions until a step that `Cancels.Harmless` excludes.
- `parseBackendHandshake` panics on some malformed greetings (`MysqlWire.PanicsIff`, `MysqlWire.PanicHappens`).

## Model

| member | source | states |
|---|---|---|
| Names.StashNames | internal/workspace/manager.go:26-35 | A stash name is reserved, differs from its branch, and belongs to one branch only; no branch name can be one |
| Pool.IndexOf | internal/storage/ebszfs/zfs.go:163-167 | Finds the first snapshot with a tag |
| Pool.CopyNeedsRecovery | internal/storage/ebszfs/zfs.go:94-150 | A clone of a fresh snapshot has the data, and needs recovery exactly if the datadir was in use or had not been stopped gracefully |
| Pool.RollbackUndoes | internal/storage/ebszfs/zfs.go:141-167 | A rollback over a later snapshot and a write is refused exactly if that snapshot has clones, and otherwise brings back the data and the snapshots of before |
| Pool.ClonesProtect | internal/storage/ebszfs/zfs.go:94-203 | A clone protects snapshot and dataset it was cloned from until it is destroyed, which brings the pool back; the base is never destroyed |
| Pool.Without | internal/storage/ebszfs/zfs.go:197-203 | Removing a snapshot removes exactly its tag, and leaves clean snapshots clean |
| Host.Host.Clone | internal/storage/ebszfs/zfs.go:94-104 | Two commands: it may have cloned although it reports a failure; without faults it succeeds exactly when the snapshot is there and the name is free |
| Host.Host.Rename | internal/storage/ebszfs/zfs.go:169-180 | The same for a rename, which keeps identity and contents of the dataset |
| Host.Host.Resolve | internal/storage/ebszfs/zfs.go:131-138 | Fails exactly when the dataset is missing |
| Host.Host.Snapshot | internal/storage/ebszfs/zfs.go:141-150 | One command: effect exactly on success, refused when the tag exists; a snapshot is clean when no process is live and the datadir was stopped |
| Host.Host.Rollback | internal/storage/ebszfs/zfs.go:163-167 | Drops later snapshots with the data; refused while one of them has clones |
| Host.Host.Destroy | internal/storage/ebszfs/zfs.go:183-194 | Recursive, done when it returns, refused while a snapshot has clones |
| Host.Host.DestroySnap | internal/storage/ebszfs/zfs.go:197-203 | Refused while the snapshot has clones |
| Host.Host.ListVolumes | internal/storage/ebszfs/zfs.go:107-128 | Every branch dataset once |
| Host.Host.Start | internal/engine/mysql/mysql.go:146-178 | Nothing happens when the unit is already active; may have started although it reports a failure |
| Host.Host.Stop | internal/engine/mysql/mysql.go:180-190 | A graceful stop leaves the datadir clean |
| Host.Host.Kill | internal/engine/mysql/mysql.go:193-203 | Reports success whether or not the process is gone |
| Host.Host.IsRunning | internal/engine/mysql/mysql.go:226-234 | A positive answer is right; a failing probe reads as "not running" |
| Host.Host.Hook | internal/workspace/manager.go:1169-1190 | A hook may write through its unit's server whether it ends well or not; what it wrote is remembered |
| Store.DB.CreateBranch | internal/state/state.go:229-235 | Inserts a creating row and touches no other |
| Store.DB.SetState | internal/state/state.go:253-275 | Field by field: the request stays, the diagnosis goes, and the time of an error is kept while the row stays in error |
| Store.DB.SetError | internal/state/state.go:277-302 | Field by field: the failed operation, whether it can be retried, and the time of the first error; the request stays |
| Store.DB.ListBranches | internal/state/state.go:377-398 | Every row once |
| Store.DB.RegisterBaseline | internal/state/state.go:638-651 | An upsert of the two declarations that keeps the age and the current flag, and leaves other rows alone |
| Store.DB.SetCurrentBaseline | internal/state/state.go:654-670 | Exactly one row is current afterwards, registered or not before; nothing else of any row changes |
| Store.DB.ListBaselines | internal/state/state.go:673-702 | Every baseline once, newest first |
| Store.SomeNewest | internal/state/state.go:673-702 | There is a newest row in any set of rows |
| Store.DB.CurrentBaseline | internal/workspace/manager.go:1076-1081 | The current row if there is one, the backend default otherwise |
| Store.DB.Referenced | internal/state/state.go:718-735 | Tells exactly whether a branch row names the snapshot as its origin |
| Classify.ContainsAfter | internal/workspace/errors.go:25-31 | A word is found behind any text |
| Classify.ContainsFirst | internal/workspace/errors.go:25-31 | A word that is found brings its first letter |
| Classify.HookError | internal/workspace/manager.go:1169-1190 | The text of a hook failure contains the word the diagnosis looks for |
| Classify.RecoverableExceptSnapshot | internal/workspace/errors.go:25-59 | A failure is final exactly at stage snapshot, and not even there when its text contains "hook" |
| Classify.CodesTell | internal/workspace/errors.go:25-59 | Which stages may have failed, read off the code |
| Classify.SnapshotOfHookBranchIsRetried | internal/workspace/errors.go:25-49 | An input for which the text overrides the stage |
| Invariant.NothingBlocksDestroy | internal/workspace/manager.go:1010-1040 | A volume that holds no registered baseline has no clones, so zfs destroys it and rolls it back |
| Invariant.NoBaselineOnReserved | internal/workspace/manager.go:994-1018 | Nothing is registered under a stash name, another reserved name, or a name without a row |
| Invariant.CurrentExists | internal/workspace/manager.go:1075-1081 | The current baseline exists unless its own deletion was cut short |
| Invariant.LostIsGone | internal/workspace/baseline.go:258-264 | A registered baseline is lost exactly when its snapshot is not there |
| Invariant.OtherStrays | internal/workspace/manager.go:544-631 | A volume or stash that comes or goes leaves every other row's lineage as it was, when no baseline lives on it |
| Invariant.OneOrigin | internal/storage/ebszfs/zfs.go:94-104 | A volume is a clone of one snapshot only |
| Invariant.CloneKeeps | internal/storage/ebszfs/zfs.go:94-104 | The invariant survives a clone of a registered or base snapshot |
| Invariant.SnapshotKeeps | internal/storage/ebszfs/zfs.go:141-150 | The invariant survives a snapshot, and no other snapshot goes away |
| Invariant.SnapshotClean | internal/workspace/manager.go:388-406 | A snapshot of a datadir that was stopped is clean |
| Invariant.RenamePool | internal/storage/ebszfs/zfs.go:169-180 | Clones, processes and identities survive putting a volume aside or back |
| Invariant.RenameKeeps | internal/workspace/manager.go:565-575 | The invariant survives it for a branch that neither Reset nor Wake may rely on |
| Invariant.RollbackKeeps | internal/workspace/manager.go:463-467 | The invariant and @init survive a rollback to @init when no baseline lives on the branch |
| Invariant.RollbackClean | internal/workspace/manager.go:457-467 | A rollback leaves the datadir dirty at most under its own live process |
| Invariant.DestroyKeeps | internal/workspace/manager.go:673-683 | The invariant survives destroying a volume without baselines |
| Invariant.DestroySnapKeeps | internal/workspace/baseline.go:227-233 | Between the destroyed snapshot and its row, exactly that baseline is lost |
| Invariant.ForgetBaselineKeeps | internal/workspace/baseline.go:234-237 | With the row gone nothing is lost |
| Invariant.StartKeeps | internal/engine/mysql/mysql.go:146-178 | The invariant survives a start on the unit's own datadir |
| Invariant.StopClean | internal/engine/mysql/mysql.go:180-190 | After a graceful stop a datadir that was dirty only under that process is clean |
| Invariant.KillClean | internal/engine/mysql/mysql.go:193-203 | Killing the engine of a branch that Reset and Wake do not rely on keeps usable datadirs clean |
| Invariant.DropRowKeeps | internal/state/state.go:360-364 | A row may go when no baseline lives on its dataset |
| Invariant.RegisterKeeps | internal/state/state.go:638-651 | A registration keeps the invariant while no operation rebuilds the branch it lives on |
| Invariant.RegisterCurrent | internal/state/state.go:638-651 | A registration never moves the current pointer |
| Invariant.MakeCurrentKeeps | internal/state/state.go:654-670 | Moving the pointer to a registered baseline keeps the invariant and makes it the current one |
| Manager.UnitStaysHome | internal/engine/mysql/mysql.go:180-203 | What happens through the unit of a branch shows on that branch and its stash only |
| Manager.Manager.constructor | internal/workspace/manager.go:207-218 | Any pool and tables that meet the invariant are a valid start, `Start.FreshStart` for one |
| Manager.Manager.RunHook | internal/workspace/manager.go:1169-1190 | Starts nothing where no hook is configured; otherwise what the hook writes shows on the branch's volume, or on its stash if the process is still there |
| Manager.Manager.SnapshotOwn | internal/workspace/manager.go:404-411 | Every step on the branch keeps the invariant whether it succeeds, fails or is where the daemon dies; snapshots need a clean datadir |
| Manager.Manager.Stash | internal/workspace/manager.go:571-577 | The volume is under one of the two names, whatever the rename reports |
| Manager.Manager.Unstash | internal/workspace/manager.go:579-587 | The same on the way back |
| Manager.Manager.RollbackOwn | internal/workspace/manager.go:463-467 | Succeeds without faults exactly when @init is there; the data are those of @init |
| Manager.Manager.MarkState | internal/state/state.go:253-275 | Running and sleeping need @init and an orderly datadir |
| Manager.Manager.FailOp | internal/workspace/errors.go:62-69 | The row is in error with the operation Retry repeats; only a failed snapshot may be final |
| Manager.Manager.Backs | internal/workspace/manager.go:1026-1040 | Tells exactly whether a registered baseline lives on the branch's dataset |
| Manager.Manager.AllocPort | internal/workspace/manager.go:275-295 | The lowest free port, or the requested one exactly when it is in range and free |
| Manager.Manager.AdmitMemory | internal/workspace/manager.go:861-902 | Admits only when fewer rows than max_running are running, creating or resetting |
| Manager.Manager.RemoveBaseline | internal/workspace/baseline.go:258-264 | Snapshot, then row; a crash in between loses that baseline and no other |
| Manager.Manager.EngineDies | internal/workspace/reconcile.go:100-107 | An engine that goes away on its own keeps the invariant, but not the cleanness of datadirs |
| Manager.Manager.Quiesced | internal/workspace/refresh.go:424-436 | With no process on base, its datadir is clean |
| Lifecycle.StartReady | internal/workspace/manager.go:392-400 | Start and wait: up, or in error with this operation to retry; the contents stay |
| Lifecycle.HookAndStop | internal/workspace/manager.go:394-402 | Hook and graceful stop leave a datadir fit for a snapshot |
| Lifecycle.TakeInit | internal/workspace/manager.go:404-411 | @init holds the data at the time, is recorded, and is refused exactly when there is one already |
| Lifecycle.Finish | internal/workspace/manager.go:404-417 | @init, then the engine; succeeds without faults when there was no @init |
| Lifecycle.ChooseRow | internal/workspace/manager.go:318-366 | The checks of Create in their order, the port and the origin they settle on |
| Lifecycle.AdmittedMeans | internal/workspace/manager.go:318-366 | What an admitted request looks like: a new name that is no internal one, room for one more, a free port - the lowest if none is asked for - and the baseline asked for, or the current one, or the default |
| Lifecycle.RefusedMeans | internal/workspace/manager.go:318-366 | Each refusal has its own reason, and comes only where no earlier one applies |
| Lifecycle.Create | internal/workspace/manager.go:318-421 | Whom it refuses and why; every admitted request gets a row within all limits, with the profile asked for or the default, one of those configured; done means a running clone of the origin whose @init holds what the on-create hook wrote through the branch's own server, and otherwise the origin's data; a failure is in error and retriable; a crash leaves a creating row or none; a row names another lineage only if a volume without a row was in the way; other branches are untouched |
| Rebuild.SetAside | internal/workspace/manager.go:544-577 | The old volume is kept under one of its names; a stale stash is cleared only when the row was in error |
| Rebuild.CloneOrRestore | internal/workspace/manager.go:578-588 | A failed clone puts the old volume back; two calls have to fail before the branch is left without one |
| Rebuild.PutBack | internal/workspace/manager.go:579-587 | The volume under the branch name stays or is the stashed one; without it a call has failed |
| Rebuild.BuildNew | internal/workspace/manager.go:578-618 | Until the swap the stashed volume survives every failure and crash |
| Rebuild.Swap | internal/workspace/manager.go:619-630 | The origin is recorded before the old volume goes |
| Rebuild.OriginElsewhere | internal/workspace/manager.go:1019-1026 | A baseline to clone from lives neither on the branch nor on its stash |
| Rebuild.Replace | internal/workspace/manager.go:544-631 | The whole sequence: success, failure and crash after every step |
| Rebuild.RecreateFrom | internal/workspace/manager.go:520-631 | Refused only for want of room, and then unchanged; done means the hooks were started in order and the engine runs on the new clone, which carries @init; in every other outcome the old volume is kept until the new one carries @init, and the volume under the name is none, the old one or a new clone of the origin; the row comes to name another lineage only if its origin was another; the exact condition for success |
| Rebuild.RebuiltLineage | internal/workspace/manager.go:544-631 | What a rebuild, finished or not, does to the agreement of row and volume |
| Rebuild.BuiltIsRebuilt | internal/workspace/manager.go:578-631 | Setting aside and building in sequence never lose the old volume before the new one is complete |
| Requests.UsableIsReady | internal/workspace/manager.go:449-481 | A branch that Reset and Wake rely on has @init and an orderly datadir |
| Requests.Reset | internal/workspace/manager.go:426-481 | Refused exactly for an unknown branch, a missing volume or a baseline on it, never for want of room; done means running on the data of @init; without faults it succeeds exactly when @init is there |
| Requests.Recreate | internal/workspace/manager.go:487-509 | Refused exactly when there is no row, no volume or a baseline on it; otherwise rebuilt from the current baseline; done means the on-recreate hook ran, or else the on-create hook, and then the on-reset hook |
| Requests.Wake | internal/workspace/manager.go:917-975 | Keeps contents and origin; a failure is recorded as wake; the exact condition for success |
| Requests.Sleep | internal/workspace/reaper.go:165-184 | Stops a running branch and leaves its datadir clean; any other branch is left alone |
| Requests.Delete | internal/workspace/manager.go:646-688 | Refused exactly for an unknown branch or a baseline on it; the row goes after the dataset; a missing dataset loses the row only |
| Requests.RetryCreate | internal/workspace/errors.go:102-118 | Rebuilds from the row's own origin |
| Requests.RetryRebuild | internal/workspace/errors.go:72-118 | The exact condition for a retried create or recreate, and that an unfinished one leaves no usable branch |
| Requests.Retry | internal/workspace/errors.go:72-99 | What it refuses; without faults it succeeds exactly under the stated condition, with the origin the failed operation prescribes, @init in place and no stash left |
| Reconcile.RecoverRow | internal/workspace/reconcile.go:59-108 | Interrupted rows become retriable errors; a reset is told from a recreate by the stash; a missing volume is final |
| Reconcile.RecoverRows | internal/workspace/reconcile.go:50-108 | Every row is read off as it was found, whatever the other rows needed |
| Reconcile.Restart | internal/workspace/reconcile.go:39-108 | Afterwards no operation is under way, and every row is what reconcile prescribes; no branch has come by a process, and without faults no sleeping row has one that had none |
| Reconcile.OrphanIsUnbacked | internal/workspace/reconcile.go:109-131 | An orphan holds no registered baseline and no row |
| Reconcile.GCOrphans | internal/workspace/reconcile.go:109-158 | Every volume under the name of a row, and every stash whose row is in error or under a rebuild, and every internal volume, stays as it is; without faults the stashes of all others and the volumes without a row are gone |
| Recovery.RoomRemains | internal/workspace/manager.go:861-883 | A row that is not active leaves no less room |
| Recovery.OriginStays | internal/workspace/manager.go:1019-1040 | Work on a branch neither creates nor destroys the baseline it is cloned from |
| Recovery.CreateThenRetry | internal/workspace/errors.go:25-118 | One Retry repairs a failed Create exactly when the origin is there |
| Recovery.CreateThenRestart | internal/workspace/reconcile.go:90-98 | A Create that failed in its clone and left no volume is retriable until a restart and final after it |
| Recovery.RecreateThenRetry | internal/workspace/errors.go:72-99 | One Retry repairs a failed Recreate exactly when the branch still has a volume under its name and the current baseline is there; with a single failing call there is one, unless that call was the stash rename and it took effect |
| Recovery.StashThatFailsLate | internal/workspace/manager.go:487-500 | From every pool with a volume and no stash: the one call, allowed to a failing rename, after which Retry cannot succeed |
| Recovery.ResetThenRetry | internal/workspace/errors.go:72-99 | One Retry always repairs a failed Reset of a running or sleeping branch |
| Recovery.WakeThenRetry | internal/workspace/errors.go:72-99 | One Retry always repairs a failed Wake of a sleeping branch |
| Recovery.RecreateThenReset | internal/workspace/manager.go:449-481 | After a failed Recreate and a Reset, the volume is a clone of the origin the row names exactly if it was before and was not replaced, or the row named the current baseline already; which stages replace it |
| Recovery.LineageAfter | internal/workspace/manager.go:544-631 | Which baseline the volume is a clone of after an unfinished rebuild |
| Start.AsleepIsSound | internal/workspace/manager.go:487-509 | A state that meets the invariant, with a sleeping branch on one baseline while another is current |
| Start.RecreateThenResetStrays | internal/workspace/manager.go:544-631 | The calls, each allowed by its contract, that lead from there to a running branch under a row that names the wrong origin |
| Recovery.ResetKeepsLineage | internal/workspace/manager.go:449-481 | A reset never changes which baseline the volume is a clone of |
| Recovery.RecreateThenRestart | internal/workspace/reconcile.go:70-87 | After a crash anywhere in Recreate, reconcile records a reset only if the volume under the branch's own name carries @init, a recreate only if there is a stash. Retrying the reset succeeds; retrying the recreate succeeds exactly with a volume under the branch's own name and the current baseline in place, and without such a volume it is refused and changes nothing |
| Recovery.RoomAfterRestart | internal/workspace/manager.go:861-883 | A restart leaves the room to run that the interrupted operation had been admitted for |
| Recovery.RebuildThenCollect | internal/workspace/reconcile.go:109-158 | After a rebuild that did not get through, a restart and a collection of orphans, the volume the branch had is still there, under its name or as its stash, unless a complete new one has taken its place |
| BaselineOps.MadeCurrentPublishes | internal/workspace/baseline.go:128-139 | One current baseline, which meets the policy |
| BaselineOps.RegisteredKeepsPolicy | internal/state/state.go:638-651 | A registration keeps declarations and policy |
| BaselineOps.FlagsKeptTwice | internal/state/state.go:638-670 | Declarations stand over any two steps |
| BaselineOps.ValidateIsNoRow | internal/workspace/refresh.go:331-344 | _validate is neither a branch nor a home of baselines |
| BaselineOps.ValidateCandidate | internal/workspace/refresh.go:331-384 | Touches _validate only, leaves no volume there without faults, and succeeds without faults exactly with room and the snapshot in place |
| BaselineOps.ValidateBaseline | internal/workspace/refresh.go:314-326 | Sets validated and nothing else; the exact condition for success |
| BaselineOps.SnapshotAndRegister | internal/workspace/baseline.go:73-113 | The registered snapshot holds the data of the stopped branch; where the snapshot fails the branch is started again |
| BaselineOps.RestartBranch | internal/workspace/baseline.go:80-95 | The branch runs again |
| BaselineOps.ValidateAndPublish | internal/workspace/refresh.go:263-284 | Publishes exactly one baseline that meets the policy, or leaves the pointer alone; the exact outcome without faults |
| BaselineOps.PromoteRunning | internal/workspace/baseline.go:78-139 | From the stop on: the exact outcome without faults, and that the branch has a process again however it ends |
| BaselineOps.PromoteBranch | internal/workspace/baseline.go:43-139 | Exactly what is refused before the branch is stopped, and what afterwards; without faults exactly when it succeeds or which refusal it gives; done means published with the declared flags and the branch's data; otherwise the pointer stands. Without faults the branch has a process afterwards exactly if it had one or the promotion got as far as the stop, so a sleeping branch is started on every way out behind it; no unit but the branch's and _validate comes or goes |
| BaselineOps.SetBaseline | internal/workspace/baseline.go:144-159 | Moves the pointer exactly to registered baselines that meet the policy |
| BaselineOps.DeleteBaseline | internal/workspace/baseline.go:243-265 | Refuses exactly the current, the referenced and the unknown; no other snapshot goes away, and a crash costs this baseline at most; the exact condition for success |
| BaselineOps.CutShortIsForGood | internal/workspace/baseline.go:258-264 | A deletion cut short by a crash leaves a baseline that cannot be deleted and can be made current |
| BaselineOps.OtherSnapsAlike | internal/storage/ebszfs/zfs.go:197-203 | Destroying one snapshot neither hides nor frees another |
| BaselineOps.GoesByPolicy | internal/workspace/baseline.go:203-222 | In fields of the rows: let go exactly if not current, nor the default where none is, the origin of no branch, not among the newest, and old enough |
| BaselineOps.CollectStep | internal/workspace/baseline.go:203-238 | One round of the collection: deleted or kept, never both |
| BaselineOps.CollectOne | internal/workspace/baseline.go:215-238 | One baseline of the list is kept, named or deleted; dying in it costs at most this one, and only if it was let go |
| BaselineOps.GCBaselines | internal/workspace/baseline.go:176-240 | Deletes, and loses to a crash, only what the policy lets go, and at most one to the crash; a dry run names exactly that and changes nothing; without faults exactly that, as far as zfs agrees, is gone |
| Refresh.Quiesce | internal/workspace/refresh.go:233-241 | Base is snapshotted only with no process on it and a clean datadir |
| Refresh.BuildCandidate | internal/workspace/refresh.go:201-255 | Registers a clean base snapshot under a new tag, never current; without faults exactly when the tag is free |
| Refresh.RunRefresh | internal/workspace/refresh.go:257-284 | Publishes one baseline that meets the policy, or leaves the pointer alone; which refusals leave the candidate registered; the exact outcome without faults |
| Reaper.RemovedExactly | internal/workspace/reaper.go:50-136 | In fields of the row: deleted exactly when its lease ended before now, its error is old enough, or it was neither created nor used within the limit of its profile and nobody is on it - and it holds no baseline |
| Reaper.StoppedExactly | internal/workspace/reaper.go:50-144 | In fields of the row: stopped exactly when it runs and a deletion that its baselines rule out, or the idle rule, applies |
| Reaper.TouchedExactly | internal/workspace/reaper.go:68-120 | When a missing error time is set, and when a branch counts as used after all |
| Reaper.LongerLeaseSpares | internal/workspace/reaper.go:50-58 | A longer lease never brings a deletion forward |
| Reaper.LapsedForGood | internal/workspace/reaper.go:50-58 | A lease that has lapsed stays lapsed at every later time, whatever the rules |
| Reaper.TransitionsAreKept | internal/workspace/reaper.go:50-55 | A branch under an operation is left alone |
| Reaper.SecondLookKeeps | internal/workspace/reaper.go:44-146 | After its verdict a row needs nothing more at the same instant |
| Reaper.Reap | internal/workspace/reaper.go:44-146 | Whatever else is under way, fails or crashes: each row dealt with is as its verdict allows, the others are as they were, and so are the volumes and processes of branches that are not selected. Without faults exactly the rows are gone that are to go by their own fields - by leases alone, those whose lease ended before now - and with each row its volume |
| Reaper.ReapedSpares | internal/workspace/reaper.go:50-55 | A branch under an operation keeps row, volume and process through a pass; one that holds a baseline is never deleted |
| Reaper.ReapTwice | internal/workspace/reaper.go:44-146 | A second pass changes neither rows nor volumes |
| Runs.TableStep | internal/state/state.go:638-670 | Declarations, policy and tags over one more command |
| Runs.Execute | internal/workspace/manager.go:318-421 | Every command keeps the invariant, the declarations and the policy; a crashed deletion costs at most one baseline, which was not current and not in use; only an unfinished rebuild or a Create over a leftover volume makes a stray; only a promotion gives a sleeping row a process |
| Runs.Run | internal/workspace/reconcile.go:39-108 | Any sequence of commands, faults, crashes and restarts keeps the invariant; baselines are lost one by one, each to its own deletion that the daemon died in, while it was registered, not current and not in use; only a dying engine ends the cleanness |
| Runs.OneMoreCut | internal/workspace/baseline.go:258-264 | The record of such deletions accounts for one more |
| Runs.NothingToCut | internal/workspace/baseline.go:176-265 | A run without deletions loses no baseline |
| Runs.StrayHistory | internal/workspace/manager.go:544-631 | Over any run: a row names another lineage than its volume's only if it did at the start, or since a Create over a volume without a row or an unfinished Recreate, or retry of one, away from the row's origin |
| Runs.UsableStrayHistory | internal/workspace/manager.go:449-481 | And such a branch is usable only if it was at the start, or since a reset of its row in error after that |
| Runs.SleepwalkHistory | internal/workspace/baseline.go:84-95 | Over any run: a sleeping row has a live process only if it had one all along, or without a break since a promotion of the branch while it slept, or since a restart that found the row running with its process and whose probe failed |
| Runs.VolumesAreNamed | internal/workspace/manager.go:449-481 | A branch's volume is a clone of the origin its row names, exactly unless the row is one of these |
| Start.FreshStart | internal/workspace/refresh.go:201-255 | A machine with a stopped, snapshotted base and nothing else meets the invariant |
| Start.RunFromStart | internal/workspace/reconcile.go:39-108 | So every run of such a machine does, with every lost baseline, every stray row and every sleeping row with a process accounted for |
| Runs.BaselinesAreThere | internal/workspace/manager.go:994-1040 | A registered baseline exists exactly unless lost, only registered ones are lost, and the origin of a branch exists unless lost |
| Runs.UsableBranchesHaveInit | internal/workspace/manager.go:449-481 | Running, sleeping and wake-failed branches carry the @init Reset rolls back to |
| Runs.SnapshotsAreClean | internal/workspace/manager.go:388-406 | Every snapshot was taken of a stopped, clean datadir while engines stop only through Stop and Kill |
| Runs.PortsAreDistinct | internal/workspace/manager.go:275-295 | No two rows share a port |
| Admission.LockedStep | internal/workspace/manager.go:220-230 | Under its lock a branch is as its operation last saw or wrote it |
| Admission.RowsAfter | internal/workspace/manager.go:337-366 | Each section either leaves rows alone, inserts an admitted one, rewrites one, or drops one |
| Admission.RunningStep | internal/workspace/manager.go:944-957 | Every step but a reset keeps the number of active rows within max_running |
| Admission.ResetKeepsBoundIff | internal/workspace/manager.go:449-451 | A reset keeps it exactly when its branch was active already or there was room |
| Admission.LimitsHold | internal/workspace/manager.go:337-366 | In every interleaving rows stay within max_branches and ports distinct and in range |
| Admission.RunningHolds | internal/workspace/manager.go:861-883 | Active rows stay within max_running until, and exactly until, a reset overcommits |
| Admission.ResetOvercommits | internal/workspace/manager.go:449-451 | An interleaving in which it does |
| Sections.Alike | internal/workspace/manager.go:861-883 | Port, count and active rows are counted alike in the tables and in the admission model |
| Sections.RequestRuns | internal/workspace/manager.go:220-230 | Whatever a request may do to its row is done by a path of sections of one thread, which ends with the lock given back unless the daemon dies |
| Sections.CreateRuns | internal/workspace/manager.go:318-421 | Create is such a path, from every state the other threads may have left |
| Sections.WakeRuns | internal/workspace/manager.go:917-975 | So is Wake |
| Sections.RecreateRuns | internal/workspace/manager.go:487-631 | So is Recreate |
| Sections.ResetRuns | internal/workspace/manager.go:426-481 | So is Reset |
| Sections.SleepRuns | internal/workspace/reaper.go:165-184 | So is Sleep |
| Sections.DeleteRuns | internal/workspace/manager.go:646-688 | So is Delete |
| Ops.KeysStep | internal/ops/ops.go:68-90 | A target is reserved exactly while one owner has it |
| Ops.CountStep | internal/ops/ops.go:134-166 | The wait group counts the live goroutines, and records follow releases |
| Ops.AlwaysInv | internal/ops/ops.go:68-166 | Both in every interleaving, failures to record and panics included |
| Ops.NeverTwo | internal/ops/ops.go:68-90 | Two exclusive operations on a target never execute at once |
| Ops.FinishedMeansReleased | internal/ops/ops.go:154-163 | A finished record implies the slot was released |
| Ops.DrainedMeansIdle | internal/ops/ops.go:95-104 | An empty wait group means no operation is executing |
| Ops.BusyIdMayBeStale | internal/ops/ops.go:79-88 | The id reported while busy can belong to a finished operation |
| Ops.StaleStep | internal/ops/ops.go:68-90 | The id told goes stale by a caller that publishes after its operation is over, and only so; it stays stale until the owner publishes or is over |
| Ops.StaleExactly | internal/ops/ops.go:68-90 | Over every interleaving: the id told is stale exactly if some caller published late and nothing since has undone it |
| Ops.PromptCallersAreBelieved | internal/ops/ops.go:68-90 | If every caller publishes while its operation has the target, the id told is the owner's |
| Limiter.WrapAgain | internal/authlimit/limiter.go:110-126 | A counter that wraps at 64 bits counts modulo 2^64 |
| Limiter.IntendedIsCappedDoubling | internal/authlimit/limiter.go:35-49 | The intended delay doubles from one second and is capped at eight |
| Limiter.ShiftedOverflows | internal/authlimit/limiter.go:129-139 | A shifted second never falls between 0 and 8 s again, although it wraps |
| Limiter.DelayIsIntendedIff | internal/authlimit/limiter.go:129-139 | The delay is the intended one exactly for all 64-bit counts but the five lowest |
| Limiter.DelayIsMonotone | internal/authlimit/limiter.go:129-139 | More failures never shorten the delay, which never exceeds the maximum |
| Limiter.PenaltyByNumbers | internal/authlimit/limiter.go:35-107 | By the numbers: nothing ten minutes after the latest failure; until then the delay for as many failures as there were without such a gap |
| Limiter.RunIsLatest | internal/authlimit/limiter.go:110-126 | The run length is that of the latest failures with gaps within the window |
| Limiter.FailRemembers | internal/authlimit/limiter.go:110-126 | Counting with a window is counting the run of the unbounded history |
| Limiter.ForgetRemembers | internal/authlimit/limiter.go:166-175 | Forgetting an entry out of the window loses nothing |
| Limiter.Limiter.Acquire | internal/authlimit/limiter.go:67-78 | At most eight checks per source in flight |
| Limiter.Limiter.Release | internal/authlimit/limiter.go:81-91 | Gives back one slot, and never more than were taken |
| Limiter.Limiter.Penalty | internal/authlimit/limiter.go:96-107 | What the unbounded history calls for, whenever sweeps happened |
| Limiter.Limiter.Fail | internal/authlimit/limiter.go:110-126 | The same, with this failure added |
| Limiter.Limiter.Sweep | internal/authlimit/limiter.go:166-175 | Drops exactly what is out of the window, from 1024 entries on |
| Limiter.Limiter.Reset | internal/authlimit/limiter.go:142-149 | Wipes the history of its source |
| Base64.DecodeBack | internal/pgproxy/scram.go:66-72 | Decoding undoes encoding for every byte string |
| Base64.EncodeIsPlain | internal/pgproxy/scram.go:66-72 | Encoded text has no comma and no line break |
| Bits.XorByteTwice | internal/pgproxy/scram.go:57-63 | Xor is its own inverse |
| Bits.XorBits | internal/pgproxy/scram.go:57-63 | Bit by bit, xor tells where its arguments differ |
| Bits.XorBytes | internal/pgproxy/scram.go:57-63 | Byte by byte |
| Bits.XorTurned | internal/pgproxy/scram.go:167-171 | What a mask hides is one text only |
| Base64.BreaksSkipped | internal/pgproxy/scram.go:66-72 | Line breaks do not count when a text is decoded |
| Text.AtoiBack | internal/pgproxy/scram.go:227-230 | A count is read as it is written, exactly as long as 64 bits hold it |
| Text.OpeningIs | internal/pgproxy/scram.go:94-107 | Splitting into three parts is exact, both ways |
| Text.BeforeProof | internal/pgproxy/scram.go:162-166 | The text before the proof is found where the proof starts |
| Scram.Server.FirstReply | internal/pgproxy/scram.go:89-133 | Accepts exactly well-formed openings without channel binding, and answers with the combined nonce and the salt |
| Scram.Server.FinalReply | internal/pgproxy/scram.go:136-177 | Accepts exactly when channel, nonce and size are right and the proof yields a key that hashes to the stored one; under a hash without collisions, exactly the one proof made from the client key; every other well-formed message is a wrong password |
| Scram.Client.Final | internal/pgproxy/scram.go:208-240 | Accepts exactly a nonce that extends its own, a salt and a positive count |
| Scram.Client.VerifyServerFinal | internal/pgproxy/scram.go:243-259 | Accepts exactly the right server signature |
| Scram.FirstIsRead | internal/pgproxy/scram.go:197-205 | The server reads the client's opening as it was meant |
| Scram.ServerFirstIsRead | internal/pgproxy/scram.go:130-132 | The client reads nonce, salt and count as they were sent |
| Scram.FinalIsRead | internal/pgproxy/scram.go:136-166 | The server reads channel, nonce and proof as they were sent |
| Scram.ProofIsTheOne | internal/pgproxy/scram.go:167-174 | Under a hash without collisions one proof and no other proves the password |
| Scram.DerivedAsRfc | internal/pgproxy/scram.go:30-49 | The keys make proof and signature as section 3 of RFC 5802 defines them |
| Scram.HonestFinal | internal/pgproxy/scram.go:136-177 | Both sides sign the same message, and equal keys prove the password |
| Scram.Exchange | internal/pgproxy/scram.go:89-259 | For all passwords, nonces and salts: both sides sign the message of the RFC; under a hash without collisions the server accepts exactly when both passwords make the same proof, and the client exactly when they make the same signature; always so for equal prepared passwords |
| Bits.BigEndianBack | internal/pgproxy/protocol.go:133-141 | Fixed-width numbers are read back |
| Bits.LittleEndianBack | internal/proxy/packet.go:82-119 | The same, lowest byte first |
| Bits.CStringAt | internal/pgproxy/protocol.go:99-106 | A zero-terminated string is read back with what follows it |
| Bits.TakeCString | internal/pgproxy/protocol.go:99-106 | Fails exactly without a zero byte, and gives back all bytes otherwise |
| PgWire.ReadMessage | internal/pgproxy/protocol.go:116-130 | Reads what was written within the limit, and consumes exactly its bytes |
| PgWire.WriteMessage | internal/pgproxy/protocol.go:133-141 | Writes one frame: type, length, body |
| PgWire.ReadMessages | internal/pgproxy/protocol.go:116-141 | A stream of messages parses back to the same list |
| PgWire.ReadStartup | internal/pgproxy/protocol.go:59-96 | Reads one length-prefixed body within the limit and consumes exactly its bytes |
| PgWire.PairsBack | internal/pgproxy/protocol.go:77-96 | The parameter list is read back |
| PgWire.WriteStartup | internal/pgproxy/protocol.go:144-159 | Writes every parameter once, in any order |
| PgWire.StartupBack | internal/pgproxy/protocol.go:59-159 | Written and read back, parameters are the same map |
| PgWire.CancelBack | internal/pgproxy/protocol.go:217-224 | A cancel request carries its key through |
| PgWire.TlsBytes | internal/pgproxy/protocol.go:18-26 | The eight bytes that ask for TLS |
| PgWire.EmptyStartupBytes | internal/pgproxy/protocol.go:144-159 | The nine bytes of a startup message without parameters |
| PgWire.CancelBytes | internal/pgproxy/protocol.go:217-224 | The sixteen bytes of a cancel request |
| PgWire.BackendParams | internal/pgproxy/backend.go:118-128 | All parameters but the user, and no empty database |
| PgWire.Forward | internal/pgproxy/backend.go:24-27 | What the client sent is what the backend reads, the user and an empty database aside |
| PgWire.ReadErrorText | internal/pgproxy/protocol.go:199-214 | Scans the fields for the message as the reference function reads it |
| PgWire.ErrorTextBack | internal/pgproxy/protocol.go:185-214 | The message of an error response is found behind its other fields |
| Bits.BitOfCombine | internal/proxy/packet.go:320-323 | A bitwise operation acts bit by bit |
| MysqlWire.NegotiatedExactly | internal/proxy/packet.go:320-323 | A capability is claimed exactly when client, backend and proxy share it, or it is one of three |
| MysqlWire.PacketBackIff | internal/proxy/packet.go:44-69 | A packet is read back exactly when its length fits three bytes |
| MysqlWire.BuildGreeting | internal/proxy/packet.go:82-119 | The greeting carries a printable salt without zero bytes |
| MysqlWire.ParseGreeting | internal/proxy/packet.go:276-314 | What the parser reads, error and panic cases included |
| MysqlWire.PanicsIff | internal/proxy/packet.go:302-312 | The parser panics exactly on a greeting of version 10, long enough for auth data, that declares 1 to 8 bytes of it |
| MysqlWire.PanicHappens | internal/proxy/packet.go:302-312 | A greeting on which it does |
| MysqlWire.GreetingBack | internal/proxy/packet.go:82-314 | The parser recovers salt and capabilities from the greeting |
| MysqlWire.AdvertisedExactly | internal/proxy/packet.go:82-104 | Which ten capabilities a greeting advertises, and that of TLS exactly where the proxy has it |
| MysqlWire.ClientIsRead | internal/proxy/packet.go:208-273 | Every response of protocol 4.1 is read as it was meant, with authentication data counted or zero-terminated, with a database or without |
| MysqlWire.ParseResponse | internal/proxy/packet.go:208-273 | What the parser reads of a handshake response, error cases included; it never panics |
| MysqlWire.BuildResponse | internal/proxy/packet.go:320-341 | The bytes the proxy sends |
| MysqlWire.ResponseBack | internal/proxy/packet.go:208-341 | Parsing undoes building for zero-free names and up to 255 bytes of auth data |
| Sessions.AlwaysCountsAndStory | internal/proxy/proxy.go:112-172 | The counters count the sessions they are for, in every interleaving |
| Sessions.LimitsHold | internal/proxy/proxy.go:112-172 | At most eight checks per source and max_conn_per_branch sessions per branch |
| Sessions.RoutedAfterCheck | internal/proxy/proxy.go:226-250 | In every interleaving no branch is routed to before that session's password was found right and its slot returned |
| Gate.BranchOfIs | internal/pgproxy/pgproxy.go:195-204 | The branch is what follows the first at sign of the user, if such a branch may exist and what precedes it may log in; both directions |
| Tokens.NativeIsTheOne | internal/proxy/packet.go:121-149 | Under a hash without collisions: exactly one token, and the one that a server which keeps the doubly hashed password takes |
| Tokens.Sha2IsTheOne | internal/proxy/packet.go:151-175 | The same for caching_sha2_password |
| Tokens.Verify | internal/proxy/proxy.go:160-165 | Although the scheme is told from the length of the token alone, exactly the two right tokens fit |
| MysqlProxy.Server.VerifyClient | internal/proxy/proxy.go:150-172 | The slot is held for the check only; what the verdict does to the history of the source |
| MysqlProxy.Server.AuthTerminate | internal/proxy/proxy.go:182-293 | How a session ends and what it tells the outside; only the branch behind the at sign of the user is routed to, and only with the token of the app password in one of the two schemes; a user is refused as such exactly without such a branch; no slot or count is left behind |
| Gate.Branches.Acquire | internal/pgproxy/pgproxy.go:116-124 | Counts a session exactly while its branch has fewer than the limit |
| Gate.Branches.Release | internal/pgproxy/pgproxy.go:133-139 | Takes one off, and never below zero |
| Gate.Branches.Enter | internal/pgproxy/pgproxy.go:228-254 | Routes once; the session stays counted, and the branch is touched, exactly when there was a place and the backend is there |
| Gate.Branches.RouteAndServe | internal/proxy/proxy.go:249-293 | Routes once, counts the session while it lasts, touches the branch only when the backend is there |
| PgProxy.HearingByBytes | internal/pgproxy/pgproxy.go:279-312 | By the bytes on the wire: S and a handshake for a request for TLS where there is TLS, N elsewhere; always N for GSSAPI |
| PgProxy.AnnouncedByBytes | internal/pgproxy/pgproxy.go:407-429 | By the bytes on the wire: a message of type K announces the two numbers it holds, Z or E ends the startup sequence, any other passes |
| PgProxy.ErrorByBytes | internal/pgproxy/protocol.go:185-196 | An error response, letter by letter |
| PgProxy.Server.ReadStartupWithTls | internal/pgproxy/pgproxy.go:279-312 | For every byte stream: the answer to every request for encryption, and the startup message behind them |
| PgProxy.Server.VerifyScram | internal/pgproxy/pgproxy.go:315-364 | Right, wrong or no proof, as the bytes received say |
| PgProxy.HonestClientIsRight | internal/pgproxy/pgproxy.go:315-364 | What an honest client with the password sends is a right proof, whatever follows it |
| PgProxy.RightMeans | internal/pgproxy/pgproxy.go:315-364 | Under a hash without collisions a right proof is two messages of type p, an opening for SCRAM-SHA-256 and a final one that repeats its channel and both nonces and holds the proof made from the server's own password |
| PgProxy.Server.VerifyClient | internal/pgproxy/pgproxy.go:153-170 | The slot is held for the exchange only; a right proof clears the history, a wrong one lengthens it, anything else leaves it |
| Cancels.LookupIsLatest | internal/pgproxy/pgproxy.go:431-448 | In every interleaving: a key is in the table for an address exactly if the latest registration or removal of that key is a registration for it |
| Cancels.ReachesIff | internal/pgproxy/pgproxy.go:454-469 | A live session's cancel reaches its own backend exactly if the latest registration or removal of its key, by whichever session, is a registration for that backend |
| Cancels.ExactStep | internal/pgproxy/pgproxy.go:407-441 | From a table that is exactly the live sessions, a step leads to such a table exactly if it is harmless: the exact harm of an announcement and of an end |
| Cancels.ExactHolds | internal/pgproxy/pgproxy.go:407-441 | In every interleaving the table is exactly the live sessions until, and exactly until, a step that does harm |
| Cancels.DistinctIsExact | internal/pgproxy/pgproxy.go:407-441 | With one key a session and distinct keys among live sessions, the table is exactly the live sessions, so every cancel reaches its own backend or, after the session, none |
| Cancels.SharedKey | internal/pgproxy/pgproxy.go:431-441 | Two backends announce one key: the first session's cancel goes to the second backend, and nowhere once the second session has ended |
| Cancels.SecondKey | internal/pgproxy/pgproxy.go:414-419 | A backend announces two keys: the first stays in the table when the session has ended |
| Cancels.Registry.Register | internal/pgproxy/pgproxy.go:431-435 | Puts the key in for the address of the session, whoever had it before |
| Cancels.Registry.Unregister | internal/pgproxy/pgproxy.go:437-441 | Takes out the key announced last, whoever has put it in since |
| Cancels.Registry.Lookup | internal/pgproxy/pgproxy.go:443-448 | The address of the latest registration, if nothing has taken the key out since; the table stays |
| PgProxy.Server.ForwardStartup | internal/pgproxy/pgproxy.go:407-429 | For every stream of the backend: what reaches the client is a part of it from the start; every key announced up to the end of the startup sequence is put in, others going on in between |
| PgProxy.Server.Pass | internal/pgproxy/pgproxy.go:228-275 | Route, count, serve: the session takes exactly its own steps on the table of cancel keys, and the count is as it was |
| PgProxy.Server.RelayCancel | internal/pgproxy/pgproxy.go:454-469 | A cancel request goes, as it came, to the backend that the latest registration of its key names, and is dropped exactly if there is none, the key has been taken out since, or that backend cannot be reached |
| PgProxy.Server.Authenticate | internal/pgproxy/pgproxy.go:194-275 | How a session that asks for a branch ends; a replication request, a malformed user and a wrong proof get no further |
| PgProxy.Server.AuthTerminate | internal/pgproxy/pgproxy.go:180-275 | For every byte stream a client may send: how the session ends and what it tells the outside; only the branch behind the at sign of the user is routed to, only after a right proof, and never for a replication request; a user is refused as such exactly without such a branch; no slot or count is left behind; a served session puts in the keys of its backend and takes out the last, any other leaves the table alone |
| Refinement.SessionRuns | internal/pgproxy/pgproxy.go:180-275 | Everything a session may tell is told by a path of the interleaving model that leaves the counters as they were |
| Refinement.MysqlSession | internal/proxy/proxy.go:182-293 | A session of the MySQL proxy is such a path, from every state the others may have left |
| Refinement.PgSession | internal/pgproxy/pgproxy.go:180-275 | So is a session of the PostgreSQL proxy |
| Migrations.InsertSorts | internal/baseline/baseline.go:238-242 | Insertion keeps the name order |
| Migrations.MigrationFiles | internal/baseline/baseline.go:234-249 | The same names in ascending byte order, or an error exactly for a name that does not fit |
| Migrations.PendingKeepsOrder | internal/baseline/baseline.go:252-281 | Exactly the unrecorded files, each once, in order |
| Migrations.Loader.ApplyOne | internal/baseline/baseline.go:270-278 | A completion is recorded, or its record is lost |
| Migrations.Loader.ApplyNext | internal/baseline/baseline.go:264-279 | A recorded file is passed over, any other is applied once |
| Migrations.Loader.ApplyMigrations | internal/baseline/baseline.go:252-281 | Completes a prefix of the pending files; success means all of them |
| Migrations.Loader.ApplyAndSync | internal/baseline/appuser.go:75-121 | One start and one shutdown, and none without work or with a name that does not fit; the pending files in order, with none passed over |
| Migrations.Loader.Run | internal/baseline/appuser.go:75-121 | In ascending byte order and each once, with no pending file passed over wherever it stops; every start is followed by a shutdown request; success means the server is gone; at most the record of the last completion is lost, and none where records hold |
| Migrations.RunAll | internal/baseline/appuser.go:75-121 | Over any number of runs that fail anywhere: each migration completes once more for every record of it that was lost, at most one per run; at most once where records are written |
| Migrations.CompletionsCounted | internal/baseline/baseline.go:252-281 | How often each migration has completed, exactly |

## Left out

- Command line, init, hosts file, dotenv, HTTP handlers, web UI, metrics and the data browser: thin wrappers.
- fsx, apfs and reflink storage: other contracts; only the fixed-name backend with fast rollback is modelled.
- systemd, pidfiles, mysqld and pg_ctl, AWS, NFS, SQLite: below the contracts of Host and Store.
- Hash, HMAC, PBKDF2, RSA, TLS, NFKC and SASLprep tables: parameters.
- Hooks are one call that may write to the datadir and may fail; their environment and logs are not modelled.
- RouteBranch, lazy creation and waitRunning: they only call Create and Wake or poll.
- The relay of messages after the startup sequence in either proxy.
- Writes to the client before the backend's startup sequence succeed; in the code one that fails ends the session, and after a right
  proof it leaves the history of the source.
- The two authentication loops towards a backend: sequences of the message formats and of the SCRAM client proved here.
- Leases, the per-minute throttle of TouchConn, and pruning of operations and hook runs: single statements.
- Sections.DeleteRuns: a branch whose dataset is missing loses its row without the deleting state that the path passes through.
- Drain of the whole manager, doctor, capacity and connection polling: read-only or covered by Sleep.
- Profiles are resolved to a name; their idle thresholds are functions of it in Reaper.
- The re-check that Promote makes before it publishes: in an atomic operation the candidate cannot have gone.
- Quotas and readiness are probes without an effect that may fail.
- Free memory and pool watermarks are probes that may say no at any time.
- Manager.Manager.AdmitMemory: the amount of memory is not modelled, because only the answer of the probe matters.
- Host.Host.Kill: an engine that survives Kill keeps its unit, so a later start finds it active; which volume serves then is not stated.
- Migrations.Loader.Run: what a migration that fails half-way did to the data is not modelled.
