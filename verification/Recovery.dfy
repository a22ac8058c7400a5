/** What a failure or a crash leaves, and that Retry gets the branch back from it. Each method runs
    an operation that may fail anywhere, and then Retry with no further failure. */
module Recovery {
  import opened Names
  import opened Pool
  import opened Store
  import opened Host
  import opened Invariant
  import opened Classify
  import opened Manager
  import opened Lifecycle
  import opened Rebuild
  import opened Requests
  import opened Reconcile

  /** A row that is not active leaves no less room than there was. */
  lemma RoomRemains(rows: Rows, rows': Rows, name: string, limit: int)
    requires OthersKept(rows, rows', name) && (name in rows' ==> !Active(rows'[name].state))
    requires limit > 0 ==> |ActiveRows(rows)| < limit
    ensures limit > 0 ==> |ActiveRows(rows')| < limit
  {
    forall n | n in ActiveRows(rows') ensures n in ActiveRows(rows) {
      assert n in rows' - {name};
      assert (rows' - {name})[n] == (rows - {name})[n];
    }
    Fewer(ActiveRows(rows'), ActiveRows(rows));
  }

  lemma Fewer(a: set<string>, b: set<string>)
    requires a <= b
    ensures |a| <= |b|
  {
    assert b == a + (b - a);
  }

  /** A registered baseline, or one of base, is where it was after any work on another branch. */
  lemma OriginStays(m: Manager, p: Pool, name: string, origin: SnapRef)
    requires m.Valid() && name in m.db.rows && NoBaselineOn(m.db.baselines, name)
    requires origin.ds == Base || origin in m.db.baselines
    requires Local(p, m.host.pool, name)
    ensures Exists(p, origin) <==> Exists(m.host.pool, origin)
  {
    OriginElsewhere(m, name, origin);
    ExistsElsewhere(p, m.host.pool, name, origin);
  }

  lemma NewNameBacksNothing(m: Manager, name: string)
    requires m.Valid() && name !in m.db.rows
    ensures NoBaselineOn(m.db.baselines, name)
  {
    NoBaselineOnReserved(m.db.rows, m.db.baselines, m.host.pool, m.cfg.default, m.lost, name);
  }

  /** A recoverable failure of Create is repaired by one Retry exactly when the origin is there to be cloned. */
  method CreateThenRetry(m: Manager, name: string, port: int, profile: string, baseline: Option<SnapRef>)
    returns (r: Result, again: Option<Result>)
    requires m.Valid() && m.Up()
    modifies m.db`rows, m.host`pool, m.host`failures, m.host`hooks, m.host`wrote, m.host`quiet, m`strays
    ensures m.Valid() && (!r.Crashed? ==> m.Up())
    ensures r.FailedAt? && r.stage != SnapshotStage ==> again.Some?
    ensures again.Some? ==> name in m.db.rows &&
                            (again.value.Done? <==>
                                Exists(old(m.host.pool), StartingPoint(m.cfg, m.db.baselines, baseline)))
    ensures again == Some(Done) ==>
              && m.db.rows[name].state == Running && name in m.host.pool.procs
              && m.db.rows[name].origin == StartingPoint(m.cfg, m.db.baselines, baseline)
              && Ready(m.host.pool, name, StartingPoint(m.cfg, m.db.baselines, baseline))
              && Branch(StashName(name)) !in m.host.pool.vols
  {
    hide Inv, Clean, StraysAre, Local, AllSettled, ActiveRows, Ready, StartingPoint, PortFits;
    ghost var p, rows := m.host.pool, m.db.rows;
    again := None;
    if name !in m.db.rows { NewNameBacksNothing(m, name); }
    r := Create(m, name, port, profile, baseline);
    if r.FailedAt? && m.db.rows[name].recoverable {
      OriginIsSound(m, name);
      OriginStays(m, p, name, m.db.rows[name].origin);
      RoomRemains(rows, m.db.rows, name, m.cfg.maxRunning);
      m.host.Calm();
      var s := Retry(m, name);
      again := Some(s);
    }
  }

  /** A Create whose clone failed and left no volume can be retried until the daemon is restarted: reconcile
      then files the row as one that has lost its volume, and Retry refuses it for good. */
  method CreateThenRestart(m: Manager, name: string, port: int, profile: string, baseline: Option<SnapRef>)
    returns (r: Result, again: Option<Result>)
    requires m.Valid() && m.Up()
    modifies m.db`rows, m.host`pool, m.host`failures, m.host`hooks, m.host`wrote, m`strays
    ensures m.Valid() && (!r.Crashed? ==> m.Up())
    ensures r == FailedAt(CloneStage) && Branch(name) !in m.host.pool.vols ==>
              && name in m.db.rows && m.db.rows[name].state == Error
              && m.db.rows[name].failedOp == ReconcileOp && !m.db.rows[name].recoverable
              && again == Some(Refused(NotRecoverable))
    ensures again.Some? ==> r == FailedAt(CloneStage)
  {
    hide Inv, Clean, StraysAre, Local, ActiveRows, Reconciled, Ready, StartingPoint, PortFits;
    again := None;
    ghost var rows := m.db.rows;
    r := Create(m, name, port, profile, baseline);
    var found := m.host.Resolve(name);
    if r == FailedAt(CloneStage) && !found {
      ghost var qows, q := m.db.rows, m.host.pool;
      assert MayRetry(qows, name);
      NoDeletion(rows, qows, name);
      var s := Restart(m);
      ErrorWithoutVolume(qows[name], q, m.db.rows, name, m.clock);
      s := Retry(m, name);
      again := Some(s);
    }
  }

  lemma ErrorWithoutVolume(row: Row, p: Pool, rows': Rows, name: string, now: int)
    requires Reconciled(name, row, p, rows', now) && row.state == Error && Branch(name) !in p.vols
    ensures name in rows' && rows'[name] == WithError(row, ReconcileOp, false, now)
  {
  }

  /** A recoverable failure of Recreate is repaired by one Retry exactly when the branch still has a volume
      under its own name and the current baseline is there. With a single failing call it has one, unless that
      call was the rename that sets the old volume aside and it took effect all the same. With more it has one
      unless that happened, or the clone failed and putting the old volume back failed as well. */
  method RecreateThenRetry(m: Manager, name: string)
    returns (r: Result, again: Option<Result>, ghost mid: Pool, ghost failures: int)
    requires m.Valid() && m.Up() && name in m.db.rows && m.db.rows[name].state in {Running, Sleeping}
    modifies m.db`rows, m.host`pool, m.host`failures, m.host`hooks, m.host`wrote, m.host`quiet, m`strays
    ensures m.Valid() && name in m.db.rows && (!r.Crashed? ==> m.Up())
    ensures r.FailedAt? && r.stage != SnapshotStage ==> again.Some?
    ensures r.FailedAt? && Branch(name) !in mid.vols ==>
              || (r == FailedAt(StashStage) && SetAsideAnyway(old(m.host.pool), mid, name))
              || (r == FailedAt(CloneStage) && failures >= 2)
    ensures again.Some? && failures <= 1 ==>
              (again.value.Done? <==>
               !(r == FailedAt(StashStage) && SetAsideAnyway(old(m.host.pool), mid, name)) &&
               Exists(old(m.host.pool), CurrentOf(m.db.baselines, m.cfg.default)))
    ensures again.Some? ==>
              (again.value.Done? <==>
                  Branch(name) in mid.vols && Exists(old(m.host.pool), CurrentOf(m.db.baselines, m.cfg.default)))
    ensures again == Some(Done) ==>
              && m.db.rows[name].state == Running && name in m.host.pool.procs
              && m.db.rows[name].origin == CurrentOf(m.db.baselines, m.cfg.default)
              && Ready(m.host.pool, name, CurrentOf(m.db.baselines, m.cfg.default))
              && Branch(StashName(name)) !in m.host.pool.vols
  {
    hide Inv, Clean, StraysAre, Local, AllSettled, ActiveRows, Ready, Rebuilt, SetAsideAnyway, StraysAfterRetry,
      SameBut,
      CanRebuild, Retriable, Retried, NotRetried, Exists;
    ghost var p, rows := m.host.pool, m.db.rows;
    again, mid, failures := None, p, 0;
    CurrentIsSound(m);
    UsableIsReady(m, name);
    r := Recreate(m, name);
    mid, failures := m.host.pool, m.host.failures - old(m.host.failures);
    if r.FailedAt? {
      FailedRebuild(r, rows[name], p, m.db.rows[name], mid, name, CurrentOf(m.db.baselines, m.cfg.default), m.clock);
    }
    if r.FailedAt? && m.db.rows[name].recoverable {
      OriginStays(m, p, name, CurrentOf(m.db.baselines, m.cfg.default));
      RoomRemains(rows, m.db.rows, name, m.cfg.maxRunning);
      ghost var current, row := CurrentOf(m.db.baselines, m.cfg.default), m.db.rows[name];
      RecreateAgain(row, m.db.baselines, mid, name, current, m.RoomToRun());
      m.host.Calm();
      var s := Retry(m, name);
      again := Some(s);
      if s.Done? { RecreatedAgain(row, mid, m.db.rows[name], m.host.pool, name, current); }
    }
  }

  lemma RecreateAgain(row: Row, bs: Baselines, p: Pool, name: string, current: SnapRef, room: bool)
    requires row.failedOp == RecreateOp
    ensures Retriable(row, bs, p, name, current, room) <==>
            room && NoBaselineOn(bs, name) && Exists(p, current) && Branch(name) in p.vols
  {
  }

  lemma RecreatedAgain(row: Row, p: Pool, row': Row, q: Pool, name: string, current: SnapRef)
    requires Retried(row, p, row', q, name, current) && row.failedOp == RecreateOp
    ensures row'.state == Running && name in q.procs && row'.origin == current && Ready(q, name, current)
  {
  }

  /** The volume that was the branch's own is under its stash name, and nothing under its own. */
  ghost predicate SetAsideAnyway(p: Pool, q: Pool, name: string) {
    Branch(name) in p.vols && Branch(name) !in q.vols && BonesAt(q, Branch(StashName(name))) == BonesAt(p, Branch(name))
  }

  lemma FailedRebuild(r: Result, row: Row, p: Pool, row': Row, q: Pool, name: string, origin: SnapRef, now: int)
    requires Rebuilt(r, row, p, row', q, name, origin, RecreateOp, now) && r.FailedAt?
    ensures ErrorRow(row', RecreateOp, r.stage)
    ensures Branch(name) in p.vols && Branch(name) !in q.vols ==>
              r.stage in {StashStage, CloneStage} && SetAsideAnyway(p, q, name)
    ensures Branch(name) in q.vols ==> !SetAsideAnyway(p, q, name)
  {
  }

  /** The one call after which a failed Recreate is beyond Retry: a rename that takes effect and reports a
      failure. Whatever else holds, the branch has no volume then, so Recreate has nothing to start from. */
  lemma StashThatFailsLate(p: Pool, name: string, row: Row, bs: Baselines, current: SnapRef, room: bool)
    requires CanRename(p, Branch(name), Branch(StashName(name))) && row.failedOp == RecreateOp
    ensures var q := DoRename(p, Branch(name), Branch(StashName(name)));
            && Call(false, Failed, true, p, q, q) && SetAsideAnyway(p, q, name)
            && !Retriable(row, bs, q, name, current, room)
  {
    StashNames(name, name);
  }

  /** A failed Reset of a branch that was running or sleeping is always repaired. */
  method ResetThenRetry(m: Manager, name: string) returns (r: Result, again: Option<Result>)
    requires m.Valid() && m.Up() && name in m.db.rows && m.db.rows[name].state in {Running, Sleeping}
    modifies m.db`rows, m.host`pool, m.host`failures, m.host`hooks, m.host`wrote, m.host`quiet, m`strays
    ensures m.Valid() && name in m.db.rows && (!r.Crashed? ==> m.Up())
    ensures r.FailedAt? ==> again == Some(Done)
    ensures again == Some(Done) ==>
              && m.db.rows[name].state == Running && name in m.host.pool.procs
              && m.db.rows[name].origin == old(m.db.rows)[name].origin
              && SameClone(old(m.host.pool), m.host.pool, name) && HasInit(m.host.pool, name)
  {
    hide Inv, Clean, StraysAre, Local, AllSettled, ActiveRows, HasTag;
    again := None;
    UsableIsReady(m, name);
    r := Reset(m, name);
    if r.FailedAt? {
      m.host.Calm();
      var s := Retry(m, name);
      again := Some(s);
    }
  }

  /** So is a failed Wake of a sleeping branch. */
  method WakeThenRetry(m: Manager, name: string) returns (r: Result, again: Option<Result>)
    requires m.Valid() && m.Up() && name in m.db.rows && m.db.rows[name].state == Sleeping
    modifies m.db`rows, m.host`pool, m.host`failures, m.host`hooks, m.host`wrote, m.host`quiet, m`strays
    ensures m.Valid() && name in m.db.rows && (!r.Crashed? ==> m.Up())
    ensures r.FailedAt? ==> again == Some(Done)
    ensures again == Some(Done) ==>
              && m.db.rows[name].state == Running && name in m.host.pool.procs
              && m.db.rows[name].origin == old(m.db.rows)[name].origin
              && SameContents(old(m.host.pool), m.host.pool, name) && HasInit(m.host.pool, name)
  {
    hide Inv, Clean, StraysAre, Local, AllSettled, ActiveRows, HasInit;
    ghost var rows := m.db.rows;
    again := None;
    r := Wake(m, name);
    if r.FailedAt? {
      RoomRemains(rows, m.db.rows, name, m.cfg.maxRunning);
      m.host.Calm();
      var s := Retry(m, name);
      again := Some(s);
    }
  }

  /** The branch has another volume than it had. */
  predicate Replaced(p: Pool, q: Pool, name: string) {
    Branch(name) in p.vols && Branch(name) in q.vols && q.vols[Branch(name)].guid != p.vols[Branch(name)].guid
  }

  /** What Recreate does not promise: after it failed, a Reset of the branch - not its Retry - may bring the
      branch up on a volume that is no clone of the origin its row names. If the two agreed before, they agree
      exactly if the failure came before the volume was replaced, or the row already named the baseline that
      is current. */
  method RecreateThenReset(m: Manager, name: string) returns (r: Result, again: Result)
    requires m.Valid() && m.Up() && name in m.db.rows && m.db.rows[name].state in {Running, Sleeping}
    modifies m.db`rows, m.host`pool, m.host`failures, m.host`hooks, m.host`wrote, m`strays
    ensures m.Valid() && name in m.db.rows
    ensures r.FailedAt? && again.Done? ==>
              var o := old(m.db.rows)[name].origin;
              && m.db.rows[name].state == Running && m.db.rows[name].origin == o
              && (CloneOf(m.host.pool, Branch(name), o) <==>
                  if Replaced(old(m.host.pool), m.host.pool, name) then o == CurrentOf(m.db.baselines, m.cfg.default)
                  else old(CloneOf(m.host.pool, Branch(name), m.db.rows[name].origin)))
              && (name in m.strays <==> !CloneOf(m.host.pool, Branch(name), o))
              && (r.stage == StashStage ==> !Replaced(old(m.host.pool), m.host.pool, name))
              && (r.stage !in {StashStage, CloneStage} ==> Replaced(old(m.host.pool), m.host.pool, name))
  {
    hide Inv, Clean, StraysAre, AllSettled, ActiveRows, HasTag, Survives, CloneOf, Named, NewClone, OldOrNew, Local,
      SameBones;
    again := Crashed;
    CurrentIsSound(m);
    OriginIsSound(m, name);
    m.ProcsAreOld();
    ghost var p, o := m.host.pool, m.db.rows[name].origin;
    r := Recreate(m, name);
    if r.FailedAt? {
      ghost var q := m.host.pool;
      if Branch(name) in q.vols {
        LineageAfter(m, p, name, o, CurrentOf(m.db.baselines, m.cfg.default));
        FailedReplaces(p, q, name, r.stage, CurrentOf(m.db.baselines, m.cfg.default));
      }
      again := Reset(m, name);
      if again.Done? {
        ResetKeepsLineage(m, q, name, o);
        StrayIff(m, name);
      }
    }
  }

  lemma StrayIff(m: Manager, name: string)
    requires m.Valid() && name in m.db.rows
    ensures name in m.strays <==> Stray(m.db.rows, m.host.pool, name)
  {
    hide Inv, Clean;
  }

  /** A new clone is another volume. */
  lemma FailedReplaces(p: Pool, q: Pool, name: string, stage: Stage, current: SnapRef)
    requires Branch(name) in p.vols && Branch(name) in q.vols && p.vols[Branch(name)].guid < p.next
    requires stage == StashStage ==> SameBones(p, q, Branch(name))
    ensures stage == StashStage ==> !Replaced(p, q, name)
    ensures NewClone(p, q, name, current) ==> Replaced(p, q, name)
  {
  }

  /** Which baseline the volume is a clone of after a rebuild that did not finish. */
  lemma LineageAfter(m: Manager, p: Pool, name: string, o: SnapRef, current: SnapRef)
    requires m.Valid() && name in m.db.rows && NoBaselineOn(m.db.baselines, name)
    requires o.ds == Base || o in m.db.baselines
    requires Local(p, m.host.pool, name) && OldOrNew(p, m.host.pool, name, current)
    requires Branch(name) in p.vols && Branch(name) in m.host.pool.vols && p.vols[Branch(name)].guid < p.next
    ensures CloneOf(m.host.pool, Branch(name), o) <==>
            if Replaced(p, m.host.pool, name) then o == current else CloneOf(p, Branch(name), o)
  {
    hide Clean, StraysAre, RowOk, BaselineOk, CurrentOk, PortsDistinct, ProcsOk, ClonesOk, Local, GuidsOk;
    OriginElsewhere(m, name, o);
    OriginIsHoused(m, o);
    if BonesAt(m.host.pool, Branch(name)) == BonesAt(p, Branch(name)) {
      CloneOfElsewhere(p, m.host.pool, name, o);
    } else {
      OneOrigin(m.host.pool, Branch(name), current, o);
    }
  }

  lemma OriginIsHoused(m: Manager, o: SnapRef)
    requires m.Valid() && (o.ds == Base || o in m.db.baselines)
    ensures o.ds in m.host.pool.vols && GuidsOk(m.host.pool)
  {
  }

  /** A reset changes nothing about which baseline the volume is a clone of. */
  lemma ResetKeepsLineage(m: Manager, p: Pool, name: string, origin: SnapRef)
    requires m.Valid() && name in m.db.rows && NoBaselineOn(m.db.baselines, name)
    requires origin.ds == Base || origin in m.db.baselines
    requires Local(p, m.host.pool, name) && SameClone(p, m.host.pool, name)
    ensures CloneOf(p, Branch(name), origin) <==> CloneOf(m.host.pool, Branch(name), origin)
  {
    hide Inv, Clean, StraysAre, HasTag, Local, SameBones;
    OriginElsewhere(m, name, origin);
    CloneOfElsewhere(p, m.host.pool, name, origin);
  }

  /** The daemon dies inside Recreate of a running or sleeping branch and starts again. The row it finds
      is untouched, or interrupted; reconcile takes it for an interrupted reset only if the volume that `mid`
      has under the branch's own name carries the @init a reset needs. Retrying that reset succeeds. Retrying a
      recreate succeeds exactly when there is a volume under the branch's own name and the current baseline is
      there; where the daemon died after the old volume was set aside and before the new one was cloned,
      there is none, and this Retry, like every later one, is refused and changes nothing. */
  method RecreateThenRestart(m: Manager, name: string)
    returns (r: Result, again: Option<Result>, found: Row, ghost mid: Pool)
    requires m.Valid() && m.Up() && name in m.db.rows && m.db.rows[name].state in {Running, Sleeping}
    modifies m.db`rows, m.host`pool, m.host`failures, m.host`hooks, m.host`wrote, m.host`quiet, m`strays
    ensures m.Valid() && m.Up() && name in m.db.rows
    ensures r.Crashed? ==>
              || found.state in {Running, Sleeping}
              || (found.state == Error && found.recoverable && found.failedOp in {ResetOp, RecreateOp} && again.Some?)
    ensures r.Crashed? && found.state == Error && found.failedOp == ResetOp ==>
              HasInit(mid, name) && again == Some(Done)
    ensures r.Crashed? && found.state == Error && found.failedOp == RecreateOp ==>
              && Branch(StashName(name)) in mid.vols
              && (again == Some(Done) <==>
                  Branch(name) in mid.vols && Exists(mid, CurrentOf(m.db.baselines, m.cfg.default)))
              && (Branch(name) !in mid.vols ==>
                    again == Some(Refused(NoVolume)) && m.db.rows[name] == found && m.host.pool == mid)
    ensures again == Some(Done) ==> m.db.rows[name].state == Running && HasInit(m.host.pool, name)
  {
    hide Inv, Clean, StraysAre, Local, ActiveRows, Reconciled, HasInit, Exists, Retriable, Retried, Untouchable;
    again, found, mid := None, m.db.rows[name], m.host.pool;
    r := CrashAndRestart(m, name);
    if r.Crashed? {
      found, mid := m.db.rows[name], m.host.pool;
      if found.state == Error {
        ghost var current := CurrentOf(m.db.baselines, m.cfg.default);
        ghost var room := m.RoomToRun();
        if found.failedOp == ResetOp {
          ResetIsRetriable(found, m.db.baselines, mid, name, current, room);
        } else {
          RecreateAgain(found, m.db.baselines, mid, name, current, room);
        }
        m.host.Calm();
        var s := Retry(m, name);
        again := Some(s);
        if s.Done? { RetriedRuns(found, mid, m.db.rows[name], m.host.pool, name, current); }
      }
    }
  }

  /** Recreate, and the restart if the daemon dies in it. Reconcile does not touch the pool. */
  method CrashAndRestart(m: Manager, name: string) returns (r: Result)
    requires m.Valid() && m.Up() && name in m.db.rows && m.db.rows[name].state in {Running, Sleeping}
    modifies m.db`rows, m.host`pool, m.host`failures, m.host`hooks, m.host`wrote, m`strays
    ensures m.Valid() && m.Up() && name in m.db.rows
    ensures r.Crashed? ==>
              var found := m.db.rows[name];
              || found.state in {Running, Sleeping}
              || (found.state == Error && found.recoverable && found.failedOp in {ResetOp, RecreateOp} &&
                  NoBaselineOn(m.db.baselines, name) && m.RoomToRun() &&
                  if found.failedOp == ResetOp then HasInit(m.host.pool, name)
                  else Branch(StashName(name)) in m.host.pool.vols)
  {
    hide Inv, Clean, StraysAre, Local, ActiveRows, HasInit, Survives, OldOrNew, Named, Rebuilt, Reconciled, OthersKept;
    ghost var rows, p := m.db.rows, m.host.pool;
    UsableIsReady(m, name);
    r := Recreate(m, name);
    if r.Crashed? {
      ghost var qows, q := m.db.rows, m.host.pool;
      CrashedAs(rows[name], p, qows[name], q, name, CurrentOf(m.db.baselines, m.cfg.default), m.clock);
      UsableIsReady(m, name);
      NoDeletion(rows, qows, name);
      var s := Restart(m);
      if HasInit(q, name) { HasInitHere(q, name); }
      FoundAs(qows[name], q, m.db.rows, name, m.clock);
      if m.db.rows[name].state == Error {
        RoomAfterRestart(rows, qows, q, m.db.rows, name, m.clock, m.cfg.maxRunning);
      }
    }
  }

  // ---- what a collection of orphans spares ----

  /** What an unfinished rebuild leaves for a restart and a collection: either nothing has changed, or the row is
      interrupted or in error. */
  lemma LeftBehind(r: Result, row: Row, p: Pool, row': Row, q: Pool, name: string, origin: SnapRef, op: Op, now: int)
    requires Rebuilt(r, row, p, row', q, name, origin, op, now) && (r.Refused? || r.FailedAt? || r.Crashed?)
    ensures (row' == row && q == p) || row'.state in {Error, Resetting}
    ensures Branch(name) in p.vols ==> Survives(p, q, name) || (r.Crashed? && HasInit(q, name))
  {
    hide HasTag, OldOrNew, Named;
  }

  lemma RestartedAs(row: Row, p: Pool, rows': Rows, name: string, now: int)
    requires Reconciled(name, row, p, rows', now) && row.state in {Running, Sleeping, Error, Resetting}
    ensures name in rows'
    ensures row.state in {Error, Resetting} || Branch(name) !in p.vols ==> rows'[name].state == Error
  {
  }

  /** The collection takes neither of the two volumes the old data may be in. */
  lemma StillThere(p: Pool, q: Pool, s: Pool, rows: Rows, name: string, crashed: bool)
    requires NeededKept(rows, q, s) && name in rows && (q == p || Awaited(rows, name))
    requires Branch(name) in p.vols ==> Survives(p, q, name) || (crashed && HasInit(q, name))
    ensures Branch(name) in p.vols ==> Survives(p, s, name) || (crashed && HasInit(s, name))
    ensures q == p && Branch(name) !in p.vols && Awaited(rows, name) ==> SameVolume(p, s, Branch(StashName(name)))
  {
    hide HasTag;
    assert SameVolume(q, s, Branch(name));
  }

  /** A rebuild - a Recreate, or a Create that is retried - that does not get through, the restart, and a collection of
      orphans: the volume the branch had is still there, under its name or as its stash, unless the rebuild was cut
      short with a complete new one in its place; and a stash that is all there is stays, too. */
  method RebuildThenCollect(m: Manager, name: string, retried: bool) returns (r: Result)
    requires m.Valid() && m.Up() && name in m.db.rows
    modifies m.db`rows, m.host`pool, m.host`failures, m.host`hooks, m.host`wrote, m`strays
    ensures m.Valid()
    ensures !r.Done? && Branch(name) in old(m.host.pool).vols ==>
              || (exists d :: d in {Branch(name), Branch(StashName(name))} && d in m.host.pool.vols
                    && m.host.pool.vols[d].guid == old(m.host.pool).vols[Branch(name)].guid
                    && m.host.pool.vols[d].origin == old(m.host.pool).vols[Branch(name)].origin
                    && m.host.pool.vols[d].snaps == old(m.host.pool).vols[Branch(name)].snaps)
              || (r.Crashed? && HasInit(m.host.pool, name))
    ensures r.Refused? && Branch(name) !in old(m.host.pool).vols ==>
              SameVolume(old(m.host.pool), m.host.pool, Branch(StashName(name)))
  {
    hide Inv, Clean, StraysAre, Local, ActiveRows, HasInit, Survives, OldOrNew, Named, Rebuilt, Reconciled, OthersKept,
      AllSettled, NeededKept, NothingLeft, Orphan, Rid, CurrentOf, CanRebuild, Untouchable, Because, VolumeKept,
      NoneStarted, NoneRoused, NoneWoken, SameBut, Sleepwalks, SameVolume, StashName, WithState,
      WithError, Usable, Settled, NoBaselineOn, Exists;
    ghost var rows, p := m.db.rows, m.host.pool;
    SettledRow(rows, name);
    if retried && m.db.rows[name].state == Error {
      r := RetryCreate(m, name);
    } else {
      r := Recreate(m, name);
    }
    if r.Done? { return; }
    ghost var qows, q, row := m.db.rows, m.host.pool, rows[name];
    if m.host.pool != p || m.db.rows != rows {
      if retried && row.state == Error {
        LeftBehind(r, row, p, qows[name], q, name, row.origin, CreateOp, m.clock);
      } else {
        LeftBehind(r, row, p, qows[name], q, name, CurrentOf(m.db.baselines, m.cfg.default), RecreateOp, m.clock);
      }
    } else {
      UnchangedSurvives(p, name);
    }
    NoDeletion(rows, qows, name);
    var s := Restart(m);
    RestartedAs(qows[name], q, m.db.rows, name, m.clock);
    var c, deleted := GCOrphans(m);
    StillThere(p, q, m.host.pool, m.db.rows, name, r.Crashed?);
    SurvivesIs(p, m.host.pool, name);
  }

  /** The volume is there, under its name or as the stash, with the guid, origin and snapshots it had. */
  ghost predicate VolumeKept(p: Pool, q: Pool, name: string)
    requires Branch(name) in p.vols
  {
    exists d :: d in {Branch(name), Branch(StashName(name))} && d in q.vols
      && q.vols[d].guid == p.vols[Branch(name)].guid
      && q.vols[d].origin == p.vols[Branch(name)].origin && q.vols[d].snaps == p.vols[Branch(name)].snaps
  }

  lemma SurvivesIs(p: Pool, q: Pool, name: string)
    ensures Branch(name) in p.vols && Survives(p, q, name) ==> VolumeKept(p, q, name)
  {
    if Branch(name) in p.vols && Survives(p, q, name) {
      var d := if BonesAt(p, Branch(name)) == BonesAt(q, Branch(name)) then Branch(name) else Branch(StashName(name));
      assert d in q.vols && q.vols[d].(data := 0, dirty := false) == p.vols[Branch(name)].(data := 0, dirty := false);
    }
  }

  lemma UnchangedSurvives(p: Pool, name: string)
    ensures Survives(p, p, name)
  {
  }

  lemma SettledRow(rows: Rows, name: string)
    requires AllSettled(rows) && name in rows
    ensures Settled(rows[name].state)
  {
  }

  /** A restart leaves no less room than there was before the operation it found interrupted. */
  lemma RoomAfterRestart(rows: Rows, qows: Rows, q: Pool, rows': Rows, name: string, now: int, limit: int)
    requires OthersKept(rows, qows, name) && rows'.Keys <= qows.Keys
    requires forall n :: n in qows ==> Reconciled(n, qows[n], q, rows', now)
    requires name in rows' ==> !Active(rows'[name].state)
    requires limit > 0 ==> |ActiveRows(rows)| < limit
    ensures limit > 0 ==> |ActiveRows(rows')| < limit
  {
    forall n | n in ActiveRows(rows') ensures n in ActiveRows(rows) {
      assert n in rows'.Keys && Reconciled(n, qows[n], q, rows', now);
      assert n in qows - {name};
      assert (qows - {name})[n] == (rows - {name})[n];
    }
    Fewer(ActiveRows(rows'), ActiveRows(rows));
  }

  lemma ResetIsRetriable(row: Row, bs: Baselines, p: Pool, name: string, current: SnapRef, room: bool)
    requires row.failedOp == ResetOp && NoBaselineOn(bs, name) && HasInit(p, name)
    ensures Retriable(row, bs, p, name, current, room)
  {
  }

  lemma RetriedRuns(row: Row, p: Pool, row': Row, q: Pool, name: string, current: SnapRef)
    requires Retried(row, p, row', q, name, current)
    ensures row'.state == Running && HasInit(q, name)
  {
  }

  /** How a crash leaves the row of a branch that had an @init. */
  lemma CrashedAs(row: Row, p: Pool, row': Row, q: Pool, name: string, origin: SnapRef, now: int)
    requires Rebuilt(Crashed, row, p, row', q, name, origin, RecreateOp, now) && HasInit(p, name)
    requires row.state in {Running, Sleeping}
    ensures row' == row || (row'.state == Resetting && (HasInit(q, name) || Branch(StashName(name)) in q.vols))
    ensures row' == row ==> HasInit(q, name)
  {
  }

  lemma FoundAs(row: Row, p: Pool, rows': Rows, name: string, now: int)
    requires Reconciled(name, row, p, rows', now) && row.state in {Running, Sleeping, Resetting}
    requires row.state in {Running, Sleeping} ==> Branch(name) in p.vols
    ensures name in rows'
    ensures row.state == Resetting ==>
              rows'[name] == WithError(row, if Branch(StashName(name)) in p.vols then RecreateOp else ResetOp, true,
                                       now)
    ensures row.state != Resetting ==> rows'[name].state in {Running, Sleeping}
  {
  }

  lemma NoDeletion(rows: Rows, rows': Rows, name: string)
    requires AllSettled(rows) && OthersKept(rows, rows', name) && (name in rows' ==> rows'[name].state != Deleting)
    ensures forall n :: n in rows' ==> rows'[n].state != Deleting
  {
    forall n | n in rows' ensures rows'[n].state != Deleting {
      if n != name {
        assert n in rows' - {name};
        assert (rows' - {name})[n] == (rows - {name})[n];
      }
    }
  }
}
