/** The requests on an existing branch: Reset, Recreate, Wake, Sleep, Delete and Retry. */
module Requests {
  import opened Names
  import opened Pool
  import opened Store
  import opened Host
  import opened Invariant
  import opened Classify
  import opened Manager
  import opened Lifecycle
  import opened Rebuild

  /** Reset, Recreate and Delete leave a branch alone that is unknown, or holds a registered baseline;
      Reset and Recreate also one that has no volume. */
  ghost predicate Untouchable(rows: Rows, bs: Baselines, p: Pool, name: string) {
    name !in rows || Branch(name) !in p.vols || !NoBaselineOn(bs, name)
  }

  ghost predicate Because(why: Refusal, rows: Rows, bs: Baselines, p: Pool, name: string) {
    match why
    case NotFound => name !in rows
    case NoVolume => name in rows && Branch(name) !in p.vols
    case Precondition => name in rows && !NoBaselineOn(bs, name)
    case _ => false
  }

  lemma UsableIsReady(m: Manager, name: string)
    requires m.Valid() && name in m.db.rows
    ensures PlainName(name) && !IsReserved(name)
    ensures Usable(m.db.rows[name]) ==> HasInit(m.host.pool, name) && m.Dirt(name)
    ensures !Settled(m.db.rows[name].state) || Branch(name) !in m.host.pool.vols ==> NoBaselineOn(m.db.baselines, name)
  {
    hide ProcsOk, GuidsOk, ClonesOk, CurrentOk;
    assert RowOk(name, m.db.rows[name], m.db.baselines, m.host.pool, m.lost);
  }

  lemma IsSettled(m: Manager, name: string)
    requires m.Up() && name in m.db.rows
    ensures Settled(m.db.rows[name].state)
  {
  }

  // ---- Reset ----

  /** The branch's volume is the same clone it was, and keeps its @init if it had one. */
  ghost predicate SameClone(p: Pool, q: Pool, name: string) {
    && SameLine(p, q, Branch(name))
    && SameBones(p, q, Branch(StashName(name)))
    && (HasInit(p, name) ==> HasInit(q, name))
  }

  /** The data are those of @init again. */
  ghost predicate DataOfInit(p: Pool, q: Pool, name: string) {
    && HasInit(p, name) && Branch(name) in q.vols
    && q.vols[Branch(name)].data == At(p, SnapRef(Branch(name), INIT)).data
  }

  lemma CloneIs(p: Pool, q: Pool, name: string)
    requires SameClone(p, q, name) && Branch(name) in p.vols
    ensures Branch(name) in q.vols ==>
              q.vols[Branch(name)].guid == p.vols[Branch(name)].guid
              && q.vols[Branch(name)].origin == p.vols[Branch(name)].origin
    ensures DataOfInit(p, q, name) ==>
              HasInit(p, name) && q.vols[Branch(name)].data == At(p, SnapRef(Branch(name), INIT)).data
  {
  }

  /** Rolls back to @init and starts again. There is no admission check: it is never refused for
      want of room to run. */
  method Reset(m: Manager, name: string) returns (r: Result)
    requires m.Valid()
    modifies m.db`rows, m.host`pool, m.host`failures, m.host`hooks, m.host`wrote
    ensures m.Valid() && (old(m.Up()) && !r.Crashed? ==> m.Up())
    ensures OthersKept(old(m.db.rows), m.db.rows, name) && Local(old(m.host.pool), m.host.pool, name)
    ensures r.Refused? <==> Untouchable(old(m.db.rows), m.db.baselines, old(m.host.pool), name)
    ensures r.Refused? ==>
              && Because(r.why, m.db.rows, m.db.baselines, m.host.pool, name)
              && m.db.rows == old(m.db.rows)
              && m.host.pool == old(m.host.pool)
    ensures !r.Refused? ==> name in m.db.rows && SameClone(old(m.host.pool), m.host.pool, name)
    ensures r.Done? ==> m.host.hooks == old(m.host.hooks) + Started(m.cfg, OnReset, name)
    ensures r.Done? ==>
              && m.db.rows[name] == WithState(old(m.db.rows)[name], Running, m.clock)
              && name in m.host.pool.procs && old(HasInit(m.host.pool, name))
              && (OnReset !in m.cfg.hooks ==> DataOfInit(old(m.host.pool), m.host.pool, name))
    // it stays the clone it was, and without a hook has the data of @init again
    ensures !r.Refused? && Branch(name) in old(m.host.pool.vols) && Branch(name) in m.host.pool.vols ==>
              var (v, w) := (old(m.host.pool.vols)[Branch(name)], m.host.pool.vols[Branch(name)]);
              v.guid == w.guid && v.origin == w.origin
    ensures r.Done? && OnReset !in m.cfg.hooks && Branch(name) in m.host.pool.vols
            && old(HasInit(m.host.pool, name)) ==>
              m.host.pool.vols[Branch(name)].data == old(At(m.host.pool, SnapRef(Branch(name), INIT))).data
    ensures r.FailedAt? ==>
              m.db.rows[name] == WithError(WithState(old(m.db.rows)[name], Resetting, m.clock), ResetOp, true, m.clock)
    ensures r.Crashed? ==> m.db.rows[name] == WithState(old(m.db.rows)[name], Resetting, m.clock)
    ensures Sleepwalks(m.db.rows, m.host.pool, name) ==> Sleepwalks(old(m.db.rows), old(m.host.pool), name)
    ensures m.host.quiet && !r.Refused? ==> (r.Done? <==> old(HasInit(m.host.pool, name))) && !r.Crashed?
  {
    hide Inv, Clean, StraysAre, AllSettled, SameClone, DataOfInit, HasInit;
    if name !in m.db.rows { return Refused(NotFound); }
    ghost var rows := m.db.rows;
    var found := m.host.Resolve(name);
    if !found { return Refused(NoVolume); }
    var backs := m.Backs(name);
    if backs { return Refused(Precondition); }
    UsableIsReady(m, name);
    m.MarkState(name, Resetting);
    ghost var p := m.host.pool;
    r := RollBackAndStart(m, name);
    CloneIs(p, m.host.pool, name);
    if !r.Crashed? { SettledAgain(rows, m.db.rows, name); }
  }

  method RollBackAndStart(m: Manager, name: string) returns (r: Result)
    requires m.Valid() && name in m.db.rows && m.db.rows[name].state == Resetting
    requires Branch(name) in m.host.pool.vols && NoBaselineOn(m.db.baselines, name) && !IsReserved(name)
             && PlainName(name)
    modifies m.db`rows, m.host`pool, m.host`failures, m.host`hooks, m.host`wrote
    ensures m.Valid() && OthersKept(old(m.db.rows), m.db.rows, name) && Local(old(m.host.pool), m.host.pool, name)
    ensures name in m.db.rows && SameClone(old(m.host.pool), m.host.pool, name)
    ensures r.Done? || r.FailedAt? || r.Crashed?
    ensures r.Done? ==> m.host.hooks == old(m.host.hooks) + Started(m.cfg, OnReset, name)
    ensures r.Done? ==>
              && m.db.rows[name] == WithState(old(m.db.rows)[name], Running, m.clock)
              && name in m.host.pool.procs && old(HasInit(m.host.pool, name))
              && (OnReset !in m.cfg.hooks ==> DataOfInit(old(m.host.pool), m.host.pool, name))
    ensures r.FailedAt? ==> m.db.rows[name] == WithError(old(m.db.rows)[name], ResetOp, true, m.clock)
    ensures r.Crashed? ==> m.db.rows == old(m.db.rows)
    ensures m.host.quiet ==> (r.Done? <==> old(HasInit(m.host.pool, name))) && !r.Crashed?
  {
    hide Inv, Clean, StraysAre;
    var c := m.KillOwn(name);
    if c.Died? { return Crashed; }
    c := m.RollbackOwn(name);
    if c.Died? { return Crashed; }
    if c.Failed? { r := m.FailOp(name, ResetOp, RollbackStage); return; }
    r := StartReady(m, name, ResetOp);
    if !r.Done? { return; }
    c := m.RunHook(OnReset, name);
    if c.Died? { return Crashed; }
    m.MarkState(name, Running);
  }

  // ---- Recreate ----

  /** The on-create hook stands in for a missing on-recreate hook. */
  function RecreateEvent(cfg: Config): Script {
    if OnRecreate in cfg.hooks then OnRecreate else OnCreate
  }

  method Recreate(m: Manager, name: string) returns (r: Result)
    requires m.Valid() && m.Free(name)
    modifies m.db`rows, m.host`pool, m.host`failures, m.host`hooks, m.host`wrote, m`strays
    ensures m.Valid() && (old(m.Up()) && !r.Crashed? ==> m.Up())
    ensures OthersKept(old(m.db.rows), m.db.rows, name) && Local(old(m.host.pool), m.host.pool, name)
    ensures name in m.db.rows && name in old(m.db.rows) ==> m.db.rows[name].port == old(m.db.rows)[name].port
    ensures r.Refused? ==> m.db.rows == old(m.db.rows) && m.host.pool == old(m.host.pool)
    ensures r.Done? ==>
              m.host.hooks == old(m.host.hooks)
              + (if OnRecreate in m.cfg.hooks then [(OnRecreate, name)]
                 else if OnCreate in m.cfg.hooks then [(OnCreate, name)] else [])
              + (if OnReset in m.cfg.hooks then [(OnReset, name)] else [])
    ensures Untouchable(old(m.db.rows), m.db.baselines, old(m.host.pool), name) <==>
            r.Refused? && Because(r.why, old(m.db.rows), m.db.baselines, old(m.host.pool), name)
    ensures !Untouchable(old(m.db.rows), m.db.baselines, old(m.host.pool), name) ==>
              && name in m.db.rows
              && Rebuilt(r, old(m.db.rows)[name], old(m.host.pool), m.db.rows[name], m.host.pool, name,
                         CurrentOf(m.db.baselines, m.cfg.default), RecreateOp, m.clock)
              && (m.host.quiet ==>
                    && (r.Done? <==>
                        old(m.RoomToRun())
                          && CanRebuild(old(m.host.pool), old(m.db.rows)[name], name,
                                        CurrentOf(m.db.baselines, m.cfg.default)))
                    && (r.Done? ==> Branch(StashName(name)) !in m.host.pool.vols))
    ensures r.Done? || r.FailedAt? || (r.Crashed? && m.db.rows[name].state == Resetting) ==> old(m.RoomToRun())
    ensures name in old(m.db.rows) && Branch(name) !in old(m.host.pool).vols ==> r == Refused(NoVolume)
    ensures m.host.quiet ==> !r.Crashed?
    ensures Sleepwalks(m.db.rows, m.host.pool, name) ==> Sleepwalks(old(m.db.rows), old(m.host.pool), name)
    // a row is left naming another lineage only if its origin is not the baseline it was rebuilt from
    ensures SameBut(old(m.strays), m.strays, name) && (r.Refused? ==> m.strays == old(m.strays))
    ensures r.Done? ==> name !in m.strays
    ensures !r.Done? && name in m.db.rows && Usable(m.db.rows[name]) ==>
              name in old(m.db.rows) && Usable(old(m.db.rows)[name]) && m.strays == old(m.strays)
    ensures name in m.strays && name !in old(m.strays) ==>
              !r.Done? && name in old(m.db.rows)
                && old(m.db.rows)[name].origin != CurrentOf(m.db.baselines, m.cfg.default)
    ensures r == FailedAt(CloneStage) && m.host.failures <= old(m.host.failures) + 1 ==>
              Branch(name) in m.host.pool.vols
  {
    hide Inv, Clean, StraysAre, AllSettled, Rebuilt, CanRebuild;
    if name !in m.db.rows { return Refused(NotFound); }
    ghost var rows := m.db.rows;
    var found := m.host.Resolve(name);
    if !found { return Refused(NoVolume); }
    var backs := m.Backs(name);
    if backs { return Refused(Precondition); }
    CurrentIsSound(m);
    var origin := m.db.CurrentBaseline(m.cfg.default);
    r := RecreateFrom(m, name, RecreateEvent(m.cfg), origin, RecreateOp);
    if !r.Crashed? { SettledAgain(rows, m.db.rows, name); }
  }

  // ---- Wake and Sleep ----

  /** The datadir holds the same data, on the same clone, with the same snapshots. */
  predicate SameContents(p: Pool, q: Pool, name: string) {
    && SameBones(p, q, Branch(name)) && SameData(p, q, Branch(name))
    && SameBones(p, q, Branch(StashName(name)))
  }

  /** Wake counts as use: it moves the idle clock of a branch it wakes. */
  function Woken(row: Row, now: int): Row {
    if row.state == Running then row else WithState(row.(lastConnAt := Some(now)), Running, now)
  }

  ghost predicate NotWoken(why: Refusal, rows: Rows, name: string) {
    match why
    case NotFound => name !in rows
    case WrongState => name in rows && !Usable(rows[name])
    case LimitReached => name in rows && Usable(rows[name]) && rows[name].state != Running
    case _ => false
  }

  method Wake(m: Manager, name: string) returns (r: Result)
    requires m.Valid()
    modifies m.db`rows, m.host`pool, m.host`failures
    ensures m.Valid() && (old(m.Up()) && !r.Crashed? ==> m.Up())
    ensures OthersKept(old(m.db.rows), m.db.rows, name) && Local(old(m.host.pool), m.host.pool, name)
    ensures SameContents(old(m.host.pool), m.host.pool, name)
    ensures Branch(name) in m.host.pool.vols <==> Branch(name) in old(m.host.pool.vols)
    ensures Branch(name) in old(m.host.pool.vols) && Branch(name) in m.host.pool.vols ==>
              var (v, w) := (old(m.host.pool.vols)[Branch(name)], m.host.pool.vols[Branch(name)]);
              v.guid == w.guid && v.origin == w.origin && v.snaps == w.snaps && v.data == w.data
    ensures r.Refused? ==>
              NotWoken(r.why, old(m.db.rows), name) && m.db.rows == old(m.db.rows) && m.host.pool == old(m.host.pool)
    ensures !r.Refused? ==> name in old(m.db.rows) && name in m.db.rows && Usable(old(m.db.rows)[name])
    ensures r == Refused(NotFound) <==> name !in old(m.db.rows)
    ensures r == Refused(LimitReached) ==> old(m.db.rows)[name].state != Running
    // a branch in error is woken only if that is what failed
    ensures name in old(m.db.rows) ==>
              (r == Refused(WrongState) <==>
               || old(m.db.rows)[name].state in {Creating, Resetting, Deleting}
               || (old(m.db.rows)[name].state == Error && old(m.db.rows)[name].failedOp != WakeOp))
    ensures r.Done? ==>
              && m.db.rows[name] == WithState(Woken(old(m.db.rows)[name], m.clock), Running, m.clock)
              && name in m.host.pool.procs
    ensures r.FailedAt? ==> m.db.rows[name] == WithError(Woken(old(m.db.rows)[name], m.clock), WakeOp, true, m.clock)
    ensures r.Crashed? ==>
              m.db.rows[name] in {old(m.db.rows)[name], old(m.db.rows)[name].(lastConnAt := Some(m.clock)),
                                  Woken(old(m.db.rows)[name], m.clock)}
    ensures (r.Done? || r.FailedAt? || (r.Crashed? && m.db.rows[name].state == Running))
            && old(m.db.rows)[name].state != Running ==>
              old(m.RoomToRun())
    ensures Sleepwalks(m.db.rows, m.host.pool, name) ==> Sleepwalks(old(m.db.rows), old(m.host.pool), name)
    ensures m.host.quiet && name in old(m.db.rows) && Usable(old(m.db.rows)[name]) ==>
              (r.Done? <==> old(m.db.rows)[name].state == Running || old(m.RoomToRun()))
    ensures m.host.quiet ==> !r.Crashed?
  {
    hide Inv, Clean, StraysAre, AllSettled, ActiveRows, HasInit;
    if name !in m.db.rows { return Refused(NotFound); }
    ghost var rows := m.db.rows;
    if !Usable(m.db.rows[name]) { return Refused(WrongState); }
    var found := m.host.Resolve(name);
    UsableIsReady(m, name);
    HasInitHere(m.host.pool, name);
    if m.db.rows[name].state != Running {
      var c := m.Admit();
      if c.Died? { return Crashed; }
      if c.Failed? { return Refused(LimitReached); }
      m.TouchConn(name);
      c := m.host.Alive();
      if c.Died? { return Crashed; }
      m.MarkState(name, Running);
    }
    r := StartUnlessRunning(m, name);
    if !r.Crashed? { SettledAgain(rows, m.db.rows, name); }
  }

  lemma HasInitHere(p: Pool, name: string)
    requires HasInit(p, name)
    ensures Branch(name) in p.vols
  {
  }

  method StartUnlessRunning(m: Manager, name: string) returns (r: Result)
    requires m.Valid() && name in m.db.rows && m.db.rows[name].state == Running
    requires PlainName(name) && HasInit(m.host.pool, name) && m.Dirt(name)
    modifies m.db`rows, m.host`pool, m.host`failures
    ensures m.Valid()
    ensures OthersKept(old(m.db.rows), m.db.rows, name) && Local(old(m.host.pool), m.host.pool, name)
    ensures SameContents(old(m.host.pool), m.host.pool, name) && name in m.db.rows
    ensures r.Done? || r.FailedAt? || r.Crashed?
    ensures r.Done? ==>
              m.db.rows[name] == WithState(old(m.db.rows)[name], Running, m.clock) && name in m.host.pool.procs
    ensures r.FailedAt? ==> m.db.rows[name] == WithError(old(m.db.rows)[name], WakeOp, true, m.clock)
    ensures r.Crashed? ==> m.db.rows == old(m.db.rows)
    ensures m.host.quiet ==> r.Done?
  {
    hide Inv, Clean, StraysAre;
    r := Done;
    var running := m.host.IsRunning(name);
    if !running { r := StartReady(m, name, WakeOp); }
    if r.Done? { m.MarkState(name, Running); }
  }

  /** Stops a running branch gracefully; of any other branch there is nothing to stop. */
  method Sleep(m: Manager, name: string) returns (r: Result)
    requires m.Valid()
    modifies m.db`rows, m.host`pool, m.host`failures
    ensures m.Valid() && (old(m.Up()) ==> m.Up())
    ensures OthersKept(old(m.db.rows), m.db.rows, name) && Local(old(m.host.pool), m.host.pool, name)
    ensures SameContents(old(m.host.pool), m.host.pool, name)
    ensures Branch(name) in m.host.pool.vols <==> Branch(name) in old(m.host.pool.vols)
    ensures Branch(name) in old(m.host.pool.vols) && Branch(name) in m.host.pool.vols ==>
              var (v, w) := (old(m.host.pool.vols)[Branch(name)], m.host.pool.vols[Branch(name)]);
              v.guid == w.guid && v.origin == w.origin && v.snaps == w.snaps && v.data == w.data
    ensures r.Refused? ==>
              (r.why == NotFound && name !in m.db.rows)
                || (r.why == StopFailed && name in m.db.rows && m.db.rows[name].state == Running)
    ensures r.Done? || r.Refused? || r.Crashed?
    ensures !r.Done? ==> m.db.rows == old(m.db.rows)
    ensures r.Done? ==> name in old(m.db.rows) && name in m.db.rows
    ensures r.Done? && old(m.db.rows)[name].state != Running ==>
              m.db.rows == old(m.db.rows) && m.host.pool == old(m.host.pool)
    ensures r.Done? && old(m.db.rows)[name].state == Running ==>
              && m.db.rows[name] == WithState(old(m.db.rows)[name], Sleeping, m.clock)
              && name !in m.host.pool.procs && Branch(name) in m.host.pool.vols
              && (m.faithful ==> !m.host.pool.vols[Branch(name)].dirty)
    ensures Sleepwalks(m.db.rows, m.host.pool, name) ==> Sleepwalks(old(m.db.rows), old(m.host.pool), name)
    ensures m.host.quiet ==> (r.Done? <==> name in old(m.db.rows))
  {
    hide Inv, Clean, StraysAre, AllSettled, HasInit;
    if name !in m.db.rows { return Refused(NotFound); }
    if m.db.rows[name].state != Running { return Done; }
    ghost var rows := m.db.rows;
    var found := m.host.Resolve(name);
    UsableIsReady(m, name);
    HasInitHere(m.host.pool, name);
    ghost var p := m.host.pool;
    var c := m.StopOwn(name);
    BonesKeepInit(p, m.host.pool, name);
    if c.Died? { return Crashed; }
    if c.Failed? { return Refused(StopFailed); }
    m.MarkState(name, Sleeping);
    SettledAgain(rows, m.db.rows, name);
    r := Done;
  }

  lemma BonesKeepInit(p: Pool, q: Pool, name: string)
    requires SameBones(p, q, Branch(name)) && HasInit(p, name)
    ensures HasInit(q, name)
  {
  }

  // ---- Delete ----

  /** A branch whose dataset is gone loses its row only. */
  method Delete(m: Manager, name: string) returns (r: Result)
    requires m.Valid()
    modifies m.db`rows, m.host`pool, m.host`failures, m.host`hooks, m.host`wrote, m`strays
    ensures m.Valid() && m.strays <= old(m.strays) && SameBut(old(m.strays), m.strays, name)
    ensures OthersKept(old(m.db.rows), m.db.rows, name) && Local(old(m.host.pool), m.host.pool, name)
    ensures SameBones(old(m.host.pool), m.host.pool, Branch(StashName(name)))
    ensures r.Refused? <==> name !in old(m.db.rows) || !NoBaselineOn(m.db.baselines, name)
    ensures r.Refused? ==>
              && Because(r.why, m.db.rows, m.db.baselines, m.host.pool, name)
              && m.db.rows == old(m.db.rows)
              && m.host.pool == old(m.host.pool)
    ensures r.Done? ==> name !in m.db.rows && Branch(name) !in m.host.pool.vols
    ensures r.FailedAt? || r.Crashed? ==> name in m.db.rows
    ensures r.FailedAt? ==>
              && m.db.rows[name] == WithState(WithState(old(m.db.rows)[name], Deleting, m.clock), Error, m.clock)
              && Branch(name) in m.host.pool.vols
    ensures r.Crashed? ==> m.db.rows[name] == WithState(old(m.db.rows)[name], Deleting, m.clock)
    ensures Sleepwalks(m.db.rows, m.host.pool, name) ==> Sleepwalks(old(m.db.rows), old(m.host.pool), name)
    ensures m.host.quiet && !r.Refused? ==> r.Done?
  {
    hide Inv, Clean, StraysAre;
    if name !in m.db.rows { return Refused(NotFound); }
    UsableIsReady(m, name);
    var found := m.host.Resolve(name);
    if !found {
      m.DropRow(name);
      return Done;
    }
    var backs := m.Backs(name);
    if backs { return Refused(Precondition); }
    m.MarkState(name, Deleting);
    r := TearDown(m, name);
  }

  /** Stop and the on-delete hook may fail; the dataset has to go before the row does. */
  method TearDown(m: Manager, name: string) returns (r: Result)
    requires m.Valid() && name in m.db.rows && m.db.rows[name].state == Deleting && PlainName(name)
    requires Branch(name) in m.host.pool.vols && NoBaselineOn(m.db.baselines, name)
    modifies m.db`rows, m.host`pool, m.host`failures, m.host`hooks, m.host`wrote, m`strays
    ensures m.Valid() && m.strays <= old(m.strays) && SameBut(old(m.strays), m.strays, name)
    ensures OthersKept(old(m.db.rows), m.db.rows, name) && Local(old(m.host.pool), m.host.pool, name)
    ensures SameBones(old(m.host.pool), m.host.pool, Branch(StashName(name)))
    ensures r.Done? || r == FailedAt(StorageStage) || r.Crashed?
    ensures r.Done? ==> m.host.hooks == old(m.host.hooks) + Started(m.cfg, OnDelete, name)
    ensures r.Done? ==> name !in m.db.rows && Branch(name) !in m.host.pool.vols
    ensures r.Crashed? ==> m.db.rows == old(m.db.rows)
    ensures r.FailedAt? ==>
              && name in m.db.rows
              && m.db.rows[name] == WithState(old(m.db.rows)[name], Error, m.clock)
              && Branch(name) in m.host.pool.vols
    ensures m.host.quiet ==> r.Done?
  {
    hide Inv, Clean, StraysAre;
    var c := m.StopOwn(name);
    if c.Died? { return Crashed; }
    c := m.RunHook(OnDelete, name);
    if c.Died? { return Crashed; }
    c := m.DestroyOwn(name);
    if c.Died? { return Crashed; }
    if c.Failed? {
      m.MarkState(name, Error);
      return FailedAt(StorageStage);
    }
    m.DropRow(name);
    r := Done;
  }

  // ---- Retry ----

  /** A create that failed is repeated as a rebuild from its own origin. */
  method RetryCreate(m: Manager, name: string) returns (r: Result)
    requires m.Valid() && name in m.db.rows && m.db.rows[name].state == Error
    modifies m.db`rows, m.host`pool, m.host`failures, m.host`hooks, m.host`wrote, m`strays
    ensures m.Valid() && (old(m.Up()) && !r.Crashed? ==> m.Up())
    ensures OthersKept(old(m.db.rows), m.db.rows, name) && Local(old(m.host.pool), m.host.pool, name)
    ensures name in m.db.rows
    ensures r.Refused? ==> m.db.rows == old(m.db.rows) && m.host.pool == old(m.host.pool)
    ensures r.Done? ==>
              m.host.hooks == old(m.host.hooks) + Started(m.cfg, OnCreate, name) + Started(m.cfg, OnReset, name)
    ensures !NoBaselineOn(m.db.baselines, name) <==> r == Refused(Precondition)
    ensures NoBaselineOn(m.db.baselines, name) ==>
              && Rebuilt(r, old(m.db.rows)[name], old(m.host.pool), m.db.rows[name], m.host.pool, name,
                         old(m.db.rows)[name].origin, CreateOp, m.clock)
              && (m.host.quiet ==>
                    && (r.Done? <==> old(m.RoomToRun()) && Exists(old(m.host.pool), old(m.db.rows)[name].origin))
                    && (r.Done? ==> Branch(StashName(name)) !in m.host.pool.vols))
    ensures Sleepwalks(m.db.rows, m.host.pool, name) ==> Sleepwalks(old(m.db.rows), old(m.host.pool), name)
    ensures m.host.quiet ==> !r.Crashed?
    ensures m.strays <= old(m.strays) && SameBut(old(m.strays), m.strays, name) && (r.Done? ==> name !in m.strays)
    ensures r.Refused? ==> m.strays == old(m.strays)
    ensures !r.Done? && Usable(m.db.rows[name]) ==> Usable(old(m.db.rows)[name])
  {
    hide Inv, Clean, StraysAre, AllSettled, Rebuilt;
    ghost var rows := m.db.rows;
    UsableIsReady(m, name);
    OriginIsSound(m, name);
    var found := m.host.Resolve(name);
    if found {
      var backs := m.Backs(name);
      if backs { return Refused(Precondition); }
    }
    r := RecreateFrom(m, name, OnCreate, m.db.rows[name].origin, CreateOp);
    if !r.Crashed? { SettledAgain(rows, m.db.rows, name); }
  }

  /** Why Retry does nothing: there is no error, it is final, or no operation that can be repeated. */
  ghost predicate NotRetried(why: Refusal, rows: Rows, name: string) {
    match why
    case NotFound => name !in rows
    case WrongState =>
      name in rows
        && (rows[name].state != Error || (rows[name].recoverable && rows[name].failedOp in {NoOp, ReconcileOp}))
    case NotRecoverable => name in rows && rows[name].state == Error && !rows[name].recoverable
    case _ => false
  }

  predicate MayRetry(rows: Rows, name: string) {
    name in rows && rows[name].state == Error && rows[name].recoverable && rows[name].failedOp !in {NoOp, ReconcileOp}
  }

  /** What Retry needs, apart from calls that do not fail. A reset needs no room to run; a recreate
      needs a volume under the branch's own name, a create does not. */
  ghost predicate Retriable(row: Row, bs: Baselines, p: Pool, name: string, current: SnapRef, room: bool) {
    match row.failedOp
    case CreateOp => room && NoBaselineOn(bs, name) && Exists(p, row.origin)
    case RecreateOp => room && NoBaselineOn(bs, name) && Exists(p, current) && Branch(name) in p.vols
    case ResetOp => NoBaselineOn(bs, name) && HasInit(p, name)
    case WakeOp => room
    case _ => false
  }

  /** The branch runs, with the volume and the origin its failed operation prescribes. */
  ghost predicate Retried(row: Row, p: Pool, row': Row, q: Pool, name: string, current: SnapRef) {
    && row'.state == Running && name in q.procs && HasInit(q, name)
    && match row.failedOp
       case CreateOp => row'.origin == row.origin && Ready(q, name, row.origin)
       case RecreateOp => row'.origin == current && Ready(q, name, current)
       case ResetOp => row'.origin == row.origin && SameClone(p, q, name)
       case WakeOp => row'.origin == row.origin && SameContents(p, q, name)
       case _ => false
  }

  /** What Retry does to the set of stray rows. Only an unfinished recreate adds to it, and a stray comes
      up only by a reset. */
  ghost predicate StraysAfterRetry(r: Result, row: Row, strays: set<string>, row': Row, strays': set<string>,
                                   name: string, current: SnapRef) {
    && SameBut(strays, strays', name) && (r.Refused? ==> strays' == strays)
    && (name in strays' && name !in strays ==> !r.Done? && row.failedOp == RecreateOp && row.origin != current)
    && (name in strays' && Usable(row') ==>
        strays' == strays && (Usable(row) || (row.state == Error && row.failedOp == ResetOp)))
  }

  /** A retried create or recreate. */
  method RetryRebuild(m: Manager, name: string) returns (r: Result)
    requires m.Valid() && name in m.db.rows
    requires m.db.rows[name].state == Error && m.db.rows[name].failedOp in {CreateOp, RecreateOp}
    modifies m.db`rows, m.host`pool, m.host`failures, m.host`hooks, m.host`wrote, m`strays
    ensures m.Valid() && (old(m.Up()) && !r.Crashed? ==> m.Up())
    ensures OthersKept(old(m.db.rows), m.db.rows, name) && Local(old(m.host.pool), m.host.pool, name)
            && name in m.db.rows
    ensures r.Refused? ==> m.db.rows == old(m.db.rows) && m.host.pool == old(m.host.pool)
    ensures StraysAfterRetry(r, old(m.db.rows)[name], old(m.strays), m.db.rows[name], m.strays, name,
                             CurrentOf(m.db.baselines, m.cfg.default))
    ensures r.Done? ==> m.db.rows[name].state == Running
    ensures r.Done? ==> Retried(old(m.db.rows)[name], old(m.host.pool), m.db.rows[name], m.host.pool, name,
                                CurrentOf(m.db.baselines, m.cfg.default))
    ensures m.host.quiet ==>
              (r.Done? <==> Retriable(old(m.db.rows)[name], m.db.baselines, old(m.host.pool), name,
                                      CurrentOf(m.db.baselines, m.cfg.default), old(m.RoomToRun())))
    ensures m.host.quiet && r.Done? ==> Branch(StashName(name)) !in m.host.pool.vols
    ensures old(m.db.rows)[name].failedOp == RecreateOp && Branch(name) !in old(m.host.pool).vols ==>
              r == Refused(NoVolume)
    ensures Sleepwalks(m.db.rows, m.host.pool, name) ==> Sleepwalks(old(m.db.rows), old(m.host.pool), name)
    ensures m.host.quiet ==> !r.Crashed?
  {
    hide Inv, Clean, StraysAre, AllSettled, HasTag, ActiveRows, SameContents, SameClone, Local, OldOrNew, Named,
      Survives;
    if m.db.rows[name].failedOp == CreateOp { r := RetryCreate(m, name); } else { r := Recreate(m, name); }
  }

  method Retry(m: Manager, name: string) returns (r: Result)
    requires m.Valid()
    modifies m.db`rows, m.host`pool, m.host`failures, m.host`hooks, m.host`wrote, m`strays
    ensures m.Valid() && (old(m.Up()) && !r.Crashed? ==> m.Up())
    ensures OthersKept(old(m.db.rows), m.db.rows, name) && Local(old(m.host.pool), m.host.pool, name)
    ensures name in old(m.db.rows) ==> name in m.db.rows
    ensures !MayRetry(old(m.db.rows), name) ==> r.Refused? && NotRetried(r.why, old(m.db.rows), name)
    // only a row in error is retried, only one that is not final, and only after an operation that can be repeated
    ensures name !in old(m.db.rows) ==> r == Refused(NotFound)
    ensures name in old(m.db.rows) && old(m.db.rows)[name].state != Error ==> r == Refused(WrongState)
    ensures name in old(m.db.rows) && old(m.db.rows)[name].state == Error ==>
              if !old(m.db.rows)[name].recoverable then r == Refused(NotRecoverable)
              else old(m.db.rows)[name].failedOp in {NoOp, ReconcileOp} ==> r == Refused(WrongState)
    ensures r.Refused? ==> m.db.rows == old(m.db.rows) && m.host.pool == old(m.host.pool)
    ensures r.Done? ==> name in old(m.db.rows) && name in m.db.rows &&
                        Retried(old(m.db.rows)[name], old(m.host.pool), m.db.rows[name], m.host.pool, name,
                                CurrentOf(m.db.baselines, m.cfg.default))
    ensures m.host.quiet && MayRetry(old(m.db.rows), name) ==>
              (r.Done? <==> Retriable(old(m.db.rows)[name], m.db.baselines, old(m.host.pool), name,
                                      CurrentOf(m.db.baselines, m.cfg.default), old(m.RoomToRun())))
    // a recreate has nothing to start from once the branch's name is free
    ensures MayRetry(old(m.db.rows), name) && old(m.db.rows)[name].failedOp == RecreateOp ==>
              (Branch(name) !in old(m.host.pool).vols ==> r == Refused(NoVolume))
    // no stash is left behind by the operations that make one
    ensures m.host.quiet && r.Done? && old(m.db.rows)[name].failedOp in {CreateOp, RecreateOp} ==>
              Branch(StashName(name)) !in m.host.pool.vols
    ensures Sleepwalks(m.db.rows, m.host.pool, name) ==> Sleepwalks(old(m.db.rows), old(m.host.pool), name)
    ensures m.host.quiet ==> !r.Crashed?
    ensures if name in old(m.db.rows) then
              StraysAfterRetry(r, old(m.db.rows)[name], old(m.strays), m.db.rows[name], m.strays, name,
                               CurrentOf(m.db.baselines, m.cfg.default))
            else m.strays == old(m.strays)
  {
    hide Inv, Clean, StraysAre, AllSettled, HasTag, ActiveRows, SameContents, Ready;
    if name !in m.db.rows { return Refused(NotFound); }
    var row := m.db.rows[name];
    if row.state != Error { return Refused(WrongState); }
    if !row.recoverable { return Refused(NotRecoverable); }
    match row.failedOp {
      case ResetOp => r := Reset(m, name);
      case WakeOp => r := Wake(m, name);
      case CreateOp => r := RetryRebuild(m, name);
      case RecreateOp => r := RetryRebuild(m, name);
      case _ => return Refused(WrongState);
    }
    if r.Done? { UsableIsReady(m, name); }
  }
}
