/** Create, and the stages it shares with the operations on existing branches. */
module Lifecycle {
  import opened Names
  import opened Pool
  import opened Store
  import opened Host
  import opened Invariant
  import opened Classify
  import opened Manager

  /** A row whose operation `op` failed at `stage`; only a failed snapshot may be final. */
  predicate ErrorRow(r: Row, op: Op, stage: Stage) {
    r.state == Error && r.failedOp == op && (stage != SnapshotStage ==> r.recoverable)
  }

  predicate SameRequest(r: Row, r': Row) {
    r'.port == r.port && r'.origin == r.origin && r'.profile == r.profile &&
    r'.createdAt == r.createdAt && r'.lastConnAt == r.lastConnAt && r'.expiresAt == r.expiresAt
  }

  /** What a finished branch looks like: a clone of its origin that carries @init. */
  ghost predicate Ready(p: Pool, name: string, origin: SnapRef) {
    HasInit(p, name) && CloneOf(p, Branch(name), origin)
  }

  /** Work on the branch's own volume does not make it a clone of something else. */
  lemma StaysCloneOf(p: Pool, q: Pool, name: string, s: SnapRef)
    requires CloneOf(p, Branch(name), s) && s.ds != Branch(name)
    requires Local(p, q, name) && SameBones(p, q, Branch(StashName(name)))
    requires Branch(name) in q.vols && q.vols[Branch(name)].origin == p.vols[Branch(name)].origin
    ensures CloneOf(q, Branch(name), s)
  {
    var rest := {Branch(name), Branch(StashName(name))};
    if s.ds != Branch(StashName(name)) {
      assert (p.vols - rest)[s.ds] == (q.vols - rest)[s.ds];
    }
  }

  lemma NoRowReserved(m: Manager)
    requires m.Valid()
    ensures forall n :: n in m.db.rows ==> !IsReserved(n)
  {
    forall n | n in m.db.rows ensures !IsReserved(n) {
      assert RowOk(n, m.db.rows[n], m.db.baselines, m.host.pool, m.lost);
    }
  }

  // ---- the parts Create, Reset, Recreate and Wake share ----

  /** Start the engine and wait until it answers. */
  method StartReady(m: Manager, name: string, op: Op) returns (r: Result)
    requires m.Valid() && name in m.db.rows && PlainName(name) && Branch(name) in m.host.pool.vols
    requires op == WakeOp ==> HasInit(m.host.pool, name) && m.Dirt(name)
    modifies m.db`rows, m.host`pool, m.host`failures
    ensures m.Valid() && Local(old(m.host.pool), m.host.pool, name)
    ensures SameBones(old(m.host.pool), m.host.pool, Branch(name))
            && SameData(old(m.host.pool), m.host.pool, Branch(name))
    ensures SameVolume(old(m.host.pool), m.host.pool, Branch(StashName(name)))
    ensures old(m.Dirt(name)) ==> m.Dirt(name)
    ensures r.Done? || r.FailedAt? || r.Crashed?
    ensures r.Done? ==> name in m.host.pool.procs
    ensures r.Done? ==>
              (Live(m.host.pool, name, Branch(name)) <==>
               name !in old(m.host.pool).procs || old(Live(m.host.pool, name, Branch(name))))
    ensures !r.FailedAt? ==> m.db.rows == old(m.db.rows)
    ensures OthersKept(old(m.db.rows), m.db.rows, name) && name in m.db.rows
    ensures r.FailedAt? ==> m.db.rows[name] == WithError(old(m.db.rows)[name], op, true, m.clock)
    ensures r.FailedAt? ==> r.stage == EngineStart || r.stage == EngineReady
    ensures m.host.quiet ==> r.Done?
  {
    hide Inv, Clean, StraysAre;
    var c := m.StartOwn(name);
    if c.Died? { return Crashed; }
    if c.Failed? { r := m.FailOp(name, op, EngineStart); return; }
    c := m.host.Probe();
    if c.Died? { return Crashed; }
    if c.Failed? { r := m.FailOp(name, op, EngineReady); return; }
    r := Done;
  }

  /** Run the hook on the started engine and stop it gracefully, so that a snapshot may follow. */
  method HookAndStop(m: Manager, name: string, event: Script, op: Op, stopStage: Stage) returns (r: Result)
    requires m.Valid() && name in m.db.rows && PlainName(name) && op != WakeOp && stopStage != SnapshotStage
    requires Branch(name) in m.host.pool.vols && m.Dirt(name)
    modifies m.db`rows, m.host`pool, m.host`failures, m.host`hooks, m.host`wrote
    ensures m.Valid() && Local(old(m.host.pool), m.host.pool, name)
    ensures SameBones(old(m.host.pool), m.host.pool, Branch(name))
    ensures SameBones(old(m.host.pool), m.host.pool, Branch(StashName(name)))
    ensures r.Done? || r.FailedAt? || r.Crashed?
    ensures r.Done? ==> m.host.hooks == old(m.host.hooks) + Started(m.cfg, event, name)
    ensures r.Done? ==> name !in m.host.pool.procs
    ensures !r.FailedAt? ==> m.db.rows == old(m.db.rows)
    ensures OthersKept(old(m.db.rows), m.db.rows, name) && name in m.db.rows
    ensures r.Done? && m.faithful ==> !m.host.pool.vols[Branch(name)].dirty
    ensures r.FailedAt? ==> m.db.rows[name] == WithError(old(m.db.rows)[name], op, true, m.clock)
    ensures r.FailedAt? ==> r.stage == HookStage || r.stage == stopStage
    ensures r.Done? ==>
              m.host.pool.vols[Branch(name)].data ==
              LeftBy(event in m.cfg.hooks && old(Live(m.host.pool, name, Branch(name))), m.host.wrote,
                     old(m.host.pool).vols[Branch(name)].data)
    ensures m.host.quiet ==> r.Done?
  {
    hide Inv, Clean, StraysAre;
    var c := m.RunHook(event, name);
    if c.Died? { return Crashed; }
    if c.Failed? { r := m.FailOp(name, op, HookStage); return; }
    c := m.StopOwn(name);
    if c.Died? { return Crashed; }
    if c.Failed? { r := m.FailOp(name, op, stopStage); return; }
    r := Done;
  }

  /** Start, wait, hook, graceful stop. */
  method Prepare(m: Manager, name: string, event: Script, op: Op, stopStage: Stage) returns (r: Result)
    requires m.Valid() && name in m.db.rows && PlainName(name) && op != WakeOp && stopStage != SnapshotStage
    requires Branch(name) in m.host.pool.vols && m.Dirt(name)
    modifies m.db`rows, m.host`pool, m.host`failures, m.host`hooks, m.host`wrote
    ensures m.Valid() && Local(old(m.host.pool), m.host.pool, name)
    ensures SameBones(old(m.host.pool), m.host.pool, Branch(name))
    ensures SameBones(old(m.host.pool), m.host.pool, Branch(StashName(name)))
    ensures r.Done? || r.FailedAt? || r.Crashed?
    ensures r.Done? ==> m.host.hooks == old(m.host.hooks) + Started(m.cfg, event, name)
    ensures r.Done? ==> name !in m.host.pool.procs
    ensures !r.FailedAt? ==> m.db.rows == old(m.db.rows)
    ensures OthersKept(old(m.db.rows), m.db.rows, name) && name in m.db.rows
    ensures r.Done? && m.faithful ==> !m.host.pool.vols[Branch(name)].dirty
    ensures r.FailedAt? ==> m.db.rows[name] == WithError(old(m.db.rows)[name], op, true, m.clock)
    ensures r.FailedAt? ==> r.stage in {EngineStart, EngineReady, HookStage, stopStage}
    ensures r.Done? ==>
              m.host.pool.vols[Branch(name)].data ==
              LeftBy(event in m.cfg.hooks &&
                     (name !in old(m.host.pool).procs || old(Live(m.host.pool, name, Branch(name)))),
                     m.host.wrote, old(m.host.pool).vols[Branch(name)].data)
    ensures m.host.quiet ==> r.Done?
  {
    hide Inv, Clean, StraysAre;
    r := StartReady(m, name, op);
    if r.Done? { r := HookAndStop(m, name, event, op, stopStage); }
  }

  lemma InitIsNoBaseline(m: Manager, name: string)
    requires m.Valid()
    ensures SnapRef(Branch(name), INIT) !in m.db.baselines
  {
    hide PoolOk, CurrentOk;
    forall s | s in m.db.baselines ensures s.tag != INIT {
      assert BaselineOk(s, m.db.rows, m.host.pool, m.lost);
    }
  }

  /** Take @init of the stopped datadir and record it. */
  method TakeInit(m: Manager, name: string, op: Op) returns (r: Result)
    requires m.Valid() && name in m.db.rows && op != WakeOp
    requires Branch(name) in m.host.pool.vols && (m.faithful ==> !m.host.pool.vols[Branch(name)].dirty)
    modifies m.db`rows, m.host`pool, m.host`failures
    ensures m.Valid() && Local(old(m.host.pool), m.host.pool, name)
    ensures SameVolume(old(m.host.pool), m.host.pool, Branch(StashName(name)))
    ensures SameLine(old(m.host.pool), m.host.pool, Branch(name))
    ensures r.Done? || r == FailedAt(SnapshotStage) || r.Crashed?
    ensures m.host.pool.procs == old(m.host.pool).procs
    ensures OthersKept(old(m.db.rows), m.db.rows, name) && name in m.db.rows
    ensures r.Done? ==> !old(HasInit(m.host.pool, name)) && HasInit(m.host.pool, name) && m.Dirt(name)
    ensures r.Done? ==> m.db.rows[name] == old(m.db.rows)[name].(initSnapshot := Some(SnapRef(Branch(name), INIT)))
    ensures r.Done? ==> At(m.host.pool, SnapRef(Branch(name), INIT)).data == old(m.host.pool.vols[Branch(name)].data)
    ensures r.FailedAt? ==> m.db.rows[name] == WithError(old(m.db.rows)[name], op, m.db.rows[name].recoverable, m.clock)
    ensures r.Crashed? ==> m.db.rows == old(m.db.rows)
    ensures m.host.quiet && !old(HasInit(m.host.pool, name)) ==> r.Done?
  {
    hide Inv, Clean, StraysAre;
    ghost var p := m.host.pool;
    InitIsNoBaseline(m, name);
    var c := m.SnapshotOwn(name, INIT);
    if c.Died? { return Crashed; }
    if c.Failed? { r := m.FailOp(name, op, SnapshotStage); return; }
    NewestAt(p, SnapRef(Branch(name), INIT));
    m.Provisioned(name);
    r := Done;
  }

  /** Take @init, record it and start the engine. */
  method Finish(m: Manager, name: string, op: Op) returns (r: Result)
    requires m.Valid() && name in m.db.rows && !IsReserved(name) && op != WakeOp
    requires Branch(name) in m.host.pool.vols && (m.faithful ==> !m.host.pool.vols[Branch(name)].dirty)
    modifies m.db`rows, m.host`pool, m.host`failures
    ensures m.Valid() && Local(old(m.host.pool), m.host.pool, name)
    ensures SameVolume(old(m.host.pool), m.host.pool, Branch(StashName(name)))
    ensures SameLine(old(m.host.pool), m.host.pool, Branch(name))
    ensures r.Done? || r.FailedAt? || r.Crashed?
    ensures r.Done? ==> name in m.host.pool.procs
    ensures r.Done? && name !in old(m.host.pool).procs ==> Live(m.host.pool, name, Branch(name))
    ensures OthersKept(old(m.db.rows), m.db.rows, name) && name in m.db.rows
    ensures SameRequest(old(m.db.rows)[name], m.db.rows[name])
    ensures r.Done? ==> m.db.rows[name] == old(m.db.rows)[name].(initSnapshot := Some(SnapRef(Branch(name), INIT)))
    ensures r.Done? ==> HasInit(m.host.pool, name) && m.Dirt(name)
    ensures r.Done? ==> At(m.host.pool, SnapRef(Branch(name), INIT)).data == old(m.host.pool.vols[Branch(name)].data)
    ensures r.FailedAt? ==>
              ErrorRow(m.db.rows[name], op, r.stage) && r.stage in {SnapshotStage, EngineStart, EngineReady}
    ensures r.Crashed? ==> m.db.rows[name].state == old(m.db.rows)[name].state
    ensures m.host.quiet && !old(HasInit(m.host.pool, name)) ==> r.Done?
  {
    hide Inv, Clean, StraysAre;
    r := TakeInit(m, name, op);
    if r.Done? { r := StartReady(m, name, op); }
  }

  lemma NewestAt(p: Pool, s: SnapRef)
    requires CanSnapshot(p, s)
    ensures Exists(DoSnapshot(p, s), s) && At(DoSnapshot(p, s), s).data == p.vols[s.ds].data
  {
    var snaps := DoSnapshot(p, s).vols[s.ds].snaps;
    assert snaps[|snaps| - 1].tag == s.tag;
    assert forall j :: 0 <= j < |snaps| - 1 ==> snaps[j] == p.vols[s.ds].snaps[j];
  }

  // ---- Create ----

  /** The baseline a new branch starts from. */
  ghost function StartingPoint(cfg: Config, bs: Baselines, baseline: Option<SnapRef>): SnapRef {
    if baseline.Some? then baseline.value else CurrentOf(bs, cfg.default)
  }

  /** An empty name stands for the default; without configured profiles any name will do. */
  function ResolveProfile(cfg: Config, profile: string): Option<string> {
    var name := if profile == "" then cfg.defaultProfile else profile;
    if name == "" || cfg.profiles == {} || name in cfg.profiles then Some(name) else None
  }

  ghost predicate PortFits(cfg: Config, rows: Rows, requested: int, port: int) {
    && cfg.portLow <= port <= cfg.portHigh && !PortUsed(rows, port)
    && (requested != 0 ==> port == requested)
    && (requested == 0 ==> forall p :: cfg.portLow <= p < port ==> PortUsed(rows, p))
  }

  /** When Create may refuse, and with which error. Only memory and watermark may add to LimitReached. */
  ghost predicate RefusedFor(why: Refusal, cfg: Config, rows: Rows, bs: Baselines, name: string, port: int,
                             profile: string, baseline: Option<SnapRef>) {
    var valid := cfg.nameOk(name) && !IsReserved(name);
    var kind := valid && ResolveProfile(cfg, profile).Some?;
    var known := baseline.Some? ==> baseline.value in bs;
    match why
    case InvalidName => !valid
    case UnknownProfile => valid && !kind
    case AlreadyExists => kind && name in rows
    case UnknownBaseline => kind && name !in rows && !known
    case LimitReached => kind && name !in rows && known
    case NoFreePort =>
      kind && name !in rows && known && port == 0 && forall p :: cfg.portLow <= p <= cfg.portHigh ==> PortUsed(rows, p)
    case PortUnavailable => kind && name !in rows && known && port != 0 && !PortFits(cfg, rows, port, port)
    case _ => false
  }

  /** What is certain about a row that Create inserted into `rows`. */
  ghost predicate Admitted(cfg: Config, rows: Rows, bs: Baselines, name: string, port: int, profile: string,
                           baseline: Option<SnapRef>, row: Row) {
    && cfg.nameOk(name) && !IsReserved(name) && name !in rows
    && (baseline.Some? ==> baseline.value in bs)
    && (cfg.maxBranches > 0 ==> |rows| < cfg.maxBranches)
    && (cfg.maxRunning > 0 ==> |ActiveRows(rows)| < cfg.maxRunning)
    && PortFits(cfg, rows, port, row.port)
    && row.origin == StartingPoint(cfg, bs, baseline) && ResolveProfile(cfg, profile) == Some(row.profile)
  }

  /** A new name that is no internal one, room for one more, a port that is free - the lowest if none is asked for - and
      the baseline asked for, or the current one, or the default. */
  lemma AdmittedMeans(cfg: Config, rows: Rows, bs: Baselines, name: string, port: int, profile: string,
                      baseline: Option<SnapRef>, row: Row)
    requires Admitted(cfg, rows, bs, name, port, profile, baseline, row)
    ensures cfg.nameOk(name) && (name == "" || name[0] != '_') && (forall o :: name != StashName(o)) && name !in rows
    ensures cfg.maxBranches > 0 ==> |rows| < cfg.maxBranches
    ensures cfg.maxRunning > 0 ==>
              |set n | n in rows && rows[n].state in {Running, Creating, Resetting}| < cfg.maxRunning
    ensures cfg.portLow <= row.port <= cfg.portHigh && (forall n :: n in rows ==> rows[n].port != row.port)
    ensures if port != 0 then row.port == port else forall p :: cfg.portLow <= p < row.port ==> PortUsed(rows, p)
    ensures if baseline.Some? then baseline.value in bs && row.origin == baseline.value
            else if exists s :: s in bs && bs[s].current then row.origin in bs && bs[row.origin].current
            else row.origin == cfg.default
  {
    forall o ensures name != StashName(o) { StashNames(o, name); }
    assert ActiveRows(rows) == set n | n in rows && rows[n].state in {Running, Creating, Resetting};
  }

  /** Each refusal has its own reason, and comes only where no earlier one applies. */
  lemma RefusedMeans(why: Refusal, cfg: Config, rows: Rows, bs: Baselines, name: string, port: int, profile: string,
                     baseline: Option<SnapRef>)
    requires RefusedFor(why, cfg, rows, bs, name, port, profile, baseline)
    ensures why in {InvalidName, UnknownProfile, AlreadyExists, UnknownBaseline, LimitReached, NoFreePort,
                    PortUnavailable}
    ensures var internal := (name != "" && name[0] == '_') || exists o :: name == StashName(o);
            why == InvalidName <==> !cfg.nameOk(name) || internal
    ensures why == AlreadyExists ==> name in rows
    ensures why in {UnknownBaseline, LimitReached, NoFreePort, PortUnavailable} ==> name !in rows
    ensures why == UnknownBaseline ==> baseline.Some? && baseline.value !in bs
    ensures why in {LimitReached, NoFreePort, PortUnavailable} ==> baseline.None? || baseline.value in bs
    ensures why == NoFreePort ==> port == 0 && forall p :: cfg.portLow <= p <= cfg.portHigh ==> PortUsed(rows, p)
    ensures why == PortUnavailable ==>
              port != 0 && (port < cfg.portLow || port > cfg.portHigh || exists n :: n in rows && rows[n].port == port)
  {
    if HasSuffix(name, RECREATING_SUFFIX) {
      assert name == name[..|name| - |RECREATING_SUFFIX|] + name[|name| - |RECREATING_SUFFIX|..];
      assert name == StashName(name[..|name| - |RECREATING_SUFFIX|]);
    }
    forall o | name == StashName(o) ensures IsReserved(name) { StashNames(o, o); }
  }

  method Create(m: Manager, name: string, port: int, profile: string, baseline: Option<SnapRef>) returns (r: Result)
    requires m.Valid()
    modifies m.db`rows, m.host`pool, m.host`failures, m.host`hooks, m.host`wrote, m`strays
    ensures m.Valid() && (old(m.Up()) && !r.Crashed? ==> m.Up())
    ensures OthersKept(old(m.db.rows), m.db.rows, name)
    ensures Local(old(m.host.pool), m.host.pool, name)
    // the row names another lineage only if a volume without a row was in the way
    ensures SameBut(old(m.strays), m.strays, name)
    ensures name in m.strays && name !in old(m.strays) ==>
              name !in old(m.db.rows) && Branch(name) in old(m.host.pool).vols
    ensures r.Done? ==> name !in m.strays
    ensures r.Refused? ==> m.db.rows == old(m.db.rows) && m.host.pool == old(m.host.pool)
    ensures r.Refused? ==> RefusedFor(r.why, m.cfg, old(m.db.rows), m.db.baselines, name, port, profile, baseline)
    ensures !r.Refused? && !(r.Crashed? && m.db.rows == old(m.db.rows)) ==>
              && name in m.db.rows
              && Admitted(m.cfg, old(m.db.rows), m.db.baselines, name, port, profile, baseline, m.db.rows[name])
              // the profile asked for, or the default, and one that is configured if any is
              && m.db.rows[name].profile == (if profile == "" then m.cfg.defaultProfile else profile)
              && (m.db.rows[name].profile == "" || m.cfg.profiles == {} || m.db.rows[name].profile in m.cfg.profiles)
    ensures r == Refused(UnknownProfile) ==>
              (if profile == "" then m.cfg.defaultProfile else profile) !in m.cfg.profiles + {""}
                && m.cfg.profiles != {}
    ensures r.Done? ==>
              && m.db.rows[name].state == Running
              && name in m.host.pool.procs
              && Ready(m.host.pool, name, m.db.rows[name].origin)
    ensures r.Done? ==> m.host.hooks == old(m.host.hooks) + Started(m.cfg, OnCreate, name)
    ensures r.Done? && OnCreate in m.cfg.hooks ==> Live(m.host.pool, name, Branch(name))
    // @init holds the origin's data, or what the on-create hook wrote in its place
    ensures r.Done? ==>
              && Exists(old(m.host.pool), m.db.rows[name].origin)
              && At(m.host.pool, SnapRef(Branch(name), INIT)).data ==
                 LeftBy(OnCreate in m.cfg.hooks && name !in old(m.host.pool).procs, m.host.wrote,
                        At(old(m.host.pool), m.db.rows[name].origin).data)
    ensures r.FailedAt? ==> ErrorRow(m.db.rows[name], CreateOp, r.stage)
    ensures r.FailedAt? && r.stage != CloneStage ==> Branch(name) in m.host.pool.vols
    ensures r.Crashed? ==> m.db.rows == old(m.db.rows) || m.db.rows[name].state == Creating
    ensures Sleepwalks(m.db.rows, m.host.pool, name) ==> Sleepwalks(old(m.db.rows), old(m.host.pool), name)
    // without failures an admitted request goes through, unless a volume without a row is in the way
    ensures m.host.quiet && !r.Refused? ==>
              && name in m.db.rows
              && (r.Done? <==> CanClone(old(m.host.pool), m.db.rows[name].origin, Branch(name)))
  {
    hide Inv, Clean, StraysAre, AllSettled;
    ghost var rows := m.db.rows;
    r := AdmitCreate(m, name, port, profile, baseline);
    if r.Done? {
      ghost var row := m.db.rows[name];
      r := Provision(m, name, m.db.rows[name].origin);
      assert Admitted(m.cfg, rows, m.db.baselines, name, port, profile, baseline, m.db.rows[name]) by {
        assert SameRequest(row, m.db.rows[name]);
      }
      if !r.Crashed? { SettledAgain(rows, m.db.rows, name); }
    }
  }

  /** The current baseline can be looked up, and its snapshot is there unless a deletion was cut short. */
  lemma CurrentIsSound(m: Manager)
    requires m.Valid()
    ensures AtMostOneCurrent(m.db.baselines)
    ensures var c := CurrentOf(m.db.baselines, m.cfg.default);
            (c in m.db.baselines || c.ds == Base) && (c !in m.lost ==> Exists(m.host.pool, c))
  {
    CurrentExists(m.db.rows, m.db.baselines, m.host.pool, m.cfg.default, m.lost);
  }

  lemma RegisteredExists(m: Manager, s: SnapRef)
    requires m.Valid() && s in m.db.baselines
    ensures s !in m.lost ==> Exists(m.host.pool, s)
    ensures s.ds in m.host.pool.vols
  {
    assert BaselineOk(s, m.db.rows, m.host.pool, m.lost);
  }

  /** The checks, with the port and origin they settle on. */
  method ChooseRow(m: Manager, name: string, port: int, profile: string, baseline: Option<SnapRef>)
    returns (r: Result, chosen: int, origin: SnapRef)
    requires m.Valid()
    ensures r.Done? || r.Refused? || r.Crashed?
    ensures r.Refused? ==> RefusedFor(r.why, m.cfg, m.db.rows, m.db.baselines, name, port, profile, baseline)
    ensures r.Done? ==>
              m.cfg.nameOk(name) && !IsReserved(name) && name !in m.db.rows && ResolveProfile(m.cfg, profile).Some?
    ensures r.Done? ==> (baseline.Some? ==> baseline.value in m.db.baselines)
    ensures r.Done? ==> (m.cfg.maxBranches > 0 ==> |m.db.rows| < m.cfg.maxBranches) && m.RoomToRun()
    ensures r.Done? ==> PortFits(m.cfg, m.db.rows, port, chosen)
    ensures r.Done? ==> origin == StartingPoint(m.cfg, m.db.baselines, baseline)
    ensures r.Done? ==>
              (origin in m.db.baselines || origin.ds == Base) && (origin !in m.lost ==> Exists(m.host.pool, origin))
    ensures m.host.quiet ==> !r.Crashed?
  {
    hide Inv, Clean, StraysAre, Exists;
    chosen, origin := 0, m.cfg.default;
    CurrentIsSound(m);
    if !m.cfg.nameOk(name) || IsReserved(name) { r := Refused(InvalidName); return; }
    if ResolveProfile(m.cfg, profile).None? { r := Refused(UnknownProfile); return; }
    if name in m.db.rows { r := Refused(AlreadyExists); return; }
    if baseline.Some? && baseline.value !in m.db.baselines { r := Refused(UnknownBaseline); return; }
    origin := m.db.CurrentBaseline(m.cfg.default);
    if baseline.Some? {
      origin := baseline.value;
      RegisteredExists(m, origin);
    }
    if m.cfg.maxBranches > 0 && |m.db.rows| >= m.cfg.maxBranches { r := Refused(LimitReached); return; }
    var p := m.AllocPort(port);
    if p.None? { r := Refused(if port == 0 then NoFreePort else PortUnavailable); return; }
    chosen := p.value;
    var c := m.Admit();
    r := if c.Died? then Crashed else if c.Failed? then Refused(LimitReached) else Done;
  }

  /** The checks and the insertion of the row, which are one section under admitMu. */
  method AdmitCreate(m: Manager, name: string, port: int, profile: string, baseline: Option<SnapRef>)
    returns (r: Result)
    requires m.Valid()
    modifies m.db`rows, m`strays
    ensures m.Valid() && OthersKept(old(m.db.rows), m.db.rows, name) && SameBut(old(m.strays), m.strays, name)
    ensures r.Done? || r.Refused? || r.Crashed?
    ensures !r.Done? ==> m.db.rows == old(m.db.rows) && m.strays == old(m.strays)
    ensures Branch(name) !in m.host.pool.vols && name !in old(m.strays) ==> name !in m.strays
    ensures r.Refused? ==> RefusedFor(r.why, m.cfg, old(m.db.rows), m.db.baselines, name, port, profile, baseline)
    ensures r.Done? ==> name in m.db.rows && m.db.rows[name].state == Creating
    ensures r.Done? ==> Admitted(m.cfg, old(m.db.rows), m.db.baselines, name, port, profile, baseline, m.db.rows[name])
    ensures m.host.quiet ==> !r.Crashed?
  {
    hide Inv, Clean, StraysAre, RefusedFor, StartingPoint;
    var p, origin;
    r, p, origin := ChooseRow(m, name, port, profile, baseline);
    if r.Done? {
      var kind := ResolveProfile(m.cfg, profile).value;
      InsertKeeps(m, name, p, origin, kind);
      ghost var rows := m.db.rows;
      m.db.CreateBranch(name, p, origin, kind, m.clock);
      m.RestrayRow(rows, name);
      if Branch(name) !in m.host.pool.vols { m.NoStray(name); }
    }
  }

  lemma InsertKeeps(m: Manager, name: string, port: int, origin: SnapRef, profile: string)
    requires m.Valid() && name !in m.db.rows && !IsReserved(name) && !PortUsed(m.db.rows, port)
    requires (origin in m.db.baselines || origin.ds == Base) && (origin !in m.lost ==> Exists(m.host.pool, origin))
    ensures var row := Row(Creating, port, origin, NoOp, false, None, profile, m.clock, None, None, None);
            && Inv(m.db.rows[name := row], m.db.baselines, m.host.pool, m.cfg.default, m.lost)
            && (m.faithful ==> Clean(m.db.rows[name := row], m.host.pool))
  {
    hide PoolOk, CurrentOk;
    var row := Row(Creating, port, origin, NoOp, false, None, profile, m.clock, None, None, None);
    NoBaselineOnReserved(m.db.rows, m.db.baselines, m.host.pool, m.cfg.default, m.lost, name);
    RowKeeps(m.db.rows, m.db.baselines, m.host.pool, m.cfg.default, m.lost, name, row);
  }

  lemma OriginIsSound(m: Manager, name: string)
    requires m.Valid() && name in m.db.rows
    ensures var o := m.db.rows[name].origin;
            (o.ds == Base || o in m.db.baselines) && (o !in m.lost ==> Exists(m.host.pool, o))
  {
    hide PoolOk, CurrentOk;
    assert RowOk(name, m.db.rows[name], m.db.baselines, m.host.pool, m.lost);
  }

  /** The clone and its quota. */
  method CloneForCreate(m: Manager, name: string, origin: SnapRef) returns (r: Result)
    requires m.Valid() && name in m.db.rows && m.db.rows[name].state == Creating && m.db.rows[name].origin == origin
    modifies m.db`rows, m.host`pool, m.host`failures, m`strays
    ensures m.Valid() && Local(old(m.host.pool), m.host.pool, name) && SameBut(old(m.strays), m.strays, name)
    ensures name in m.strays ==> Branch(name) in old(m.host.pool).vols
    ensures r.Done? ==> !Live(m.host.pool, name, Branch(name)) && m.host.pool.procs == old(m.host.pool).procs
    ensures r.Done? || r.FailedAt? || r.Crashed?
    ensures !r.FailedAt? ==> m.db.rows == old(m.db.rows)
    ensures r.Done? ==> CanClone(old(m.host.pool), origin, Branch(name)) && CloneOf(m.host.pool, Branch(name), origin)
    ensures r.Done? ==> m.host.pool.vols[Branch(name)].snaps == [] &&
                        m.host.pool.vols[Branch(name)].data == At(old(m.host.pool), origin).data
    ensures r.Done? && m.faithful ==> !m.host.pool.vols[Branch(name)].dirty
    ensures OthersKept(old(m.db.rows), m.db.rows, name) && name in m.db.rows
    ensures r.FailedAt? ==> m.db.rows[name] == WithError(old(m.db.rows)[name], CreateOp, true, m.clock)
    ensures r.FailedAt? ==> r.stage == CloneStage || (r.stage == QuotaStage && Branch(name) in m.host.pool.vols)
    ensures m.host.quiet ==> (r.Done? <==> CanClone(old(m.host.pool), origin, Branch(name)))
  {
    hide Inv, Clean, StraysAre, HasTag;
    OriginIsSound(m, name);
    m.ProcsAreOld();
    var c := m.CloneOwn(origin, name);
    if Branch(name) !in old(m.host.pool).vols { m.NoStray(name); }
    if c.Died? { return Crashed; }
    if c.Failed? { r := m.FailOp(name, CreateOp, CloneStage); return; }
    c := m.host.Probe();
    if c.Died? { return Crashed; }
    if c.Failed? { r := m.FailOp(name, CreateOp, QuotaStage); return; }
    r := Done;
  }

  /** The stopped datadir becomes @init, and the branch runs. */
  method FinishCreate(m: Manager, name: string) returns (r: Result)
    requires m.Valid() && name in m.db.rows && m.db.rows[name].state == Creating && !IsReserved(name)
    requires Branch(name) in m.host.pool.vols && (m.faithful ==> !m.host.pool.vols[Branch(name)].dirty)
    requires m.host.pool.vols[Branch(name)].snaps == []
    modifies m.db`rows, m.host`pool, m.host`failures
    ensures m.Valid() && Local(old(m.host.pool), m.host.pool, name)
    ensures SameVolume(old(m.host.pool), m.host.pool, Branch(StashName(name)))
    ensures SameLine(old(m.host.pool), m.host.pool, Branch(name))
    ensures r.Done? || r.FailedAt? || r.Crashed?
    ensures r.Done? ==> name in m.host.pool.procs
    ensures r.Done? && name !in old(m.host.pool).procs ==> Live(m.host.pool, name, Branch(name))
    ensures OthersKept(old(m.db.rows), m.db.rows, name) && name in m.db.rows
    ensures SameRequest(old(m.db.rows)[name], m.db.rows[name])
    ensures r.Done? ==> m.db.rows[name].state == Running && HasInit(m.host.pool, name)
    ensures r.Done? ==> At(m.host.pool, SnapRef(Branch(name), INIT)).data == old(m.host.pool.vols[Branch(name)].data)
    ensures r.FailedAt? ==> ErrorRow(m.db.rows[name], CreateOp, r.stage)
    ensures r.Crashed? ==> m.db.rows[name].state == Creating
    ensures m.host.quiet ==> r.Done?
  {
    hide Inv, Clean, StraysAre;
    r := Finish(m, name, CreateOp);
    if r.Done? { m.MarkState(name, Running); }
  }

  /** From the inserted row to a running branch. */
  method Provision(m: Manager, name: string, origin: SnapRef) returns (r: Result)
    requires m.Valid() && name in m.db.rows && m.db.rows[name].state == Creating && m.db.rows[name].origin == origin
    modifies m.db`rows, m.host`pool, m.host`failures, m.host`hooks, m.host`wrote, m`strays
    ensures m.Valid() && SameBut(old(m.strays), m.strays, name)
    ensures name in m.strays ==> Branch(name) in old(m.host.pool).vols && !r.Done?
    ensures OthersKept(old(m.db.rows), m.db.rows, name) && name in m.db.rows
    ensures SameRequest(old(m.db.rows)[name], m.db.rows[name])
    ensures Local(old(m.host.pool), m.host.pool, name)
    ensures r.Done? || r.FailedAt? || r.Crashed?
    ensures r.Done? ==> m.host.hooks == old(m.host.hooks) + Started(m.cfg, OnCreate, name)
    ensures r.Done? ==> name in m.host.pool.procs
    ensures r.Done? && OnCreate in m.cfg.hooks ==> Live(m.host.pool, name, Branch(name))
    ensures r.Done? ==> m.db.rows[name].state == Running && Ready(m.host.pool, name, origin)
    ensures r.Done? ==>
              && Exists(old(m.host.pool), origin)
              && At(m.host.pool, SnapRef(Branch(name), INIT)).data ==
                 LeftBy(OnCreate in m.cfg.hooks && name !in old(m.host.pool).procs, m.host.wrote,
                        At(old(m.host.pool), origin).data)
    ensures r.FailedAt? ==> ErrorRow(m.db.rows[name], CreateOp, r.stage)
    ensures r.FailedAt? && r.stage != CloneStage ==> Branch(name) in m.host.pool.vols
    ensures r.Crashed? ==> m.db.rows[name].state == Creating
    ensures m.host.quiet ==> (r.Done? <==> CanClone(old(m.host.pool), origin, Branch(name)))
  {
    hide Inv, Clean, StraysAre, HasTag;
    NoRowReserved(m);
    r := CloneForCreate(m, name, origin);
    if !r.Done? { return; }
    ghost var p := m.host.pool;
    r := BuildBranch(m, name);
    if r.Done? { StaysCloneOf(p, m.host.pool, name, origin); }
  }

  /** The on-create hook if there is one, then @init and the engine. */
  method BuildBranch(m: Manager, name: string) returns (r: Result)
    requires m.Valid() && name in m.db.rows && m.db.rows[name].state == Creating && !IsReserved(name)
    requires Branch(name) in m.host.pool.vols && (m.faithful ==> !m.host.pool.vols[Branch(name)].dirty)
    requires m.host.pool.vols[Branch(name)].snaps == []
    modifies m.db`rows, m.host`pool, m.host`failures, m.host`hooks, m.host`wrote
    ensures m.Valid() && Local(old(m.host.pool), m.host.pool, name)
    ensures SameBones(old(m.host.pool), m.host.pool, Branch(StashName(name)))
    ensures SameLine(old(m.host.pool), m.host.pool, Branch(name))
    ensures r.Done? || r.FailedAt? || r.Crashed?
    ensures r.Done? ==> m.host.hooks == old(m.host.hooks) + Started(m.cfg, OnCreate, name)
    ensures r.Done? ==> name in m.host.pool.procs
    ensures r.Done? && OnCreate in m.cfg.hooks ==> Live(m.host.pool, name, Branch(name))
    ensures OthersKept(old(m.db.rows), m.db.rows, name) && name in m.db.rows
    ensures SameRequest(old(m.db.rows)[name], m.db.rows[name])
    ensures r.Done? ==> m.db.rows[name].state == Running && HasInit(m.host.pool, name)
    ensures r.Done? ==>
              At(m.host.pool, SnapRef(Branch(name), INIT)).data ==
              LeftBy(OnCreate in m.cfg.hooks &&
                     (name !in old(m.host.pool).procs || old(Live(m.host.pool, name, Branch(name)))),
                     m.host.wrote, old(m.host.pool.vols[Branch(name)].data))
    ensures r.FailedAt? ==> ErrorRow(m.db.rows[name], CreateOp, r.stage)
    ensures r.Crashed? ==> m.db.rows[name].state == Creating
    ensures m.host.quiet ==> r.Done?
  {
    hide Inv, Clean, StraysAre;
    r := Done;
    if OnCreate in m.cfg.hooks { r := Prepare(m, name, OnCreate, CreateOp, EngineStop); }
    if r.Done? { r := FinishCreate(m, name); }
  }
}
