/** The branch manager: its configuration, the stores it works on, and the single steps its
    operations are made of. Every step is one backend call or one statement, and keeps
    `Valid()` whether it succeeds, fails, or is where the daemon dies. */
module Manager {
  import opened Names
  import opened Pool
  import opened Store
  import opened Host
  import opened Invariant
  import opened Classify

  datatype Config = Config(
    nameOk: string -> bool, maxBranches: int, portLow: int, portHigh: int, maxRunning: int,
    hooks: set<Script>,
    requireMasked: bool, requireValidated: bool, default: SnapRef,
    defaultProfile: string, profiles: set<string>)

  datatype Refusal =
    | InvalidName | AlreadyExists | NotFound | LimitReached | NoFreePort | PortUnavailable
    | UnknownProfile | UnknownBaseline | Precondition | WrongState | NotRecoverable | NoVolume | StopFailed
    | SnapshotFailed
    | ValidationFailed | BuildFailed

  datatype Result = Done | Refused(why: Refusal) | FailedAt(stage: Stage) | Crashed

  /** Rows that count against max_running: their engine runs or is about to. */
  predicate Active(st: State) {
    st == Running || st == Creating || st == Resetting
  }

  ghost function ActiveRows(rows: Rows): set<string> {
    set n | n in rows && Active(rows[n].state)
  }

  predicate PortUsed(rows: Rows, port: int) {
    exists n :: n in rows && rows[n].port == port
  }

  /** Names a unit may run under: branches and _validate. */
  predicate PlainName(name: string) {
    !HasSuffix(name, RECREATING_SUFFIX) && name != REFRESH_UNIT
  }

  // ---- what a step on one branch leaves alone ----

  function VolumeAt(p: Pool, d: Dataset): Option<Volume> {
    if d in p.vols then Some(p.vols[d]) else None
  }

  /** A dataset up to what a process writes to it. */
  function BonesAt(p: Pool, d: Dataset): Option<Volume> {
    if d in p.vols then Some(p.vols[d].(data := 0, dirty := false)) else None
  }

  predicate SameVolume(p: Pool, q: Pool, d: Dataset) {
    VolumeAt(p, d) == VolumeAt(q, d)
  }

  /** The same dataset with the same guid, origin and snapshots. */
  predicate SameBones(p: Pool, q: Pool, d: Dataset) {
    BonesAt(p, d) == BonesAt(q, d)
  }

  predicate SameData(p: Pool, q: Pool, d: Dataset) {
    d in p.vols && d in q.vols ==> p.vols[d].data == q.vols[d].data
  }

  /** What running the hook of an event adds to the scripts started: nothing if none is configured. */
  function Started(cfg: Config, event: Script, name: string): seq<(Script, string)> {
    if event in cfg.hooks then [(event, name)] else []
  }

  /** What a hook leaves of `data`: what it wrote, if it ran against the branch's own server. */
  function LeftBy(own: bool, wrote: Option<int>, data: int): int {
    if own && wrote.Some? then wrote.value else data
  }

  /** The same volume as far as zfs can tell: not replaced, nor re-cloned. */
  predicate SameLine(p: Pool, q: Pool, d: Dataset) {
    d in p.vols && d in q.vols && q.vols[d].guid == p.vols[d].guid && q.vols[d].origin == p.vols[d].origin
  }

  predicate SameDirt(p: Pool, q: Pool, d: Dataset) {
    d in p.vols && d in q.vols ==> p.vols[d].dirty == q.vols[d].dirty
  }

  /** The rows of other branches are as they were. */
  predicate OthersKept(rows: Rows, rows': Rows, name: string) {
    rows - {name} == rows' - {name}
  }

  predicate AllSettled(rows: Rows) {
    forall n :: n in rows ==> Settled(rows[n].state)
  }

  lemma SettledAgain(rows: Rows, rows': Rows, name: string)
    requires OthersKept(rows, rows', name)
    requires name in rows' ==> Settled(rows'[name].state)
    ensures AllSettled(rows) ==> AllSettled(rows')
  {
    forall n | n in rows' && AllSettled(rows) ensures Settled(rows'[n].state) {
      if n != name {
        assert n in rows' - {name};
        assert (rows' - {name})[n] == (rows - {name})[n];
      }
    }
  }

  /** Only the volume of `name`, its stash and its process may differ. */
  predicate Local(p: Pool, q: Pool, name: string) {
    && p.vols - {Branch(name), Branch(StashName(name))} == q.vols - {Branch(name), Branch(StashName(name))}
    && p.procs - {name} == q.procs - {name}
  }

  /** The same units run, those in `but` aside. */
  ghost predicate SameUnits(p: Pool, q: Pool, but: set<string>) {
    forall u :: u !in but ==> (u in p.procs <==> u in q.procs)
  }

  lemma LocalUnits(p: Pool, q: Pool, name: string)
    requires Local(p, q, name)
    ensures SameUnits(p, q, {name})
  {
    forall u | u != name ensures u in p.procs <==> u in q.procs {
      assert u in p.procs <==> u in p.procs - {name};
      assert u in q.procs <==> u in q.procs - {name};
    }
  }

  lemma UnitsTwice(p: Pool, q: Pool, r: Pool, but: set<string>, but': set<string>)
    requires SameUnits(p, q, but) && SameUnits(q, r, but')
    ensures SameUnits(p, r, but + but')
  {
  }

  /** A sleeping row whose branch has a live process. */
  predicate Sleepwalks(rows: Rows, p: Pool, n: string) {
    n in rows && rows[n].state == Sleeping && n in p.procs
  }

  /** A change of the own volume, of the stash or of the own process is local. */
  lemma LocalChange(p: Pool, q: Pool, name: string)
    requires forall d :: d in p.vols && d != Branch(name) && d != Branch(StashName(name)) ==>
               d in q.vols && q.vols[d] == p.vols[d]
    requires forall d :: d in q.vols && d != Branch(name) && d != Branch(StashName(name)) ==> d in p.vols
    requires forall u :: u in p.procs && u != name ==> u in q.procs && q.procs[u] == p.procs[u]
    requires forall u :: u in q.procs && u != name ==> u in p.procs
    ensures Local(p, q, name)
  {
  }

  lemma ElsewhereOf(p: Pool, q: Pool, name: string)
    requires p.vols - {Branch(StashName(name))} == q.vols - {Branch(StashName(name))} && p.procs == q.procs
    ensures Local(p, q, name) && SameVolume(p, q, Branch(name))
  {
    StashNames(name, name);
    var rest := {Branch(StashName(name))};
    forall d | d != Branch(StashName(name)) ensures VolumeAt(p, d) == VolumeAt(q, d) {
      assert d in p.vols <==> d in p.vols - rest;
      assert d in q.vols <==> d in q.vols - rest;
      if d in p.vols { assert (p.vols - rest)[d] == (q.vols - rest)[d]; }
    }
    forall d | d != Branch(StashName(name))
      ensures (d in p.vols <==> d in q.vols) && (d in p.vols ==> q.vols[d] == p.vols[d]) {
      assert VolumeAt(p, d) == VolumeAt(q, d);
    }
    LocalChange(p, q, name);
  }

  lemma OnlyOwnGone(p: Pool, q: Pool, name: string)
    requires p.vols - {Branch(name)} == q.vols - {Branch(name)} && p.procs == q.procs
    ensures Local(p, q, name) && SameVolume(p, q, Branch(StashName(name)))
  {
    StashNames(name, name);
    var own := {Branch(name)};
    forall d | d != Branch(name) ensures (d in p.vols <==> d in q.vols) && (d in p.vols ==> q.vols[d] == p.vols[d]) {
      assert d in p.vols <==> d in p.vols - own;
      assert d in q.vols <==> d in q.vols - own;
      if d in p.vols { assert (p.vols - own)[d] == (q.vols - own)[d]; }
    }
    LocalChange(p, q, name);
  }

  /** A stop or a write through the unit of a plain name stays with that branch. */
  lemma UnitStaysHome(p: Pool, name: string, data: int)
    requires ProcsOk(p) && PlainName(name)
    ensures Local(p, DoStop(p, name), name) && Local(p, DoWrite(p, name, data), name)
    ensures forall d :: SameBones(p, DoStop(p, name), d) && SameData(p, DoStop(p, name), d)
    ensures forall d :: SameBones(p, DoWrite(p, name, data), d) && SameDirt(p, DoWrite(p, name, data), d)
  {
    forall d | d in p.vols && d != Branch(name) && d != Branch(StashName(name)) ensures !Live(p, name, d) {}
    LocalChange(p, DoStop(p, name), name);
    LocalChange(p, DoWrite(p, name, data), name);
  }

  /** Starting, stopping and writing leave every dataset and snapshot where it is. */
  predicate SameSnaps(p: Pool, q: Pool) {
    && p.vols.Keys == q.vols.Keys && p.next == q.next
    && forall d :: d in p.vols && d in q.vols ==> q.vols[d].snaps == p.vols[d].snaps
  }

  lemma WriteKeepsDirt(p: Pool, name: string, data: int)
    ensures OwnDirt(p, name, Branch(name)) ==> OwnDirt(DoWrite(p, name, data), name, Branch(name))
  {
  }

  lemma RolledBack(p: Pool, name: string)
    requires CanRollback(p, SnapRef(Branch(name), INIT))
    ensures var q := DoRollback(p, SnapRef(Branch(name), INIT));
            && Local(p, q, name) && SameVolume(p, q, Branch(StashName(name))) && q.procs == p.procs
            && SameLine(p, q, Branch(name))
            && q.vols[Branch(name)].data == At(p, SnapRef(Branch(name), INIT)).data
  {
    StashNames(name, name);
    LocalChange(p, DoRollback(p, SnapRef(Branch(name), INIT)), name);
  }

  /** Both sets agree on every name but this one. */
  ghost predicate SameBut(a: set<string>, b: set<string>, name: string) {
    forall n :: n != name ==> (n in a <==> n in b)
  }

  lemma NoRowNoStray(rows: Rows, p: Pool, n: string)
    ensures Stray(rows, p, n) ==> n in rows
  {
  }

  class Manager {
    const cfg: Config
    const db: DB
    const host: Host
    var clock: int
    /** Registered snapshots whose deletion a crash cut short. */
    ghost var lost: set<SnapRef>
    /** No engine has stopped otherwise than through Stop or Kill. */
    ghost var faithful: bool
    /** The rows whose volume is not a clone of the origin they name. */
    ghost var strays: set<string>

    constructor (cfg: Config, db: DB, host: Host)
      requires Inv(db.rows, db.baselines, host.pool, cfg.default, {}) && Clean(db.rows, host.pool)
      ensures this.cfg == cfg && this.db == db && this.host == host
      ensures Valid() && lost == {} && faithful
    {
      this.cfg, this.db, this.host := cfg, db, host;
      clock, lost, faithful := 0, {}, true;
      strays := set n | n in db.rows && Stray(db.rows, host.pool, n);
    }

    ghost predicate Valid()
      reads this, db, host
    {
      && Inv(db.rows, db.baselines, host.pool, cfg.default, lost)
      && (faithful ==> Clean(db.rows, host.pool))
      && StraysAre(db.rows, host.pool, strays)
    }

    /** No operation is under way. */
    ghost predicate Up()
      reads this, db
    {
      AllSettled(db.rows)
    }

    /** No operation is under way on this branch. */
    predicate Free(name: string)
      reads this, db
    {
      name in db.rows ==> Settled(db.rows[name].state)
    }

    /** The branch's datadir is dirty at most under its own process. */
    ghost predicate Dirt(name: string)
      reads this, host
    {
      faithful ==> OwnDirt(host.pool, name, Branch(name))
    }

    /** The volume of a branch, or its stash, has come or gone: `strays` is put right. */
    ghost method Restray(p: Pool, name: string)
      requires Inv(db.rows, db.baselines, p, cfg.default, lost) && StraysAre(db.rows, p, strays)
      requires Inv(db.rows, db.baselines, host.pool, cfg.default, lost) && NoBaselineOn(db.baselines, name)
      requires forall d :: d != Branch(name) && d != Branch(StashName(name)) ==>
                 && (d in p.vols <==> d in host.pool.vols)
                 && (d in p.vols && d in host.pool.vols ==> host.pool.vols[d] == p.vols[d])
      modifies this`strays
      ensures StraysAre(db.rows, host.pool, strays) && SameBut(old(strays), strays, name)
    {
      hide RowOk, BaselineOk, CurrentOk, PortsDistinct, Stray, GuidsOk, ProcsOk, ClonesOk;
      ghost var was := strays;
      BaseIn(p);
      strays := set n | n in db.rows && Stray(db.rows, host.pool, n);
      forall n ensures n in strays <==> Stray(db.rows, host.pool, n) { NoRowNoStray(db.rows, host.pool, n); }
      forall n | n != name ensures n in strays <==> n in was {
        OtherStrays(db.rows, db.baselines, p, host.pool, cfg.default, lost, name, n);
      }
    }

    lemma BaseIn(p: Pool)
      requires Inv(db.rows, db.baselines, p, cfg.default, lost)
      requires Inv(db.rows, db.baselines, host.pool, cfg.default, lost)
      ensures Base in p.vols && Base in host.pool.vols
    {
    }

    /** The row of a branch has come, gone or changed its origin: `strays` is put right. */
    ghost method RestrayRow(rows: Rows, name: string)
      requires StraysAre(rows, host.pool, strays) && OthersKept(rows, db.rows, name)
      modifies this`strays
      ensures StraysAre(db.rows, host.pool, strays) && SameBut(old(strays), strays, name)
    {
      ghost var was := strays;
      strays := set n | n in db.rows && Stray(db.rows, host.pool, n);
      forall n | n != name ensures n in strays <==> n in was {
        assert n in rows <==> n in rows - {name};
        assert n in db.rows <==> n in db.rows - {name};
        if n in rows { assert (rows - {name})[n] == (db.rows - {name})[n]; }
      }
    }

    /** No process runs on a volume yet to come. */
    lemma ProcsAreOld()
      requires Valid()
      ensures forall u :: u in host.pool.procs ==> host.pool.procs[u] < host.pool.next
      ensures forall d :: d in host.pool.vols ==> host.pool.vols[d].guid < host.pool.next
    {
    }

    lemma NoStray(name: string)
      requires Valid() && name in db.rows
      requires Branch(name) in host.pool.vols ==> CloneOf(host.pool, Branch(name), db.rows[name].origin)
      ensures name !in strays
    {
      hide Inv, Clean;
    }

    lemma Unhoused(name: string)
      requires Valid()
      ensures Branch(name) !in host.pool.vols ==> NoBaselineOn(db.baselines, name)
    {
    }

    // ---- engine steps ----

    method StartOwn(name: string) returns (r: Reply)
      requires Valid() && PlainName(name) && Branch(name) in host.pool.vols
      modifies host`pool, host`failures
      ensures Valid() && Local(old(host.pool), host.pool, name)
      ensures SameBones(old(host.pool), host.pool, Branch(name)) && SameData(old(host.pool), host.pool, Branch(name))
      ensures SameVolume(old(host.pool), host.pool, Branch(StashName(name)))
      ensures old(Dirt(name)) ==> Dirt(name)
      ensures r.Ok? ==> name in host.pool.procs
      ensures r.Ok? ==>
                (Live(host.pool, name, Branch(name)) <==>
                 name !in old(host.pool).procs || old(Live(host.pool, name, Branch(name))))
      ensures host.quiet ==> r.Ok?
    {
      hide PoolOk, RowOk, BaselineOk, CurrentOk, PortsDistinct, Clean;
      ghost var p := host.pool;
      r := host.Start(name, Branch(name));
      StartKeeps(db.rows, db.baselines, p, cfg.default, lost, name, Branch(name));
      if faithful { StartClean(db.rows, p, name, Branch(name)); }
      StraysStay(db.rows, p, host.pool, strays);
      LocalChange(p, host.pool, name);
    }

    method StopOwn(name: string) returns (r: Reply)
      requires Valid() && PlainName(name)
      modifies host`pool, host`failures
      ensures Valid() && Local(old(host.pool), host.pool, name)
      ensures SameBones(old(host.pool), host.pool, Branch(name)) && SameData(old(host.pool), host.pool, Branch(name))
      ensures SameBones(old(host.pool), host.pool, Branch(StashName(name)))
      ensures old(Dirt(name)) ==> Dirt(name)
      ensures r.Ok? && faithful && old(Dirt(name)) && Branch(name) in host.pool.vols ==>
                !host.pool.vols[Branch(name)].dirty
      ensures r.Ok? ==> name !in host.pool.procs
      ensures host.quiet ==> r.Ok?
    {
      hide GuidsOk, ClonesOk, HousedOk, RowOk, BaselineOk, CurrentOk, PortsDistinct, Stray, Home;
      ghost var p := host.pool;
      r := host.Stop(name);
      StopKeeps(db.rows, db.baselines, p, cfg.default, lost, name);
      if faithful { StopClean(db.rows, p, name); }
      StraysStay(db.rows, p, host.pool, strays);
      UnitStaysHome(p, name, 0);
    }

    method KillOwn(name: string) returns (r: Reply)
      requires Valid() && PlainName(name) && (name in db.rows ==> !Usable(db.rows[name]))
      modifies host`pool
      ensures Valid() && Local(old(host.pool), host.pool, name)
      ensures host.pool.vols == old(host.pool).vols && host.pool.next == old(host.pool).next
      ensures !r.Failed? && (host.quiet ==> r.Ok? && name !in host.pool.procs)
    {
      ghost var p := host.pool;
      r := host.Kill(name);
      KillKeeps(db.rows, db.baselines, p, cfg.default, lost, name);
      if faithful { KillClean(db.rows, p, name); }
      StraysStay(db.rows, p, host.pool, strays);
      LocalChange(p, host.pool, name);
    }

    /** Runs a hook if one is configured for the event. What it writes shows on the branch's volume, or on its stash
        if the process is still there. */
    method RunHook(event: Script, name: string) returns (r: Reply)
      requires Valid() && PlainName(name)
      modifies host`pool, host`failures, host`hooks, host`wrote
      ensures host.hooks == old(host.hooks) + Started(cfg, event, name)
      ensures Valid() && Local(old(host.pool), host.pool, name)
      ensures SameBones(old(host.pool), host.pool, Branch(name)) && SameDirt(old(host.pool), host.pool, Branch(name))
      ensures SameBones(old(host.pool), host.pool, Branch(StashName(name)))
      ensures host.pool.procs == old(host.pool).procs
      ensures old(Dirt(name)) ==> Dirt(name)
      ensures Branch(name) in host.pool.vols ==>
                host.pool.vols[Branch(name)].data ==
                LeftBy(event in cfg.hooks && old(Live(host.pool, name, Branch(name))), host.wrote,
                       old(host.pool).vols[Branch(name)].data)
      ensures event !in cfg.hooks ==> r.Ok? && host.pool == old(host.pool)
      ensures host.quiet ==> r.Ok?
    {
      hide GuidsOk, ClonesOk, HousedOk, RowOk, BaselineOk, CurrentOk, PortsDistinct, Stray, Home;
      if event !in cfg.hooks { return Ok; }
      ghost var p := host.pool;
      r := host.Hook(event, name);
      if host.wrote.Some? {
        WriteKeeps(db.rows, db.baselines, p, cfg.default, lost, name, host.wrote.value);
        StraysStay(db.rows, p, host.pool, strays);
        UnitStaysHome(p, name, host.wrote.value);
        WriteKeepsDirt(p, name, host.wrote.value);
      }
    }

    // ---- zfs steps ----

    method CloneOwn(s: SnapRef, name: string) returns (r: Reply)
      requires Valid() && (s.ds == Base || s in db.baselines)
      modifies host`pool, host`failures, this`strays
      ensures Valid() && Local(old(host.pool), host.pool, name) && SameBut(old(strays), strays, name)
      ensures Counted(r, old(host.failures), host.failures)
      ensures host.pool == old(host.pool) ||
              (CanClone(old(host.pool), s, Branch(name)) && host.pool == DoClone(old(host.pool), s, Branch(name)))
      ensures r.Ok? ==> Branch(name) !in old(host.pool).vols && Branch(name) in host.pool.vols
      ensures r.Ok? ==> host.pool.vols[Branch(name)].guid == old(host.pool).next
      ensures r.Ok? ==> Exists(host.pool, s) && Exists(old(host.pool), s) && CloneOf(host.pool, Branch(name), s)
      ensures r.Ok? ==> host.pool.vols[Branch(name)].snaps == [] &&
                        host.pool.vols[Branch(name)].data == At(old(host.pool), s).data
      ensures r.Ok? && faithful ==> !host.pool.vols[Branch(name)].dirty
      ensures host.quiet ==> r == if CanClone(old(host.pool), s, Branch(name)) then Ok else Failed
      ensures host.quiet && r.Failed? ==> host.pool == old(host.pool)
    {
      hide PoolOk, RowOk, BaselineOk, CurrentOk, PortsDistinct, Clean;
      ghost var p := host.pool;
      Unhoused(name);
      r := host.Clone(s, name);
      if host.pool != p {
        CloneKeeps(db.rows, db.baselines, p, cfg.default, lost, s, name);
        if faithful { CloneClean(db.rows, db.baselines, p, cfg.default, lost, s, name); }
        Restray(p, name);
      }
      LocalChange(p, host.pool, name);
    }

    /** Snapshots the branch's volume; the datadir must have been stopped. */
    method SnapshotOwn(name: string, tag: string) returns (r: Reply)
      requires Valid() && Branch(name) in host.pool.vols && SnapRef(Branch(name), tag) !in db.baselines
      requires faithful ==> !host.pool.vols[Branch(name)].dirty
      modifies host`pool, host`failures
      ensures Valid() && Local(old(host.pool), host.pool, name)
      ensures SameVolume(old(host.pool), host.pool, Branch(StashName(name)))
      ensures r.Ok? ==> CanSnapshot(old(host.pool), SnapRef(Branch(name), tag)) &&
                        host.pool == DoSnapshot(old(host.pool), SnapRef(Branch(name), tag)) &&
                        Exists(host.pool, SnapRef(Branch(name), tag))
      ensures host.pool.procs == old(host.pool).procs
      ensures r.Failed? ==> host.pool == old(host.pool)
      ensures Branch(name) in host.pool.vols
      ensures host.pool.vols[Branch(name)] ==
              old(host.pool).vols[Branch(name)].(snaps := host.pool.vols[Branch(name)].snaps)
      ensures forall t :: Exists(old(host.pool), t) ==> Exists(host.pool, t)
      ensures host.quiet ==> r == if CanSnapshot(old(host.pool), SnapRef(Branch(name), tag)) then Ok else Failed
    {
      hide PoolOk, RowOk, BaselineOk, CurrentOk, PortsDistinct, Clean;
      ghost var p := host.pool;
      var s := SnapRef(Branch(name), tag);
      r := host.Snapshot(s);
      if CanSnapshot(p, s) {
        SnapshotKeeps(db.rows, db.baselines, p, cfg.default, lost, s);
        if faithful { SnapshotClean(db.rows, db.baselines, p, cfg.default, lost, s); }
        if host.pool != p { StraysStay(db.rows, p, host.pool, strays); }
      }
      LocalChange(p, host.pool, name);
      StashNames(name, name);
    }

    method RenameOwn(from: string, to: string) returns (r: Reply)
      requires Valid() && StashMove(from, to) && NoBaselineOn(db.baselines, from)
      requires from in db.rows ==> !Usable(db.rows[from])
      requires to in db.rows ==> !Usable(db.rows[to])
      modifies host`pool, host`failures, this`strays
      ensures Valid() && forall n :: n !in {from, to} ==> (n in strays <==> n in old(strays))
      ensures Counted(r, old(host.failures), host.failures)
      ensures host.pool == old(host.pool) ||
              (CanRename(old(host.pool), Branch(from), Branch(to)) &&
               host.pool == DoRename(old(host.pool), Branch(from), Branch(to)))
      ensures r.Ok? ==>
                Branch(from) in old(host.pool).vols && Branch(from) !in host.pool.vols && Branch(to) in host.pool.vols
      ensures host.quiet ==> r == if CanRename(old(host.pool), Branch(from), Branch(to)) then Ok else Failed
      ensures host.quiet && r.Failed? ==> host.pool == old(host.pool)
    {
      hide PoolOk, RowOk, BaselineOk, CurrentOk, PortsDistinct, Clean, Stray, IsReserved;
      ghost var p := host.pool;
      Unhoused(to);
      r := host.Rename(from, to);
      StashNames(from, to);
      StashNames(to, from);
      if host.pool != p {
        RenameKeeps(db.rows, db.baselines, p, cfg.default, lost, from, to);
        if faithful { RenameClean(db.rows, db.baselines, p, cfg.default, lost, from, to); }
        Restray(p, if to == StashName(from) then from else to);
      }
    }

    lemma StashIsNoRow(name: string)
      requires Valid()
      ensures StashName(name) !in db.rows
    {
      StashNames(name, name);
      forall n | n in db.rows ensures !IsReserved(n) {
        assert RowOk(n, db.rows[n], db.baselines, host.pool, lost);
      }
    }

    lemma OnlyRowsStray(name: string)
      requires Valid() && name !in db.rows
      ensures name !in strays
    {
      hide Inv, Clean;
    }

    lemma NoStash(name: string)
      requires Valid()
      ensures StashName(name) !in strays
    {
      hide Inv, Clean;
      StashIsNoRow(name);
      OnlyRowsStray(StashName(name));
    }

    /** Rename the branch's volume to its stash name, with the engine killed, unless Kill fell short. */
    method Stash(name: string) returns (r: Reply)
      requires Valid() && PlainName(name) && NoBaselineOn(db.baselines, name)
      requires host.quiet ==> name !in host.pool.procs
      requires name in db.rows ==> !Usable(db.rows[name])
      modifies host`pool, host`failures, this`strays
      ensures Valid() && Local(old(host.pool), host.pool, name) && SameBut(old(strays), strays, name)
      ensures Counted(r, old(host.failures), host.failures)
      ensures host.pool.procs == old(host.pool).procs && host.pool.next == old(host.pool).next
      ensures r.Ok? ==> Branch(name) in old(host.pool).vols && Branch(name) !in host.pool.vols
      ensures host.pool == old(host.pool) ||
              (Branch(name) !in host.pool.vols &&
               VolumeAt(host.pool, Branch(StashName(name))) == VolumeAt(old(host.pool), Branch(name)))
      ensures host.quiet ==>
                && (r.Ok? <==> Branch(name) in old(host.pool).vols && Branch(StashName(name)) !in old(host.pool).vols)
                && !r.Died?
    {
      hide Inv, Clean, StraysAre, IsReserved;
      ghost var p := host.pool;
      StashNames(name, name);
      StashIsNoRow(name);
      NoStash(name);
      r := RenameOwn(name, StashName(name));
      NoStash(name);
      LocalChange(p, host.pool, name);
    }

    /** Rename a stashed volume back. */
    method Unstash(name: string) returns (r: Reply)
      requires Valid() && PlainName(name)
      requires name in db.rows ==> !Usable(db.rows[name])
      modifies host`pool, host`failures, this`strays
      ensures Valid() && Local(old(host.pool), host.pool, name) && SameBut(old(strays), strays, name)
      ensures Counted(r, old(host.failures), host.failures) && host.pool.next == old(host.pool).next
      ensures host.pool.procs == old(host.pool).procs
      ensures r.Ok? ==> Branch(name) !in old(host.pool).vols && Branch(name) in host.pool.vols
      ensures host.pool == old(host.pool) ||
              (Branch(name) !in old(host.pool).vols && Branch(name) in host.pool.vols &&
               Branch(StashName(name)) !in host.pool.vols &&
               VolumeAt(host.pool, Branch(name)) == VolumeAt(old(host.pool), Branch(StashName(name))))
      ensures host.quiet ==>
                && (r.Ok? <==> Branch(name) !in old(host.pool).vols && Branch(StashName(name)) in old(host.pool).vols)
                && !r.Died?
    {
      hide Inv, Clean, StraysAre, IsReserved;
      ghost var p := host.pool;
      StashNames(name, name);
      StashIsNoRow(name);
      NoBaselineOnReserved(db.rows, db.baselines, p, cfg.default, lost, StashName(name));
      NoStash(name);
      r := RenameOwn(StashName(name), name);
      NoStash(name);
      LocalChange(p, host.pool, name);
    }

    /** Destroy the stash of a branch. */
    method DropStash(name: string) returns (r: Reply)
      requires Valid()
      modifies host`pool, host`failures, this`strays
      ensures Valid() && Local(old(host.pool), host.pool, name) && strays == old(strays)
      ensures Counted(r, old(host.failures), host.failures) && host.pool.next == old(host.pool).next
      ensures SameVolume(old(host.pool), host.pool, Branch(name))
      ensures host.pool.procs == old(host.pool).procs
      ensures r.Ok? ==> Branch(StashName(name)) !in host.pool.vols
      ensures host.pool == old(host.pool) || Branch(StashName(name)) !in host.pool.vols
      ensures host.quiet ==> !r.Died? && Branch(StashName(name)) !in host.pool.vols
    {
      ghost var p := host.pool;
      StashNames(name, name);
      StashIsNoRow(name);
      NoBaselineOnReserved(db.rows, db.baselines, p, cfg.default, lost, StashName(name));
      NoStash(name);
      r := DestroyVolume(StashName(name));
      NoStash(name);
      ElsewhereOf(p, host.pool, name);
    }

    /** Destroy the branch's own volume, with the engine gone, unless Stop or Kill fell short. */
    method DestroyOwn(name: string) returns (r: Reply)
      requires Valid() && NoBaselineOn(db.baselines, name)
      requires host.quiet ==> name !in host.pool.procs
      requires name in db.rows ==> !Usable(db.rows[name])
      modifies host`pool, host`failures, this`strays
      ensures Valid() && Local(old(host.pool), host.pool, name)
      ensures strays in {old(strays), old(strays) - {name}}
      ensures SameVolume(old(host.pool), host.pool, Branch(StashName(name)))
      ensures r.Ok? ==> Branch(name) !in host.pool.vols
      ensures r.Failed? ==> host.pool == old(host.pool)
      ensures host.quiet ==> r == if Branch(name) in old(host.pool).vols then Ok else Failed
    {
      hide Inv, Clean;
      ghost var p := host.pool;
      r := DestroyVolume(name);
      StashNames(name, name);
      OnlyOwnGone(p, host.pool, name);
    }

    method DestroyVolume(name: string) returns (r: Reply)
      requires Valid() && NoBaselineOn(db.baselines, name)
      requires name in db.rows ==> !Usable(db.rows[name])
      modifies host`pool, host`failures, this`strays
      ensures Valid() && strays in {old(strays), old(strays) - {name}}
      ensures Counted(r, old(host.failures), host.failures)
      ensures host.pool.vols - {Branch(name)} == old(host.pool).vols - {Branch(name)}
      ensures host.pool.procs == old(host.pool).procs && host.pool.next == old(host.pool).next
      ensures r.Ok? ==> Branch(name) in old(host.pool).vols && Branch(name) !in host.pool.vols
      ensures host.pool == old(host.pool) || Branch(name) !in host.pool.vols
      ensures r.Failed? ==> host.pool == old(host.pool)
      ensures host.quiet ==> r == if Branch(name) in old(host.pool).vols then Ok else Failed
    {
      hide PoolOk, RowOk, BaselineOk, CurrentOk, PortsDistinct, Clean;
      ghost var p := host.pool;
      if Branch(name) in p.vols {
        NothingBlocksDestroy(db.rows, db.baselines, p, cfg.default, lost, name);
        DestroyKeeps(db.rows, db.baselines, p, cfg.default, lost, name);
        if faithful { DestroyClean(db.rows, p, name); }
      }
      r := host.Destroy(name);
      if host.pool != p {
        Restray(p, name);
        assert strays == old(strays) - {name};
      }
    }

    /** Back to @init, with the engine killed, unless Kill fell short. */
    method RollbackOwn(name: string) returns (r: Reply)
      requires host.quiet ==> name !in host.pool.procs
      requires Valid() && !IsReserved(name) && NoBaselineOn(db.baselines, name) && Branch(name) in host.pool.vols
      modifies host`pool, host`failures
      ensures Valid() && Local(old(host.pool), host.pool, name)
      ensures SameVolume(old(host.pool), host.pool, Branch(StashName(name)))
      ensures host.pool.procs == old(host.pool).procs && SameLine(old(host.pool), host.pool, Branch(name))
      ensures old(HasInit(host.pool, name)) ==> HasInit(host.pool, name)
      ensures r.Ok? ==> old(HasInit(host.pool, name)) && HasInit(host.pool, name) && Dirt(name)
      ensures r.Ok? ==> host.pool.vols[Branch(name)].data == At(old(host.pool), SnapRef(Branch(name), INIT)).data
      ensures r.Failed? ==> host.pool == old(host.pool)
      ensures host.quiet ==> r == if old(HasInit(host.pool, name)) then Ok else Failed
    {
      hide PoolOk, RowOk, BaselineOk, CurrentOk, PortsDistinct, Clean, Stray;
      ghost var p := host.pool;
      NothingBlocksDestroy(db.rows, db.baselines, p, cfg.default, lost, name);
      r := host.Rollback(SnapRef(Branch(name), INIT));
      if CanRollback(p, SnapRef(Branch(name), INIT)) {
        RollbackKeeps(db.rows, db.baselines, p, cfg.default, lost, name);
        if faithful { RollbackClean(db.rows, db.baselines, p, cfg.default, lost, name); }
        if host.pool != p { StraysStay(db.rows, p, host.pool, strays); }
        RolledBack(p, name);
      }
    }

    // ---- statements ----

    method MarkState(name: string, st: State)
      requires Valid() && name in db.rows
      requires st == Running || st == Sleeping ==> HasInit(host.pool, name) && Dirt(name)
      requires !Settled(st) ==> NoBaselineOn(db.baselines, name)
      modifies db`rows
      ensures Valid()
      ensures OthersKept(old(db.rows), db.rows, name) && name in db.rows
      ensures db.rows[name] == WithState(old(db.rows)[name], st, clock)
    {
      hide Inv, Clean, Stray;
      StateKeeps(name, st);
      StraysByOrigin(db.rows, db.rows[name := WithState(db.rows[name], st, clock)], host.pool, strays);
      db.SetState(name, st, clock);
    }

    method DropRow(name: string)
      requires Valid() && NoBaselineOn(db.baselines, name)
      modifies db`rows, this`strays
      ensures Valid() && db.rows == old(db.rows) - {name} && strays == old(strays) - {name}
    {
      hide PoolOk, RowOk, BaselineOk, CurrentOk, PortsDistinct, Stray;
      ghost var rows := db.rows;
      DropRowKeeps(db.rows, db.baselines, host.pool, cfg.default, lost, name);
      db.DeleteBranch(name);
      RestrayRow(rows, name);
      NoRowNoStray(db.rows, host.pool, name);
    }

    method Provisioned(name: string)
      requires Valid() && name in db.rows
      modifies db`rows
      ensures Valid() && OthersKept(old(db.rows), db.rows, name) && name in db.rows
      ensures db.rows[name] == old(db.rows)[name].(initSnapshot := Some(SnapRef(Branch(name), INIT)))
    {
      hide Inv, Clean, Stray;
      TouchKeeps(name, db.rows[name].(initSnapshot := Some(SnapRef(Branch(name), INIT))));
      StraysByOrigin(db.rows, db.rows[name := db.rows[name].(initSnapshot := Some(SnapRef(Branch(name), INIT)))],
                     host.pool, strays);
      db.SetProvision(name, SnapRef(Branch(name), INIT));
    }

    method Reoriginate(name: string, origin: SnapRef)
      requires Valid() && name in db.rows
      requires (origin in db.baselines || origin.ds == Base) && Exists(host.pool, origin)
      modifies db`rows, this`strays
      ensures Valid() && OthersKept(old(db.rows), db.rows, name) && name in db.rows
      ensures SameBut(old(strays), strays, name)
      ensures db.rows[name] == old(db.rows)[name].(origin := origin)
    {
      hide Inv, Clean, Stray;
      ghost var rows := db.rows;
      TouchKeeps(name, db.rows[name].(origin := origin));
      db.UpdateOrigin(name, origin);
      RestrayRow(rows, name);
    }

    method TouchConn(name: string)
      requires Valid() && name in db.rows
      modifies db`rows
      ensures Valid() && OthersKept(old(db.rows), db.rows, name) && name in db.rows
      ensures db.rows[name] == old(db.rows)[name].(lastConnAt := Some(clock))
    {
      hide Inv, Clean, Stray;
      TouchKeeps(name, db.rows[name].(lastConnAt := Some(clock)));
      StraysByOrigin(db.rows, db.rows[name := db.rows[name].(lastConnAt := Some(clock))], host.pool, strays);
      db.TouchLastConn(name, clock);
    }

    method StampError(name: string)
      requires Valid() && name in db.rows
      modifies db`rows
      ensures Valid() && OthersKept(old(db.rows), db.rows, name) && name in db.rows
      ensures db.rows[name] == if old(db.rows)[name].state == Error && old(db.rows)[name].errorAt.None?
                               then old(db.rows)[name].(errorAt := Some(clock)) else old(db.rows)[name]
    {
      hide Inv, Clean, Stray;
      TouchKeeps(name, db.rows[name].(errorAt := Some(clock)));
      StraysByOrigin(db.rows, db.rows[name := db.rows[name].(errorAt := Some(clock))], host.pool, strays);
      db.MarkErrorAtIfMissing(name, clock);
    }

    /** Any other update of a row that leaves its state and port as they are. */
    lemma TouchKeeps(name: string, r: Row)
      requires Valid() && name in db.rows
      requires r.state == db.rows[name].state && r.failedOp == db.rows[name].failedOp && r.port == db.rows[name].port
      requires r.origin == db.rows[name].origin ||
               ((r.origin in db.baselines || r.origin.ds == Base) && Exists(host.pool, r.origin))
      requires r.initSnapshot == db.rows[name].initSnapshot || r.initSnapshot == Some(SnapRef(Branch(name), INIT))
      ensures Inv(db.rows[name := r], db.baselines, host.pool, cfg.default, lost)
      ensures faithful ==> Clean(db.rows[name := r], host.pool)
    {
      hide PoolOk, CurrentOk;
      assert RowOk(name, db.rows[name], db.baselines, host.pool, lost);
      RowKeeps(db.rows, db.baselines, host.pool, cfg.default, lost, name, r);
      if faithful && Usable(r) { assert OwnDirt(host.pool, name, Branch(name)); }
    }

    lemma StateKeeps(name: string, st: State)
      requires Valid() && name in db.rows
      requires st == Running || st == Sleeping ==> HasInit(host.pool, name) && Dirt(name)
      requires !Settled(st) ==> NoBaselineOn(db.baselines, name)
      ensures Inv(db.rows[name := WithState(db.rows[name], st, clock)], db.baselines, host.pool, cfg.default, lost)
      ensures faithful ==> Clean(db.rows[name := WithState(db.rows[name], st, clock)], host.pool)
    {
      hide PoolOk, CurrentOk;
      assert RowOk(name, db.rows[name], db.baselines, host.pool, lost);
      RowKeeps(db.rows, db.baselines, host.pool, cfg.default, lost, name, WithState(db.rows[name], st, clock));
    }

    lemma ErrorKeeps(name: string, op: Op, recoverable: bool)
      requires Valid() && name in db.rows
      requires op == WakeOp ==> HasInit(host.pool, name) && Dirt(name)
      ensures Inv(db.rows[name := WithError(db.rows[name], op, recoverable, clock)], db.baselines, host.pool,
                  cfg.default, lost)
      ensures faithful ==> Clean(db.rows[name := WithError(db.rows[name], op, recoverable, clock)], host.pool)
    {
      hide PoolOk, CurrentOk;
      assert RowOk(name, db.rows[name], db.baselines, host.pool, lost);
      RowKeeps(db.rows, db.baselines, host.pool, cfg.default, lost, name,
               WithError(db.rows[name], op, recoverable, clock));
    }

    /** failOp: the error state, with the operation that Retry will repeat. */
    method FailOp(name: string, op: Op, stage: Stage) returns (r: Result)
      requires Valid() && name in db.rows
      requires op == WakeOp ==> HasInit(host.pool, name) && Dirt(name)
      modifies db`rows
      ensures Valid() && r == FailedAt(stage)
      ensures OthersKept(old(db.rows), db.rows, name) && name in db.rows
      ensures db.rows[name] == WithError(old(db.rows)[name], op, db.rows[name].recoverable, clock)
      ensures stage != SnapshotStage ==> db.rows[name].recoverable
    {
      hide Inv, Clean, Contains, Stray;
      var detail: string := *;
      var msg := if stage.HookStage? then HookError(detail) else detail;
      RecoverableExceptSnapshot(stage, msg);
      var recoverable := Diagnose(stage, msg).1;
      ErrorKeeps(name, op, recoverable);
      StraysByOrigin(db.rows, db.rows[name := WithError(db.rows[name], op, recoverable, clock)], host.pool, strays);
      db.SetError(name, op, recoverable, clock);
      r := FailedAt(stage);
    }

    /** Reconcile's diagnosis of a row it found interrupted or without a volume. */
    method Diagnosed(name: string, op: Op, recoverable: bool)
      requires Valid() && name in db.rows && op != WakeOp
      modifies db`rows
      ensures Valid() && OthersKept(old(db.rows), db.rows, name) && name in db.rows
      ensures db.rows[name] == WithError(old(db.rows)[name], op, recoverable, clock)
    {
      hide Inv, Clean, Stray;
      ErrorKeeps(name, op, recoverable);
      StraysByOrigin(db.rows, db.rows[name := WithError(db.rows[name], op, recoverable, clock)], host.pool, strays);
      db.SetError(name, op, recoverable, clock);
    }

    // ---- what happens without the manager ----

    method ClientWrites(unit: string, data: int)
      requires Valid()
      modifies host`pool, host`failures
      ensures Valid() && SameSnaps(old(host.pool), host.pool) && host.pool.procs == old(host.pool).procs
    {
      hide PoolOk, RowOk, BaselineOk, CurrentOk, PortsDistinct, Clean, Stray;
      WriteKeeps(db.rows, db.baselines, host.pool, cfg.default, lost, unit, data);
      StraysStay(db.rows, host.pool, DoWrite(host.pool, unit, data), strays);
      host.ClientWrite(unit, data);
    }

    /** The assumption behind clean snapshots ends here. */
    method EngineDies(unit: string)
      requires Valid()
      modifies host`pool, host`failures, this`faithful
      ensures Valid() && !faithful && host.pool == DoKill(old(host.pool), unit)
    {
      KillKeeps(db.rows, db.baselines, host.pool, cfg.default, lost, unit);
      StraysStay(db.rows, host.pool, DoKill(host.pool, unit), strays);
      faithful := false;
      host.EngineDeath(unit);
    }

    method TimePasses(d: nat)
      requires Valid()
      modifies this`clock
      ensures Valid() && clock == old(clock) + d
    {
      clock := clock + d;
    }

    // ---- guards ----

    /** refuseIfBackingBaseline: some registered baseline lives on the branch's dataset. */
    method Backs(name: string) returns (yes: bool)
      ensures yes <==> !NoBaselineOn(db.baselines, name)
    {
      yes := exists s :: s in db.baselines && s.ds == Branch(name);
    }

    /** The lowest free port, or the requested one if it is in range and free. */
    method AllocPort(requested: int) returns (port: Option<int>)
      ensures port.Some? ==> cfg.portLow <= port.value <= cfg.portHigh && !PortUsed(db.rows, port.value)
      ensures requested != 0 && port.Some? ==> port.value == requested
      ensures requested != 0 && port.None? ==>
                requested < cfg.portLow || requested > cfg.portHigh || PortUsed(db.rows, requested)
      ensures requested == 0 && port.Some? ==> forall p :: cfg.portLow <= p < port.value ==> PortUsed(db.rows, p)
      ensures requested == 0 && port.None? ==> forall p :: cfg.portLow <= p <= cfg.portHigh ==> PortUsed(db.rows, p)
    {
      if requested != 0 {
        if requested < cfg.portLow || requested > cfg.portHigh || PortUsed(db.rows, requested) {
          return None;
        }
        return Some(requested);
      }
      var p := cfg.portLow;
      while p <= cfg.portHigh
        invariant forall q :: cfg.portLow <= q < p ==> PortUsed(db.rows, q)
        invariant cfg.portLow <= cfg.portHigh ==> p <= cfg.portHigh + 1
      {
        if !PortUsed(db.rows, p) {
          return Some(p);
        }
        p := p + 1;
      }
      port := None;
    }

    /** The max_running half of admission. */
    ghost predicate RoomToRun()
      reads db
    {
      cfg.maxRunning > 0 ==> |ActiveRows(db.rows)| < cfg.maxRunning
    }

    /** admitMemory and admitStorage. */
    method Admit() returns (r: Reply)
      ensures r.Ok? ==> RoomToRun()
      ensures host.quiet ==> (r.Ok? <==> RoomToRun()) && !r.Died?
    {
      r := AdmitMemory();
      if r.Ok? {
        r := host.Probe();
      }
    }

    /** No more active rows than allowed, and enough memory. */
    method AdmitMemory() returns (r: Reply)
      ensures r.Ok? ==> RoomToRun()
      ensures host.quiet ==> (r.Ok? <==> RoomToRun()) && !r.Died?
    {
      if cfg.maxRunning > 0 {
        var names := db.ListBranches();
        var running := 0;
        ghost var counted: set<string> := {};
        for i := 0 to |names|
          invariant counted == set n | n in names[..i] && Active(db.rows[n].state)
          invariant running == |counted|
        {
          assert names[..i + 1] == names[..i] + [names[i]];
          if Active(db.rows[names[i]].state) {
            assert names[i] !in names[..i];
            running := running + 1;
            counted := counted + {names[i]};
          }
        }
        assert names[..|names|] == names;
        assert counted == ActiveRows(db.rows);
        if running >= cfg.maxRunning {
          return Failed;
        }
      }
      r := host.Probe();
    }

    // ---- baselines ----

    method Register(s: SnapRef, masked: bool, validated: bool)
      requires Valid() && BaselineOk(s, db.rows, host.pool, lost) && s.ds in host.pool.vols
      requires s.ds.Branch? ==> Settled(db.rows[s.ds.name].state)
      modifies db`baselines
      ensures Valid() && db.baselines == Registered(old(db.baselines), s, masked, validated, clock)
      ensures CurrentOf(db.baselines, cfg.default) == CurrentOf(old(db.baselines), cfg.default)
    {
      hide PoolOk, RowOk, Clean;
      RegisterKeeps(db.rows, db.baselines, host.pool, cfg.default, lost, s, masked, validated, clock);
      RegisterCurrent(db.baselines, host.pool, cfg.default, s, masked, validated, clock);
      db.RegisterBaseline(s, masked, validated, clock);
    }

    method MakeCurrent(s: SnapRef)
      requires Valid() && s in db.baselines
      modifies db`baselines
      ensures Valid() && db.baselines == MadeCurrent(old(db.baselines), s, clock)
      ensures HasCurrent(db.baselines) && CurrentOf(db.baselines, cfg.default) == s
    {
      hide PoolOk, RowOk, Clean;
      MakeCurrentKeeps(db.rows, db.baselines, host.pool, cfg.default, lost, s, clock);
      db.SetCurrentBaseline(s, clock);
    }

    /** The snapshot, then the row. In between the row is registered without a snapshot. */
    method RemoveBaseline(s: SnapRef) returns (r: Reply)
      requires Valid() && Removable(db.rows, db.baselines, cfg.default, s)
      modifies db`baselines, host`pool, host`failures, this`lost
      ensures Valid() && old(lost) <= lost <= old(lost) + {s}
      ensures CurrentOf(db.baselines, cfg.default) == CurrentOf(old(db.baselines), cfg.default)
      ensures db.baselines == if r.Ok? then old(db.baselines) - {s} else old(db.baselines)
      ensures r.Ok? ==> CanDestroySnap(old(host.pool), s) && host.pool == DoDestroySnap(old(host.pool), s)
      ensures r.Failed? ==> host.pool == old(host.pool)
      ensures !r.Died? ==> lost == old(lost)
      ensures host.pool.vols.Keys == old(host.pool).vols.Keys && host.pool.procs == old(host.pool).procs
      ensures forall t :: t != s && Exists(old(host.pool), t) ==> Exists(host.pool, t)
      ensures host.quiet ==> r == if CanDestroySnap(old(host.pool), s) then Ok else Failed
    {
      hide PoolOk, RowOk, BaselineOk, CurrentOk, Clean;
      ghost var p := host.pool;
      ForgottenIsNotCurrent(s);
      LostIsGone(db.rows, db.baselines, p, cfg.default, lost, s);
      r := host.DestroySnap(s);
      if host.pool != p || r.Ok? {
        DestroySnapKeeps(db.rows, db.baselines, p, cfg.default, lost, s);
        if faithful { DestroySnapClean(db.rows, p, s); }
        StraysStay(db.rows, p, DoDestroySnap(p, s), strays);
      }
      if r.Ok? {
        ForgetBaselineKeeps(db.rows, db.baselines, host.pool, cfg.default, lost, s);
        db.DeleteBaseline(s);
      } else if host.pool != p {
        lost := lost + {s};
      }
    }

    lemma ForgottenIsNotCurrent(s: SnapRef)
      requires Valid() && Removable(db.rows, db.baselines, cfg.default, s)
      ensures CurrentOf(db.baselines - {s}, cfg.default) == CurrentOf(db.baselines, cfg.default)
    {
      hide PoolOk, RowOk, BaselineOk, Clean;
      RemovableIsNotCurrent(db.rows, db.baselines, cfg.default, s);
      if HasCurrent(db.baselines) {
        var c :| c in db.baselines && db.baselines[c].current;
        CurrentIs(db.baselines, cfg.default, c);
        CurrentIs(db.baselines - {s}, cfg.default, c);
      }
    }

    // ---- the base datadir ----

    method StartBase() returns (r: Reply)
      requires Valid()
      modifies host`pool, host`failures
      ensures Valid() && SameSnaps(old(host.pool), host.pool)
      ensures SameUnits(old(host.pool), host.pool, {REFRESH_UNIT})
      ensures host.quiet ==> r.Ok?
    {
      hide PoolOk, RowOk, BaselineOk, CurrentOk, PortsDistinct, Clean, HasSuffix;
      ghost var p := host.pool;
      BaseIsThere();
      r := host.Start(REFRESH_UNIT, Base);
      StartKeeps(db.rows, db.baselines, p, cfg.default, lost, REFRESH_UNIT, Base);
      if faithful { StartClean(db.rows, p, REFRESH_UNIT, Base); }
      StraysStay(db.rows, p, host.pool, strays);
    }

    method StopBase() returns (r: Reply)
      requires Valid()
      modifies host`pool, host`failures
      ensures Valid() && SameSnaps(old(host.pool), host.pool)
      ensures r.Ok? || host.quiet ==> !Live(host.pool, REFRESH_UNIT, Base)
      ensures SameUnits(old(host.pool), host.pool, {REFRESH_UNIT})
      ensures host.quiet ==> r.Ok?
    {
      hide PoolOk, RowOk, BaselineOk, CurrentOk, PortsDistinct, Clean, HasSuffix;
      ghost var p := host.pool;
      r := host.Stop(REFRESH_UNIT);
      StopKeeps(db.rows, db.baselines, p, cfg.default, lost, REFRESH_UNIT);
      if faithful { StopClean(db.rows, p, REFRESH_UNIT); }
      StraysStay(db.rows, p, host.pool, strays);
    }

    /** The migrations or the script write what they like. */
    method WriteBase() returns (r: Reply)
      requires Valid()
      modifies host`pool, host`failures, host`hooks, host`wrote
      ensures Valid() && SameSnaps(old(host.pool), host.pool)
      ensures SameUnits(old(host.pool), host.pool, {REFRESH_UNIT})
      ensures host.quiet ==> r.Ok?
    {
      hide PoolOk, RowOk, BaselineOk, CurrentOk, PortsDistinct, Clean, HasSuffix;
      ghost var p := host.pool;
      r := host.Hook(SourceLoad, REFRESH_UNIT);
      if host.wrote.Some? {
        WriteKeeps(db.rows, db.baselines, p, cfg.default, lost, REFRESH_UNIT, host.wrote.value);
        StraysStay(db.rows, p, host.pool, strays);
      }
    }

    lemma BaseIsThere()
      requires Valid()
      ensures Base in host.pool.vols && !HasSuffix(REFRESH_UNIT, RECREATING_SUFFIX)
    {
    }

    /** The quiesce check: no process has the base datadir open. */
    method Quiesced() returns (yes: bool)
      requires Valid()
      ensures yes <==> !AnyLive(host.pool, Base)
      ensures yes && faithful ==> !host.pool.vols[Base].dirty
    {
      yes := !AnyLive(host.pool, Base);
    }

    method SnapshotBase(tag: string) returns (r: Reply)
      requires Valid() && SnapRef(Base, tag) !in db.baselines && (faithful ==> !host.pool.vols[Base].dirty)
      modifies host`pool, host`failures
      ensures Valid()
      ensures r.Ok? ==>
                && CanSnapshot(old(host.pool), SnapRef(Base, tag))
                && host.pool == DoSnapshot(old(host.pool), SnapRef(Base, tag))
      ensures host.pool.procs == old(host.pool).procs
      ensures r.Ok? ==> Exists(host.pool, SnapRef(Base, tag))
      ensures forall t :: Exists(old(host.pool), t) ==> Exists(host.pool, t)
      ensures host.quiet ==> r == if CanSnapshot(old(host.pool), SnapRef(Base, tag)) then Ok else Failed
    {
      hide PoolOk, RowOk, BaselineOk, CurrentOk, PortsDistinct, Clean;
      ghost var p := host.pool;
      var s := SnapRef(Base, tag);
      r := host.Snapshot(s);
      if CanSnapshot(p, s) {
        SnapshotKeeps(db.rows, db.baselines, p, cfg.default, lost, s);
        if faithful { SnapshotClean(db.rows, db.baselines, p, cfg.default, lost, s); }
        if host.pool != p { StraysStay(db.rows, p, host.pool, strays); }
      }
    }
  }
}
