/** Validating, promoting, publishing and deleting baselines. */
module BaselineOps {
  import opened Names
  import opened Pool
  import opened Store
  import opened Host
  import opened Invariant
  import opened Classify
  import opened Manager
  import opened Lifecycle
  import opened Rebuild
  import opened Requests

  // ---- what the publish policy promises ----

  /** What must hold of a baseline that is current. */
  predicate Publishable(cfg: Config, b: BaselineRow) {
    (cfg.requireMasked ==> b.masked) && (cfg.requireValidated ==> b.validated)
  }

  /** A baseline that is declared or validated like this may not be published. */
  predicate Barred(cfg: Config, masked: bool, skipValidate: bool) {
    (cfg.requireMasked && !masked) || (cfg.requireValidated && skipValidate)
  }

  predicate PolicyOk(cfg: Config, bs: Baselines) {
    forall s :: s in bs && bs[s].current ==> Publishable(cfg, bs[s])
  }

  /** A declaration once made stands: masked never changes, validated is never withdrawn. */
  ghost predicate FlagsKept(bs: Baselines, cs: Baselines) {
    forall s :: s in bs && s in cs ==> cs[s].masked == bs[s].masked && (bs[s].validated ==> cs[s].validated)
  }

  predicate FreshTag(bs: Baselines, tag: string) {
    tag != INIT && forall s :: s in bs ==> s.tag != tag
  }

  /** `s` is the one current baseline, and it meets the policy. */
  predicate Published(cfg: Config, bs: Baselines, s: SnapRef) {
    s in bs && bs[s].current && Publishable(cfg, bs[s]) && forall t :: t in bs && bs[t].current ==> t == s
  }

  lemma MadeCurrentPublishes(cfg: Config, bs: Baselines, s: SnapRef, now: int)
    requires s in bs && Publishable(cfg, bs[s])
    ensures Published(cfg, MadeCurrent(bs, s, now), s) && PolicyOk(cfg, MadeCurrent(bs, s, now))
    ensures FlagsKept(bs, MadeCurrent(bs, s, now)) && MadeCurrent(bs, s, now).Keys == bs.Keys
    ensures MadeCurrent(bs, s, now)[s] == bs[s].(current := true)
  {
  }

  lemma RegisteredKeepsPolicy(cfg: Config, bs: Baselines, s: SnapRef, masked: bool, validated: bool, now: int)
    requires s in bs ==> masked == bs[s].masked && (bs[s].validated ==> validated)
    ensures FlagsKept(bs, Registered(bs, s, masked, validated, now))
    ensures Registered(bs, s, masked, validated, now).Keys == bs.Keys + {s}
    ensures Registered(bs, s, masked, validated, now)[s].masked == masked
    ensures Registered(bs, s, masked, validated, now)[s].validated == validated
    ensures PolicyOk(cfg, bs) ==> PolicyOk(cfg, Registered(bs, s, masked, validated, now))
  {
  }

  lemma FlagsKeptTwice(bs: Baselines, cs: Baselines, ds: Baselines)
    requires FlagsKept(bs, cs) && FlagsKept(cs, ds) && bs.Keys * ds.Keys <= cs.Keys
    ensures FlagsKept(bs, ds)
  {
    forall s | s in bs && s in ds ensures ds[s].masked == bs[s].masked && (bs[s].validated ==> ds[s].validated) {
      assert s in bs.Keys * ds.Keys;
      assert s in cs;
    }
  }

  lemma FlagsKeptRefl(bs: Baselines)
    ensures FlagsKept(bs, bs)
  {
  }

  lemma LocalRefl(p: Pool, name: string)
    ensures Local(p, p, name)
  {
  }

  // ---- validation ----

  lemma ValidateIsNoRow(m: Manager)
    requires m.Valid()
    ensures VALIDATE_NAME !in m.db.rows && NoBaselineOn(m.db.baselines, VALIDATE_NAME) && PlainName(VALIDATE_NAME)
    ensures NoBaselineOn(m.db.baselines, StashName(VALIDATE_NAME))
  {
    hide PoolOk, CurrentOk;
    NoRowReserved(m);
    StashNames(VALIDATE_NAME, VALIDATE_NAME);
    NoBaselineOnReserved(m.db.rows, m.db.baselines, m.host.pool, m.cfg.default, m.lost, VALIDATE_NAME);
    NoBaselineOnReserved(m.db.rows, m.db.baselines, m.host.pool, m.cfg.default, m.lost, StashName(VALIDATE_NAME));
  }

  /** Kill and destroy; failures are ignored. */
  method Discard(m: Manager) returns (r: Reply)
    requires m.Valid() && NoBaselineOn(m.db.baselines, VALIDATE_NAME) && VALIDATE_NAME !in m.db.rows
    modifies m.host`pool, m.host`failures, m`strays
    ensures m.Valid() && m.strays == old(m.strays) && Local(old(m.host.pool), m.host.pool, VALIDATE_NAME)
    ensures !r.Failed?
    ensures m.host.quiet ==> r.Ok? && Branch(VALIDATE_NAME) !in m.host.pool.vols
  {
    hide Inv, Clean, StraysAre;
    r := m.KillOwn(VALIDATE_NAME);
    if r.Died? { return; }
    m.OnlyRowsStray(VALIDATE_NAME);
    r := m.DestroyOwn(VALIDATE_NAME);
    if r.Failed? { r := Ok; }
  }

  /** Start, wait and run the validation hook. */
  method BootCandidate(m: Manager) returns (r: Reply)
    requires m.Valid() && Branch(VALIDATE_NAME) in m.host.pool.vols
    modifies m.host`pool, m.host`failures, m.host`hooks, m.host`wrote
    ensures m.Valid() && Local(old(m.host.pool), m.host.pool, VALIDATE_NAME)
    ensures m.host.quiet ==> r.Ok?
  {
    hide Inv, Clean, StraysAre;
    r := m.StartOwn(VALIDATE_NAME);
    if !r.Ok? { return; }
    r := m.host.Probe();
    if !r.Ok? { return; }
    r := m.RunHook(OnBaselineValidate, VALIDATE_NAME);
  }

  /** Boots a throw-away clone of the candidate under the reserved name _validate. */
  method ValidateCandidate(m: Manager, s: SnapRef) returns (r: Reply)
    requires m.Valid() && s in m.db.baselines
    modifies m.host`pool, m.host`failures, m.host`hooks, m.host`wrote, m`strays
    ensures m.Valid() && m.strays == old(m.strays) && Local(old(m.host.pool), m.host.pool, VALIDATE_NAME)
    ensures forall t :: t in m.db.baselines ==> (Exists(old(m.host.pool), t) <==> Exists(m.host.pool, t))
    ensures r.Ok? ==> Exists(old(m.host.pool), s) && m.RoomToRun()
    ensures m.host.quiet ==> Branch(VALIDATE_NAME) !in m.host.pool.vols && !r.Died?
    ensures m.host.quiet ==> (r.Ok? <==> m.RoomToRun() && Exists(old(m.host.pool), s))
  {
    hide Inv, Clean, StraysAre, ActiveRows, HasTag;
    ghost var p := m.host.pool;
    r := CloneAndBoot(m, s);
    BaselinesElsewhere(m, p);
  }

  lemma SameSet(m: Manager, strays: set<string>, name: string)
    requires SameBut(strays, m.strays, name) && name !in strays && name !in m.strays
    ensures m.strays == strays
  {
  }

  method CloneAndBoot(m: Manager, s: SnapRef) returns (r: Reply)
    requires m.Valid() && s in m.db.baselines
    modifies m.host`pool, m.host`failures, m.host`hooks, m.host`wrote, m`strays
    ensures m.Valid() && m.strays == old(m.strays) && Local(old(m.host.pool), m.host.pool, VALIDATE_NAME)
    ensures r.Ok? ==> Exists(old(m.host.pool), s) && m.RoomToRun()
    ensures m.host.quiet ==> Branch(VALIDATE_NAME) !in m.host.pool.vols && !r.Died?
    ensures m.host.quiet ==> (r.Ok? <==> m.RoomToRun() && Exists(old(m.host.pool), s))
  {
    hide Inv, Clean, StraysAre, ActiveRows, HasTag;
    ghost var p := m.host.pool;
    ValidateIsNoRow(m);
    var c;
    var left := m.host.Resolve(VALIDATE_NAME);
    if left {
      c := Discard(m);
      if c.Died? { return Died; }
    }
    BaselinesElsewhere(m, p);
    r := m.AdmitMemory();
    if !r.Ok? { return; }
    m.OnlyRowsStray(VALIDATE_NAME);
    r := m.CloneOwn(s, VALIDATE_NAME);
    m.OnlyRowsStray(VALIDATE_NAME);
    SameSet(m, old(m.strays), VALIDATE_NAME);
    if !r.Ok? { return; }
    r := BootCandidate(m);
    if r.Died? { return; }
    c := Discard(m);
    if c.Died? { r := Died; }
  }

  /** Work under _validate leaves the registered baselines alone. */
  lemma BaselinesElsewhere(m: Manager, p: Pool)
    requires m.Valid() && Local(p, m.host.pool, VALIDATE_NAME)
    ensures forall t :: t in m.db.baselines ==> (Exists(p, t) <==> Exists(m.host.pool, t))
  {
    hide Inv, Clean, StraysAre, HasTag, Local;
    ValidateIsNoRow(m);
    forall t | t in m.db.baselines ensures Exists(p, t) <==> Exists(m.host.pool, t) {
      ExistsElsewhere(p, m.host.pool, VALIDATE_NAME, t);
    }
  }

  /** ValidateBaseline: the row's other declarations stay as they were read. */
  method ValidateBaseline(m: Manager, s: SnapRef) returns (r: Result)
    requires m.Valid() && m.Up()
    modifies m.db`baselines, m.host`pool, m.host`failures, m.host`hooks, m.host`wrote, m`strays
    ensures m.Valid() && m.strays == old(m.strays) && FlagsKept(old(m.db.baselines), m.db.baselines)
    ensures CurrentOf(m.db.baselines, m.cfg.default) == CurrentOf(old(m.db.baselines), m.cfg.default)
    ensures PolicyOk(m.cfg, old(m.db.baselines)) ==> PolicyOk(m.cfg, m.db.baselines)
    ensures r.Done? ==>
              && s in old(m.db.baselines)
              && m.db.baselines == old(m.db.baselines)[s := old(m.db.baselines)[s].(validated := true)]
    ensures !r.Done? ==> m.db.baselines == old(m.db.baselines)
    ensures r.Refused? ==> r.why == if s in m.db.baselines then ValidationFailed else UnknownBaseline
    ensures SameUnits(old(m.host.pool), m.host.pool, {VALIDATE_NAME})
    ensures m.host.quiet ==> (r.Done? <==> s in old(m.db.baselines) && m.RoomToRun() && Exists(old(m.host.pool), s))
  {
    hide Inv, Clean, StraysAre, ActiveRows, Exists;
    if s !in m.db.baselines { return Refused(UnknownBaseline); }
    ghost var p := m.host.pool;
    var c := ValidateCandidate(m, s);
    LocalUnits(p, m.host.pool, VALIDATE_NAME);
    if c.Died? { return Crashed; }
    if c.Failed? { return Refused(ValidationFailed); }
    RegisteredKeepsPolicy(m.cfg, m.db.baselines, s, m.db.baselines[s].masked, true, m.clock);
    RegisteredIsOk(m, s);
    m.Register(s, m.db.baselines[s].masked, true);
    r := Done;
  }

  lemma RegisteredIsOk(m: Manager, s: SnapRef)
    requires m.Valid() && s in m.db.baselines && m.Up()
    ensures BaselineOk(s, m.db.rows, m.host.pool, m.lost) && s.ds in m.host.pool.vols
    ensures s.ds.Branch? ==> Settled(m.db.rows[s.ds.name].state)
  {
    assert BaselineOk(s, m.db.rows, m.host.pool, m.lost);
  }

  // ---- promotion ----

  /** What a promotion that got as far as `registered` has left in the baselines table. */
  ghost predicate Candidate(bs: Baselines, cs: Baselines, s: SnapRef, masked: bool, default: SnapRef) {
    && s in cs && cs.Keys == bs.Keys + {s} && cs[s].masked == masked
    && FlagsKept(bs, cs)
    && CurrentOf(cs, default) == CurrentOf(bs, default)
  }

  /** The snapshot holds the data the branch had. */
  ghost predicate TakenOf(p: Pool, q: Pool, name: string, tag: string) {
    && Exists(q, SnapRef(Branch(name), tag)) && Branch(name) in p.vols
    && At(q, SnapRef(Branch(name), tag)).data == p.vols[Branch(name)].data
  }

  lemma SnapshotHoldsData(p: Pool, q: Pool, r: Pool, name: string, tag: string)
    requires SameBones(p, q, Branch(name)) && SameData(p, q, Branch(name))
    requires CanSnapshot(q, SnapRef(Branch(name), tag)) && r == DoSnapshot(q, SnapRef(Branch(name), tag))
    ensures TakenOf(p, r, name, tag)
  {
    NewestAt(q, SnapRef(Branch(name), tag));
  }

  lemma TakenStays(p: Pool, q: Pool, r: Pool, name: string, tag: string)
    requires TakenOf(p, q, name, tag) && SameBones(q, r, Branch(name))
    ensures TakenOf(p, r, name, tag)
  {
    assert r.vols[Branch(name)].snaps == q.vols[Branch(name)].snaps;
  }

  /** A new snapshot may be registered. */
  lemma CandidateIsOk(m: Manager, s: SnapRef)
    requires m.Valid() && s !in m.db.baselines && s.tag != INIT && Exists(m.host.pool, s)
    requires s.ds.Branch? ==> s.ds.name in m.db.rows
    ensures BaselineOk(s, m.db.rows, m.host.pool, m.lost)
  {
    hide PoolOk, CurrentOk, HasTag;
  }

  method SnapshotAndRegister(m: Manager, name: string, tag: string, masked: bool) returns (r: Result)
    requires m.Valid() && m.Up() && FreshTag(m.db.baselines, tag)
    requires name in m.db.rows && m.db.rows[name].state in {Running, Sleeping}
    modifies m.db`baselines, m.host`pool, m.host`failures
    ensures m.Valid() && PlainName(name) && Branch(name) in m.host.pool.vols
    ensures m.Dirt(name)
    ensures r.Done? || r.Crashed? || r in {Refused(StopFailed), Refused(SnapshotFailed)}
    ensures !r.Done? ==> m.db.baselines == old(m.db.baselines)
    ensures r.Done? ==>
              && m.db.baselines == Registered(old(m.db.baselines), SnapRef(Branch(name), tag), masked, false, m.clock)
              && CurrentOf(m.db.baselines, m.cfg.default) == CurrentOf(old(m.db.baselines), m.cfg.default)
              && TakenOf(old(m.host.pool), m.host.pool, name, tag)
    ensures SameUnits(old(m.host.pool), m.host.pool, {name})
    ensures m.host.quiet && !r.Done? ==> name in m.host.pool.procs
    ensures m.host.quiet ==>
              r == if old(Exists(m.host.pool, SnapRef(Branch(name), tag))) then Refused(SnapshotFailed) else Done
  {
    hide Inv, Clean, StraysAre, Local, AllSettled;
    ghost var p := m.host.pool;
    UsableIsReady(m, name);
    var found := m.host.Resolve(name);
    var c := m.StopOwn(name);
    LocalUnits(p, m.host.pool, name);
    if c.Died? { return Crashed; }
    if c.Failed? { return Refused(StopFailed); }
    ghost var q := m.host.pool;
    c := m.SnapshotOwn(name, tag);
    if c.Died? { return Crashed; }
    if c.Failed? {
      c := RestartBranch(m, name);
      LocalUnits(q, m.host.pool, name);
      return if c.Died? then Crashed else Refused(SnapshotFailed);
    }
    SnapshotHoldsData(p, q, m.host.pool, name, tag);
    IsSettled(m, name);
    CandidateIsOk(m, SnapRef(Branch(name), tag));
    m.Register(SnapRef(Branch(name), tag), masked, false);
    r := Done;
  }

  /** Best effort: the branch is started again however the promotion goes. */
  method RestartBranch(m: Manager, name: string) returns (r: Reply)
    requires m.Valid() && PlainName(name) && Branch(name) in m.host.pool.vols && m.Dirt(name)
    modifies m.host`pool, m.host`failures
    ensures m.Valid() && Local(old(m.host.pool), m.host.pool, name) && m.Dirt(name)
    ensures SameBones(old(m.host.pool), m.host.pool, Branch(name)) && Branch(name) in m.host.pool.vols
    ensures m.host.quiet ==> r.Ok? && name in m.host.pool.procs
  {
    hide Inv, Clean, StraysAre;
    r := m.StartOwn(name);
    if r.Ok? { r := m.host.Probe(); }
  }

  /** Validate, record it, check the policy, and make the candidate current. */
  method ValidateAndPublish(m: Manager, s: SnapRef, masked: bool, skipValidate: bool) returns (r: Result)
    requires m.Valid() && m.Up()
    requires s in m.db.baselines && m.db.baselines[s].masked == masked
    requires !skipValidate || !m.db.baselines[s].validated
    modifies m.db`baselines, m.host`pool, m.host`failures, m.host`hooks, m.host`wrote, m`strays
    ensures m.Valid() && m.strays == old(m.strays) && Local(old(m.host.pool), m.host.pool, VALIDATE_NAME)
    ensures m.db.baselines.Keys == old(m.db.baselines).Keys && FlagsKept(old(m.db.baselines), m.db.baselines)
    ensures r.Done? || r in {Refused(ValidationFailed), Refused(Precondition)} || r.Crashed?
    ensures Barred(m.cfg, masked, skipValidate) ==> !r.Done?
    ensures r == Refused(Precondition) ==> Barred(m.cfg, masked, skipValidate)
    ensures r == Refused(ValidationFailed) ==> !skipValidate
    ensures forall t :: t in old(m.db.baselines) ==> (Exists(old(m.host.pool), t) <==> Exists(m.host.pool, t))
    ensures r.Done? ==>
              && Published(m.cfg, m.db.baselines, s) && PolicyOk(m.cfg, m.db.baselines)
              && m.db.baselines[s].validated == !skipValidate
    ensures m.db.baselines[s].masked == masked
    ensures !r.Done? ==> CurrentOf(m.db.baselines, m.cfg.default) == CurrentOf(old(m.db.baselines), m.cfg.default)
    ensures !r.Done? && PolicyOk(m.cfg, old(m.db.baselines)) ==> PolicyOk(m.cfg, m.db.baselines)
    ensures m.host.quiet ==>
              r == if !skipValidate && !(m.RoomToRun() && Exists(old(m.host.pool), s)) then Refused(ValidationFailed)
                   else if Barred(m.cfg, masked, skipValidate) then Refused(Precondition)
                   else Done
  {
    hide Inv, Clean, StraysAre, ActiveRows, HasTag, AllSettled, FlagsKept, PolicyOk, Published, Registered,
      MadeCurrent, CurrentOf, Local;
    LocalRefl(m.host.pool, VALIDATE_NAME);
    ghost var bs := m.db.baselines;
    FlagsKeptRefl(bs);
    if !skipValidate {
      var c := ValidateCandidate(m, s);
      if c.Died? { return Crashed; }
      if c.Failed? { return Refused(ValidationFailed); }
      RegisteredKeepsPolicy(m.cfg, m.db.baselines, s, masked, true, m.clock);
      RegisteredIsOk(m, s);
      m.Register(s, masked, true);
      c := m.host.Alive();
      if c.Died? { return Crashed; }
    }
    if m.cfg.requireMasked && !masked { return Refused(Precondition); }
    if m.cfg.requireValidated && skipValidate { return Refused(Precondition); }
    ghost var cs := m.db.baselines;
    MadeCurrentPublishes(m.cfg, cs, s, m.clock);
    m.MakeCurrent(s);
    FlagsKeptTwice(bs, cs, m.db.baselines);
    r := Done;
  }

  lemma FreshIsNew(bs: Baselines, s: SnapRef)
    requires FreshTag(bs, s.tag)
    ensures s !in bs && s.tag != INIT
  {
  }

  lemma PublishedIs(cfg: Config, bs: Baselines, s: SnapRef)
    requires Published(cfg, bs, s)
    ensures forall t :: t in bs ==> (bs[t].current <==> t == s)
  {
  }

  lemma CandidateIs(bs: Baselines, cs: Baselines, s: SnapRef, masked: bool, default: SnapRef)
    requires cs == bs || Candidate(bs, cs, s, masked, default)
    ensures CurrentOf(cs, default) == CurrentOf(bs, default) && cs.Keys <= bs.Keys + {s}
    ensures cs == bs || (s in cs && cs[s].masked == masked)
  {
  }

  lemma TakenIs(p: Pool, q: Pool, name: string, tag: string)
    requires TakenOf(p, q, name, tag)
    ensures Branch(name) in p.vols && Exists(q, SnapRef(Branch(name), tag))
    ensures At(q, SnapRef(Branch(name), tag)).data == p.vols[Branch(name)].data
  {
  }

  /** A promotion that may go ahead, from the stop of the branch on. */
  method PromoteRunning(m: Manager, name: string, tag: string, masked: bool, skipValidate: bool) returns (r: Result)
    requires m.Valid() && m.Up() && FreshTag(m.db.baselines, tag) && !Barred(m.cfg, masked, skipValidate)
    requires name in m.db.rows && m.db.rows[name].state in {Running, Sleeping}
    modifies m.db`baselines, m.host`pool, m.host`failures, m.host`hooks, m.host`wrote, m`strays
    ensures m.Valid() && m.strays == old(m.strays) && FlagsKept(old(m.db.baselines), m.db.baselines)
    ensures PolicyOk(m.cfg, old(m.db.baselines)) ==> PolicyOk(m.cfg, m.db.baselines)
    ensures r.Done? ==>
              && Published(m.cfg, m.db.baselines, SnapRef(Branch(name), tag))
              && m.db.baselines.Keys == old(m.db.baselines).Keys + {SnapRef(Branch(name), tag)}
              && m.db.baselines[SnapRef(Branch(name), tag)].masked == masked
              && m.db.baselines[SnapRef(Branch(name), tag)].validated == !skipValidate
              && TakenOf(old(m.host.pool), m.host.pool, name, tag)
    ensures r.Done? || r.Crashed? || r in {Refused(StopFailed), Refused(SnapshotFailed), Refused(ValidationFailed)}
    ensures r in {Refused(StopFailed), Refused(SnapshotFailed)} ==> m.db.baselines == old(m.db.baselines)
    ensures r == Refused(ValidationFailed) ==> !skipValidate && m.db.baselines != old(m.db.baselines)
    ensures !r.Done? ==>
              || m.db.baselines == old(m.db.baselines)
              || Candidate(old(m.db.baselines), m.db.baselines, SnapRef(Branch(name), tag), masked, m.cfg.default)
    ensures m.host.quiet ==>
              r == if old(Exists(m.host.pool, SnapRef(Branch(name), tag))) then Refused(SnapshotFailed)
                   else if !skipValidate && !m.RoomToRun() then Refused(ValidationFailed)
                   else Done
    // however it ends, even a sleeping branch is started again
    ensures m.host.quiet ==> name in m.host.pool.procs
    ensures SameUnits(old(m.host.pool), m.host.pool, {name, VALIDATE_NAME})
  {
    hide Inv, Clean, StraysAre, ActiveRows, HasTag, Local, AllSettled, PolicyOk, FlagsKept, Published, Registered,
      CurrentOf, TakenOf, Candidate, SameUnits, SameVolume, SameBones, Exists, Barred, FreshTag, HasInit;
    var s := SnapRef(Branch(name), tag);
    ghost var bs := m.db.baselines;
    FreshIsNew(bs, s);
    FlagsKeptRefl(bs);
    ghost var p := m.host.pool;
    RegisteredKeepsPolicy(m.cfg, m.db.baselines, s, masked, false, m.clock);
    r := SnapshotAndRegister(m, name, tag, masked);
    ghost var o := m.host.pool;
    MoreUnits(p, o, name, VALIDATE_NAME);
    if !r.Done? { return; }
    ghost var q, cs := m.host.pool, m.db.baselines;
    CandidateFrom(bs, cs, cs, s, masked, m.cfg.default, m.clock);
    var c := RestartBranch(m, name);
    UnitsOf(p, o, m.host.pool, m.host.pool, name, VALIDATE_NAME);
    TakenStays(p, q, m.host.pool, name, tag);
    if c.Died? { return Crashed; }
    q := m.host.pool;
    UsableIsReady(m, name);
    TakenExists(p, q, name, tag);
    r := ValidateAndPublish(m, s, masked, skipValidate);
    FlagsKeptTwice(bs, cs, m.db.baselines);
    if !r.Done? { CandidateFrom(bs, cs, m.db.baselines, s, masked, m.cfg.default, m.clock); }
    TakenStaysBeside(p, q, m.host.pool, name, tag, VALIDATE_NAME);
    UnitsOf(p, o, q, m.host.pool, name, VALIDATE_NAME);
  }

  lemma TakenStaysBeside(p: Pool, q: Pool, r: Pool, name: string, tag: string, worked: string)
    requires TakenOf(p, q, name, tag) && Local(q, r, worked) && name != worked && !IsReserved(name)
    ensures TakenOf(p, r, name, tag) && (name in q.procs <==> name in r.procs)
  {
    hide TakenOf, Local, IsReserved;
    OtherBranchSame(q, r, name, worked);
    TakenStays(p, q, r, name, tag);
  }

  lemma MoreUnits(p: Pool, q: Pool, name: string, other: string)
    ensures SameUnits(p, p, {name, other}) && (SameUnits(p, q, {name}) ==> SameUnits(p, q, {name, other}))
  {
  }

  /** Units of two names at most have come or gone. */
  lemma UnitsOf(p: Pool, o: Pool, q: Pool, s: Pool, name: string, other: string)
    requires SameUnits(p, o, {name}) && Local(o, q, name) && (s == q || Local(q, s, other))
    ensures SameUnits(p, s, {name, other})
  {
    LocalUnits(o, q, name);
    if s != q { LocalUnits(q, s, other); }
  }

  lemma TakenExists(p: Pool, q: Pool, name: string, tag: string)
    requires TakenOf(p, q, name, tag)
    ensures Exists(q, SnapRef(Branch(name), tag))
  {
  }

  lemma CandidateFrom(bs: Baselines, cs: Baselines, ds: Baselines, s: SnapRef, masked: bool, default: SnapRef, now: int)
    requires s !in bs && cs == Registered(bs, s, masked, false, now) && CurrentOf(cs, default) == CurrentOf(bs, default)
    requires ds.Keys == cs.Keys && ds[s].masked == masked && CurrentOf(ds, default) == CurrentOf(cs, default)
    requires ds == cs || FlagsKept(cs, ds)
    ensures Candidate(bs, ds, s, masked, default) && ds != bs
  {
    hide CurrentOf;
    assert s in ds.Keys;
    forall t | t in bs && t in ds ensures ds[t].masked == bs[t].masked && (bs[t].validated ==> ds[t].validated) {
      assert cs[t] == bs[t];
    }
  }

  /** The branch stops, is snapshotted and registered, runs again, and the candidate is validated before
      it becomes current. The policy that can be checked is checked before the branch is stopped. */
  method PromoteBranch(m: Manager, name: string, tag: string, masked: bool, skipValidate: bool) returns (r: Result)
    requires m.Valid() && m.Up() && FreshTag(m.db.baselines, tag)
    modifies m.db`baselines, m.host`pool, m.host`failures, m.host`hooks, m.host`wrote, m`strays
    ensures m.Valid() && m.strays == old(m.strays) && FlagsKept(old(m.db.baselines), m.db.baselines)
    ensures PolicyOk(m.cfg, old(m.db.baselines)) ==> PolicyOk(m.cfg, m.db.baselines)
    ensures r.Done? ==> (m.cfg.requireMasked ==> masked) && (m.cfg.requireValidated ==> !skipValidate)
    ensures r.Done? ==>
              && (forall t :: t in m.db.baselines ==> (m.db.baselines[t].current <==> t == SnapRef(Branch(name), tag)))
              && Branch(name) in old(m.host.pool.vols) && Exists(m.host.pool, SnapRef(Branch(name), tag))
              && At(m.host.pool, SnapRef(Branch(name), tag)).data == old(m.host.pool.vols)[Branch(name)].data
    ensures !r.Done? ==>
              && CurrentOf(m.db.baselines, m.cfg.default) == CurrentOf(old(m.db.baselines), m.cfg.default)
              && m.db.baselines.Keys <= old(m.db.baselines).Keys + {SnapRef(Branch(name), tag)}
              && (m.db.baselines == old(m.db.baselines)
                  || (SnapRef(Branch(name), tag) in m.db.baselines
                      && m.db.baselines[SnapRef(Branch(name), tag)].masked == masked))
    ensures r.Done? ==>
              && Published(m.cfg, m.db.baselines, SnapRef(Branch(name), tag))
              && m.db.baselines.Keys == old(m.db.baselines).Keys + {SnapRef(Branch(name), tag)}
              && m.db.baselines[SnapRef(Branch(name), tag)].masked == masked
              && m.db.baselines[SnapRef(Branch(name), tag)].validated == !skipValidate
              && TakenOf(old(m.host.pool), m.host.pool, name, tag)
    ensures r.Done? || r.Refused? || r.Crashed?
    // what is refused before the branch is stopped
    ensures r in {Refused(NotFound), Refused(Precondition)} <==>
              Unpromotable(m.cfg, m.db.rows, name, masked, skipValidate)
    ensures r in {Refused(NotFound), Refused(Precondition)} ==>
              && r == Refused(if !Barred(m.cfg, masked, skipValidate) && name !in m.db.rows then NotFound
                              else Precondition)
              && m.host.pool == old(m.host.pool) && m.db.baselines == old(m.db.baselines)
    // and afterwards; the current baseline is the one it was
    ensures r.Refused? && !Unpromotable(m.cfg, m.db.rows, name, masked, skipValidate) ==>
              r.why in {StopFailed, SnapshotFailed, ValidationFailed}
    ensures r in {Refused(StopFailed), Refused(SnapshotFailed)} ==> m.db.baselines == old(m.db.baselines)
    ensures r == Refused(ValidationFailed) ==> !skipValidate && m.db.baselines != old(m.db.baselines)
    ensures !r.Done? ==>
              || m.db.baselines == old(m.db.baselines)
              || Candidate(old(m.db.baselines), m.db.baselines, SnapRef(Branch(name), tag), masked, m.cfg.default)
    // without failures: exactly this
    ensures m.host.quiet && !Unpromotable(m.cfg, m.db.rows, name, masked, skipValidate) ==>
              r == if old(Exists(m.host.pool, SnapRef(Branch(name), tag))) then Refused(SnapshotFailed)
                   else if !skipValidate && !m.RoomToRun() then Refused(ValidationFailed)
                   else Done
    // however it ends, even a sleeping branch is started again, and no other
    ensures m.host.quiet ==>
              (name in m.host.pool.procs <==>
               name in old(m.host.pool).procs || !Unpromotable(m.cfg, m.db.rows, name, masked, skipValidate))
    ensures SameUnits(old(m.host.pool), m.host.pool, {name, VALIDATE_NAME})
  {
    hide Inv, Clean, StraysAre, ActiveRows, HasTag, AllSettled, PolicyOk, FlagsKept, Published, CurrentOf, TakenOf,
      Candidate, SameUnits, At;
    FlagsKeptRefl(m.db.baselines);
    MoreUnits(m.host.pool, m.host.pool, name, VALIDATE_NAME);
    if Barred(m.cfg, masked, skipValidate) { return Refused(Precondition); }
    if name !in m.db.rows { return Refused(NotFound); }
    if m.db.rows[name].state != Running && m.db.rows[name].state != Sleeping { return Refused(Precondition); }
    ghost var bs, p := m.db.baselines, m.host.pool;
    r := PromoteRunning(m, name, tag, masked, skipValidate);
    if r.Done? {
      PublishedIs(m.cfg, m.db.baselines, SnapRef(Branch(name), tag));
      TakenIs(p, m.host.pool, name, tag);
    } else {
      CandidateIs(bs, m.db.baselines, SnapRef(Branch(name), tag), masked, m.cfg.default);
    }
  }

  /** The policy forbids it, or there is no running or sleeping branch to promote. */
  predicate Unpromotable(cfg: Config, rows: Rows, name: string, masked: bool, skipValidate: bool) {
    Barred(cfg, masked, skipValidate) || name !in rows || rows[name].state !in {Running, Sleeping}
  }

  /** Work under one name does not show on another branch. */
  lemma OtherBranchSame(p: Pool, q: Pool, name: string, worked: string)
    requires Local(p, q, worked) && name != worked && !IsReserved(name)
    ensures SameVolume(p, q, Branch(name)) && (name in p.procs <==> name in q.procs)
  {
    StashNames(worked, name);
    var rest := {Branch(worked), Branch(StashName(worked))};
    assert Branch(name) !in rest;
    assert Branch(name) in p.vols <==> Branch(name) in p.vols - rest;
    assert Branch(name) in q.vols <==> Branch(name) in q.vols - rest;
    if Branch(name) in p.vols { assert (p.vols - rest)[Branch(name)] == (q.vols - rest)[Branch(name)]; }
    assert name in p.procs <==> name in p.procs - {worked};
    assert name in q.procs <==> name in q.procs - {worked};
  }

  // ---- the current pointer, and deletion ----

  /** SetBaseline: back to any registered baseline that meets the policy. */
  method SetBaseline(m: Manager, s: SnapRef) returns (r: Result)
    requires m.Valid()
    modifies m.db`baselines
    ensures m.Valid() && FlagsKept(old(m.db.baselines), m.db.baselines)
            && m.db.baselines.Keys == old(m.db.baselines).Keys
    ensures PolicyOk(m.cfg, old(m.db.baselines)) ==> PolicyOk(m.cfg, m.db.baselines)
    ensures r.Done? <==> s in old(m.db.baselines) && Publishable(m.cfg, old(m.db.baselines)[s])
    ensures r.Done? ==> Published(m.cfg, m.db.baselines, s)
    ensures r.Done? ==> forall t :: t in m.db.baselines ==> (m.db.baselines[t].current <==> t == s)
    ensures r.Done? <==>
              && s in old(m.db.baselines)
              && (m.cfg.requireMasked ==> old(m.db.baselines)[s].masked)
              && (m.cfg.requireValidated ==> old(m.db.baselines)[s].validated)
    ensures !r.Done? ==> m.db.baselines == old(m.db.baselines)
    ensures !r.Done? ==> r == Refused(if s in m.db.baselines then Precondition else UnknownBaseline)
  {
    hide Inv, Clean, StraysAre;
    if s !in m.db.baselines { return Refused(UnknownBaseline); }
    if m.cfg.requireMasked && !m.db.baselines[s].masked { return Refused(Precondition); }
    if m.cfg.requireValidated && !m.db.baselines[s].validated { return Refused(Precondition); }
    MadeCurrentPublishes(m.cfg, m.db.baselines, s, m.clock);
    m.MakeCurrent(s);
    r := Done;
  }

  lemma RemovalKeepsPolicy(cfg: Config, bs: Baselines, gone: set<SnapRef>)
    ensures FlagsKept(bs, bs - gone) && (PolicyOk(cfg, bs) ==> PolicyOk(cfg, bs - gone))
  {
  }

  /** DeleteBaseline: never the current one, nor one that a branch row names as its origin. */
  method DeleteBaseline(m: Manager, s: SnapRef) returns (r: Result)
    requires m.Valid()
    modifies m.db`baselines, m.host`pool, m.host`failures, m`lost
    ensures m.Valid() && FlagsKept(old(m.db.baselines), m.db.baselines)
    ensures CurrentOf(m.db.baselines, m.cfg.default) == CurrentOf(old(m.db.baselines), m.cfg.default)
    ensures PolicyOk(m.cfg, old(m.db.baselines)) ==> PolicyOk(m.cfg, m.db.baselines)
    ensures m.db.baselines == if r.Done? then old(m.db.baselines) - {s} else old(m.db.baselines)
    ensures r.Refused? ==>
              && r.why == (if s in m.db.baselines then Precondition else UnknownBaseline)
              && m.host.pool == old(m.host.pool)
    ensures r.Refused? <==> !Removable(m.db.rows, old(m.db.baselines), m.cfg.default, s)
    ensures forall t :: t != s && Exists(old(m.host.pool), t) ==> Exists(m.host.pool, t)
    ensures m.host.pool.procs == old(m.host.pool).procs
    ensures CutShort(old(m.lost), m.lost, m.db.rows, m.db.baselines, m.cfg.default)
    ensures r.Crashed? ==> m.lost <= old(m.lost) + {s}
    ensures !r.Crashed? ==> m.lost == old(m.lost)
    // a snapshot that is already gone, or still has a clone, stays registered
    ensures m.host.quiet && !r.Refused? ==> (r.Done? <==> CanDestroySnap(old(m.host.pool), s))
  {
    hide Inv, Clean, StraysAre, HasTag;
    CurrentIsSound(m);
    if s !in m.db.baselines { return Refused(UnknownBaseline); }
    var current := m.db.CurrentBaseline(m.cfg.default);
    if current == s { return Refused(Precondition); }
    var used := m.db.Referenced(s);
    if used { return Refused(Precondition); }
    RemovalKeepsPolicy(m.cfg, m.db.baselines, {s});
    ghost var lost := m.lost;
    var c := m.RemoveBaseline(s);
    AtMostThisOne(lost, m.lost, s);
    r := if c.Ok? then Done else if c.Failed? then FailedAt(StorageStage) else Crashed;
  }

  /** A daemon that dies between the snapshot and the row leaves a baseline that no later attempt can delete. */
  lemma CutShortIsForGood(m: Manager, p: Pool, s: SnapRef)
    requires CanDestroySnap(p, s)
    ensures !Exists(DoDestroySnap(p, s), s) && !CanDestroySnap(DoDestroySnap(p, s), s)
    // and it may still be made current, if only the policy is met
    ensures m.Valid() && s in m.db.baselines && Publishable(m.cfg, m.db.baselines[s])
            && m.host.pool == DoDestroySnap(p, s) ==>
              HasCurrent(MadeCurrent(m.db.baselines, s, m.clock)) &&
              !Exists(m.host.pool, CurrentOf(MadeCurrent(m.db.baselines, s, m.clock), m.cfg.default))
  {
    hide Inv;
    if s in m.db.baselines {
      var cs := MadeCurrent(m.db.baselines, s, m.clock);
      assert cs[s].current;
      CurrentIs(cs, m.cfg.default, s);
    }
  }

  /** What dying in a deletion may cost: at most one baseline, and one that is registered, not current and in no
      branch's use as the daemon dies. */
  ghost predicate CutShort(lost: set<SnapRef>, lost': set<SnapRef>, rows: Rows, bs: Baselines, default: SnapRef) {
    lost' == lost || exists s :: s !in lost && Removable(rows, bs, default, s) && lost' == lost + {s}
  }

  // ---- collection ----

  /** What the policy lets go: neither current nor in use, nor among the newest, nor recent. */
  ghost predicate Collectable(rows: Rows, bs: Baselines, default: SnapRef, s: SnapRef, rank: nat, keepLast: int,
                              retention: int, now: int) {
    && Removable(rows, bs, default, s) && !bs[s].current
    && !(keepLast > 0 && rank < keepLast)
    && !(retention > 0 && now - bs[s].createdAt < retention)
  }

  /** The collectable ones of a list that is ordered by age. */
  ghost function Let(rows: Rows, bs: Baselines, default: SnapRef, list: seq<SnapRef>, keepLast: int, retention: int,
                     now: int): set<SnapRef> {
    set k | 0 <= k < |list| && Collectable(rows, bs, default, list[k], k, keepLast, retention, now) :: list[k]
  }

  lemma LetAt(rows: Rows, bs: Baselines, default: SnapRef, list: seq<SnapRef>, i: nat, keepLast: int, retention: int,
              now: int)
    requires i < |list| && forall j, k :: 0 <= j < k < |list| ==> list[j] != list[k]
    ensures list[i] in Let(rows, bs, default, list, keepLast, retention, now) <==>
            Collectable(rows, bs, default, list[i], i, keepLast, retention, now)
  {
  }

  /** What the policy lets go, by the fields of the rows: a baseline that is not marked current, nor the default where
      none is, that no branch names as its origin, that is not among the newest, and that is old enough. */
  lemma GoesByPolicy(rows: Rows, bs: Baselines, default: SnapRef, list: seq<SnapRef>, i: nat, keepLast: int,
                     retention: int, now: int)
    requires i < |list| && (forall j, k :: 0 <= j < k < |list| ==> list[j] != list[k]) && AtMostOneCurrent(bs)
    ensures list[i] in Let(rows, bs, default, list, keepLast, retention, now) <==>
              && list[i] in bs && !bs[list[i]].current
              && (list[i] == default ==> exists s :: s in bs && bs[s].current)
              && (forall n :: n in rows ==> rows[n].origin != list[i])
              && (keepLast > 0 ==> keepLast <= i)
              && (retention > 0 ==> bs[list[i]].createdAt + retention <= now)
  {
    LetAt(rows, bs, default, list, i, keepLast, retention, now);
  }

  /** After the first `i` of the list: what is gone, what was kept, and that the two are all there is.
      A dry run names exactly what the policy lets go and changes nothing; a real run without
      failures takes away exactly what the policy lets go and zfs will destroy. */
  ghost predicate Collected(list: seq<SnapRef>, i: nat, deleted: seq<SnapRef>, kept: seq<SnapRef>, bs: Baselines,
                            p: Pool, bs': Baselines, q: Pool, let: set<SnapRef>, dryRun: bool, quiet: bool)
    requires i <= |list|
  {
    && bs' == (if dryRun then bs else bs - (set s | s in deleted)) && (dryRun ==> q == p)
    && (forall s :: s in list[..i] <==> s in deleted || s in kept)
    && (forall s :: s in deleted ==> s !in kept && s in let)
    && (forall s :: s in list[..i] && (dryRun || quiet) ==>
        (s in deleted <==> s in let && (dryRun || CanDestroySnap(p, s))))
    && (quiet ==> forall s :: s in list[i..] ==> (CanDestroySnap(p, s) <==> CanDestroySnap(q, s)))
  }

  lemma {:induction false} CollectStep(list: seq<SnapRef>, i: nat, deleted: seq<SnapRef>, kept: seq<SnapRef>,
                                       bs: Baselines, p: Pool, bs': Baselines, q: Pool, bs'': Baselines, q'': Pool,
                                       let: set<SnapRef>, dryRun: bool, quiet: bool, gone: bool)
    requires i < |list| && list[i] !in list[..i] && list[i] !in list[i + 1..]
    requires Collected(list, i, deleted, kept, bs, p, bs', q, let, dryRun, quiet)
    requires bs'' == if gone && !dryRun then bs' - {list[i]} else bs'
    requires dryRun ==> q'' == q && gone == (list[i] in let)
    requires gone ==> list[i] in let
    requires quiet && !dryRun ==> (gone <==> list[i] in let && CanDestroySnap(q, list[i]))
    requires quiet ==> forall t :: t != list[i] ==> (CanDestroySnap(q, t) <==> CanDestroySnap(q'', t))
    ensures Collected(list, i + 1, if gone then deleted + [list[i]] else deleted,
                      if gone then kept else kept + [list[i]],
                      bs, p, bs'', q'', let, dryRun, quiet)
  {
    hide CanDestroySnap;
    var s := list[i];
    assert list[..i + 1] == list[..i] + [s];
    assert list[i..] == [s] + list[i + 1..];
    var deleted' := if gone then deleted + [s] else deleted;
    assert (set t | t in deleted') == (set t | t in deleted) + (if gone then {s} else {});
  }

  /** Destroying one snapshot neither hides nor frees another. */
  lemma OtherSnapsAlike(p: Pool, s: SnapRef, t: SnapRef)
    requires CanDestroySnap(p, s) && s != t
    ensures CanDestroySnap(DoDestroySnap(p, s), t) <==> CanDestroySnap(p, t)
  {
    var q := DoDestroySnap(p, s);
    assert forall d :: d in p.vols ==> q.vols[d].origin == p.vols[d].origin;
    assert forall g, u :: Cloned(q, g, u) <==> Cloned(p, g, u);
  }

  lemma AtMostThisOne(lost: set<SnapRef>, lost': set<SnapRef>, s: SnapRef)
    requires lost <= lost' <= lost + {s}
    ensures lost' == lost || (s !in lost && lost' == lost + {s})
  {
    if s in lost' {
      assert lost' == lost + {s};
      if s in lost { assert lost' == lost; }
    } else {
      assert lost' == lost;
    }
  }

  /** One baseline of the list: kept, or listed, or deleted unless zfs refuses. */
  method CollectOne(m: Manager, s: SnapRef, collectable: bool, dryRun: bool) returns (r: Reply)
    requires m.Valid() && (collectable ==> Removable(m.db.rows, m.db.baselines, m.cfg.default, s))
    modifies m.db`baselines, m.host`pool, m.host`failures, m`lost
    ensures m.Valid()
    ensures CurrentOf(m.db.baselines, m.cfg.default) == CurrentOf(old(m.db.baselines), m.cfg.default)
    ensures m.db.baselines == if r.Ok? && !dryRun then old(m.db.baselines) - {s} else old(m.db.baselines)
    ensures r.Ok? ==> collectable
    ensures !collectable ==> r.Failed?
    ensures dryRun || !collectable ==> m.host.pool == old(m.host.pool)
    ensures dryRun && collectable ==> r.Ok?
    ensures m.host.pool.procs == old(m.host.pool).procs
    ensures !r.Died? ==> m.lost == old(m.lost)
    ensures r.Died? ==> m.lost <= old(m.lost) + {s}
    ensures r.Died? ==> collectable && CutShort(old(m.lost), m.lost, m.db.rows, m.db.baselines, m.cfg.default)
    ensures forall t :: t != s && Exists(old(m.host.pool), t) ==> Exists(m.host.pool, t)
    ensures !r.Died? ==> forall t :: t != s ==>
              (CanDestroySnap(old(m.host.pool), t) <==> CanDestroySnap(m.host.pool, t))
    ensures m.host.quiet && collectable && !dryRun ==> r == if CanDestroySnap(old(m.host.pool), s) then Ok else Failed
  {
    hide Inv, Clean, StraysAre, CanDestroySnap;
    r := if collectable then Ok else Failed;
    if collectable && !dryRun {
      ghost var p := m.host.pool;
      ghost var lost := m.lost;
      r := m.RemoveBaseline(s);
      AtMostThisOne(lost, m.lost, s);
      if r.Ok? {
        forall t | t != s ensures CanDestroySnap(p, t) <==> CanDestroySnap(m.host.pool, t) { OtherSnapsAlike(p, s, t); }
      }
    }
  }

  /** What the loop needs to know of the next one in the list. */
  lemma NextCollected(list: seq<SnapRef>, i: nat, deleted: seq<SnapRef>, kept: seq<SnapRef>, bs: Baselines, p: Pool,
                      bs': Baselines, q: Pool, let: set<SnapRef>, dryRun: bool, quiet: bool)
    requires i < |list| && ByAge(list, bs)
    requires Collected(list, i, deleted, kept, bs, p, bs', q, let, dryRun, quiet)
    ensures list[i] !in list[..i] && list[i] !in list[i + 1..]
    ensures list[i] in bs && list[i] in bs' && bs'[list[i]] == bs[list[i]]
  {
    assert list[i] !in list[..i];
  }

  method GCBaselines(m: Manager, keepLast: int, retention: int, dryRun: bool)
    returns (r: Result, deleted: seq<SnapRef>, kept: seq<SnapRef>, ghost list: seq<SnapRef>)
    requires m.Valid()
    modifies m.db`baselines, m.host`pool, m.host`failures, m`lost
    ensures m.Valid() && ByAge(list, old(m.db.baselines))
    ensures forall s :: s in list <==> s in old(m.db.baselines)
    ensures forall i, j :: 0 <= i < j < |list| ==>
              list[i] != list[j] && old(m.db.baselines)[list[i]].createdAt >= old(m.db.baselines)[list[j]].createdAt
    ensures CurrentOf(m.db.baselines, m.cfg.default) == CurrentOf(old(m.db.baselines), m.cfg.default)
    ensures m.db.baselines == if dryRun then old(m.db.baselines) else old(m.db.baselines) - (set s | s in deleted)
    ensures r.Done? ==>
              Collected(list, |list|, deleted, kept, old(m.db.baselines), old(m.host.pool), m.db.baselines, m.host.pool,
                                  Let(m.db.rows, old(m.db.baselines), m.cfg.default, list, keepLast, retention,
                                      m.clock), dryRun, m.host.quiet)
    ensures m.host.pool.procs == old(m.host.pool).procs
    ensures FlagsKept(old(m.db.baselines), m.db.baselines)
    ensures PolicyOk(m.cfg, old(m.db.baselines)) ==> PolicyOk(m.cfg, m.db.baselines)
    // also where the daemon dies: only what the policy lets go is deleted or lost
    ensures forall s :: s in deleted || (s in m.lost && s !in old(m.lost)) ==>
              s in Let(m.db.rows, old(m.db.baselines), m.cfg.default, list, keepLast, retention, m.clock)
    ensures r.Done? || r.Crashed?
    ensures r.Done? ==> m.lost == old(m.lost)
    ensures CutShort(old(m.lost), m.lost, m.db.rows, m.db.baselines, m.cfg.default)
    ensures dryRun || m.host.quiet ==> r.Done?
  {
    hide Inv, Clean, StraysAre, CanDestroySnap, Collected, Let, FlagsKept, PolicyOk, ByAge;
    r, deleted, kept := Done, [], [];
    ghost var bs, p := m.db.baselines, m.host.pool;
    CurrentIsSound(m);
    var all := m.db.ListBaselines();
    list := all;
    var current := m.db.CurrentBaseline(m.cfg.default);
    ghost var let := Let(m.db.rows, bs, m.cfg.default, list, keepLast, retention, m.clock);
    CollectNone(list, bs, p, let, dryRun, m.host.quiet);
    for i := 0 to |all|
      invariant m.Valid() && r.Done? && m.lost == old(m.lost)
      invariant CurrentOf(m.db.baselines, m.cfg.default) == current && m.host.pool.procs == p.procs
      invariant Collected(list, i, deleted, kept, bs, p, m.db.baselines, m.host.pool, let, dryRun, m.host.quiet)
    {
      ghost var bs', q := m.db.baselines, m.host.pool;
      NextCollected(list, i, deleted, kept, bs, p, bs', q, let, dryRun, m.host.quiet);
      LetAt(m.db.rows, bs, m.cfg.default, list, i, keepLast, retention, m.clock);
      CollectedSoFar(m.cfg, list, i, deleted, kept, bs, p, bs', q, let, dryRun, m.host.quiet);
      var s := all[i];
      var used := m.db.Referenced(s);
      var keep := s == current || m.db.baselines[s].current || used || (keepLast > 0 && i < keepLast)
                  || (retention > 0 && m.clock - m.db.baselines[s].createdAt < retention);
      var c := CollectOne(m, s, !keep, dryRun);
      if c.Died? { return Crashed, deleted, kept, list; }
      CollectStep(list, i, deleted, kept, bs, p, bs', q, m.db.baselines, m.host.pool, let, dryRun, m.host.quiet, c.Ok?);
      if c.Ok? { deleted := deleted + [s]; } else { kept := kept + [s]; }
    }
    CollectedSoFar(m.cfg, list, |list|, deleted, kept, bs, p, m.db.baselines, m.host.pool, let, dryRun, m.host.quiet);
  }

  lemma CollectNone(list: seq<SnapRef>, bs: Baselines, p: Pool, let: set<SnapRef>, dryRun: bool, quiet: bool)
    ensures Collected(list, 0, [], [], bs, p, bs, p, let, dryRun, quiet)
  {
  }

  lemma CollectedSoFar(cfg: Config, list: seq<SnapRef>, i: nat, deleted: seq<SnapRef>, kept: seq<SnapRef>,
                       bs: Baselines, p: Pool, bs': Baselines, q: Pool, let: set<SnapRef>, dryRun: bool, quiet: bool)
    requires i <= |list| && Collected(list, i, deleted, kept, bs, p, bs', q, let, dryRun, quiet)
    ensures bs' == if dryRun then bs else bs - (set s | s in deleted)
    ensures forall s :: s in deleted ==> s in let
    ensures FlagsKept(bs, bs') && (PolicyOk(cfg, bs) ==> PolicyOk(cfg, bs'))
  {
    RemovalKeepsPolicy(cfg, bs, set s | s in deleted);
  }
}
