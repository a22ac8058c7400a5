/** Building a candidate from the base datadir, and the refresh that validates and publishes it. */
module Refresh {
  import opened Names
  import opened Pool
  import opened Store
  import opened Host
  import opened Invariant
  import opened Manager
  import opened Lifecycle
  import opened BaselineOps

  /** The source loader, or a script that does the same: start a server on base, change the data, stop it
      gracefully. It may break off anywhere, and leave the server running. */
  method Load(m: Manager) returns (r: Reply)
    requires m.Valid()
    modifies m.host`pool, m.host`failures, m.host`hooks, m.host`wrote
    ensures m.Valid() && SameSnaps(old(m.host.pool), m.host.pool)
    ensures SameUnits(old(m.host.pool), m.host.pool, {REFRESH_UNIT})
    ensures m.host.quiet ==> r.Ok?
  {
    hide Inv, Clean, StraysAre;
    r := m.StartBase();
    if !r.Ok? { return; }
    r := m.WriteBase();
    var c := m.StopBase();
    if !c.Ok? { r := c; }
  }

  /** Nothing but the loader's own server is ever found on base. */
  lemma OnlyRefreshOnBase(m: Manager)
    requires m.Valid()
    ensures AnyLive(m.host.pool, Base) ==> Live(m.host.pool, REFRESH_UNIT, Base)
  {
    hide Clean, StraysAre, RowOk, BaselineOk, CurrentOk, PortsDistinct, GuidsOk, ClonesOk;
    if AnyLive(m.host.pool, Base) {
      var u :| u in m.host.pool.procs && Live(m.host.pool, u, Base);
      assert Home(u, Base);
    }
  }

  /** Nothing may be running on base when it is snapshotted, whatever the exit status said. */
  method Quiesce(m: Manager) returns (r: Reply)
    requires m.Valid()
    modifies m.host`pool, m.host`failures
    ensures m.Valid() && SameSnaps(old(m.host.pool), m.host.pool)
    ensures r.Ok? ==> !AnyLive(m.host.pool, Base) && (m.faithful ==> !m.host.pool.vols[Base].dirty)
    ensures SameUnits(old(m.host.pool), m.host.pool, {REFRESH_UNIT})
    ensures m.host.quiet ==> r.Ok?
  {
    hide Inv, Clean, StraysAre;
    var idle := m.Quiesced();
    if idle { return Ok; }
    r := m.StopBase();
    OnlyRefreshOnBase(m);
    if r.Died? { return; }
    idle := m.Quiesced();
    r := if idle then Ok else Failed;
  }

  /** buildCandidate: load, quiesce, snapshot, register. `masked` is whether this load left the sentinel. */
  method BuildCandidate(m: Manager, tag: string, masked: bool) returns (r: Result)
    requires m.Valid() && FreshTag(m.db.baselines, tag)
    modifies m.db`baselines, m.host`pool, m.host`failures, m.host`hooks, m.host`wrote
    ensures m.Valid()
    ensures r.Done? || r.Crashed? || r == Refused(BuildFailed)
    ensures !r.Done? ==> m.db.baselines == old(m.db.baselines)
    ensures r.Done? ==>
              && m.db.baselines == Registered(old(m.db.baselines), SnapRef(Base, tag), masked, false, m.clock)
              && CurrentOf(m.db.baselines, m.cfg.default) == CurrentOf(old(m.db.baselines), m.cfg.default)
              && Exists(m.host.pool, SnapRef(Base, tag)) && (m.faithful ==> At(m.host.pool, SnapRef(Base, tag)).clean)
    ensures forall s :: Exists(old(m.host.pool), s) ==> Exists(m.host.pool, s)
    ensures SameUnits(old(m.host.pool), m.host.pool, {REFRESH_UNIT})
    ensures m.host.quiet ==> r == if old(Exists(m.host.pool, SnapRef(Base, tag))) then Refused(BuildFailed) else Done
  {
    hide Inv, Clean, StraysAre;
    ghost var p := m.host.pool;
    var c := Load(m);
    if c.Died? { return Crashed; }
    var ok := c.Ok?;
    c := Quiesce(m);
    if c.Died? { return Crashed; }
    SnapsStay(p, m.host.pool);
    if !ok || c.Failed? { return Refused(BuildFailed); }
    r := SnapshotCandidate(m, tag, masked);
  }

  lemma SnapsStay(p: Pool, q: Pool)
    requires SameSnaps(p, q)
    ensures forall s :: Exists(p, s) <==> Exists(q, s)
  {
    forall s ensures Exists(p, s) <==> Exists(q, s) {
      if s.ds in p.vols { assert q.vols[s.ds].snaps == p.vols[s.ds].snaps; }
    }
  }

  method SnapshotCandidate(m: Manager, tag: string, masked: bool) returns (r: Result)
    requires m.Valid() && FreshTag(m.db.baselines, tag) && (m.faithful ==> !m.host.pool.vols[Base].dirty)
    modifies m.db`baselines, m.host`pool, m.host`failures
    ensures m.Valid()
    ensures r.Done? || r.Crashed? || r == Refused(BuildFailed)
    ensures !r.Done? ==> m.db.baselines == old(m.db.baselines)
    ensures r.Done? ==>
              && m.db.baselines == Registered(old(m.db.baselines), SnapRef(Base, tag), masked, false, m.clock)
              && CurrentOf(m.db.baselines, m.cfg.default) == CurrentOf(old(m.db.baselines), m.cfg.default)
              && Exists(m.host.pool, SnapRef(Base, tag)) && (m.faithful ==> At(m.host.pool, SnapRef(Base, tag)).clean)
    ensures forall s :: Exists(old(m.host.pool), s) ==> Exists(m.host.pool, s)
    ensures m.host.pool.procs == old(m.host.pool).procs
    ensures m.host.quiet ==> r == if old(Exists(m.host.pool, SnapRef(Base, tag))) then Refused(BuildFailed) else Done
  {
    hide Inv, Clean, StraysAre;
    m.BaseIsThere();
    var c := m.SnapshotBase(tag);
    if c.Died? { return Crashed; }
    if c.Failed? { return Refused(BuildFailed); }
    CandidateIsOk(m, SnapRef(Base, tag));
    BaseSnapshotIsClean(m, tag);
    m.Register(SnapRef(Base, tag), masked, false);
    r := Done;
  }

  lemma BaseSnapshotIsClean(m: Manager, tag: string)
    requires m.Valid() && Exists(m.host.pool, SnapRef(Base, tag))
    ensures m.faithful ==> At(m.host.pool, SnapRef(Base, tag)).clean
  {
    if m.faithful { assert SnapsClean(m.host.pool.vols[Base]); }
  }

  /** runRefresh: the policy is applied only after the candidate has been built and validated, so a refused
      candidate stays registered. */
  method RunRefresh(m: Manager, tag: string, masked: bool, skipValidate: bool) returns (r: Result)
    requires m.Valid() && m.Up() && FreshTag(m.db.baselines, tag)
    modifies m.db`baselines, m.host`pool, m.host`failures, m.host`hooks, m.host`wrote, m`strays
    ensures m.Valid() && m.strays == old(m.strays) && FlagsKept(old(m.db.baselines), m.db.baselines)
    ensures PolicyOk(m.cfg, old(m.db.baselines)) ==> PolicyOk(m.cfg, m.db.baselines)
    ensures r.Done? ==> (m.cfg.requireMasked ==> masked) && (m.cfg.requireValidated ==> !skipValidate)
    ensures r.Done? ==>
              forall t :: t in m.db.baselines ==> (m.db.baselines[t].current <==> t == SnapRef(Base, tag))
    ensures !r.Done? ==>
              && CurrentOf(m.db.baselines, m.cfg.default) == CurrentOf(old(m.db.baselines), m.cfg.default)
              && m.db.baselines.Keys <= old(m.db.baselines).Keys + {SnapRef(Base, tag)}
    ensures r.Done? ==>
              && Published(m.cfg, m.db.baselines, SnapRef(Base, tag))
              && m.db.baselines.Keys == old(m.db.baselines).Keys + {SnapRef(Base, tag)}
              && m.db.baselines[SnapRef(Base, tag)].masked == masked
              && m.db.baselines[SnapRef(Base, tag)].validated == !skipValidate
    ensures !r.Done? ==>
              || m.db.baselines == old(m.db.baselines)
              || Candidate(old(m.db.baselines), m.db.baselines, SnapRef(Base, tag), masked, m.cfg.default)
    ensures Barred(m.cfg, masked, skipValidate) ==> !r.Done?
    ensures r.Refused? ==> r.why in {BuildFailed, ValidationFailed, Precondition}
    ensures r.Done? || r.Refused? || r.Crashed?
    ensures r == Refused(BuildFailed) ==> m.db.baselines == old(m.db.baselines)
    ensures r in {Refused(ValidationFailed), Refused(Precondition)} ==>
              && Candidate(old(m.db.baselines), m.db.baselines, SnapRef(Base, tag), masked, m.cfg.default)
              && (if r.why == Precondition then Barred(m.cfg, masked, skipValidate) else !skipValidate)
    ensures SameUnits(old(m.host.pool), m.host.pool, {REFRESH_UNIT, VALIDATE_NAME})
    // without failures: exactly this
    ensures m.host.quiet ==>
              r == if old(Exists(m.host.pool, SnapRef(Base, tag))) then Refused(BuildFailed)
                   else if !skipValidate && !m.RoomToRun() then Refused(ValidationFailed)
                   else if Barred(m.cfg, masked, skipValidate) then Refused(Precondition)
                   else Done
    ensures forall s :: Exists(old(m.host.pool), s) && s in old(m.db.baselines) ==> Exists(m.host.pool, s)
  {
    hide Inv, Clean, StraysAre, ActiveRows, HasTag, AllSettled, PolicyOk, FlagsKept, Published, Registered, CurrentOf;
    ghost var bs := m.db.baselines;
    FlagsKeptRefl(bs);
    RegisteredKeepsPolicy(m.cfg, bs, SnapRef(Base, tag), masked, false, m.clock);
    r := BuildCandidate(m, tag, masked);
    if !r.Done? { return; }
    ghost var cs, q := m.db.baselines, m.host.pool;
    r := ValidateAndPublish(m, SnapRef(Base, tag), masked, skipValidate);
    FlagsKeptTwice(bs, cs, m.db.baselines);
    LocalUnits(q, m.host.pool, VALIDATE_NAME);
    if r.Done? { PublishedIs(m.cfg, m.db.baselines, SnapRef(Base, tag)); }
  }
}
