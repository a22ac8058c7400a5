/** recreateFrom: the rename, clone and swap sequence behind Recreate and a retried Create. */
module Rebuild {
  import opened Names
  import opened Pool
  import opened Store
  import opened Host
  import opened Invariant
  import opened Classify
  import opened Manager
  import opened Lifecycle

  /** The volume that was the branch's own in `p` is still its own, or set aside under the stash name. */
  ghost predicate OldKept(p: Pool, q: Pool, name: string) {
    || BonesAt(q, Branch(name)) == BonesAt(p, Branch(name))
    || (Branch(name) !in q.vols && BonesAt(q, Branch(StashName(name))) == BonesAt(p, Branch(name)))
  }

  /** The volume that was stashed in `p` still is, or has been put back. */
  ghost predicate StashKept(p: Pool, q: Pool, name: string) {
    || BonesAt(q, Branch(StashName(name))) == BonesAt(p, Branch(StashName(name)))
    || BonesAt(q, Branch(name)) == BonesAt(p, Branch(StashName(name)))
  }

  /** The volume under the branch's name, if there is one, is the one it had or a new clone of `origin`. */
  ghost predicate OldOrNew(p: Pool, q: Pool, name: string, origin: SnapRef) {
    Branch(name) in q.vols ==>
      || BonesAt(q, Branch(name)) == BonesAt(p, Branch(name))
      || NewClone(p, q, name, origin)
  }

  ghost predicate NewClone(p: Pool, q: Pool, name: string, origin: SnapRef) {
    CloneOf(q, Branch(name), origin) && q.vols[Branch(name)].guid >= p.next
  }

  /** The row names the origin it named, or `origin` once the volume is a clone of that. */
  ghost predicate Named(row: Row, row': Row, q: Pool, name: string, origin: SnapRef) {
    row'.origin == row.origin || (row'.origin == origin && CloneOf(q, Branch(name), origin))
  }

  // ---- setting the old volume aside ----

  /** Kill the old engine and clear a stale stash away, as far as that works. */
  method MakeWay(m: Manager, name: string, hasOld: bool, fromError: bool) returns (r: Reply)
    requires m.Valid() && name in m.db.rows && m.db.rows[name].state == Resetting && PlainName(name)
    modifies m.host`pool, m.host`failures, m`strays
    ensures m.Valid() && Local(old(m.host.pool), m.host.pool, name) && m.strays == old(m.strays)
    ensures SameVolume(old(m.host.pool), m.host.pool, Branch(name))
    ensures !fromError ==> SameVolume(old(m.host.pool), m.host.pool, Branch(StashName(name)))
    ensures m.host.failures >= old(m.host.failures) && m.host.pool.next == old(m.host.pool).next
    ensures m.host.quiet ==> !r.Died? && (hasOld ==> name !in m.host.pool.procs)
    ensures m.host.quiet && fromError ==> Branch(StashName(name)) !in m.host.pool.vols
  {
    hide Inv, Clean, StraysAre;
    r := Ok;
    if hasOld {
      r := m.KillOwn(name);
      if r.Died? { return; }
    }
    if fromError {
      var stale := m.host.Resolve(StashName(name));
      if stale { r := m.DropStash(name); }
    }
  }

  /** Make way and set the old volume aside. */
  method SetAside(m: Manager, name: string, op: Op, fromError: bool) returns (r: Result, hasOld: bool)
    requires m.Valid() && name in m.db.rows && m.db.rows[name].state == Resetting && op != WakeOp
    requires PlainName(name) && NoBaselineOn(m.db.baselines, name)
    modifies m.db`rows, m.host`pool, m.host`failures, m`strays
    ensures m.Valid() && Local(old(m.host.pool), m.host.pool, name) && SameBut(old(m.strays), m.strays, name)
    ensures m.host.failures >= old(m.host.failures) && m.host.pool.next == old(m.host.pool).next
    ensures hasOld <==> Branch(name) in old(m.host.pool).vols
    ensures r.Done? || r == FailedAt(StashStage) || r.Crashed?
    ensures !r.FailedAt? ==> m.db.rows == old(m.db.rows)
    ensures OthersKept(old(m.db.rows), m.db.rows, name) && name in m.db.rows
    ensures r.FailedAt? ==> m.db.rows[name] == WithError(old(m.db.rows)[name], op, true, m.clock)
    ensures r.Done? ==> Branch(name) !in m.host.pool.vols
    ensures if hasOld then OldKept(old(m.host.pool), m.host.pool, name) else Branch(name) !in m.host.pool.vols
    ensures m.host.quiet && fromError && !hasOld ==> Branch(StashName(name)) !in m.host.pool.vols
    ensures m.host.quiet ==> (r.Done? <==> !hasOld || fromError || Branch(StashName(name)) !in old(m.host.pool).vols)
    ensures m.host.quiet ==> !r.Crashed?
  {
    hide Inv, Clean, StraysAre;
    hasOld := m.host.Resolve(name);
    var way := MakeWay(m, name, hasOld, fromError);
    if way.Died? { r := Crashed; return; }
    if hasOld {
      var c := m.Stash(name);
      if c.Died? { r := Crashed; return; }
      if c.Failed? { r := m.FailOp(name, op, StashStage); return; }
    }
    r := Done;
  }

  // ---- the new clone ----

  /** The own volume is a new clone of `origin`, or the stashed one put back. */
  ghost predicate NewOrBack(p: Pool, q: Pool, name: string, origin: SnapRef, hasOld: bool) {
    Branch(name) in q.vols ==>
      || NewClone(p, q, name, origin)
      || (hasOld && BonesAt(q, Branch(name)) == BonesAt(p, Branch(StashName(name))))
  }

  /** Rename the stash back and start the engine on it, as far as that works. */
  method PutBack(m: Manager, name: string) returns (c: Reply)
    requires m.Valid() && name in m.db.rows && m.db.rows[name].state == Resetting && PlainName(name)
    modifies m.host`pool, m.host`failures, m`strays
    ensures m.Valid() && Local(old(m.host.pool), m.host.pool, name) && SameBut(old(m.strays), m.strays, name)
    ensures if Branch(name) in old(m.host.pool).vols then
              && SameBones(old(m.host.pool), m.host.pool, Branch(name))
              && SameBones(old(m.host.pool), m.host.pool, Branch(StashName(name)))
            else
              || (Branch(name) !in m.host.pool.vols &&
                SameBones(old(m.host.pool), m.host.pool, Branch(StashName(name))))
              || (Branch(name) in m.host.pool.vols &&
                  BonesAt(m.host.pool, Branch(name)) == BonesAt(old(m.host.pool), Branch(StashName(name))))
    ensures Branch(name) in m.host.pool.vols || m.host.failures > old(m.host.failures)
    ensures m.host.quiet ==> !c.Died?
  {
    hide Inv, Clean, StraysAre;
    c := m.Unstash(name);
    if c.Ok? { c := m.StartOwn(name); }
  }

  /** Clone; if that fails, put the old volume back and start it again. */
  method CloneOrRestore(m: Manager, name: string, op: Op, origin: SnapRef, hasOld: bool) returns (r: Result)
    requires m.Valid() && name in m.db.rows && m.db.rows[name].state == Resetting && op != WakeOp
    requires PlainName(name) && (origin.ds == Base || origin in m.db.baselines)
    requires Branch(name) !in m.host.pool.vols && origin.ds != Branch(name) && origin.ds != Branch(StashName(name))
    modifies m.db`rows, m.host`pool, m.host`failures, m`strays
    ensures m.Valid() && Local(old(m.host.pool), m.host.pool, name) && SameBut(old(m.strays), m.strays, name)
    ensures NewOrBack(old(m.host.pool), m.host.pool, name, origin, hasOld)
    // a second call has to fail before the branch is left without a volume
    ensures r.FailedAt? && hasOld && m.host.failures <= old(m.host.failures) + 1 ==> Branch(name) in m.host.pool.vols
    ensures r.Done? || r == FailedAt(CloneStage) || r.Crashed?
    ensures !r.FailedAt? ==> m.db.rows == old(m.db.rows)
    ensures OthersKept(old(m.db.rows), m.db.rows, name) && name in m.db.rows
    ensures r.FailedAt? ==> m.db.rows[name] == WithError(old(m.db.rows)[name], op, true, m.clock)
    ensures r.Done? ==> SameVolume(old(m.host.pool), m.host.pool, Branch(StashName(name)))
    ensures r.Done? ==> NewClone(old(m.host.pool), m.host.pool, name, origin) && Exists(old(m.host.pool), origin)
    ensures r.Done? ==> m.host.pool.vols[Branch(name)].snaps == []
    ensures r.Done? && m.faithful ==> !m.host.pool.vols[Branch(name)].dirty
    ensures StashKept(old(m.host.pool), m.host.pool, name)
    ensures m.host.quiet ==> (r.Done? <==> CanClone(old(m.host.pool), origin, Branch(name))) && !r.Crashed?
  {
    hide Inv, Clean, StraysAre, HasTag, WithError, IsReserved, HasSuffix;
    ghost var p := m.host.pool;
    StashNames(name, name);
    var c := m.CloneOwn(origin, name);
    if c.Died? { return Crashed; }
    if c.Ok? { return Done; }
    if hasOld {
      ghost var q := m.host.pool;
      c := PutBack(m, name);
      if Branch(name) in q.vols { StillCloneOf(q, m.host.pool, name, origin); }
      if c.Died? { return Crashed; }
    }
    r := m.FailOp(name, op, CloneStage);
  }

  /** Clone, quota, hook and graceful stop, @init, start. */
  method BuildNew(m: Manager, name: string, event: Script, op: Op, origin: SnapRef, hasOld: bool) returns (r: Result)
    requires m.Valid() && name in m.db.rows && m.db.rows[name].state == Resetting && op != WakeOp && !IsReserved(name)
    requires origin.ds == Base || origin in m.db.baselines
    requires Branch(name) !in m.host.pool.vols && origin.ds != Branch(name) && origin.ds != Branch(StashName(name))
    modifies m.db`rows, m.host`pool, m.host`failures, m.host`hooks, m.host`wrote, m`strays
    ensures m.Valid() && Local(old(m.host.pool), m.host.pool, name) && SameBut(old(m.strays), m.strays, name)
    ensures NewOrBack(old(m.host.pool), m.host.pool, name, origin, hasOld)
    ensures r == FailedAt(CloneStage) && hasOld && m.host.failures <= old(m.host.failures) + 1 ==>
              Branch(name) in m.host.pool.vols
    ensures r.Done? || r.FailedAt? || r.Crashed?
    ensures r.Done? ==> m.host.hooks == old(m.host.hooks) + Started(m.cfg, event, name)
    ensures r.Done? ==> Live(m.host.pool, name, Branch(name))
    ensures OthersKept(old(m.db.rows), m.db.rows, name) && name in m.db.rows
    ensures SameRequest(old(m.db.rows)[name], m.db.rows[name])
    ensures r.FailedAt? ==> ErrorRow(m.db.rows[name], op, r.stage) && r.stage != StashStage
    ensures r.FailedAt? && r.stage != CloneStage ==> NewClone(old(m.host.pool), m.host.pool, name, origin)
    ensures r.Crashed? ==> m.db.rows[name].state == Resetting
    ensures r.Done? ==> m.db.rows[name] == old(m.db.rows)[name].(initSnapshot := Some(SnapRef(Branch(name), INIT)))
    ensures r.Done? ==> NewClone(old(m.host.pool), m.host.pool, name, origin)
    ensures r.Done? ==> Ready(m.host.pool, name, origin) && m.Dirt(name) && Exists(old(m.host.pool), origin)
    ensures r.Done? ==> SameBones(old(m.host.pool), m.host.pool, Branch(StashName(name)))
    ensures StashKept(old(m.host.pool), m.host.pool, name)
    ensures m.host.quiet ==> (r.Done? <==> CanClone(old(m.host.pool), origin, Branch(name))) && !r.Crashed?
  {
    hide Inv, Clean, StraysAre;
    r := CloneOrRestore(m, name, op, origin, hasOld);
    if !r.Done? { return; }
    ghost var p := m.host.pool;
    r := BuildOnClone(m, name, event, op);
    StaysCloneOf(p, m.host.pool, name, origin);
  }

  method BuildOnClone(m: Manager, name: string, event: Script, op: Op) returns (r: Result)
    requires m.Valid() && name in m.db.rows && m.db.rows[name].state == Resetting && op != WakeOp && !IsReserved(name)
    requires Branch(name) in m.host.pool.vols && (m.faithful ==> !m.host.pool.vols[Branch(name)].dirty)
    requires m.host.pool.vols[Branch(name)].snaps == []
    modifies m.db`rows, m.host`pool, m.host`failures, m.host`hooks, m.host`wrote
    ensures m.Valid() && Local(old(m.host.pool), m.host.pool, name)
    ensures SameBones(old(m.host.pool), m.host.pool, Branch(StashName(name)))
    ensures SameLine(old(m.host.pool), m.host.pool, Branch(name))
    ensures r.Done? || r.FailedAt? || r.Crashed?
    ensures r.Done? ==> m.host.hooks == old(m.host.hooks) + Started(m.cfg, event, name)
    ensures r.Done? ==> Live(m.host.pool, name, Branch(name))
    ensures OthersKept(old(m.db.rows), m.db.rows, name) && name in m.db.rows
    ensures SameRequest(old(m.db.rows)[name], m.db.rows[name])
    ensures r.FailedAt? ==> ErrorRow(m.db.rows[name], op, r.stage) && r.stage != StashStage && r.stage != CloneStage
    ensures r.Crashed? ==> m.db.rows[name].state == Resetting
    ensures r.Done? ==> m.db.rows[name] == old(m.db.rows)[name].(initSnapshot := Some(SnapRef(Branch(name), INIT)))
    ensures r.Done? ==> HasInit(m.host.pool, name) && m.Dirt(name)
    ensures m.host.quiet ==> r.Done?
  {
    hide Inv, Clean, StraysAre;
    var c := m.host.Probe();
    if c.Died? { return Crashed; }
    if c.Failed? { r := m.FailOp(name, op, QuotaStage); return; }
    r := Prepare(m, name, event, op, StopStage);
    if r.Done? { r := Finish(m, name, op); }
  }

  // ---- the swap ----

  /** Record the new origin, let the old volume go and run. */
  method Swap(m: Manager, name: string, origin: SnapRef, hasOld: bool) returns (r: Result)
    requires m.Valid() && name in m.db.rows && m.db.rows[name].state == Resetting && PlainName(name)
    requires origin.ds == Base || origin in m.db.baselines
    requires origin.ds != Branch(name) && origin.ds != Branch(StashName(name))
    requires Ready(m.host.pool, name, origin) && Exists(m.host.pool, origin) && m.Dirt(name)
    modifies m.db`rows, m.host`pool, m.host`failures, m.host`hooks, m.host`wrote, m`strays
    ensures m.Valid() && Local(old(m.host.pool), m.host.pool, name) && SameBut(old(m.strays), m.strays, name)
    ensures SameBones(old(m.host.pool), m.host.pool, Branch(name)) && CloneOf(m.host.pool, Branch(name), origin)
    ensures r.Done? || r.Crashed?
    ensures r.Done? ==> m.host.hooks == old(m.host.hooks) + Started(m.cfg, OnReset, name)
    ensures old(Live(m.host.pool, name, Branch(name))) ==> Live(m.host.pool, name, Branch(name))
    ensures OthersKept(old(m.db.rows), m.db.rows, name) && name in m.db.rows
    ensures m.db.rows[name].port == old(m.db.rows)[name].port
    ensures HasInit(m.host.pool, name)
    ensures r.Crashed? ==> m.db.rows[name].state == Resetting && m.db.rows[name].origin == origin
    ensures r.Done? ==> m.db.rows[name] == WithState(old(m.db.rows)[name].(origin := origin), Running, m.clock)
    ensures m.host.quiet ==> r.Done?
    ensures m.host.quiet && hasOld ==> Branch(StashName(name)) !in m.host.pool.vols
    ensures !hasOld && Branch(StashName(name)) !in old(m.host.pool).vols ==>
              Branch(StashName(name)) !in m.host.pool.vols
  {
    hide Inv, Clean, StraysAre;
    m.Reoriginate(name, origin);
    ghost var p := m.host.pool;
    if hasOld {
      var c := m.DropStash(name);
      StillCloneOf(p, m.host.pool, name, origin);
      if c.Died? { return Crashed; }
    }
    p := m.host.pool;
    var c := m.RunHook(OnReset, name);
    StillCloneOf(p, m.host.pool, name, origin);
    if c.Died? { return Crashed; }
    m.MarkState(name, Running);
    r := Done;
  }

  lemma StillCloneOf(p: Pool, q: Pool, name: string, s: SnapRef)
    requires CloneOf(p, Branch(name), s) && Local(p, q, name) && SameBones(p, q, Branch(name))
    ensures s.ds != Branch(name) && s.ds != Branch(StashName(name)) ==> CloneOf(q, Branch(name), s)
  {
    var rest := {Branch(name), Branch(StashName(name))};
    if s.ds !in rest {
      assert (p.vols - rest)[s.ds] == (q.vols - rest)[s.ds];
    }
  }

  // ---- the whole sequence ----

  /** The volume that was the branch's own in `p` is not gone: it is still there under one of its two names. */
  ghost predicate Survives(p: Pool, q: Pool, name: string) {
    BonesAt(p, Branch(name)) in {BonesAt(q, Branch(name)), BonesAt(q, Branch(StashName(name)))}
  }

  /** A registered baseline to clone from lives neither on the branch nor on its stash. */
  lemma OriginElsewhere(m: Manager, name: string, origin: SnapRef)
    requires m.Valid() && name in m.db.rows && NoBaselineOn(m.db.baselines, name)
    requires origin.ds == Base || origin in m.db.baselines
    ensures origin.ds != Branch(name) && origin.ds != Branch(StashName(name))
    ensures !IsReserved(name) && PlainName(name)
  {
    assert RowOk(name, m.db.rows[name], m.db.baselines, m.host.pool, m.lost);
    StashNames(name, name);
    NoBaselineOnReserved(m.db.rows, m.db.baselines, m.host.pool, m.cfg.default, m.lost, StashName(name));
  }

  lemma ExistsElsewhere(p: Pool, q: Pool, name: string, s: SnapRef)
    requires Local(p, q, name) && s.ds != Branch(name) && s.ds != Branch(StashName(name))
    ensures Exists(p, s) <==> Exists(q, s)
  {
    var rest := {Branch(name), Branch(StashName(name))};
    assert s.ds in p.vols <==> s.ds in p.vols - rest;
    assert s.ds in q.vols <==> s.ds in q.vols - rest;
    if s.ds in p.vols { assert (p.vols - rest)[s.ds] == (q.vols - rest)[s.ds]; }
  }

  /** What leaves the branch with the new volume built, or not. */
  ghost predicate BuiltAs(r: Result, row: Row, p: Pool, row': Row, q: Pool, name: string, origin: SnapRef, hasOld: bool,
                          op: Op, now: int) {
    && NewOrBack(p, q, name, origin, hasOld) && Named(row, row', q, name, origin)
    && (r.Done? ==> RunsOn(row, row', q, name, origin, now))
    && (r.FailedAt? ==>
          && ErrorRow(row', op, r.stage) && r.stage != StashStage && SameRequest(row, row')
          && (r.stage != CloneStage ==> NewClone(p, q, name, origin)))
    && (r.Crashed? ==> row'.state == Resetting)
    && (!r.Done? ==> StashKept(p, q, name) || (r.Crashed? && HasInit(q, name)))
  }

  /** The branch runs on a clone of `origin` that carries @init, and its row says so. */
  ghost predicate RunsOn(row: Row, row': Row, q: Pool, name: string, origin: SnapRef, now: int) {
    && row' == WithState(row, Running, now).(origin := origin, initSnapshot := Some(SnapRef(Branch(name), INIT)))
    && Live(q, name, Branch(name)) && Ready(q, name, origin)
  }

  /** With the own name free: the new volume, then the swap. */
  method BuildAndSwap(m: Manager, name: string, event: Script, op: Op, origin: SnapRef, hasOld: bool)
    returns (r: Result)
    requires m.Valid() && name in m.db.rows && m.db.rows[name].state == Resetting && op != WakeOp && !IsReserved(name)
    requires origin.ds == Base || origin in m.db.baselines
    requires origin.ds != Branch(name) && origin.ds != Branch(StashName(name)) && Branch(name) !in m.host.pool.vols
    modifies m.db`rows, m.host`pool, m.host`failures, m.host`hooks, m.host`wrote, m`strays
    ensures m.Valid() && Local(old(m.host.pool), m.host.pool, name) && SameBut(old(m.strays), m.strays, name)
    ensures r.Done? || r.FailedAt? || r.Crashed?
    ensures OthersKept(old(m.db.rows), m.db.rows, name) && name in m.db.rows
    ensures m.db.rows[name].port == old(m.db.rows)[name].port
    ensures BuiltAs(r, old(m.db.rows)[name], old(m.host.pool), m.db.rows[name], m.host.pool, name, origin, hasOld, op,
                    m.clock)
    ensures r.Done? ==> m.host.hooks == old(m.host.hooks) + Started(m.cfg, event, name) + Started(m.cfg, OnReset, name)
    ensures r == FailedAt(CloneStage) && hasOld && m.host.failures <= old(m.host.failures) + 1 ==>
              Branch(name) in m.host.pool.vols
    ensures m.host.quiet ==> (r.Done? <==> CanClone(old(m.host.pool), origin, Branch(name))) && !r.Crashed?
    ensures m.host.quiet && r.Done? && (hasOld || Branch(StashName(name)) !in old(m.host.pool).vols) ==>
              Branch(StashName(name)) !in m.host.pool.vols
  {
    hide Inv, Clean, StraysAre, HasTag, BuiltAs, NewOrBack, NewClone, StashKept;
    ghost var p, row := m.host.pool, m.db.rows[name];
    r := BuildNew(m, name, event, op, origin, hasOld);
    if !r.Done? {
      NotBuilt(r, row, p, m.db.rows[name], m.host.pool, name, origin, hasOld, op, m.clock);
      return;
    }
    ghost var q, rew := m.host.pool, m.db.rows[name];
    ExistsElsewhere(p, q, name, origin);
    r := Swap(m, name, origin, hasOld);
    SwappedIsBuilt(r, row, p, rew, q, m.db.rows[name], m.host.pool, name, origin, hasOld, op, m.clock);
  }

  lemma NotBuilt(r: Result, row: Row, p: Pool, row': Row, q: Pool, name: string, origin: SnapRef, hasOld: bool, op: Op,
                 now: int)
    requires NewOrBack(p, q, name, origin, hasOld) && StashKept(p, q, name) && SameRequest(row, row')
    requires (r.Crashed? && row'.state == Resetting) ||
             (r.FailedAt? && ErrorRow(row', op, r.stage) && r.stage != StashStage &&
              (r.stage != CloneStage ==> NewClone(p, q, name, origin)))
    ensures BuiltAs(r, row, p, row', q, name, origin, hasOld, op, now)
  {
  }

  lemma SwappedIsBuilt(r: Result, row: Row, p: Pool, rew: Row, q: Pool, row': Row, s: Pool, name: string,
                       origin: SnapRef, hasOld: bool, op: Op, now: int)
    requires NewClone(p, q, name, origin) && SameBones(q, s, Branch(name)) && CloneOf(s, Branch(name), origin)
             && HasInit(s, name)
    requires rew == row.(initSnapshot := Some(SnapRef(Branch(name), INIT))) && row'.origin == origin
    requires (r.Crashed? && row'.state == Resetting) ||
             (r.Done? && row' == WithState(rew.(origin := origin), Running, now) && Live(s, name, Branch(name)))
    ensures BuiltAs(r, row, p, row', s, name, origin, hasOld, op, now)
  {
    hide HasTag;
  }

  /** What recreateFrom leaves behind, by outcome. A refusal leaves everything as it was, and so may
      a crash; otherwise the old volume stays until the new one is a clone of `origin` with @init. */
  ghost predicate Rebuilt(r: Result, row: Row, p: Pool, row': Row, q: Pool, name: string, origin: SnapRef, op: Op,
                          now: int) {
    && (r.Refused? ==> r.why == LimitReached && row' == row && q == p)
    && (r.Done? ==> RunsOn(row, row', q, name, origin, now))
    && OldOrNew(p, q, name, origin) && Named(row, row', q, name, origin)
    && (r.FailedAt? ==>
          && ErrorRow(row', op, r.stage) && SameRequest(row, row')
          && (r.stage == StashStage && Branch(name) in q.vols ==> SameBones(p, q, Branch(name)))
          && (r.stage != StashStage && r.stage != CloneStage ==> NewClone(p, q, name, origin)))
    && (r.Crashed? ==>
          || (row' == row && q == p)
          || (row'.state == Resetting &&
              (HasInit(p, name) ==> HasInit(q, name) || Branch(StashName(name)) in q.vols)))
    && (!r.Done? && Branch(name) in p.vols ==> Survives(p, q, name) || (r.Crashed? && HasInit(q, name)))
  }

  lemma AsideIsRebuilt(r: Result, row: Row, p: Pool, row': Row, q: Pool, name: string, origin: SnapRef, hasOld: bool,
                       op: Op, now: int)
    requires row.state == Resetting && (hasOld <==> Branch(name) in p.vols)
    requires if hasOld then OldKept(p, q, name) else Branch(name) !in q.vols
    requires (r.Crashed? && row' == row) || (r == FailedAt(StashStage) && row' == WithError(row, op, true, now))
    ensures Rebuilt(r, row, p, row', q, name, origin, op, now)
  {
    if hasOld && HasInit(p, name) { SurvivorHasInit(p, q, name); }
  }

  lemma BuiltIsRebuilt(r: Result, row: Row, p: Pool, q: Pool, row': Row, s: Pool, name: string, origin: SnapRef,
                       hasOld: bool, op: Op, now: int)
    requires hasOld <==> Branch(name) in p.vols
    requires hasOld ==> OldKept(p, q, name)
    requires Branch(name) !in q.vols && q.next == p.next && (r.Done? || r.FailedAt? || r.Crashed?)
    requires BuiltAs(r, row, q, row', s, name, origin, hasOld, op, now)
    ensures Rebuilt(r, row, p, row', s, name, origin, op, now)
  {
    hide RunsOn, Named, SameRequest, ErrorRow, CloneOf, HasTag;
    if hasOld && !r.Done? && StashKept(q, s, name) && HasInit(p, name) { SurvivorHasInit(p, s, name); }
  }

  lemma SurvivorHasInit(p: Pool, q: Pool, name: string)
    requires Survives(p, q, name) && HasInit(p, name)
    ensures HasInit(q, name) || Branch(StashName(name)) in q.vols
  {
  }

  /** From the resetting row on. */
  method Replace(m: Manager, name: string, event: Script, origin: SnapRef, op: Op, fromError: bool) returns (r: Result)
    requires m.Valid() && name in m.db.rows && m.db.rows[name].state == Resetting && op != WakeOp
    requires NoBaselineOn(m.db.baselines, name) && (origin.ds == Base || origin in m.db.baselines)
    modifies m.db`rows, m.host`pool, m.host`failures, m.host`hooks, m.host`wrote, m`strays
    ensures m.Valid() && Local(old(m.host.pool), m.host.pool, name) && SameBut(old(m.strays), m.strays, name)
    ensures r.Done? || r.FailedAt? || r.Crashed?
    ensures OthersKept(old(m.db.rows), m.db.rows, name) && name in m.db.rows
    ensures m.db.rows[name].port == old(m.db.rows)[name].port
    ensures Rebuilt(r, old(m.db.rows)[name], old(m.host.pool), m.db.rows[name], m.host.pool, name, origin, op, m.clock)
    ensures r.Done? ==> m.host.hooks == old(m.host.hooks) + Started(m.cfg, event, name) + Started(m.cfg, OnReset, name)
    ensures r == FailedAt(CloneStage) && Branch(name) in old(m.host.pool).vols
            && m.host.failures <= old(m.host.failures) + 1 ==>
              Branch(name) in m.host.pool.vols
    ensures m.host.quiet ==>
              (r.Done? <==> Exists(old(m.host.pool), origin) &&
                            (fromError || Branch(name) !in old(m.host.pool).vols ||
                              Branch(StashName(name)) !in old(m.host.pool).vols))
    ensures m.host.quiet && r.Done? && (fromError || Branch(name) in old(m.host.pool).vols) ==>
              Branch(StashName(name)) !in m.host.pool.vols
    ensures m.host.quiet ==> !r.Crashed?
  {
    hide Inv, Clean, StraysAre, OldKept, BuiltAs, Rebuilt, NoBaselineOn, IsReserved, HasTag;
    OriginElsewhere(m, name, origin);
    ghost var p, row := m.host.pool, m.db.rows[name];
    var hasOld;
    r, hasOld := SetAside(m, name, op, fromError);
    ghost var q := m.host.pool;
    if !r.Done? {
      AsideIsRebuilt(r, row, p, m.db.rows[name], q, name, origin, hasOld, op, m.clock);
    } else {
      ExistsElsewhere(p, q, name, origin);
      r := BuildAndSwap(m, name, event, op, origin, hasOld);
      BuiltIsRebuilt(r, row, p, q, m.db.rows[name], m.host.pool, name, origin, hasOld, op, m.clock);
    }
  }

  /** The resetting state that Replace starts from is recreateFrom's own doing. */
  lemma RebuiltFromStart(r: Result, row: Row, p: Pool, row': Row, q: Pool, name: string, origin: SnapRef, op: Op,
                         now: int)
    requires Rebuilt(r, WithState(row, Resetting, now), p, row', q, name, origin, op, now) && !r.Refused?
    ensures Rebuilt(r, row, p, row', q, name, origin, op, now)
    ensures !r.Crashed? ==> Settled(row'.state)
  {
    hide CloneOf, HasTag, OldOrNew, NewClone, Survives, SameBones;
  }

  lemma UnfinishedIsNotUsable(r: Result, row: Row, p: Pool, row': Row, q: Pool, name: string, origin: SnapRef, op: Op,
                              now: int)
    requires Rebuilt(r, row, p, row', q, name, origin, op, now) && op != WakeOp && !r.Done?
    ensures Usable(row') ==> Usable(row)
  {
  }

  lemma NeverFallsAsleep(r: Result, row: Row, p: Pool, row': Row, q: Pool, name: string, origin: SnapRef, op: Op,
                         now: int)
    requires Rebuilt(r, row, p, row', q, name, origin, op, now) && row.state == Resetting
    requires r.Done? || r.FailedAt? || r.Crashed?
    ensures row'.state != Sleeping
  {
  }

  lemma RebuiltLines(r: Result, row: Row, p: Pool, row': Row, q: Pool, name: string, origin: SnapRef, op: Op, now: int)
    requires Rebuilt(r, row, p, row', q, name, origin, op, now)
    ensures OldOrNew(p, q, name, origin) && Named(row, row', q, name, origin)
    ensures r.Done? ==> Ready(q, name, row'.origin)
  {
  }

  /** Without failures: what it takes to succeed. */
  ghost predicate CanRebuild(p: Pool, row: Row, name: string, origin: SnapRef) {
    Exists(p, origin) &&
    (row.state == Error || Branch(name) !in p.vols || Branch(StashName(name)) !in p.vols)
  }

  /** A rebuild makes a row stray only by leaving a new clone of something else than the row names. */
  lemma RebuiltLineage(m: Manager, rows: Rows, p: Pool, strays: set<string>, name: string, origin: SnapRef)
    requires m.Valid() && name in rows && name in m.db.rows && StraysAre(rows, p, strays)
    requires NoBaselineOn(m.db.baselines, name) && Local(p, m.host.pool, name) && OldOrNew(p, m.host.pool, name, origin)
    requires origin.ds == Base || origin in m.db.baselines
    requires rows[name].origin.ds == Base || rows[name].origin in m.db.baselines
    requires Named(rows[name], m.db.rows[name], m.host.pool, name, origin)
    ensures Ready(m.host.pool, name, m.db.rows[name].origin) ==> name !in m.strays
    ensures name in m.strays && name !in strays ==> rows[name].origin != origin
  {
    hide Clean, RowOk, BaselineOk, CurrentOk, PortsDistinct, ProcsOk, ClonesOk, Local, GuidsOk;
    OriginElsewhere(m, name, rows[name].origin);
    var q, o := m.host.pool, rows[name].origin;
    if name in m.strays && name !in strays && BonesAt(q, Branch(name)) == BonesAt(p, Branch(name)) {
      CloneOfElsewhere(p, q, name, o);
    }
  }

  lemma CloneOfElsewhere(p: Pool, q: Pool, name: string, s: SnapRef)
    requires Local(p, q, name) && s.ds != Branch(name) && s.ds != Branch(StashName(name))
    requires Branch(name) in p.vols && Branch(name) in q.vols
             && q.vols[Branch(name)].origin == p.vols[Branch(name)].origin
    ensures CloneOf(p, Branch(name), s) <==> CloneOf(q, Branch(name), s)
  {
    var rest := {Branch(name), Branch(StashName(name))};
    assert s.ds in p.vols <==> s.ds in p.vols - rest;
    assert s.ds in q.vols <==> s.ds in q.vols - rest;
    if s.ds in p.vols { assert (p.vols - rest)[s.ds] == (q.vols - rest)[s.ds]; }
  }

  lemma SettledIsNotResetting(row: Row)
    requires Settled(row.state)
    ensures row.state != Resetting
  {
  }

  lemma UntouchedIsRebuilt(r: Result, row: Row, p: Pool, name: string, origin: SnapRef, op: Op, now: int)
    requires r == Crashed || r == Refused(LimitReached)
    ensures Rebuilt(r, row, p, row, p, name, origin, op, now)
  {
  }

  method RecreateFrom(m: Manager, name: string, event: Script, origin: SnapRef, op: Op) returns (r: Result)
    requires m.Valid() && name in m.db.rows && Settled(m.db.rows[name].state) && op != WakeOp
    requires NoBaselineOn(m.db.baselines, name) && (origin.ds == Base || origin in m.db.baselines)
    modifies m.db`rows, m.host`pool, m.host`failures, m.host`hooks, m.host`wrote, m`strays
    ensures m.Valid() && Local(old(m.host.pool), m.host.pool, name)
    ensures OthersKept(old(m.db.rows), m.db.rows, name) && name in m.db.rows
    ensures m.db.rows[name].port == old(m.db.rows)[name].port
    // the row names another lineage only if it did so before, or the new volume came up short of the swap
    ensures SameBut(old(m.strays), m.strays, name)
    ensures r.Done? ==> name !in m.strays
    ensures name in m.strays && name !in old(m.strays) ==> old(m.db.rows)[name].origin != origin
    ensures !r.Done? && Usable(m.db.rows[name]) ==> Usable(old(m.db.rows)[name]) && m.strays == old(m.strays)
    ensures Sleepwalks(m.db.rows, m.host.pool, name) ==> Sleepwalks(old(m.db.rows), old(m.host.pool), name)
    ensures !r.Crashed? ==> Settled(m.db.rows[name].state)
    ensures Rebuilt(r, old(m.db.rows)[name], old(m.host.pool), m.db.rows[name], m.host.pool, name, origin, op, m.clock)
    ensures r.Refused? ==> r.why == LimitReached && m.db.rows == old(m.db.rows) && m.host.pool == old(m.host.pool)
    ensures r.Refused? ==> m.strays == old(m.strays)
    ensures r.Done? ==> m.host.hooks == old(m.host.hooks) + Started(m.cfg, event, name) + Started(m.cfg, OnReset, name)
    ensures r.Done? || r.FailedAt? || (r.Crashed? && m.db.rows[name].state == Resetting) ==> old(m.RoomToRun())
    // one failing call never leaves the branch without a volume, except for a rename that took effect
    ensures r == FailedAt(CloneStage) && Branch(name) in old(m.host.pool).vols
            && m.host.failures <= old(m.host.failures) + 1 ==>
              Branch(name) in m.host.pool.vols
    ensures m.host.quiet ==>
              (r.Done? <==> old(m.RoomToRun()) && CanRebuild(old(m.host.pool), old(m.db.rows)[name], name, origin))
    ensures m.host.quiet ==> !r.Crashed?
    ensures m.host.quiet && r.Done?
            && (old(m.db.rows)[name].state == Error || Branch(name) in old(m.host.pool).vols) ==>
              Branch(StashName(name)) !in m.host.pool.vols
  {
    hide Inv, Clean, StraysAre, Ready, CloneOf, HasInit, ActiveRows, Rebuilt, OldOrNew, Named, Settled, RunsOn;
    var row := m.db.rows[name];
    ghost var rows, p, strays := m.db.rows, m.host.pool, m.strays;
    OriginIsSound(m, name);
    var c := m.Admit();
    if !c.Ok? {
      r := if c.Died? then Crashed else Refused(LimitReached);
      UntouchedIsRebuilt(r, row, p, name, origin, op, m.clock);
      SettledIsNotResetting(row);
      return;
    }
    m.MarkState(name, Resetting);
    r := Replace(m, name, event, origin, op, row.state == Error);
    NeverFallsAsleep(r, WithState(row, Resetting, m.clock), p, m.db.rows[name], m.host.pool, name, origin, op, m.clock);
    if !r.Done? {
      UnfinishedIsNotUsable(r, WithState(row, Resetting, m.clock), p, m.db.rows[name], m.host.pool, name, origin, op,
                            m.clock);
    }
    RebuiltFromStart(r, row, p, m.db.rows[name], m.host.pool, name, origin, op, m.clock);
    RebuiltLines(r, row, p, m.db.rows[name], m.host.pool, name, origin, op, m.clock);
    RebuiltLineage(m, rows, p, strays, name, origin);
  }
}
