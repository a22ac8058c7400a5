/** Whole runs: any sequence of operations, with any call failing, the daemon dying anywhere and
    starting again, clients writing, engines dying and time passing. */
module Runs {
  import opened Names
  import opened Pool
  import opened Store
  import opened Host
  import opened Invariant
  import opened Manager
  import opened Lifecycle
  import opened Rebuild
  import opened Requests
  import opened Reconcile
  import opened BaselineOps
  import opened Refresh
  import opened Reaper

  datatype Command =
    | CreateCmd(name: string, port: int, profile: string, baseline: Option<SnapRef>)
    | ResetCmd(name: string) | RecreateCmd(name: string) | RetryCmd(name: string)
    | WakeCmd(name: string) | SleepCmd(name: string) | DeleteCmd(name: string)
    | PromoteCmd(name: string, tag: string, masked: bool, skipValidate: bool)
    | BuildCmd(tag: string, masked: bool) | RefreshCmd(tag: string, masked: bool, skipValidate: bool)
    | ValidateCmd(s: SnapRef) | SetCmd(s: SnapRef)
    | DeleteBaselineCmd(s: SnapRef) | CollectCmd(keepLast: int, retention: int, dryRun: bool)
    | OrphansCmd | ReapCmd(use: string -> Use, pol: Policy)
    | WriteCmd(unit: string, data: int) | DeathCmd(unit: string) | TimeCmd(d: nat)

  /** The tag a command would register a baseline under. */
  function TagOf(c: Command): Option<string> {
    if c.PromoteCmd? || c.BuildCmd? || c.RefreshCmd? then Some(c.tag) else None
  }

  predicate TakesAway(c: Command) {
    c.DeleteBaselineCmd? || c.CollectCmd?
  }

  predicate Ambient(c: Command) {
    c.WriteCmd? || c.DeathCmd? || c.TimeCmd?
  }

  /** What every operation does to the baselines table: declarations stand, the policy holds of the
      current one, and only the command's own tag may be new. */
  ghost predicate TableKept(cfg: Config, bs: Baselines, cs: Baselines, c: Command) {
    && FlagsKept(bs, cs)
    && (PolicyOk(cfg, bs) ==> PolicyOk(cfg, cs))
    && (forall s :: s in cs ==> s in bs || TagOf(c) == Some(s.tag))
  }

  lemma TableSame(cfg: Config, bs: Baselines, c: Command)
    ensures TableKept(cfg, bs, bs, c)
  {
  }

  lemma TableFewer(cfg: Config, bs: Baselines, cs: Baselines, c: Command)
    requires FlagsKept(bs, cs) && (PolicyOk(cfg, bs) ==> PolicyOk(cfg, cs)) && cs.Keys <= bs.Keys
    ensures TableKept(cfg, bs, cs, c)
  {
    forall s | s in cs ensures s in bs { assert s in cs.Keys; }
  }

  lemma TableMore(cfg: Config, bs: Baselines, cs: Baselines, s: SnapRef, c: Command)
    requires FlagsKept(bs, cs) && (PolicyOk(cfg, bs) ==> PolicyOk(cfg, cs)) && cs.Keys <= bs.Keys + {s}
    requires TagOf(c) == Some(s.tag)
    ensures TableKept(cfg, bs, cs, c)
  {
    forall t | t in cs ensures t in bs || TagOf(c) == Some(t.tag) { assert t in cs.Keys; }
  }

  // ---- which rows name another lineage than their volume's ----

  /** The tables, the pool and the stray rows at one point of a run; `up`: the daemon serves requests. */
  datatype Moment = Moment(rows: Rows, bs: Baselines, pool: Pool, strays: set<string>, up: bool)

  ghost function Now(m: Manager, up: bool): Moment
    reads m, m.db, m.host
  {
    Moment(m.db.rows, m.db.baselines, m.host.pool, m.strays, up)
  }

  /** Where a row may come to name another lineage: a Create with a volume in its way that no row knows of, or a
      rebuild from a current baseline that is not the row's origin. */
  ghost predicate MaySlip(c: Command, n: string, s: Moment, default: SnapRef) {
    s.up &&
    match c
    case CreateCmd(name, _, _, _) => name == n && n !in s.rows && Branch(n) in s.pool.vols
    case RecreateCmd(name) => name == n && n in s.rows && s.rows[n].origin != CurrentOf(s.bs, default)
    case RetryCmd(name) =>
      name == n && n in s.rows && s.rows[n].failedOp == RecreateOp && s.rows[n].origin != CurrentOf(s.bs, default)
    case _ => false
  }

  /** Where a stray branch may come up: a reset, or a retried one, of its row in error. */
  predicate MayRise(c: Command, n: string, s: Moment) {
    s.up && n in s.strays && n in s.rows && s.rows[n].state == Error &&
    (c == ResetCmd(n) || (c == RetryCmd(n) && s.rows[n].failedOp == ResetOp))
  }

  /** A branch that can be used although its row names another lineage. */
  predicate UsableStray(n: string, s: Moment) {
    n in s.strays && n in s.rows && Usable(s.rows[n])
  }

  ghost predicate LineageStep(c: Command, s: Moment, t: Moment, default: SnapRef) {
    && (forall n :: n in t.strays && n !in s.strays ==> MaySlip(c, n, s, default))
    && (forall n :: UsableStray(n, t) && !UsableStray(n, s) ==> MayRise(c, n, s))
  }

  /** Where a sleeping row may come by a live process: a promotion of the branch, which starts it again whatever
      its state was, or a restart that finds the row running with its process, and whose probe fails. */
  predicate MayRouse(c: Command, n: string, s: Moment) {
    n in s.rows && !Ambient(c) &&
    if s.up then c.PromoteCmd? && c.name == n && s.rows[n].state == Sleeping
    else s.rows[n].state == Running && n in s.pool.procs
  }

  ghost predicate RouseStep(c: Command, s: Moment, t: Moment) {
    forall n :: Sleepwalks(t.rows, t.pool, n) && !Sleepwalks(s.rows, s.pool, n) ==> MayRouse(c, n, s)
  }

  lemma NoneRousedStep(c: Command, s: Moment, t: Moment)
    requires NoneRoused(s.rows, s.pool, t.rows, t.pool)
    ensures RouseStep(c, s, t)
  {
  }

  /** Units under other names than a row's have nothing to do with sleeping rows. */
  lemma UnitsRouse(c: Command, s: Moment, t: Moment, but: set<string>)
    requires t.rows == s.rows && SameUnits(s.pool, t.pool, but)
    requires forall n :: n in but && n in s.rows && s.rows[n].state == Sleeping ==> MayRouse(c, n, s)
    ensures RouseStep(c, s, t)
  {
  }

  lemma FewerRouse(c: Command, s: Moment, t: Moment)
    requires t.rows == s.rows && t.pool.procs.Keys <= s.pool.procs.Keys
    ensures RouseStep(c, s, t)
  {
  }

  lemma RestartRouses(c: Command, s: Moment, t: Moment)
    requires !s.up && !Ambient(c) && NoneStarted(s.rows, s.pool, t.rows, t.pool)
    ensures RouseStep(c, s, t)
  {
    forall n | Sleepwalks(t.rows, t.pool, n) && !Sleepwalks(s.rows, s.pool, n) ensures MayRouse(c, n, s) {
      assert Served(t.rows, t.pool, n);
    }
  }

  lemma NoNewStrays(c: Command, s: Moment, t: Moment, default: SnapRef)
    requires t.strays <= s.strays && NoneWoken(s.rows, t.rows)
    ensures LineageStep(c, s, t, default)
  {
  }

  lemma SameRowsAndStrays(c: Command, s: Moment, t: Moment, default: SnapRef)
    requires t.strays == s.strays && t.rows == s.rows
    ensures LineageStep(c, s, t, default)
  {
  }

  /** Work on one branch: only its own row matters. */
  lemma OneBranchStep(c: Command, s: Moment, t: Moment, default: SnapRef, name: string)
    requires OthersKept(s.rows, t.rows, name) && SameBut(s.strays, t.strays, name)
    requires name in t.strays && name !in s.strays ==> MaySlip(c, name, s, default)
    requires UsableStray(name, t) && !UsableStray(name, s) ==> MayRise(c, name, s)
    ensures LineageStep(c, s, t, default)
  {
    forall n | n != name ensures UsableStray(n, t) <==> UsableStray(n, s) {
      assert n in s.rows <==> n in s.rows - {name};
      assert n in t.rows <==> n in t.rows - {name};
      if n in s.rows { assert (s.rows - {name})[n] == (t.rows - {name})[n]; }
    }
  }

  /** Requests on branches. */
  method OnBranches(m: Manager, c: Command) returns (r: Result)
    requires m.Valid() && m.Up()
    requires c.CreateCmd? || c.ResetCmd? || c.RecreateCmd? || c.RetryCmd? || c.WakeCmd? || c.SleepCmd? || c.DeleteCmd?
    modifies m.db`rows, m.host`pool, m.host`failures, m.host`hooks, m.host`wrote, m`strays
    ensures m.Valid() && (!r.Crashed? ==> m.Up())
    ensures LineageStep(c, old(Now(m, true)), Now(m, !r.Crashed?), m.cfg.default)
    ensures RouseStep(c, old(Now(m, true)), Now(m, !r.Crashed?))
  {
    hide Inv, Clean, StraysAre, AllSettled, LineageStep, Local, CurrentOf, Untouchable, Rebuilt, Retried, SameClone,
      SameContents, RouseStep, NoneRoused, NoneStarted, Sleepwalks,
      Admitted, RefusedFor, Ready, HasInit, Exists;
    ghost var s := Now(m, true);
    var name := c.name;
    if name !in m.db.rows { m.OnlyRowsStray(name); } else { IsSettled(m, name); }
    match c {
      case CreateCmd(_, port, profile, baseline) => r := Create(m, name, port, profile, baseline);
      case ResetCmd(_) => r := Reset(m, name);
      case RecreateCmd(_) => r := Recreate(m, name);
      case RetryCmd(_) => r := Retry(m, name);
      case WakeCmd(_) => r := Wake(m, name);
      case SleepCmd(_) => r := Sleep(m, name);
      case DeleteCmd(_) => r := DeleteSettled(m, name);
    }
    OneBranchStep(c, s, Now(m, !r.Crashed?), m.cfg.default, name);
    OneNotStarted(s.rows, s.pool, m.db.rows, m.host.pool, name);
    NoneRousedStep(c, s, Now(m, !r.Crashed?));
  }

  method DeleteSettled(m: Manager, name: string) returns (r: Result)
    requires m.Valid() && m.Up()
    modifies m.db`rows, m.host`pool, m.host`failures, m.host`hooks, m.host`wrote, m`strays
    ensures m.Valid() && (!r.Crashed? ==> m.Up())
    ensures OthersKept(old(m.db.rows), m.db.rows, name) && SameBut(old(m.strays), m.strays, name)
            && m.strays <= old(m.strays)
    ensures name in m.db.rows && Usable(m.db.rows[name]) ==> name in old(m.db.rows) && Usable(old(m.db.rows)[name])
    ensures Sleepwalks(m.db.rows, m.host.pool, name) ==> Sleepwalks(old(m.db.rows), old(m.host.pool), name)
    ensures Local(old(m.host.pool), m.host.pool, name)
  {
    hide Inv, Clean, StraysAre, Local;
    ghost var rows := m.db.rows;
    r := Delete(m, name);
    if !r.Crashed? { SettledAgain(rows, m.db.rows, name); }
  }

  /** The units a request on baselines may start or stop. */
  function UnitsOfCommand(c: Command): set<string> {
    match c
    case PromoteCmd(name, _, _, _) => {name, VALIDATE_NAME}
    case BuildCmd(_, _) => {REFRESH_UNIT}
    case RefreshCmd(_, _, _) => {REFRESH_UNIT, VALIDATE_NAME}
    case ValidateCmd(_) => {VALIDATE_NAME}
    case _ => {}
  }

  /** Of these only a promoted branch is a row. */
  lemma PromotionRouses(m: Manager, c: Command, s: Moment, t: Moment)
    requires m.Valid() && s.rows == m.db.rows == t.rows && s.up && !Ambient(c)
    requires SameUnits(s.pool, t.pool, UnitsOfCommand(c))
    ensures RouseStep(c, s, t)
  {
    hide Inv, Clean, StraysAre, RouseStep, SameUnits;
    NoRowReserved(m);
    UnitsRouse(c, s, t, UnitsOfCommand(c));
  }

  /** Requests on baselines. */
  method OnBaselines(m: Manager, c: Command) returns (r: Result)
    requires m.Valid() && m.Up() && (TagOf(c).Some? ==> FreshTag(m.db.baselines, TagOf(c).value))
    requires c.PromoteCmd? || c.BuildCmd? || c.RefreshCmd? || c.ValidateCmd? || c.SetCmd?
    modifies m.db`baselines, m.host`pool, m.host`failures, m.host`hooks, m.host`wrote, m`strays
    ensures m.Valid() && TableKept(m.cfg, old(m.db.baselines), m.db.baselines, c) && m.strays == old(m.strays)
    ensures SameUnits(old(m.host.pool), m.host.pool, UnitsOfCommand(c))
  {
    hide Inv, Clean, StraysAre, FlagsKept, PolicyOk, TableKept, Registered, MadeCurrent, Local, CurrentOf, TakenOf,
      Exists, Published;
    ghost var bs := m.db.baselines;
    TableSame(m.cfg, bs, c);
    match c {
      case PromoteCmd(name, tag, masked, skip) =>
        r := PromoteBranch(m, name, tag, masked, skip);
        TableMore(m.cfg, bs, m.db.baselines, SnapRef(Branch(name), tag), c);
      case BuildCmd(tag, masked) =>
        RegisteredKeepsPolicy(m.cfg, bs, SnapRef(Base, tag), masked, false, m.clock);
        r := BuildCandidate(m, tag, masked);
        if r.Done? { TableMore(m.cfg, bs, m.db.baselines, SnapRef(Base, tag), c); }
      case RefreshCmd(tag, masked, skip) =>
        r := RunRefresh(m, tag, masked, skip);
        TableMore(m.cfg, bs, m.db.baselines, SnapRef(Base, tag), c);
      case ValidateCmd(s) =>
        r := ValidateBaseline(m, s);
        TableFewer(m.cfg, bs, m.db.baselines, c);
      case SetCmd(s) =>
        r := SetBaseline(m, s);
        TableFewer(m.cfg, bs, m.db.baselines, c);
    }
  }

  /** Deletions of baselines, orphan collection and the reaper. */
  method OnLeftovers(m: Manager, c: Command) returns (r: Result)
    requires m.Valid() && m.Up()
    requires c.DeleteBaselineCmd? || c.CollectCmd? || c.OrphansCmd? || c.ReapCmd?
    modifies m.db`rows, m.db`baselines, m.host`pool, m.host`failures, m.host`hooks, m.host`wrote, m`lost, m`strays
    ensures m.Valid() && (!r.Crashed? ==> m.Up()) && TableKept(m.cfg, old(m.db.baselines), m.db.baselines, c)
    ensures LineageStep(c, old(Now(m, true)), Now(m, !r.Crashed?), m.cfg.default)
    ensures RouseStep(c, old(Now(m, true)), Now(m, !r.Crashed?))
    ensures !r.Crashed? || !TakesAway(c) ==> m.lost == old(m.lost)
    ensures CutShort(old(m.lost), m.lost, m.db.rows, m.db.baselines, m.cfg.default)
    ensures c.DeleteBaselineCmd? ==> m.lost <= old(m.lost) + {c.s}
  {
    hide Inv, Clean, StraysAre, RouseStep, NoneRoused, FlagsKept, PolicyOk, TableKept, Local, CurrentOf, Exists,
      AllSettled, Collected, Let,
      Rid, Orphan,
      Reaped, Removable, VolumesSpared, LineageStep, NoneWoken;
    ghost var bs, s := m.db.baselines, Now(m, true);
    NoneWokenAtAll(s.rows);
    SameProcs(s.rows, s.pool);
    TableSame(m.cfg, bs, c);
    match c {
      case DeleteBaselineCmd(s) =>
        r := DeleteBaseline(m, s);
        TableFewer(m.cfg, bs, m.db.baselines, c);
      case CollectCmd(keepLast, retention, dryRun) =>
        var deleted, kept;
        ghost var list;
        r, deleted, kept, list := GCBaselines(m, keepLast, retention, dryRun);
        TableFewer(m.cfg, bs, m.db.baselines, c);
      case OrphansCmd =>
        var deleted;
        r, deleted := GCOrphans(m);
      case ReapCmd(use, pol) =>
        ghost var names, done;
        r, names, done := Reap(m, use, pol);
    }
    NoNewStrays(c, s, Now(m, !r.Crashed?), m.cfg.default);
    NoneRousedStep(c, s, Now(m, !r.Crashed?));
  }

  lemma SameProcs(rows: Rows, p: Pool)
    ensures forall q: Pool :: q.procs == p.procs ==> NoneRoused(rows, p, rows, q)
  {
  }

  lemma NoneWokenAtAll(rows: Rows)
    ensures NoneWoken(rows, rows)
  {
  }

  method OnItsOwn(m: Manager, c: Command)
    requires m.Valid() && Ambient(c)
    modifies m.host`pool, m.host`failures, m`clock, m`faithful
    ensures m.Valid() && (!c.DeathCmd? ==> m.faithful == old(m.faithful))
    ensures m.host.pool.procs.Keys <= old(m.host.pool).procs.Keys
  {
    hide Inv, Clean, StraysAre;
    match c {
      case WriteCmd(unit, data) => m.ClientWrites(unit, data);
      case DeathCmd(unit) => m.EngineDies(unit);
      case TimeCmd(d) => m.TimePasses(d);
    }
  }

  /** Any command of a daemon that is up. */
  method Execute(m: Manager, c: Command) returns (r: Result)
    requires m.Valid() && m.Up() && !Ambient(c)
    requires TagOf(c).Some? ==> FreshTag(m.db.baselines, TagOf(c).value)
    modifies m.db`rows, m.db`baselines, m.host`pool, m.host`failures, m.host`hooks, m.host`wrote, m`lost, m`strays
    ensures m.Valid() && (!r.Crashed? ==> m.Up())
    ensures TableKept(m.cfg, old(m.db.baselines), m.db.baselines, c)
    ensures LineageStep(c, old(Now(m, true)), Now(m, !r.Crashed?), m.cfg.default)
    ensures RouseStep(c, old(Now(m, true)), Now(m, !r.Crashed?))
    ensures !r.Crashed? || !TakesAway(c) ==> m.lost == old(m.lost)
    ensures CutShort(old(m.lost), m.lost, m.db.rows, m.db.baselines, m.cfg.default)
    ensures c.DeleteBaselineCmd? ==> m.lost <= old(m.lost) + {c.s}
  {
    hide Inv, Clean, StraysAre, AllSettled, TableKept, LineageStep, RouseStep, SameUnits;
    ghost var s := Now(m, true);
    if c.DeleteBaselineCmd? || c.CollectCmd? || c.OrphansCmd? || c.ReapCmd? {
      r := OnLeftovers(m, c);
    } else if c.PromoteCmd? || c.BuildCmd? || c.RefreshCmd? || c.ValidateCmd? || c.SetCmd? {
      r := OnBaselines(m, c);
      SameRowsAndStrays(c, s, Now(m, !r.Crashed?), m.cfg.default);
      PromotionRouses(m, c, s, Now(m, !r.Crashed?));
    } else {
      r := OnBranches(m, c);
      TableSame(m.cfg, m.db.baselines, c);
    }
  }

  /** Tags are taken once: a build or promotion never reuses the tag of an earlier one. */
  ghost predicate TagsFresh(bs: Baselines, cs: seq<Command>) {
    && (forall i, s :: 0 <= i < |cs| && TagOf(cs[i]).Some? && s in bs ==> TagOf(cs[i]) != Some(s.tag))
    && (forall i :: 0 <= i < |cs| ==> TagOf(cs[i]) != Some(INIT))
    && (forall i, j :: 0 <= i < j < |cs| && TagOf(cs[i]).Some? ==> TagOf(cs[i]) != TagOf(cs[j]))
  }

  /** Every baseline of `cs` was in `bs` or bears the tag of one of the first `i` commands, and keeps its
      declarations. */
  ghost predicate TableSoFar(cfg: Config, bs: Baselines, cs: Baselines, commands: seq<Command>, i: nat)
    requires i <= |commands|
  {
    && FlagsKept(bs, cs)
    && (PolicyOk(cfg, bs) ==> PolicyOk(cfg, cs))
    && (forall s :: s in cs ==> s in bs || exists k :: 0 <= k < i && TagOf(commands[k]) == Some(s.tag))
  }

  lemma TableStep(cfg: Config, bs: Baselines, cs: Baselines, ds: Baselines, commands: seq<Command>, i: nat)
    requires i < |commands| && TagsFresh(bs, commands)
    requires TableSoFar(cfg, bs, cs, commands, i) && TableKept(cfg, cs, ds, commands[i])
    ensures TableSoFar(cfg, bs, ds, commands, i + 1)
  {
    var tag := TagOf(commands[i]);
    forall s | s in bs && s in ds ensures s in cs {
      assert s in cs || tag == Some(s.tag);
    }
    FlagsKeptTwice(bs, cs, ds);
    forall s | s in ds ensures s in bs || exists k :: 0 <= k < i + 1 && TagOf(commands[k]) == Some(s.tag) {
      if s in cs {
      } else {
        assert TagOf(commands[i]) == Some(s.tag);
      }
    }
  }

  lemma StillFresh(cfg: Config, bs: Baselines, cs: Baselines, commands: seq<Command>, i: nat)
    requires i < |commands| && TagsFresh(bs, commands) && TableSoFar(cfg, bs, cs, commands, i)
    ensures TagOf(commands[i]).Some? ==> FreshTag(cs, TagOf(commands[i]).value)
  {
    if TagOf(commands[i]).Some? {
      forall s | s in cs ensures s.tag != TagOf(commands[i]).value {
        if s !in bs {
          var k :| 0 <= k < i && TagOf(commands[k]) == Some(s.tag);
        }
      }
    }
  }

  /** A deletion the daemon died in: which command, which baseline it cost, and the tables as they were. */
  datatype Cut = Cut(at: nat, s: SnapRef, rows: Rows, bs: Baselines)

  function Victims(cuts: seq<Cut>): set<SnapRef> {
    set c | c in cuts :: c.s
  }

  /** Every cut is the doing of a deletion, and took a baseline that was registered, not current and not in use. */
  ghost predicate CutsOk(cuts: seq<Cut>, commands: seq<Command>, default: SnapRef) {
    forall c :: c in cuts ==>
      && c.at < |commands| && TakesAway(commands[c.at])
      && (commands[c.at].DeleteBaselineCmd? ==> commands[c.at].s == c.s)
      && Removable(c.rows, c.bs, default, c.s)
  }

  lemma OneMoreCut(cuts: seq<Cut>, c: Cut, commands: seq<Command>, default: SnapRef)
    requires CutsOk(cuts, commands, default) && CutsOk([c], commands, default)
    ensures CutsOk(cuts + [c], commands, default) && Victims(cuts + [c]) == Victims(cuts) + {c.s}
  {
    assert c in [c];
    forall d ensures d in cuts + [c] <==> d in cuts || d == c {
      if d == c { assert (cuts + [c])[|cuts|] == c; }
      if d in cuts { var i :| 0 <= i < |cuts| && cuts[i] == d; assert (cuts + [c])[i] == d; }
    }
    forall s | s in Victims(cuts) + {c.s} ensures s in Victims(cuts + [c]) {
      if s == c.s { assert c in cuts + [c]; }
    }
  }

  /** Any run keeps the invariant. A daemon that is down is first started again, which may take
      several attempts; requests that come in meanwhile are lost. Baselines are lost one by one, to
      deletions the daemon died in, and to nothing else. */
  method Run(m: Manager, commands: seq<Command>) returns (ghost cuts: seq<Cut>, ghost trace: seq<Moment>)
    requires m.Valid() && m.Up() && TagsFresh(m.db.baselines, commands)
    modifies m, m.db, m.host`pool, m.host`failures, m.host`hooks, m.host`wrote
    ensures m.Valid()
    ensures TableSoFar(m.cfg, old(m.db.baselines), m.db.baselines, commands, |commands|)
    ensures m.lost == old(m.lost) + Victims(cuts) && CutsOk(cuts, commands, m.cfg.default)
    // a policy that holds at the start holds at the end
    ensures (forall s :: s in old(m.db.baselines) && old(m.db.baselines)[s].current ==>
               && (m.cfg.requireMasked ==> old(m.db.baselines)[s].masked)
               && (m.cfg.requireValidated ==> old(m.db.baselines)[s].validated)) ==>
              forall s :: s in m.db.baselines && m.db.baselines[s].current ==>
                && (m.cfg.requireMasked ==> m.db.baselines[s].masked)
                && (m.cfg.requireValidated ==> m.db.baselines[s].validated)
    // a cut deletion was of a baseline that was registered, that no row named, and that was not marked current
    ensures forall c :: c in cuts ==>
              && c.at < |commands| && (commands[c.at] == DeleteBaselineCmd(c.s) || commands[c.at].CollectCmd?)
              && c.s in c.bs && (forall n :: n in c.rows ==> c.rows[n].origin != c.s)
    ensures |trace| == |commands| + 1 && Lineage(trace, commands, |commands|, m.cfg.default)
    ensures trace[0] == old(Now(m, true)) && trace[|commands|].(up := true) == Now(m, true)
    ensures (forall c :: c in commands ==> !c.DeathCmd?) ==> m.faithful == old(m.faithful)
  {
    hide Inv, Clean, StraysAre, AllSettled, TableKept, TableSoFar, TagsFresh, FlagsKept, PolicyOk, Reconciled,
      FreshTag, Removable, CutsOk, Victims, LineageStep, RouseStep, Lineage, NoneWoken, NoneStarted, NoneRoused;
    ghost var bs := m.db.baselines;
    TableStart(m.cfg, bs, commands);
    NoCuts(commands, m.cfg.default);
    cuts := [];
    var up := true;
    trace := [Now(m, true)];
    LineageStart(trace, commands, m.cfg.default);
    for i := 0 to |commands|
      invariant m.Valid() && (up ==> m.Up())
      invariant TableSoFar(m.cfg, bs, m.db.baselines, commands, i)
      invariant m.lost == old(m.lost) + Victims(cuts) && CutsOk(cuts, commands, m.cfg.default)
      invariant |trace| == i + 1 && trace[0] == old(Now(m, true)) && trace[i] == Now(m, up)
      invariant Lineage(trace, commands, i, m.cfg.default)
      invariant (forall c :: c in commands ==> !c.DeathCmd?) ==> m.faithful == old(m.faithful)
    {
      var c := commands[i];
      ghost var cs, lost, s := m.db.baselines, m.lost, Now(m, up);
      StillFresh(m.cfg, bs, cs, commands, i);
      TableSame(m.cfg, cs, c);
      if Ambient(c) {
        OnItsOwn(m, c);
        SameRowsAndStrays(c, s, Now(m, up), m.cfg.default);
        FewerRouse(c, s, Now(m, up));
      } else if up {
        var r := Execute(m, c);
        up := !r.Crashed?;
        if m.lost != lost {
          ghost var s :| s !in lost && Removable(m.db.rows, m.db.baselines, m.cfg.default, s) && m.lost == lost + {s};
          ghost var cut := Cut(i, s, m.db.rows, m.db.baselines);
          CutIsOk(cut, commands, m.cfg.default);
          OneMoreCut(cuts, cut, commands, m.cfg.default);
          cuts := cuts + [cut];
        }
      } else {
        var r := Restart(m);
        up := !r.Crashed?;
        NoNewStrays(c, s, Now(m, up), m.cfg.default);
        RestartRouses(c, s, Now(m, up));
      }
      TableStep(m.cfg, bs, cs, m.db.baselines, commands, i);
      LineageMore(trace, Now(m, up), commands, i, m.cfg.default);
      trace := trace + [Now(m, up)];
    }
    if forall s :: s in bs && bs[s].current ==>
         (m.cfg.requireMasked ==> bs[s].masked) && (m.cfg.requireValidated ==> bs[s].validated) {
      PolicyStays(m.cfg, bs, m.db.baselines, commands);
    }
    CutsAre(cuts, commands, m.cfg.default);
  }

  lemma PolicyStays(cfg: Config, bs: Baselines, cs: Baselines, commands: seq<Command>)
    requires TableSoFar(cfg, bs, cs, commands, |commands|)
    requires forall s :: s in bs && bs[s].current ==>
               (cfg.requireMasked ==> bs[s].masked) && (cfg.requireValidated ==> bs[s].validated)
    ensures forall s :: s in cs && cs[s].current ==>
              (cfg.requireMasked ==> cs[s].masked) && (cfg.requireValidated ==> cs[s].validated)
  {
  }

  lemma CutsAre(cuts: seq<Cut>, commands: seq<Command>, default: SnapRef)
    requires CutsOk(cuts, commands, default)
    ensures forall c :: c in cuts ==>
              && c.at < |commands| && (commands[c.at] == DeleteBaselineCmd(c.s) || commands[c.at].CollectCmd?)
              && c.s in c.bs && (forall n :: n in c.rows ==> c.rows[n].origin != c.s)
  {
    hide CurrentOf;
  }

  // ---- how a row came to name another lineage ----

  ghost predicate Lineage(trace: seq<Moment>, commands: seq<Command>, n: nat, default: SnapRef) {
    n <= |commands| && n < |trace| && forall i :: 0 <= i < n ==>
        LineageStep(commands[i], trace[i], trace[i + 1], default) && RouseStep(commands[i], trace[i], trace[i + 1])
  }

  lemma LineageStart(trace: seq<Moment>, commands: seq<Command>, default: SnapRef)
    requires |trace| == 1
    ensures Lineage(trace, commands, 0, default)
  {
  }

  lemma LineageMore(trace: seq<Moment>, t: Moment, commands: seq<Command>, i: nat, default: SnapRef)
    requires i < |commands| && |trace| == i + 1 && Lineage(trace, commands, i, default)
    requires LineageStep(commands[i], trace[i], t, default) && RouseStep(commands[i], trace[i], t)
    ensures Lineage(trace + [t], commands, i + 1, default)
  {
  }

  /** The row has named another lineage since the `i`-th command, which was one that may do that. */
  ghost predicate SlippedAt(trace: seq<Moment>, commands: seq<Command>, i: nat, n: string, default: SnapRef) {
    && i < |commands| && i + 1 < |trace| && MaySlip(commands[i], n, trace[i], default)
    && n !in trace[i].strays && n in trace[i + 1].strays
  }

  /** Which commands these are, with what the daemon found. */
  lemma SlippedBy(trace: seq<Moment>, commands: seq<Command>, i: nat, n: string, default: SnapRef)
    requires SlippedAt(trace, commands, i, n, default)
    ensures i + 1 < |trace| && n !in trace[i].strays && n in trace[i + 1].strays && trace[i].up
    ensures var (c, s) := (commands[i], trace[i]);
            || (c.CreateCmd? && c.name == n && n !in s.rows && Branch(n) in s.pool.vols)
            || (n in s.rows && s.rows[n].origin != CurrentOf(s.bs, default) &&
                (c == RecreateCmd(n) || (c == RetryCmd(n) && s.rows[n].failedOp == RecreateOp)))
  {
  }

  ghost predicate RoseAt(trace: seq<Moment>, commands: seq<Command>, i: nat, n: string) {
    && i < |commands| && i + 1 < |trace| && MayRise(commands[i], n, trace[i])
    && !UsableStray(n, trace[i]) && UsableStray(n, trace[i + 1])
  }

  lemma RoseBy(trace: seq<Moment>, commands: seq<Command>, i: nat, n: string)
    requires RoseAt(trace, commands, i, n)
    ensures i + 1 < |trace| && n in trace[i].rows && n in trace[i + 1].rows && trace[i].up
    ensures n in trace[i].strays && trace[i].rows[n].state == Error && n in trace[i + 1].strays
    ensures trace[i + 1].rows[n].state in {Running, Sleeping} || trace[i + 1].rows[n].failedOp == WakeOp
    ensures commands[i] == ResetCmd(n) || (commands[i] == RetryCmd(n) && trace[i].rows[n].failedOp == ResetOp)
  {
  }

  /** Over any run: a row names another lineage than its volume's only if it did at the start, or since a Create
      over a volume without a row, or a Recreate, or its Retry, away from the row's origin that was not finished. */
  lemma {:induction false} StrayHistory(trace: seq<Moment>, commands: seq<Command>, k: nat, n: string, default: SnapRef)
    requires Lineage(trace, commands, |commands|, default) && k <= |commands| && n in trace[k].strays
    ensures n in trace[0].strays || exists i: nat :: i < k && SlippedAt(trace, commands, i, n, default)
    decreases k
  {
    if k > 0 {
      assert LineageStep(commands[k - 1], trace[k - 1], trace[k], default);
      if n in trace[k - 1].strays {
        StrayHistory(trace, commands, k - 1, n, default);
      } else {
        assert SlippedAt(trace, commands, k - 1, n, default);
      }
    }
  }

  /** And such a branch can be used only if it could at the start, or since a reset of its row in error, after the
      slip. */
  lemma {:induction false} UsableStrayHistory(trace: seq<Moment>, commands: seq<Command>, k: nat, n: string,
                                              default: SnapRef)
    requires Lineage(trace, commands, |commands|, default) && k <= |commands| && UsableStray(n, trace[k])
    ensures || UsableStray(n, trace[0])
            || exists i: nat :: i < k && RoseAt(trace, commands, i, n) &&
                           (n in trace[0].strays || exists j: nat :: j < i && SlippedAt(trace, commands, j, n, default))
    decreases k
  {
    if k > 0 {
      assert LineageStep(commands[k - 1], trace[k - 1], trace[k], default);
      if UsableStray(n, trace[k - 1]) {
        UsableStrayHistory(trace, commands, k - 1, n, default);
      } else {
        assert RoseAt(trace, commands, k - 1, n);
        StrayHistory(trace, commands, k - 1, n, default);
      }
    }
  }

  /** The sleeping row has had a live process since the `i`-th command, which was one that may do that. */
  ghost predicate RousedAt(trace: seq<Moment>, commands: seq<Command>, i: nat, n: string) {
    && i < |commands| && i + 1 < |trace| && MayRouse(commands[i], n, trace[i])
    && !Sleepwalks(trace[i].rows, trace[i].pool, n) && Sleepwalks(trace[i + 1].rows, trace[i + 1].pool, n)
  }

  lemma RousedBy(trace: seq<Moment>, commands: seq<Command>, i: nat, n: string)
    requires RousedAt(trace, commands, i, n)
    ensures i + 1 < |trace| && n in trace[i].rows && n in trace[i + 1].rows
    ensures trace[i + 1].rows[n].state == Sleeping && n in trace[i + 1].pool.procs
    ensures if trace[i].up then
              commands[i].PromoteCmd? && commands[i].name == n && trace[i].rows[n].state == Sleeping
                && n !in trace[i].pool.procs
            else trace[i].rows[n].state == Running && n in trace[i].pool.procs
  {
  }

  /** Over any run: a sleeping row has a live process only if it had one at the start, or without a break since a
      promotion of the branch, or since a restart whose probe failed. */
  lemma {:induction false} SleepwalkHistory(trace: seq<Moment>, commands: seq<Command>, k: nat, n: string,
                                            default: SnapRef)
    requires Lineage(trace, commands, |commands|, default) && k <= |commands|
    requires Sleepwalks(trace[k].rows, trace[k].pool, n)
    ensures || (forall j :: 0 <= j <= k ==> Sleepwalks(trace[j].rows, trace[j].pool, n))
            || exists i: nat :: i < k && RousedAt(trace, commands, i, n) &&
                           forall j :: i < j <= k ==> Sleepwalks(trace[j].rows, trace[j].pool, n)
    decreases k
  {
    if k > 0 {
      assert RouseStep(commands[k - 1], trace[k - 1], trace[k]);
      if Sleepwalks(trace[k - 1].rows, trace[k - 1].pool, n) {
        SleepwalkHistory(trace, commands, k - 1, n, default);
      } else {
        assert RousedAt(trace, commands, k - 1, n);
      }
    }
  }

  lemma NoCuts(commands: seq<Command>, default: SnapRef)
    ensures CutsOk([], commands, default) && Victims([]) == {}
  {
  }

  lemma CutIsOk(c: Cut, commands: seq<Command>, default: SnapRef)
    requires c.at < |commands| && TakesAway(commands[c.at])
    requires commands[c.at].DeleteBaselineCmd? ==> commands[c.at].s == c.s
    requires Removable(c.rows, c.bs, default, c.s)
    ensures CutsOk([c], commands, default)
  {
  }

  /** A run without deletions of baselines loses none. */
  lemma NothingToCut(cuts: seq<Cut>, commands: seq<Command>, default: SnapRef)
    requires CutsOk(cuts, commands, default) && forall c :: c in commands ==> !TakesAway(c)
    ensures Victims(cuts) == {}
  {
    if cuts != [] { assert cuts[0] in cuts; }
  }

  lemma TableStart(cfg: Config, bs: Baselines, commands: seq<Command>)
    ensures TableSoFar(cfg, bs, bs, commands, 0)
  {
  }

  // ---- what every reachable state promises ----

  /** A registered baseline is there exactly unless its own deletion was cut short; so is the origin of a branch. */
  lemma BaselinesAreThere(m: Manager)
    requires m.Valid()
    ensures forall s :: s in m.db.baselines ==> (Exists(m.host.pool, s) <==> s !in m.lost)
    ensures forall s :: s in m.lost ==> s in m.db.baselines
    ensures forall n :: n in m.db.rows && m.db.rows[n].origin !in m.lost ==> Exists(m.host.pool, m.db.rows[n].origin)
    ensures AtMostOneCurrent(m.db.baselines)
  {
    hide PoolOk;
    forall s | s in m.db.baselines ensures Exists(m.host.pool, s) <==> s !in m.lost {
      assert BaselineOk(s, m.db.rows, m.host.pool, m.lost);
    }
    forall n | n in m.db.rows && m.db.rows[n].origin !in m.lost ensures Exists(m.host.pool, m.db.rows[n].origin) {
      assert RowOk(n, m.db.rows[n], m.db.baselines, m.host.pool, m.lost);
    }
  }

  /** A running or sleeping branch, or one whose wake failed, has a volume with the @init that Reset rolls back to. */
  lemma UsableBranchesHaveInit(m: Manager, name: string)
    requires m.Valid() && name in m.db.rows
    requires m.db.rows[name].state in {Running, Sleeping}
             || (m.db.rows[name].state == Error && m.db.rows[name].failedOp == WakeOp)
    ensures HasInit(m.host.pool, name)
    ensures NoBaselineOn(m.db.baselines, name) ==> CanRollback(m.host.pool, SnapRef(Branch(name), INIT))
  {
    UsableIsReady(m, name);
    if NoBaselineOn(m.db.baselines, name) {
      NothingBlocksDestroy(m.db.rows, m.db.baselines, m.host.pool, m.cfg.default, m.lost, name);
    }
  }

  /** A branch's volume is a clone of the origin its row names, exactly unless the row is a stray. */
  lemma VolumesAreNamed(m: Manager, name: string)
    requires m.Valid() && name in m.db.rows && Branch(name) in m.host.pool.vols
    ensures CloneOf(m.host.pool, Branch(name), m.db.rows[name].origin) <==> name !in m.strays
  {
    hide Inv, Clean;
  }

  /** As long as engines stop only through Stop and Kill, every snapshot ever kept was taken of a stopped, clean
      datadir. */
  lemma SnapshotsAreClean(m: Manager, s: SnapRef)
    requires m.Valid() && m.faithful && Exists(m.host.pool, s)
    ensures At(m.host.pool, s).clean
  {
    assert SnapsClean(m.host.pool.vols[s.ds]);
  }

  lemma PortsAreDistinct(m: Manager, a: string, b: string)
    requires m.Valid() && a in m.db.rows && b in m.db.rows && a != b
    ensures m.db.rows[a].port != m.db.rows[b].port && !IsReserved(a)
  {
    hide PoolOk, CurrentOk;
    assert RowOk(a, m.db.rows[a], m.db.baselines, m.host.pool, m.lost);
  }
}
