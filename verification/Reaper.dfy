/** One pass of the reaper over leases, old errors and idle branches. */
module Reaper {
  import opened Names
  import opened Pool
  import opened Store
  import opened Host
  import opened Invariant
  import opened Manager
  import opened Lifecycle
  import opened Requests
  import opened Reconcile
  import opened Rebuild

  /** Zero switches a rule off. The idle rules come from the branch's profile. */
  datatype Policy = Policy(errorRetention: int, idleStop: string -> int, idleDelete: string -> int)

  /** Connections as the proxy and the poll count them, and as the engine counts them when asked;
      None: the engine did not answer. */
  datatype Use = Use(open: nat, recheck: Option<nat>)

  datatype Verdict = Keep | Stop | Remove | Stamp | Touch

  function Activity(row: Row): int {
    if row.lastConnAt.Some? && row.lastConnAt.value > row.createdAt then row.lastConnAt.value else row.createdAt
  }

  predicate LeaseOver(row: Row, now: int) {
    row.expiresAt.Some? && now > row.expiresAt.value && Settled(row.state)
  }

  predicate IdleSince(row: Row, limit: int, now: int) {
    limit > 0 && now - Activity(row) >= limit
  }

  predicate DeleteDue(row: Row, pol: Policy, now: int) {
    IdleSince(row, pol.idleDelete(row.profile), now) && (row.state == Running || row.state == Sleeping)
  }

  predicate StopDue(row: Row, pol: Policy, now: int) {
    IdleSince(row, pol.idleStop(row.profile), now) && row.state == Running
  }

  /** What the pass does about one row, in the order it asks its questions. */
  function Decide(row: Row, backs: bool, use: Use, pol: Policy, now: int): Verdict {
    if LeaseOver(row, now) then
      if backs then (if row.state == Running then Stop else Keep) else Remove
    else if row.state == Error then
      if pol.errorRetention <= 0 then Keep
      else if row.errorAt.None? then Stamp
      else if now - row.errorAt.value < pol.errorRetention || backs then Keep
      else Remove
    else if !DeleteDue(row, pol, now) && !StopDue(row, pol, now) then Keep
    else if use.open > 0 then Keep
    else if row.state == Running && use.recheck.None? then Keep
    else if row.state == Running && use.recheck.value > 0 then Touch
    else if DeleteDue(row, pol, now) then
      if backs then (if row.state == Running then Stop else Keep) else Remove
    else Stop
  }

  // ---- the same in terms of the row's own fields ----

  /** The lease has lapsed. */
  ghost predicate Lapsed(row: Row, now: int) {
    row.expiresAt.Some? && row.expiresAt.value < now && row.state in {Running, Sleeping, Error}
  }

  /** Neither created nor last used within the limit; a limit of zero or less never ends. */
  ghost predicate Quiet(row: Row, limit: int, now: int) {
    limit > 0 && row.createdAt + limit <= now && (row.lastConnAt.Some? ==> row.lastConnAt.value + limit <= now)
  }

  /** Neither counter nor, for a running engine, the engine itself knows of a connection. */
  ghost predicate NobodyOn(row: Row, use: Use) {
    use.open == 0 && (row.state == Running ==> use.recheck.Some? && use.recheck.value == 0)
  }

  /** An expired lease even in use, an error past its retention, an idle branch out of use - and none that holds a
      registered baseline. */
  ghost predicate Goes(row: Row, backs: bool, use: Use, pol: Policy, now: int) {
    && !backs
    && (|| Lapsed(row, now)
        || (row.state == Error && pol.errorRetention > 0 && row.errorAt.Some? &&
            row.errorAt.value + pol.errorRetention <= now)
        || (row.state in {Running, Sleeping} && Quiet(row, pol.idleDelete(row.profile), now) && NobodyOn(row, use)))
  }

  /** The rules select exactly these for deletion. */
  lemma RemovedExactly(row: Row, backs: bool, use: Use, pol: Policy, now: int)
    ensures Decide(row, backs, use, pol, now) == Remove <==> Goes(row, backs, use, pol, now)
  {
  }

  /** A running branch whose deletion its baselines rule out, or that the idle rule applies to. */
  ghost predicate Halts(row: Row, backs: bool, use: Use, pol: Policy, now: int) {
    && row.state == Running
    && (if Lapsed(row, now) then backs
        else
          && NobodyOn(row, use)
          && (if Quiet(row, pol.idleDelete(row.profile), now) then backs
              else Quiet(row, pol.idleStop(row.profile), now)))
  }

  /** And exactly these for a stop. */
  lemma StoppedExactly(row: Row, backs: bool, use: Use, pol: Policy, now: int)
    ensures Decide(row, backs, use, pol, now) == Stop <==> Halts(row, backs, use, pol, now)
  {
  }

  /** The remaining two verdicts change a time in the row: a missing error time is set, and a running branch that an
      idle rule applies to counts as used when its engine knows of a connection the counters do not. */
  lemma TouchedExactly(row: Row, backs: bool, use: Use, pol: Policy, now: int)
    ensures Decide(row, backs, use, pol, now) == Stamp <==>
            !Lapsed(row, now) && row.state == Error && pol.errorRetention > 0 && row.errorAt.None?
    ensures Decide(row, backs, use, pol, now) == Touch <==>
            && !Lapsed(row, now) && row.state == Running
            && (Quiet(row, pol.idleDelete(row.profile), now) || Quiet(row, pol.idleStop(row.profile), now))
            && use.open == 0 && use.recheck.Some? && use.recheck.value > 0
  {
  }

  /** What a pass without failures makes of a row that it keeps. */
  ghost predicate KeptAs(row: Row, row': Row, backs: bool, use: Use, pol: Policy, now: int) {
    if Halts(row, backs, use, pol, now) then
      row' == row.(state := Sleeping, failedOp := NoOp, recoverable := false, errorAt := None)
    else if Lapsed(row, now) then row' == row
    else if row.state == Error && pol.errorRetention > 0 && row.errorAt.None? then row' == row.(errorAt := Some(now))
    else if row.state == Running
            && (Quiet(row, pol.idleDelete(row.profile), now) || Quiet(row, pol.idleStop(row.profile), now))
            && use.open == 0 && use.recheck.Some? && use.recheck.value > 0 then row' == row.(lastConnAt := Some(now))
    else row' == row
  }

  /** A longer lease never brings a deletion forward. */
  lemma LongerLeaseSpares(row: Row, until: Option<int>, backs: bool, use: Use, pol: Policy, now: int)
    requires row.expiresAt.Some? && (until.None? || until.value >= row.expiresAt.value)
    requires Decide(row.(expiresAt := until), backs, use, pol, now) == Remove
    ensures Decide(row, backs, use, pol, now) == Remove
  {
    RemovedExactly(row, backs, use, pol, now);
    RemovedExactly(row.(expiresAt := until), backs, use, pol, now);
  }

  /** A lease that has lapsed stays lapsed: whatever the use and the rules, a branch without baselines goes. */
  lemma LapsedForGood(row: Row, use: Use, pol: Policy, use': Use, pol': Policy, now: int, later: int)
    requires row.expiresAt.Some? && row.expiresAt.value < now <= later && row.state in {Running, Sleeping, Error}
    ensures Decide(row, false, use, pol, now) == Decide(row, false, use', pol', later) == Remove
  {
    RemovedExactly(row, false, use, pol, now);
    RemovedExactly(row, false, use', pol', later);
  }

  /** A row under some operation is left alone whatever its lease says. */
  lemma TransitionsAreKept(row: Row, backs: bool, use: Use, pol: Policy, now: int)
    requires row.state in {Creating, Resetting, Deleting}
    ensures Decide(row, backs, use, pol, now) == Keep
  {
  }

  /** The row after a verdict has been carried out; None when it is deleted. */
  function Carried(v: Verdict, row: Row, now: int): Option<Row> {
    match v
    case Keep => Some(row)
    case Stop => Some(WithState(row, Sleeping, now))
    case Remove => None
    case Stamp => Some(row.(errorAt := Some(now)))
    case Touch => Some(row.(lastConnAt := Some(now)))
  }

  /** At the same instant, with the same connection counts, there is nothing left to do about it. */
  lemma SecondLookKeeps(row: Row, backs: bool, use: Use, pol: Policy, now: int)
    ensures var after := Carried(Decide(row, backs, use, pol, now), row, now);
            after.Some? ==> Decide(after.value, backs, use, pol, now) == Keep
  {
    var v := Decide(row, backs, use, pol, now);
    StoppedExactly(row, backs, use, pol, now);
  }

  function RowAt(rows: Rows, n: string): Option<Row> {
    if n in rows then Some(rows[n]) else None
  }

  lemma OtherRowAt(rows: Rows, rows': Rows, name: string, n: string)
    requires OthersKept(rows, rows', name) && n != name
    ensures RowAt(rows, n) == RowAt(rows', n)
  {
    assert n in rows <==> n in rows - {name};
    assert n in rows' <==> n in rows' - {name};
    if n in rows { assert (rows - {name})[n] == (rows' - {name})[n]; }
  }

  /** What carrying out a verdict may leave of the row, failures included; None when it is deleted. A stop
      that fails leaves the row, a deletion that fails leaves an error, one the daemon dies in a deleting row. */
  predicate CarriedOr(v: Verdict, row: Row, after: Option<Row>, now: int, crashed: bool, quiet: bool) {
    match v
    case Stop => (!quiet && after == Some(row)) || (!crashed && after == Carried(v, row, now))
    case Remove =>
      || (!crashed && after == None)
      || (!quiet && !crashed && after == Some(WithState(WithState(row, Deleting, now), Error, now)))
      || (crashed && after == Some(WithState(row, Deleting, now)))
    case _ => !crashed && after == Carried(v, row, now)
  }

  /** Carries out one verdict. Failures of Sleep and Delete are logged, no more. */
  method Carry(m: Manager, name: string, v: Verdict) returns (r: Result)
    requires m.Valid() && name in m.db.rows
    requires v == Remove ==> NoBaselineOn(m.db.baselines, name)
    requires v == Stop ==> m.db.rows[name].state == Running
    requires v == Stamp ==> m.db.rows[name].state == Error && m.db.rows[name].errorAt.None?
    modifies m.db`rows, m.host`pool, m.host`failures, m.host`hooks, m.host`wrote, m`strays
    ensures m.Valid() && (old(m.Up()) && !r.Crashed? ==> m.Up())
    ensures OthersKept(old(m.db.rows), m.db.rows, name) && Local(old(m.host.pool), m.host.pool, name)
    ensures m.strays <= old(m.strays) && NoneWoken(old(m.db.rows), m.db.rows)
    ensures v in {Keep, Stamp, Touch} ==> m.host.pool == old(m.host.pool)
    ensures CarriedOr(v, old(m.db.rows)[name], RowAt(m.db.rows, name), m.clock, r.Crashed?, m.host.quiet)
    ensures name !in m.db.rows ==> Branch(name) !in m.host.pool.vols
    ensures NoneRoused(old(m.db.rows), old(m.host.pool), m.db.rows, m.host.pool)
    ensures m.host.quiet ==> !r.Crashed?
  {
    hide Inv, Clean, StraysAre, AllSettled, NoneRoused;
    ghost var rows, p := m.db.rows, m.host.pool;
    r := Done;
    match v {
      case Keep =>
      case Stop => r := Sleep(m, name);
      case Remove => r := Delete(m, name);
      case Stamp => m.StampError(name);
      case Touch => m.TouchConn(name);
    }
    OneNotWoken(rows, m.db.rows, name);
    OneNotStarted(rows, p, m.db.rows, m.host.pool, name);
    if AllSettled(rows) && !r.Crashed? {
      IsSettledIn(rows, name);
      SettledAgain(rows, m.db.rows, name);
    }
  }

  lemma IsSettledIn(rows: Rows, name: string)
    requires AllSettled(rows) && name in rows
    ensures Settled(rows[name].state)
  {
  }

  // ---- the pass ----

  function VerdictOn(rows: Rows, bs: Baselines, n: string, use: string -> Use, pol: Policy, now: int): Verdict
    requires n in rows
  {
    Decide(rows[n], !NoBaselineOn(bs, n), use(n), pol, now)
  }

  /** The pass takes the branch down or away, or tries to. */
  predicate Selected(rows: Rows, bs: Baselines, n: string, use: string -> Use, pol: Policy, now: int) {
    n in rows && VerdictOn(rows, bs, n, use, pol, now) in {Stop, Remove}
  }

  /** A dataset that is no selected branch's volume or stash. */
  ghost predicate Spared(d: Dataset, rows: Rows, bs: Baselines, use: string -> Use, pol: Policy, now: int) {
    forall n :: Selected(rows, bs, n, use, pol, now) ==> d != Branch(n) && d != Branch(StashName(n))
  }

  /** Datasets and processes that belong to no selected branch are as they were. */
  ghost predicate VolumesSpared(rows: Rows, bs: Baselines, p: Pool, q: Pool, use: string -> Use, pol: Policy,
                                now: int) {
    && (forall d :: Spared(d, rows, bs, use, pol, now) ==> SameVolume(p, q, d))
    && (forall u :: !Selected(rows, bs, u, use, pol, now) ==> ProcAt(p, u) == ProcAt(q, u))
  }

  function ProcAt(p: Pool, u: string): Option<nat> {
    if u in p.procs then Some(p.procs[u]) else None
  }

  /** The first `i` names have been dealt with as their verdicts say, the others have their old rows. When the daemon
      dies, it dies in the last one dealt with. */
  ghost predicate Reaped(names: seq<string>, i: nat, rows: Rows, bs: Baselines, rows': Rows, use: string -> Use,
                         pol: Policy, now: int, crashed: bool, quiet: bool)
    requires i <= |names|
  {
    && rows'.Keys <= rows.Keys
    && (forall n :: n in rows && n !in names[..i] ==> RowAt(rows', n) == RowAt(rows, n))
    && (forall k :: 0 <= k < i && names[k] in rows ==>
          CarriedOr(VerdictOn(rows, bs, names[k], use, pol, now), rows[names[k]], RowAt(rows', names[k]), now,
                    crashed && k == i - 1, quiet))
  }

  lemma RowsStayWithin(rs: Rows, rs': Rows, name: string, rows: Rows)
    requires OthersKept(rs, rs', name) && rs.Keys <= rows.Keys && name in rows
    ensures rs'.Keys <= rows.Keys
  {
    forall n | n in rs' ensures n in rows {
      if n != name { assert n in rs' - {name}; assert n in rs.Keys; }
    }
  }

  lemma ReapedStep(names: seq<string>, i: nat, rows: Rows, bs: Baselines, rs: Rows, rs': Rows, use: string -> Use,
                   pol: Policy, now: int, crashed: bool, quiet: bool)
    requires i < |names| && names[i] in rows && Distinct(names)
    requires Reaped(names, i, rows, bs, rs, use, pol, now, false, quiet)
    requires OthersKept(rs, rs', names[i])
    requires CarriedOr(VerdictOn(rows, bs, names[i], use, pol, now), rows[names[i]], RowAt(rs', names[i]), now,
                       crashed, quiet)
    ensures Reaped(names, i + 1, rows, bs, rs', use, pol, now, crashed, quiet)
  {
    hide OthersKept, VerdictOn, CarriedOr, RowAt;
    assert names[..i + 1] == names[..i] + [names[i]];
    RowsStayWithin(rs, rs', names[i], rows);
    forall n | n != names[i] ensures RowAt(rs, n) == RowAt(rs', n) { OtherRowAt(rs, rs', names[i], n); }
  }

  predicate Distinct(names: seq<string>) {
    forall j, k :: 0 <= j < k < |names| ==> names[j] != names[k]
  }

  lemma NextReaped(names: seq<string>, i: nat, rows: Rows, bs: Baselines, rs: Rows, use: string -> Use, pol: Policy,
                   now: int, quiet: bool)
    requires i < |names| && names[i] in rows && Distinct(names)
    requires Reaped(names, i, rows, bs, rs, use, pol, now, false, quiet)
    ensures names[i] in rs && rs[names[i]] == rows[names[i]]
  {
    assert names[i] !in names[..i];
    assert RowAt(rs, names[i]) == RowAt(rows, names[i]);
  }

  /** Work on a selected branch spares all the others. */
  lemma SparedStep(rows: Rows, bs: Baselines, p: Pool, q: Pool, q': Pool, n: string, use: string -> Use, pol: Policy,
                   now: int)
    requires VolumesSpared(rows, bs, p, q, use, pol, now)
    requires if Selected(rows, bs, n, use, pol, now) then Local(q, q', n) else q' == q
    ensures VolumesSpared(rows, bs, p, q', use, pol, now)
  {
    hide VerdictOn;
    if Selected(rows, bs, n, use, pol, now) {
      var rest := {Branch(n), Branch(StashName(n))};
      forall d | Spared(d, rows, bs, use, pol, now) ensures SameVolume(p, q', d) {
        assert SameVolume(p, q, d);
        assert d in q.vols <==> d in q.vols - rest;
        assert d in q'.vols <==> d in q'.vols - rest;
        if d in q.vols { assert (q.vols - rest)[d] == (q'.vols - rest)[d]; }
      }
      forall u | !Selected(rows, bs, u, use, pol, now) ensures ProcAt(p, u) == ProcAt(q', u) {
        assert ProcAt(p, u) == ProcAt(q, u);
        assert u in q.procs <==> u in q.procs - {n};
        assert u in q'.procs <==> u in q'.procs - {n};
        if u in q.procs { assert (q.procs - {n})[u] == (q'.procs - {n})[u]; }
      }
    }
  }

  /** Nothing due: the pass is over without a change. */
  ghost predicate NothingDue(rows: Rows, bs: Baselines, use: string -> Use, pol: Policy, now: int) {
    forall n :: n in rows ==> VerdictOn(rows, bs, n, use, pol, now) == Keep
  }

  /** Decides on one branch and carries the verdict out. */
  method ReapOne(m: Manager, name: string, use: string -> Use, pol: Policy) returns (c: Result)
    requires m.Valid() && name in m.db.rows
    modifies m.db`rows, m.host`pool, m.host`failures, m.host`hooks, m.host`wrote, m`strays
    ensures m.Valid() && (old(m.Up()) && !c.Crashed? ==> m.Up())
    ensures OthersKept(old(m.db.rows), m.db.rows, name)
    ensures m.strays <= old(m.strays) && NoneWoken(old(m.db.rows), m.db.rows)
    ensures name !in m.db.rows ==> Branch(name) !in m.host.pool.vols
    ensures var v := VerdictOn(old(m.db.rows), m.db.baselines, name, use, pol, m.clock);
            && (v !in {Stop, Remove} ==> !c.Crashed?)
            && (if v in {Stop, Remove} then Local(old(m.host.pool), m.host.pool, name)
                else m.host.pool == old(m.host.pool))
            && CarriedOr(v, old(m.db.rows)[name], RowAt(m.db.rows, name), m.clock, c.Crashed?, m.host.quiet)
    ensures NoneRoused(old(m.db.rows), old(m.host.pool), m.db.rows, m.host.pool)
    ensures m.host.quiet ==> !c.Crashed?
  {
    hide Inv, Clean, StraysAre, AllSettled, Decide, OthersKept, CarriedOr, Local, NoneWoken, NoneRoused;
    ghost var row := m.db.rows[name];
    var backs := m.Backs(name);
    var v := Decide(m.db.rows[name], backs, use(name), pol, m.clock);
    VerdictFits(m.db.rows[name], backs, use(name), pol, m.clock);
    c := Carry(m, name, v);
    if c.Crashed? { KeepNeverCrashes(v, row, RowAt(m.db.rows, name), m.clock, m.host.quiet); }
  }

  lemma KeptIsNotSelected(rows: Rows, bs: Baselines, n: string, use: string -> Use, pol: Policy, now: int)
    requires n in rows
    ensures Selected(rows, bs, n, use, pol, now) <==> VerdictOn(rows, bs, n, use, pol, now) in {Stop, Remove}
    ensures NothingDue(rows, bs, use, pol, now) ==> !Selected(rows, bs, n, use, pol, now)
  {
  }

  /** The rows that are gone have left no volume. */
  ghost predicate GoneWithVolumes(rows: Rows, rows': Rows, q: Pool) {
    forall n :: n in rows && n !in rows' ==> Branch(n) !in q.vols
  }

  lemma OneMoreGone(rows: Rows, rs: Rows, rs': Rows, q: Pool, q': Pool, name: string)
    requires GoneWithVolumes(rows, rs, q) && OthersKept(rs, rs', name) && (Local(q, q', name) || q' == q)
    requires name !in rs' ==> Branch(name) !in q'.vols
    requires forall n :: n in rows ==> !IsReserved(n)
    ensures GoneWithVolumes(rows, rs', q')
  {
    hide IsReserved;
    var rest := {Branch(name), Branch(StashName(name))};
    forall n | n in rows && n !in rs' && n != name ensures Branch(n) !in q'.vols {
      assert n in rs <==> n in rs - {name};
      assert n in rs' <==> n in rs' - {name};
      StashNames(name, n);
      if q' != q { assert Branch(n) in q'.vols <==> Branch(n) in q'.vols - rest; }
    }
  }

  /** Which rows a pass without failures takes away, by their fields; where only leases count, exactly those whose lease
      ended before now. */
  lemma TakenAway(names: seq<string>, rows: Rows, bs: Baselines, rows': Rows, use: string -> Use, pol: Policy, now: int)
    requires forall n :: n in rows ==> n in names
    requires Reaped(names, |names|, rows, bs, rows', use, pol, now, false, true)
    ensures forall n :: n in rows ==> (n !in rows' <==> Goes(rows[n], !NoBaselineOn(bs, n), use(n), pol, now))
    ensures forall n :: n in rows && n in rows' ==>
              KeptAs(rows[n], rows'[n], !NoBaselineOn(bs, n), use(n), pol, now)
    ensures pol.errorRetention <= 0 && (forall p :: pol.idleDelete(p) <= 0) ==>
              forall n :: n in rows && rows[n].state in {Running, Sleeping, Error} ==>
                (forall s :: s in bs ==> s.ds != Branch(n)) ==>
                  (n !in rows' <==> rows[n].expiresAt.Some? && rows[n].expiresAt.value < now)
  {
    hide Decide, Reaped, Goes, Halts, KeptAs;
    forall n | n in rows
      ensures n !in rows' <==> Goes(rows[n], !NoBaselineOn(bs, n), use(n), pol, now)
      ensures n in rows' ==> KeptAs(rows[n], rows'[n], !NoBaselineOn(bs, n), use(n), pol, now) {
      OneTakenAway(names, rows, bs, rows', use, pol, now, n);
    }
    forall n | n in rows { GoesByLease(rows[n], !NoBaselineOn(bs, n), use(n), pol, now); }
  }

  lemma GoesByLease(row: Row, backs: bool, use: Use, pol: Policy, now: int)
    ensures pol.errorRetention <= 0 && pol.idleDelete(row.profile) <= 0 && !backs
            && row.state in {Running, Sleeping, Error} ==>
              (Goes(row, backs, use, pol, now) <==> row.expiresAt.Some? && row.expiresAt.value < now)
  {
  }

  lemma OneTakenAway(names: seq<string>, rows: Rows, bs: Baselines, rows': Rows, use: string -> Use, pol: Policy,
                     now: int, n: string)
    requires n in rows && n in names && Reaped(names, |names|, rows, bs, rows', use, pol, now, false, true)
    ensures n !in rows' <==> Goes(rows[n], !NoBaselineOn(bs, n), use(n), pol, now)
    ensures n in rows' ==> KeptAs(rows[n], rows'[n], !NoBaselineOn(bs, n), use(n), pol, now)
  {
    hide Decide, Goes, Halts;
    StoppedExactly(rows[n], !NoBaselineOn(bs, n), use(n), pol, now);
    TouchedExactly(rows[n], !NoBaselineOn(bs, n), use(n), pol, now);
    var k :| 0 <= k < |names| && names[k] == n;
    RemovedExactly(rows[n], !NoBaselineOn(bs, n), use(n), pol, now);
    assert CarriedOr(VerdictOn(rows, bs, n, use, pol, now), rows[n], RowAt(rows', n), now, false, true);
  }

  /** The rows one after the other, as the pass found them. */
  method Pass(m: Manager, use: string -> Use, pol: Policy)
    returns (r: Result, ghost names: seq<string>, ghost done: nat)
    requires m.Valid()
    modifies m.db`rows, m.host`pool, m.host`failures, m.host`hooks, m.host`wrote, m`strays
    ensures m.Valid() && (old(m.Up()) && !r.Crashed? ==> m.Up())
    ensures m.strays <= old(m.strays) && NoneWoken(old(m.db.rows), m.db.rows)
    ensures Distinct(names) && forall n :: n in names <==> n in old(m.db.rows)
    ensures done <= |names| && (!r.Crashed? ==> done == |names|)
    ensures Reaped(names, done, old(m.db.rows), m.db.baselines, m.db.rows, use, pol, m.clock, r.Crashed?, m.host.quiet)
    ensures VolumesSpared(old(m.db.rows), m.db.baselines, old(m.host.pool), m.host.pool, use, pol, m.clock)
    ensures forall n :: n in old(m.db.rows) && n !in m.db.rows ==> Branch(n) !in m.host.pool.vols
    ensures NothingDue(old(m.db.rows), m.db.baselines, use, pol, m.clock) ==>
              !r.Crashed? && m.host.pool == old(m.host.pool)
    ensures NoneRoused(old(m.db.rows), old(m.host.pool), m.db.rows, m.host.pool)
    ensures m.host.quiet ==> !r.Crashed?
  {
    hide Inv, Clean, StraysAre, AllSettled, Reaped, Decide, OthersKept, VolumesSpared, CarriedOr, Local, NoneWoken,
      NothingDue, VerdictOn, Selected, NoneRoused, GoneWithVolumes;
    r, done := Done, 0;
    ghost var rows, p := m.db.rows, m.host.pool;
    var all := m.db.ListBranches();
    names := all;
    ReapedNone(names, rows, m.db.baselines, p, use, pol, m.clock, m.host.quiet);
    NoneRousedAtAll(rows, p);
    NoRowReserved(m);
    NobodyGone(rows, p);
    for i := 0 to |all|
      invariant m.Valid() && (AllSettled(rows) ==> m.Up()) && !r.Crashed? && done == i
      invariant m.strays <= old(m.strays) && NoneWoken(rows, m.db.rows)
      invariant Reaped(names, i, rows, m.db.baselines, m.db.rows, use, pol, m.clock, false, m.host.quiet)
      invariant VolumesSpared(rows, m.db.baselines, p, m.host.pool, use, pol, m.clock)
      invariant NothingDue(rows, m.db.baselines, use, pol, m.clock) ==> m.host.pool == p
      invariant NoneRoused(rows, p, m.db.rows, m.host.pool) && GoneWithVolumes(rows, m.db.rows, m.host.pool)
    {
      ghost var rs, q := m.db.rows, m.host.pool;
      var name := all[i];
      NextReaped(names, i, rows, m.db.baselines, rs, use, pol, m.clock, m.host.quiet);
      SameVerdict(rows, rs, m.db.baselines, name, use, pol, m.clock);
      KeptIsNotSelected(rows, m.db.baselines, name, use, pol, m.clock);
      var c := ReapOne(m, name, use, pol);
      done := i + 1;
      NoneWokenTwice(rows, rs, m.db.rows);
      NoneRousedTwice(rows, p, rs, q, m.db.rows, m.host.pool);
      OneMoreGone(rows, rs, m.db.rows, q, m.host.pool, name);
      WhoIsGone(rows, m.db.rows, m.host.pool);
      ReapedStep(names, i, rows, m.db.baselines, rs, m.db.rows, use, pol, m.clock, c.Crashed?, m.host.quiet);
      SparedStep(rows, m.db.baselines, p, q, m.host.pool, name, use, pol, m.clock);
      if c.Crashed? { return Crashed, names, done; }
    }
    WhoIsGone(rows, m.db.rows, m.host.pool);
  }

  /** One pass, whatever else is under way: rows change as their verdicts say, up to failures and to where the
      daemon dies; volumes and processes of branches that are not selected do not change at all. */
  method Reap(m: Manager, use: string -> Use, pol: Policy)
    returns (r: Result, ghost names: seq<string>, ghost done: nat)
    requires m.Valid()
    modifies m.db`rows, m.host`pool, m.host`failures, m.host`hooks, m.host`wrote, m`strays
    ensures m.Valid() && (old(m.Up()) && !r.Crashed? ==> m.Up())
    ensures m.strays <= old(m.strays) && NoneWoken(old(m.db.rows), m.db.rows)
    ensures Distinct(names) && forall n :: n in names <==> n in old(m.db.rows)
    ensures done <= |names| && (!r.Crashed? ==> done == |names|)
    ensures Reaped(names, done, old(m.db.rows), m.db.baselines, m.db.rows, use, pol, m.clock, r.Crashed?, m.host.quiet)
    ensures VolumesSpared(old(m.db.rows), m.db.baselines, old(m.host.pool), m.host.pool, use, pol, m.clock)
    // without failures exactly the rows that are to go are gone, and the others are as they are to be, by their own
    // fields;
    // every volume of a row that is gone is gone with it
    ensures m.host.quiet ==> forall n :: n in old(m.db.rows) ==>
              (n !in m.db.rows <==>
               Goes(old(m.db.rows)[n], !NoBaselineOn(m.db.baselines, n), use(n), pol, m.clock))
    ensures m.host.quiet ==> forall n :: n in old(m.db.rows) && n in m.db.rows ==>
              KeptAs(old(m.db.rows)[n], m.db.rows[n], !NoBaselineOn(m.db.baselines, n), use(n), pol, m.clock)
    ensures m.host.quiet && pol.errorRetention <= 0 && (forall p :: pol.idleDelete(p) <= 0) ==>
              forall n :: n in old(m.db.rows) && old(m.db.rows)[n].state in {Running, Sleeping, Error} ==>
                (forall s :: s in m.db.baselines ==> s.ds != Branch(n)) ==>
                  (n !in m.db.rows <==>
                   old(m.db.rows)[n].expiresAt.Some? && old(m.db.rows)[n].expiresAt.value < m.clock)
    ensures forall n :: n in old(m.db.rows) && n !in m.db.rows ==> Branch(n) !in m.host.pool.vols
    ensures NothingDue(old(m.db.rows), m.db.baselines, use, pol, m.clock) ==>
              !r.Crashed? && m.host.pool == old(m.host.pool)
    ensures NoneRoused(old(m.db.rows), old(m.host.pool), m.db.rows, m.host.pool)
    ensures m.host.quiet ==> !r.Crashed?
  {
    hide Inv, Clean, StraysAre, AllSettled, Reaped, Decide, OthersKept, VolumesSpared, Local, NoneWoken, NothingDue,
      NoneRoused, Goes, Halts, KeptAs;
    ghost var rows := m.db.rows;
    r, names, done := Pass(m, use, pol);
    if m.host.quiet { TakenAway(names, rows, m.db.baselines, m.db.rows, use, pol, m.clock); }
  }

  lemma NobodyGone(rows: Rows, p: Pool)
    ensures GoneWithVolumes(rows, rows, p)
  {
  }

  lemma WhoIsGone(rows: Rows, rows': Rows, q: Pool)
    requires GoneWithVolumes(rows, rows', q)
    ensures forall n :: n in rows && n !in rows' ==> Branch(n) !in q.vols
  {
  }

  lemma SameVerdict(rows: Rows, rs: Rows, bs: Baselines, n: string, use: string -> Use, pol: Policy, now: int)
    requires n in rows && n in rs && rs[n] == rows[n]
    ensures VerdictOn(rs, bs, n, use, pol, now) == VerdictOn(rows, bs, n, use, pol, now)
  {
  }

  lemma KeepNeverCrashes(v: Verdict, row: Row, after: Option<Row>, now: int, quiet: bool)
    requires CarriedOr(v, row, after, now, true, quiet)
    ensures v in {Stop, Remove}
  {
  }

  lemma ReapedNone(names: seq<string>, rows: Rows, bs: Baselines, p: Pool, use: string -> Use, pol: Policy, now: int,
                   quiet: bool)
    ensures Reaped(names, 0, rows, bs, rows, use, pol, now, false, quiet)
    ensures VolumesSpared(rows, bs, p, p, use, pol, now) && NoneWoken(rows, rows)
  {
  }

  lemma VerdictFits(row: Row, backs: bool, use: Use, pol: Policy, now: int)
    ensures var v := Decide(row, backs, use, pol, now);
            && (v == Remove ==> !backs)
            && (v == Stop ==> row.state == Running)
            && (v == Stamp ==> row.state == Error && row.errorAt.None?)
  {
  }

  /** Whatever fails and wherever the daemon dies: a branch that another operation has in hand, or that holds a
      registered baseline and is not running, keeps its row, its volume and its process; one that holds a
      baseline is never deleted. */
  lemma ReapedSpares(names: seq<string>, done: nat, rows: Rows, bs: Baselines, rows': Rows, p: Pool, q: Pool,
                     use: string -> Use, pol: Policy, now: int, crashed: bool, quiet: bool, n: string)
    requires done <= |names| && n in rows && n in names && !IsReserved(n) && forall k :: k in rows ==> !IsReserved(k)
    requires Reaped(names, done, rows, bs, rows', use, pol, now, crashed, quiet)
             && VolumesSpared(rows, bs, p, q, use, pol, now)
    ensures !Settled(rows[n].state) ==>
              RowAt(rows', n) == Some(rows[n]) && SameVolume(p, q, Branch(n)) && ProcAt(p, n) == ProcAt(q, n)
    ensures !NoBaselineOn(bs, n) ==> n in rows' && rows'[n].state in {rows[n].state, Sleeping}
    ensures VerdictOn(rows, bs, n, use, pol, now) in {Keep, Stamp, Touch} ==>
              SameVolume(p, q, Branch(n)) && SameVolume(p, q, Branch(StashName(n))) && ProcAt(p, n) == ProcAt(q, n)
  {
    hide VolumesSpared;
    var v := VerdictOn(rows, bs, n, use, pol, now);
    if !Settled(rows[n].state) { TransitionsAreKept(rows[n], !NoBaselineOn(bs, n), use(n), pol, now); }
    RemovedExactly(rows[n], !NoBaselineOn(bs, n), use(n), pol, now);
    StoppedExactly(rows[n], !NoBaselineOn(bs, n), use(n), pol, now);
    if v in {Keep, Stamp, Touch} { NotSelected(rows, bs, p, q, use, pol, now, n); }
    if n in names[..done] {
      var k :| 0 <= k < done && names[k] == n;
      assert CarriedOr(v, rows[n], RowAt(rows', n), now, crashed && k == done - 1, quiet);
    } else {
      assert RowAt(rows', n) == RowAt(rows, n);
    }
  }

  lemma NotSelected(rows: Rows, bs: Baselines, p: Pool, q: Pool, use: string -> Use, pol: Policy, now: int, n: string)
    requires n in rows && !IsReserved(n) && (forall k :: k in rows ==> !IsReserved(k))
    requires VerdictOn(rows, bs, n, use, pol, now) in {Keep, Stamp, Touch}
             && VolumesSpared(rows, bs, p, q, use, pol, now)
    ensures SameVolume(p, q, Branch(n)) && SameVolume(p, q, Branch(StashName(n))) && ProcAt(p, n) == ProcAt(q, n)
  {
    forall k | Selected(rows, bs, k, use, pol, now)
      ensures Branch(n) != Branch(k) && Branch(n) != Branch(StashName(k)) && Branch(StashName(n)) != Branch(k)
              && Branch(StashName(n)) != Branch(StashName(k)) {
      StashNames(n, k);
      StashNames(k, n);
    }
    assert Spared(Branch(n), rows, bs, use, pol, now) && Spared(Branch(StashName(n)), rows, bs, use, pol, now);
  }

  lemma NothingLeftDue(names: seq<string>, rows: Rows, bs: Baselines, rows': Rows, use: string -> Use, pol: Policy,
                       now: int)
    requires forall n :: n in rows ==> n in names
    requires Reaped(names, |names|, rows, bs, rows', use, pol, now, false, true)
    ensures NothingDue(rows', bs, use, pol, now)
  {
    forall n | n in rows' ensures VerdictOn(rows', bs, n, use, pol, now) == Keep {
      var k :| 0 <= k < |names| && names[k] == n;
      SecondLookKeeps(rows[n], !NoBaselineOn(bs, n), use(n), pol, now);
      assert CarriedOr(VerdictOn(rows, bs, n, use, pol, now), rows[n], RowAt(rows', n), now, false, true);
    }
  }

  lemma NothingDone(names: seq<string>, rows: Rows, bs: Baselines, rows': Rows, use: string -> Use, pol: Policy,
                    now: int, quiet: bool)
    requires forall n :: n in rows ==> n in names
    requires Reaped(names, |names|, rows, bs, rows', use, pol, now, false, quiet) && NothingDue(rows, bs, use, pol, now)
    ensures rows' == rows
  {
    forall n | n in rows ensures RowAt(rows', n) == RowAt(rows, n) {
      var k :| 0 <= k < |names| && names[k] == n;
      assert CarriedOr(VerdictOn(rows, bs, n, use, pol, now), rows[n], RowAt(rows', n), now, false, quiet);
    }
    assert forall n :: n in rows ==> RowAt(rows', n) == RowAt(rows, n);
  }

  /** A second pass at the same instant, with the same connection counts, changes nothing. */
  method ReapTwice(m: Manager, use: string -> Use, pol: Policy)
    returns (ghost names: seq<string>, ghost once: Rows, ghost oncePool: Pool)
    requires m.Valid() && m.host.quiet
    modifies m.db`rows, m.host`pool, m.host`failures, m.host`hooks, m.host`wrote, m`strays
    ensures m.Valid() && (old(m.Up()) ==> m.Up())
    ensures forall n :: n in names <==> n in old(m.db.rows)
    ensures Reaped(names, |names|, old(m.db.rows), m.db.baselines, once, use, pol, m.clock, false, true)
    ensures m.db.rows == once && m.host.pool == oncePool
  {
    hide Inv, Clean, StraysAre, AllSettled, Reaped, Decide;
    ghost var rows := m.db.rows;
    var r;
    ghost var done;
    r, names, done := Reap(m, use, pol);
    NothingLeftDue(names, rows, m.db.baselines, m.db.rows, use, pol, m.clock);
    once, oncePool := m.db.rows, m.host.pool;
    ghost var again;
    r, again, done := Reap(m, use, pol);
    NothingDone(again, once, m.db.baselines, m.db.rows, use, pol, m.clock, true);
  }
}
