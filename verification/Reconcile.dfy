/** What a restarted daemon makes of the rows it finds, and the collection of orphaned volumes. */
module Reconcile {
  import opened Names
  import opened Pool
  import opened Store
  import opened Host
  import opened Invariant
  import opened Classify
  import opened Manager
  import opened Lifecycle
  import opened Requests

  /** How reconcile reads a row that an operation left behind. A rebuild that was cut short is
      told from a reset by the stash it leaves. */
  ghost predicate Reconciled(n: string, row: Row, p: Pool, rows': Rows, now: int) {
    match row.state
    case Deleting => n !in rows' || rows'[n] == WithState(WithState(row, Deleting, now), Error, now)
    case Creating => n in rows' && rows'[n] == WithError(row, CreateOp, true, now)
    case Resetting =>
      n in rows'
        && rows'[n] == WithError(row, if Branch(StashName(n)) in p.vols then RecreateOp else ResetOp, true, now)
    case _ =>
      n in rows' &&
      if Branch(n) !in p.vols then rows'[n] == WithError(row, ReconcileOp, false, now)
      else rows'[n] == row || (row.state == Running && rows'[n] == WithState(row, Sleeping, now))
  }

  /** No row has become usable. */
  ghost predicate NoneWoken(rows: Rows, rows': Rows) {
    forall n :: n in rows' && Usable(rows'[n]) ==> n in rows && Usable(rows[n])
  }

  lemma OneNotWoken(rows: Rows, rows': Rows, name: string)
    requires OthersKept(rows, rows', name)
    requires name in rows' && Usable(rows'[name]) ==> name in rows && Usable(rows[name])
    ensures NoneWoken(rows, rows')
  {
    forall n | n in rows' && Usable(rows'[n]) ensures n in rows && Usable(rows[n]) {
      if n != name {
        assert n in rows' - {name};
        assert (rows - {name})[n] == (rows' - {name})[n];
      }
    }
  }

  /** A branch that should run or could be woken, with a live process. */
  predicate Served(rows: Rows, p: Pool, n: string) {
    n in rows && rows[n].state in {Running, Sleeping} && n in p.procs
  }

  ghost predicate NoneStarted(rows: Rows, p: Pool, rows': Rows, q: Pool) {
    forall n :: Served(rows', q, n) ==> Served(rows, p, n)
  }

  /** No sleeping row has come by a process. */
  ghost predicate NoneRoused(rows: Rows, p: Pool, rows': Rows, q: Pool) {
    forall n :: Sleepwalks(rows', q, n) ==> Sleepwalks(rows, p, n)
  }

  lemma OneNotStarted(rows: Rows, p: Pool, rows': Rows, q: Pool, name: string)
    requires OthersKept(rows, rows', name) && Local(p, q, name)
    ensures (Served(rows', q, name) ==> Served(rows, p, name)) ==> NoneStarted(rows, p, rows', q)
    ensures (Sleepwalks(rows', q, name) ==> Sleepwalks(rows, p, name)) ==> NoneRoused(rows, p, rows', q)
  {
    LocalUnits(p, q, name);
    forall n | n in rows' && n != name ensures n in rows && rows'[n] == rows[n] {
      assert n in rows' - {name};
      assert (rows - {name})[n] == (rows' - {name})[n];
    }
  }

  lemma NoneRousedAtAll(rows: Rows, p: Pool)
    ensures NoneStarted(rows, p, rows, p) && NoneRoused(rows, p, rows, p) && NoneWoken(rows, rows)
  {
  }

  lemma NoneRousedTwice(rows: Rows, p: Pool, rs: Rows, q: Pool, rs': Rows, q': Pool)
    ensures NoneStarted(rows, p, rs, q) && NoneStarted(rs, q, rs', q') ==> NoneStarted(rows, p, rs', q')
    ensures NoneRoused(rows, p, rs, q) && NoneRoused(rs, q, rs', q') ==> NoneRoused(rows, p, rs', q')
  {
  }

  lemma NoneWokenTwice(rows: Rows, rs: Rows, rs': Rows)
    requires NoneWoken(rows, rs) && NoneWoken(rs, rs')
    ensures NoneWoken(rows, rs')
  {
  }

  method RecoverRow(m: Manager, name: string) returns (r: Result)
    requires m.Valid() && name in m.db.rows
    modifies m.db`rows, m.host`pool, m.host`failures, m.host`hooks, m.host`wrote, m`strays
    ensures m.Valid() && OthersKept(old(m.db.rows), m.db.rows, name) && Local(old(m.host.pool), m.host.pool, name)
    ensures m.strays <= old(m.strays) && NoneWoken(old(m.db.rows), m.db.rows)
    ensures !r.Crashed? ==> Reconciled(name, old(m.db.rows)[name], old(m.host.pool), m.db.rows, m.clock)
    ensures old(m.db.rows)[name].state != Deleting ==> !r.Crashed? && m.host.pool == old(m.host.pool)
    ensures NoneStarted(old(m.db.rows), old(m.host.pool), m.db.rows, m.host.pool)
    ensures m.host.quiet ==>
              !r.Crashed? && NoneRoused(old(m.db.rows), old(m.host.pool), m.db.rows, m.host.pool)
  {
    hide Inv, Clean, StraysAre, NoneStarted, NoneRoused;
    var row := m.db.rows[name];
    ghost var rows, p := m.db.rows, m.host.pool;
    UsableIsReady(m, name);
    if row.state == Deleting {
      r := Delete(m, name);
      OneNotWoken(rows, m.db.rows, name);
      OneNotStarted(rows, p, m.db.rows, m.host.pool, name);
      return;
    }
    r := Done;
    var stashed := m.host.Resolve(StashName(name));
    var found := m.host.Resolve(name);
    if row.state == Creating {
      m.Diagnosed(name, CreateOp, true);
    } else if row.state == Resetting {
      m.Diagnosed(name, if stashed then RecreateOp else ResetOp, true);
    } else if !found {
      m.Diagnosed(name, ReconcileOp, false);
    } else if row.state == Running {
      var running := m.host.IsRunning(name);
      if !running { m.MarkState(name, Sleeping); }
    }
    OneNotWoken(rows, m.db.rows, name);
    OneNotStarted(rows, p, m.db.rows, m.host.pool, name);
  }

  /** Nothing that reconcile looks at has changed for branch `n`. */
  predicate Untouched(n: string, rows: Rows, p: Pool, rows': Rows, q: Pool) {
    && (n in rows <==> n in rows') && (n in rows && n in rows' ==> rows'[n] == rows[n])
    && (Branch(n) in p.vols <==> Branch(n) in q.vols)
    && (Branch(StashName(n)) in p.vols <==> Branch(StashName(n)) in q.vols)
  }

  lemma StillThereElsewhere(p: Pool, q: Pool, name: string, d: Dataset)
    requires Local(p, q, name) && d != Branch(name) && d != Branch(StashName(name))
    ensures d in p.vols <==> d in q.vols
  {
    var rest := {Branch(name), Branch(StashName(name))};
    assert d in p.vols <==> d in p.vols - rest;
    assert d in q.vols <==> d in q.vols - rest;
  }

  lemma OthersUntouched(n: string, name: string, rows: Rows, p: Pool, rows': Rows, q: Pool)
    requires n != name && !IsReserved(n) && !IsReserved(name)
    requires OthersKept(rows, rows', name) && Local(p, q, name)
    ensures Untouched(n, rows, p, rows', q)
  {
    hide Local;
    StashNames(n, name);
    StashNames(name, n);
    assert n in rows <==> n in rows - {name};
    assert n in rows' <==> n in rows' - {name};
    StillThereElsewhere(p, q, name, Branch(n));
    StillThereElsewhere(p, q, name, Branch(StashName(n)));
    if n in rows && n in rows' { assert (rows - {name})[n] == (rows' - {name})[n]; }
  }

  /** The first `i` of `names` have been read off as they were in `rows` and `p`; all else is as it was. */
  ghost predicate Progress(names: seq<string>, i: nat, rows: Rows, p: Pool, rows': Rows, q: Pool, now: int) {
    && rows'.Keys <= rows.Keys
    && (forall n :: n in rows ==> !IsReserved(n))
    && (forall n :: n in rows && n in names[..Min(i, |names|)] ==> Reconciled(n, rows[n], p, rows', now))
    && (forall n :: n in rows && n !in names[..Min(i, |names|)] ==> Untouched(n, rows, p, rows', q))
  }

  function Min(a: nat, b: nat): nat {
    if a < b then a else b
  }

  lemma ProgressStep(names: seq<string>, i: nat, rows: Rows, p: Pool, rs: Rows, q: Pool, rs': Rows, q': Pool, now: int)
    requires i < |names| && names[i] in rows && names[i] !in names[..i]
    requires Progress(names, i, rows, p, rs, q, now)
    requires OthersKept(rs, rs', names[i]) && Local(q, q', names[i])
    requires names[i] in rs ==> Reconciled(names[i], rs[names[i]], q, rs', now)
    ensures Progress(names, i + 1, rows, p, rs', q', now)
  {
    hide OthersKept, Local, Reconciled, Untouched;
    var name := names[i];
    assert names[..i + 1] == names[..i] + [name];
    RowPresent(name, rows, p, rs, q);
    RowsDoNotGrow(rs, rs', name);
    forall n | n in rows
      ensures if n in names[..i + 1] then Reconciled(n, rows[n], p, rs', now) else Untouched(n, rows, p, rs', q') {
      if n == name {
        StillReconciled(n, rows, p, rs, q, rs', now);
      } else {
        OthersUntouched(n, name, rs, q, rs', q');
        if n in names[..i] {
          ReconciledStays(n, rows[n], p, rs, q, rs', q', now);
        } else {
          UntouchedTwice(n, rows, p, rs, q, rs', q');
        }
      }
    }
  }

  lemma RowPresent(n: string, rows: Rows, p: Pool, rs: Rows, q: Pool)
    requires n in rows && Untouched(n, rows, p, rs, q)
    ensures n in rs && rs[n] == rows[n]
  {
  }

  lemma StillReconciled(n: string, rows: Rows, p: Pool, rs: Rows, q: Pool, rs': Rows, now: int)
    requires n in rows && n in rs && Untouched(n, rows, p, rs, q) && Reconciled(n, rs[n], q, rs', now)
    ensures Reconciled(n, rows[n], p, rs', now)
  {
  }

  lemma ReconciledStays(n: string, row: Row, p: Pool, rs: Rows, q: Pool, rs': Rows, q': Pool, now: int)
    requires Reconciled(n, row, p, rs, now) && Untouched(n, rs, q, rs', q')
    ensures Reconciled(n, row, p, rs', now)
  {
  }

  lemma UntouchedTwice(n: string, rows: Rows, p: Pool, rs: Rows, q: Pool, rs': Rows, q': Pool)
    requires Untouched(n, rows, p, rs, q) && Untouched(n, rs, q, rs', q')
    ensures Untouched(n, rows, p, rs', q')
  {
  }

  method RecoverRows(m: Manager, names: seq<string>) returns (r: Result)
    requires m.Valid() && (forall n :: n in names <==> n in m.db.rows)
    requires forall i, j :: 0 <= i < j < |names| ==> names[i] != names[j]
    modifies m.db`rows, m.host`pool, m.host`failures, m.host`hooks, m.host`wrote, m`strays
    ensures m.Valid() && m.db.rows.Keys <= old(m.db.rows).Keys
    ensures m.strays <= old(m.strays) && NoneWoken(old(m.db.rows), m.db.rows)
    ensures !r.Crashed? ==> Progress(names, |names|, old(m.db.rows), old(m.host.pool), m.db.rows, m.host.pool, m.clock)
    ensures (forall n :: n in old(m.db.rows) ==> old(m.db.rows)[n].state != Deleting) ==>
              !r.Crashed? && m.host.pool == old(m.host.pool)
    // a probe that fails may leave a branch asleep with its process
    ensures NoneStarted(old(m.db.rows), old(m.host.pool), m.db.rows, m.host.pool)
    ensures m.host.quiet ==>
              !r.Crashed? && NoneRoused(old(m.db.rows), old(m.host.pool), m.db.rows, m.host.pool)
  {
    hide Inv, Clean, StraysAre, Local, OthersKept, Reconciled, NoneStarted, NoneRoused, NoneWoken, Progress;
    r := Done;
    ghost var rows, p := m.db.rows, m.host.pool;
    NoRowReserved(m);
    NoneRousedAtAll(rows, p);
    ProgressNone(names, rows, p, m.clock);
    for i := 0 to |names|
      invariant m.Valid() && !r.Crashed? && m.strays <= old(m.strays) && NoneWoken(rows, m.db.rows)
      invariant Progress(names, i, rows, p, m.db.rows, m.host.pool, m.clock)
      invariant (forall n :: n in rows ==> rows[n].state != Deleting) ==> m.host.pool == p
      invariant NoneStarted(rows, p, m.db.rows, m.host.pool)
      invariant m.host.quiet ==> NoneRoused(rows, p, m.db.rows, m.host.pool)
    {
      ghost var rs, q := m.db.rows, m.host.pool;
      NextUntouched(names, i, rows, p, rs, q, m.clock);
      var c := RecoverRow(m, names[i]);
      NoneRousedTwice(rows, p, rs, q, m.db.rows, m.host.pool);
      NoneWokenTwice(rows, rs, m.db.rows);
      RowsDoNotGrow(rs, m.db.rows, names[i]);
      if c.Crashed? {
        ProgressKeys(names, i, rows, p, rs, q, m.clock);
        return Crashed;
      }
      ProgressStep(names, i, rows, p, rs, q, m.db.rows, m.host.pool, m.clock);
    }
    ProgressKeys(names, |names|, rows, p, m.db.rows, m.host.pool, m.clock);
  }

  lemma ProgressNone(names: seq<string>, rows: Rows, p: Pool, now: int)
    requires forall n :: n in rows ==> !IsReserved(n)
    ensures Progress(names, 0, rows, p, rows, p, now)
  {
  }

  lemma ProgressKeys(names: seq<string>, i: nat, rows: Rows, p: Pool, rs: Rows, q: Pool, now: int)
    requires Progress(names, i, rows, p, rs, q, now)
    ensures rs.Keys <= rows.Keys
  {
  }

  lemma NextUntouched(names: seq<string>, i: nat, rows: Rows, p: Pool, rs: Rows, q: Pool, now: int)
    requires Progress(names, i, rows, p, rs, q, now) && i < |names| && names[i] in rows
    requires forall i, j :: 0 <= i < j < |names| ==> names[i] != names[j]
    ensures names[i] !in names[..i] && names[i] in rs && rs[names[i]] == rows[names[i]]
  {
    assert names[i] !in names[..i];
    assert Untouched(names[i], rows, p, rs, q);
  }

  lemma RowsDoNotGrow(rows: Rows, rows': Rows, name: string)
    requires OthersKept(rows, rows', name) && name in rows
    ensures rows'.Keys <= rows.Keys
  {
    forall n | n in rows' ensures n in rows {
      if n != name { assert n in rows' - {name}; }
    }
  }

  /** Reconcile at start-up, which has to finish before requests are served. */
  method Restart(m: Manager) returns (r: Result)
    requires m.Valid()
    modifies m.db`rows, m.host`pool, m.host`failures, m.host`hooks, m.host`wrote, m`strays
    ensures m.Valid() && m.db.rows.Keys <= old(m.db.rows).Keys
    ensures m.strays <= old(m.strays) && NoneWoken(old(m.db.rows), m.db.rows)
    ensures !r.Crashed? ==> m.Up()
    ensures !r.Crashed? ==> forall n :: n in old(m.db.rows) ==>
              Reconciled(n, old(m.db.rows)[n], old(m.host.pool), m.db.rows, m.clock)
    ensures (forall n :: n in old(m.db.rows) ==> old(m.db.rows)[n].state != Deleting) ==>
              !r.Crashed? && m.host.pool == old(m.host.pool)
    // a probe that fails may leave a branch asleep with its process
    ensures NoneStarted(old(m.db.rows), old(m.host.pool), m.db.rows, m.host.pool)
    ensures m.host.quiet ==>
              !r.Crashed? && NoneRoused(old(m.db.rows), old(m.host.pool), m.db.rows, m.host.pool)
  {
    hide Inv, Clean, StraysAre, Reconciled, Progress, AllSettled, NoneStarted, NoneRoused;
    ghost var rows, p := m.db.rows, m.host.pool;
    var names := m.db.ListBranches();
    r := RecoverRows(m, names);
    if !r.Crashed? { AllRecovered(names, rows, p, m.db.rows, m.host.pool, m.clock); }
  }

  lemma AllRecovered(names: seq<string>, rows: Rows, p: Pool, rows': Rows, q: Pool, now: int)
    requires Progress(names, |names|, rows, p, rows', q, now) && forall n :: n in names <==> n in rows
    ensures forall n :: n in rows ==> Reconciled(n, rows[n], p, rows', now)
    ensures AllSettled(rows')
  {
    assert names[..|names|] == names;
    forall n | n in rows' ensures Settled(rows'[n].state) {
      assert Reconciled(n, rows[n], p, rows', now);
    }
  }

  // ---- orphans ----

  /** A stash whose branch is neither being rebuilt nor waiting for a retry, or a volume without a row. */
  predicate Orphan(rows: Rows, name: string) {
    if HasSuffix(name, RECREATING_SUFFIX) then
      var owner := name[..|name| - |RECREATING_SUFFIX|];
      owner !in rows || (rows[owner].state != Resetting && rows[owner].state != Error)
    else
      !IsReserved(name) && name !in rows
  }

  /** What is left of `p` when the volumes in `gone` are taken away. */
  ghost predicate Rid(p: Pool, q: Pool, gone: set<string>) {
    && q.procs == p.procs && q.next == p.next
    && (forall d :: d in q.vols <==> d in p.vols && !(d.Branch? && d.name in gone))
    && (forall d :: d in q.vols && d in p.vols ==> q.vols[d] == p.vols[d])
  }

  lemma RidMore(p: Pool, q: Pool, q': Pool, gone: set<string>, name: string)
    requires Rid(p, q, gone)
    requires q'.vols == q.vols - {Branch(name)} && q'.procs == q.procs && q'.next == q.next
    ensures Rid(p, q', gone + {name})
  {
  }

  lemma OrphanIsUnbacked(m: Manager, name: string)
    requires m.Valid() && Orphan(m.db.rows, name)
    ensures NoBaselineOn(m.db.baselines, name) && name !in m.db.rows
  {
    NoRowReserved(m);
    NoBaselineOnReserved(m.db.rows, m.db.baselines, m.host.pool, m.cfg.default, m.lost, name);
  }

  /** A stash that some operation may still need: that of a branch in error or under a rebuild. */
  ghost predicate Awaited(rows: Rows, n: string) {
    n in rows && rows[n].state in {Error, Resetting}
  }

  /** Every branch's own volume, every stash that may still be needed, and every internal volume is as it was. */
  ghost predicate NeededKept(rows: Rows, p: Pool, q: Pool) {
    && SameVolume(p, q, Base)
    && (forall n :: n in rows ==> SameVolume(p, q, Branch(n)))
    && (forall n :: Awaited(rows, n) ==> SameVolume(p, q, Branch(StashName(n))))
    && (forall n :: n != "" && n[0] == '_' && (forall o :: n != StashName(o)) ==> SameVolume(p, q, Branch(n)))
  }

  /** Neither a stash of any other name nor a volume that no row knows of is left; names that begin with an underscore
      are internal. */
  ghost predicate NothingLeft(rows: Rows, q: Pool) {
    && (forall n :: !Awaited(rows, n) ==> Branch(StashName(n)) !in q.vols)
    && (forall n :: Branch(n) in q.vols && n !in rows && (n == "" || n[0] != '_') ==> exists o :: n == StashName(o))
  }

  lemma StashOwner(n: string)
    requires HasSuffix(n, RECREATING_SUFFIX)
    ensures n == StashName(n[..|n| - |RECREATING_SUFFIX|])
  {
    assert n == n[..|n| - |RECREATING_SUFFIX|] + n[|n| - |RECREATING_SUFFIX|..];
  }

  lemma OrphansAre(rows: Rows, n: string)
    ensures Orphan(rows, StashName(n)) <==> !Awaited(rows, n)
    ensures (n == "" || n[0] != '_') && (forall o :: n != StashName(o)) ==> (Orphan(rows, n) <==> n !in rows)
  {
    StashNames(n, n);
    assert StashName(n)[..|StashName(n)| - |RECREATING_SUFFIX|] == n;
    if HasSuffix(n, RECREATING_SUFFIX) { StashOwner(n); }
  }

  lemma RowsAreNoOrphans(rows: Rows, n: string)
    requires n in rows && !IsReserved(n)
    ensures !Orphan(rows, n)
  {
  }

  lemma InternalsAreNoOrphans(rows: Rows, n: string)
    requires n != "" && n[0] == '_' && forall o :: n != StashName(o)
    ensures !Orphan(rows, n)
  {
    if HasSuffix(n, RECREATING_SUFFIX) { StashOwner(n); }
  }

  lemma RidKeeps(rows: Rows, p: Pool, q: Pool, gone: set<string>)
    requires Rid(p, q, gone) && (forall n :: n in gone ==> Orphan(rows, n)) && forall n :: n in rows ==> !IsReserved(n)
    ensures NeededKept(rows, p, q)
  {
    hide Orphan, IsReserved;
    forall n | n in rows ensures SameVolume(p, q, Branch(n)) { RowsAreNoOrphans(rows, n); }
    forall n | Awaited(rows, n) ensures SameVolume(p, q, Branch(StashName(n))) { OrphansAre(rows, n); }
    forall n | n != "" && n[0] == '_' && (forall o :: n != StashName(o)) ensures SameVolume(p, q, Branch(n)) {
      InternalsAreNoOrphans(rows, n);
    }
  }

  lemma NoOrphanLeft(rows: Rows, q: Pool)
    requires forall n :: Branch(n) in q.vols ==> !Orphan(rows, n)
    ensures NothingLeft(rows, q)
  {
    hide Orphan;
    forall n | !Awaited(rows, n) ensures Branch(StashName(n)) !in q.vols { OrphansAre(rows, n); }
    forall n | Branch(n) in q.vols && n !in rows && (n == "" || n[0] != '_') ensures exists o :: n == StashName(o) {
      OrphansAre(rows, n);
    }
  }

  lemma KeptMeans(rows: Rows, p: Pool, q: Pool)
    requires NeededKept(rows, p, q)
    ensures forall n :: n in rows ==> SameVolume(p, q, Branch(n))
    ensures forall n :: n in rows && rows[n].state in {Error, Resetting} ==> SameVolume(p, q, Branch(StashName(n)))
    ensures forall n :: n != "" && n[0] == '_' && (forall o :: n != StashName(o)) ==> SameVolume(p, q, Branch(n))
  {
    forall n | n in rows && rows[n].state in {Error, Resetting} ensures SameVolume(p, q, Branch(StashName(n))) {
      assert Awaited(rows, n);
    }
  }

  lemma LeftMeans(rows: Rows, q: Pool)
    requires NothingLeft(rows, q)
    ensures forall n :: Branch(StashName(n)) in q.vols ==> n in rows && rows[n].state in {Error, Resetting}
    ensures forall n :: Branch(n) in q.vols && n !in rows ==> (n != "" && n[0] == '_') || exists o :: n == StashName(o)
  {
    forall n | Branch(StashName(n)) in q.vols ensures n in rows && rows[n].state in {Error, Resetting} {
      assert Awaited(rows, n);
    }
  }

  /** Takes away orphans and nothing else, and without failures all of them. */
  method GCOrphans(m: Manager) returns (r: Result, deleted: seq<string>)
    requires m.Valid()
    modifies m.host`pool, m.host`failures, m`strays
    ensures m.Valid() && m.strays == old(m.strays) && m.host.pool.procs == old(m.host.pool).procs
    ensures exists gone ::
              && Rid(old(m.host.pool), m.host.pool, gone) && (forall n :: n in gone ==> Orphan(m.db.rows, n))
              && (forall n :: n in deleted ==> n in gone)
    ensures m.host.quiet ==> r.Done? && forall n :: Branch(n) in m.host.pool.vols ==> !Orphan(m.db.rows, n)
    ensures NeededKept(m.db.rows, old(m.host.pool), m.host.pool)
    ensures m.host.quiet ==> NothingLeft(m.db.rows, m.host.pool)
    // the same on pool and rows: kept are a row's own volume, the stash of a row in error or under a rebuild, and
    // internal
    // volumes; without failures all other stashes, and all other volumes without a row, are gone
    ensures forall n :: n in m.db.rows ==> SameVolume(old(m.host.pool), m.host.pool, Branch(n))
    ensures forall n :: n in m.db.rows && m.db.rows[n].state in {Error, Resetting} ==>
              SameVolume(old(m.host.pool), m.host.pool, Branch(StashName(n)))
    ensures forall n :: n != "" && n[0] == '_' && (forall o :: n != StashName(o)) ==>
              SameVolume(old(m.host.pool), m.host.pool, Branch(n))
    ensures m.host.quiet ==>
              && (forall n :: Branch(StashName(n)) in m.host.pool.vols ==>
                    n in m.db.rows && m.db.rows[n].state in {Error, Resetting})
              && (forall n :: Branch(n) in m.host.pool.vols && n !in m.db.rows ==>
                    (n != "" && n[0] == '_') || exists o :: n == StashName(o))
  {
    hide Inv, Clean, StraysAre, Orphan, NeededKept, NothingLeft, IsReserved, SameVolume, StashName;
    NoRowReserved(m);
    r, deleted := Done, [];
    ghost var p := m.host.pool;
    ghost var gone: set<string> := {};
    assert Rid(p, m.host.pool, gone);
    var c, names := m.host.ListVolumes();
    RidKeeps(m.db.rows, p, m.host.pool, gone);
    KeptMeans(m.db.rows, p, m.host.pool);
    if c.Died? { return Crashed, []; }
    if c.Failed? { return; }
    for i := 0 to |names|
      invariant m.Valid() && m.strays == old(m.strays) && r.Done? && Rid(p, m.host.pool, gone)
      invariant (forall n :: n in gone ==> Orphan(m.db.rows, n)) && (forall n :: n in deleted ==> n in gone)
      invariant m.host.quiet ==> forall k :: 0 <= k < i ==> Orphan(m.db.rows, names[k]) ==> names[k] in gone
    {
      var name := names[i];
      if Orphan(m.db.rows, name) {
        OrphanIsUnbacked(m, name);
        ghost var q := m.host.pool;
        m.OnlyRowsStray(name);
        c := m.DestroyVolume(name);
        if Branch(name) !in m.host.pool.vols {
          assert m.host.pool.vols == q.vols - {Branch(name)};
          RidMore(p, q, m.host.pool, gone, name);
          gone := gone + {name};
        }
        RidKeeps(m.db.rows, p, m.host.pool, gone);
        KeptMeans(m.db.rows, p, m.host.pool);
        if c.Died? { return Crashed, deleted; }
        if c.Ok? { deleted := deleted + [name]; }
      }
    }
    RidKeeps(m.db.rows, p, m.host.pool, gone);
    KeptMeans(m.db.rows, p, m.host.pool);
    if m.host.quiet {
      NoOrphanLeft(m.db.rows, m.host.pool);
      LeftMeans(m.db.rows, m.host.pool);
    }
  }
}
