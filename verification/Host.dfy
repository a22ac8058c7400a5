/** The machine below the manager: every method is one backend or engine call.
    A call may succeed, fail, or be the point at which the daemon dies - before the call
    took effect or after it. `quiet` switches further failures and crashes off. */
module Host {
  import opened Names
  import opened Pool

  /** Died: the daemon is gone, so nothing after this call runs. */
  datatype Reply = Ok | Failed | Died

  /** One external command: it takes effect exactly when it reports success. */
  ghost predicate Command(quiet: bool, r: Reply, can: bool, before: Pool, done: Pool, after: Pool) {
    && (r.Ok? ==> can && after == done)
    && (r.Failed? ==> after == before)
    && (r.Died? ==> after == before || (can && after == done))
    && (quiet ==> r == if can then Ok else Failed)
  }

  /** A call whose command may have taken effect although the call reports a failure:
      zfs clone and zfs rename are followed by a second command, and a systemctl
      start or stop may time out. */
  ghost predicate Call(quiet: bool, r: Reply, can: bool, before: Pool, done: Pool, after: Pool) {
    && (r.Ok? ==> can && after == done)
    && (!r.Ok? ==> after == before || (can && after == done))
    && (quiet ==> r == (if can then Ok else Failed) && (!can ==> after == before))
  }

  /** What is run against the server of a unit: the hooks, by their event, and the source loader. */
  datatype Script = OnCreate | OnReset | OnRecreate | OnDelete | OnBaselineValidate | SourceLoad

  predicate Counted(r: Reply, before: nat, after: nat) {
    after == before + if r.Ok? then 0 else 1
  }

  class Host {
    var pool: Pool
    var quiet: bool
    /** The scripts that were started, in order, with their units. */
    ghost var hooks: seq<(Script, string)>
    /** What the last hook wrote, if it wrote anything. */
    ghost var wrote: Option<int>
    /** The zfs, engine and hook calls that did not report success. */
    ghost var failures: nat

    constructor (pool: Pool)
      ensures this.pool == pool && !quiet
    {
      this.pool, quiet, hooks, wrote, failures := pool, false, [], None, 0;
    }

    /** What the environment decides about one call. */
    method Fate() returns (r: Reply, early: bool)
      ensures quiet ==> r == Ok
    {
      r, early := Ok, false;
      if !quiet {
        r := *;
        early := *;
      }
    }

    method Clone(s: SnapRef, name: string) returns (r: Reply)
      modifies this`pool, this`failures
      ensures Call(quiet, r, CanClone(old(pool), s, Branch(name)), old(pool),
                   if CanClone(old(pool), s, Branch(name)) then DoClone(old(pool), s, Branch(name)) else old(pool),
                   pool)
      ensures Counted(r, old(failures), failures)
    {
      var early;
      r, early := Fate();
      if !CanClone(pool, s, Branch(name)) {
        r := if r.Died? then Died else Failed;
      } else if r.Ok? || early {
        pool := DoClone(pool, s, Branch(name));
      }
      if !r.Ok? { failures := failures + 1; }
    }

    method Rename(from: string, to: string) returns (r: Reply)
      modifies this`pool, this`failures
      ensures Call(quiet, r, CanRename(old(pool), Branch(from), Branch(to)), old(pool),
                   if CanRename(old(pool), Branch(from), Branch(to))
                   then DoRename(old(pool), Branch(from), Branch(to)) else old(pool), pool)
      ensures Counted(r, old(failures), failures)
    {
      var early;
      r, early := Fate();
      if !CanRename(pool, Branch(from), Branch(to)) {
        r := if r.Died? then Died else Failed;
      } else if r.Ok? || early {
        pool := DoRename(pool, Branch(from), Branch(to));
      }
      if !r.Ok? { failures := failures + 1; }
    }

    /** ResolveVolume: fails exactly when the dataset is missing. */
    method Resolve(name: string) returns (found: bool)
      ensures found <==> Branch(name) in pool.vols
    {
      found := Branch(name) in pool.vols;
    }

    /** SnapshotInit, SnapshotBase and PromoteBranch are this one command. */
    method Snapshot(s: SnapRef) returns (r: Reply)
      modifies this`pool, this`failures
      ensures Command(quiet, r, CanSnapshot(old(pool), s), old(pool),
                      if CanSnapshot(old(pool), s) then DoSnapshot(old(pool), s) else old(pool), pool)
      ensures Counted(r, old(failures), failures)
    {
      var early;
      r, early := Fate();
      if !CanSnapshot(pool, s) {
        r := if r.Died? then Died else Failed;
      } else if r.Ok? || (r.Died? && early) {
        pool := DoSnapshot(pool, s);
      }
      if !r.Ok? { failures := failures + 1; }
    }

    method Rollback(s: SnapRef) returns (r: Reply)
      modifies this`pool, this`failures
      ensures Command(quiet, r, CanRollback(old(pool), s), old(pool),
                      if CanRollback(old(pool), s) then DoRollback(old(pool), s) else old(pool), pool)
      ensures Counted(r, old(failures), failures)
    {
      var early;
      r, early := Fate();
      if !CanRollback(pool, s) {
        r := if r.Died? then Died else Failed;
      } else if r.Ok? || (r.Died? && early) {
        pool := DoRollback(pool, s);
      }
      if !r.Ok? { failures := failures + 1; }
    }

    /** DeleteAsync: on ebs-zfs the job is complete when the call returns. */
    method Destroy(name: string) returns (r: Reply)
      modifies this`pool, this`failures
      ensures Command(quiet, r, CanDestroy(old(pool), Branch(name)), old(pool),
                      if CanDestroy(old(pool), Branch(name)) then DoDestroy(old(pool), Branch(name)) else old(pool),
                      pool)
      ensures Counted(r, old(failures), failures)
    {
      var early;
      r, early := Fate();
      if !CanDestroy(pool, Branch(name)) {
        r := if r.Died? then Died else Failed;
      } else if r.Ok? || (r.Died? && early) {
        pool := DoDestroy(pool, Branch(name));
      }
      if !r.Ok? { failures := failures + 1; }
    }

    /** DeleteBaselineSnapshot. */
    method DestroySnap(s: SnapRef) returns (r: Reply)
      modifies this`pool, this`failures
      ensures Command(quiet, r, CanDestroySnap(old(pool), s), old(pool),
                      if CanDestroySnap(old(pool), s) then DoDestroySnap(old(pool), s) else old(pool), pool)
      ensures Counted(r, old(failures), failures)
    {
      var early;
      r, early := Fate();
      if !CanDestroySnap(pool, s) {
        r := if r.Died? then Died else Failed;
      } else if r.Ok? || (r.Died? && early) {
        pool := DoDestroySnap(pool, s);
      }
      if !r.Ok? { failures := failures + 1; }
    }

    /** SetQuota, WaitReady and the memory and watermark probes: no effect on the pool. */
    method Probe() returns (r: Reply)
      ensures quiet ==> r.Ok?
    {
      var early;
      r, early := Fate();
    }

    method Start(unit: string, ds: Dataset) returns (r: Reply)
      modifies this`pool, this`failures
      ensures Call(quiet, r, ds in old(pool).vols, old(pool),
                   if ds in old(pool).vols then DoStart(old(pool), unit, ds) else old(pool), pool)
      ensures Counted(r, old(failures), failures)
    {
      var early;
      r, early := Fate();
      if ds !in pool.vols {
        r := if r.Died? then Died else Failed;
      } else if r.Ok? || early {
        pool := DoStart(pool, unit, ds);
      }
      if !r.Ok? { failures := failures + 1; }
    }

    method Stop(unit: string) returns (r: Reply)
      modifies this`pool, this`failures
      ensures Call(quiet, r, true, old(pool), DoStop(old(pool), unit), pool)
      ensures Counted(r, old(failures), failures)
    {
      var early;
      r, early := Fate();
      if r.Ok? || early {
        pool := DoStop(pool, unit);
      }
      if !r.Ok? { failures := failures + 1; }
    }

    /** Kill reports success whether or not the process went away. */
    method Kill(unit: string) returns (r: Reply)
      modifies this`pool
      ensures !r.Failed?
      ensures pool == old(pool) || pool == DoKill(old(pool), unit)
      ensures quiet ==> r.Ok? && pool == DoKill(old(pool), unit)
    {
      var early;
      r, early := Fate();
      if r.Ok? || early {
        if !quiet { early := *; } else { early := true; }
        if early { pool := DoKill(pool, unit); }
      }
      if r.Failed? { r := Ok; }
    }

    /** A failing probe reads as "not running". */
    method IsRunning(unit: string) returns (running: bool)
      ensures running ==> unit in pool.procs
      ensures quiet ==> running == (unit in pool.procs)
    {
      var r, _ := Fate();
      running := r.Ok? && unit in pool.procs;
    }

    /** ListBranchVolumes: the branch datasets, each once; or the listing fails. */
    method ListVolumes() returns (r: Reply, names: seq<string>)
      ensures r.Ok? ==> forall n :: n in names <==> Branch(n) in pool.vols
      ensures r.Ok? ==> forall i, j :: 0 <= i < j < |names| ==> names[i] != names[j]
      ensures quiet ==> r.Ok?
    {
      var early;
      r, early := Fate();
      names := [];
      var left := pool.vols.Keys;
      while left != {}
        invariant left <= pool.vols.Keys
        invariant forall n :: n in names <==> Branch(n) in pool.vols && Branch(n) !in left
        invariant forall i, j :: 0 <= i < j < |names| ==> names[i] != names[j]
      {
        var d :| d in left;
        if d.Branch? { names := names + [d.name]; }
        left := left - {d};
      }
    }

    /** A point between two statements. */
    method Alive() returns (r: Reply)
      ensures !r.Failed? && (quiet ==> r.Ok?)
    {
      var early;
      r, early := Fate();
      if r.Failed? { r := Ok; }
    }

    /** A client writes through the server of a unit. */
    method ClientWrite(unit: string, data: int)
      modifies this`pool
      ensures pool == DoWrite(old(pool), unit, data)
    {
      pool := DoWrite(pool, unit, data);
    }

    /** An engine goes away on its own. */
    method EngineDeath(unit: string)
      modifies this`pool
      ensures pool == DoKill(old(pool), unit)
    {
      pool := DoKill(pool, unit);
    }

    /** From here on nothing fails. */
    method Calm()
      modifies this`quiet
      ensures quiet
    {
      quiet := true;
    }

    /** A hook runs against the unit's server and writes what it likes, whether it ends well or not. */
    method Hook(script: Script, unit: string) returns (r: Reply)
      modifies this`pool, this`hooks, this`wrote, this`failures
      ensures hooks == old(hooks) + [(script, unit)]
      ensures pool == if wrote.Some? then DoWrite(old(pool), unit, wrote.value) else old(pool)
      ensures quiet ==> r.Ok?
      ensures Counted(r, old(failures), failures)
    {
      var early;
      r, early := Fate();
      hooks, wrote := hooks + [(script, unit)], None;
      var data: int := *;
      early := *;
      if early {
        pool, wrote := DoWrite(pool, unit, data), Some(data);
      }
      if !r.Ok? { failures := failures + 1; }
    }
  }
}
