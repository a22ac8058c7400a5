/** Where runs begin, and a concrete one that ends with a branch whose row names another lineage. */
module Start {
  import opened Names
  import opened Pool
  import opened Store
  import opened Host
  import opened Invariant
  import opened Manager
  import opened Runs

  // ---- a machine that was just set up ----

  /** A base datadir that was stopped and snapshotted, no branches and no processes. */
  function FreshPool(tag: string, data: int): Pool {
    Pool(map[Base := Volume(0, NoOrigin, [Snapshot(tag, data, true)], data, false)], map[], 1)
  }

  lemma FreshStart(default: SnapRef, data: int)
    requires default.ds == Base && default.tag != INIT
    ensures Inv(map[], map[], FreshPool(default.tag, data), default, {})
    ensures Clean(map[], FreshPool(default.tag, data))
  {
    var p := FreshPool(default.tag, data);
    assert p.vols[Base].snaps[0].tag == default.tag;
    assert !HasCurrent(map[]);
  }

  /** Every run of a machine that was just set up keeps the invariant. It loses a registered baseline only to a
      deletion the daemon died in, a row names another lineage than its volume's only since a command that may do
      that, and a sleeping row has a live process only since a promotion or a restart that may rouse it. */
  method RunFromStart(cfg: Config, data: int, commands: seq<Command>)
    returns (m: Manager, ghost cuts: seq<Cut>, ghost trace: seq<Moment>)
    requires cfg.default.ds == Base && cfg.default.tag != INIT && TagsFresh(map[], commands)
    ensures fresh(m) && fresh(m.db) && fresh(m.host) && m.cfg == cfg
    ensures m.Valid() && m.lost == Victims(cuts) && CutsOk(cuts, commands, cfg.default)
    ensures forall s :: s in m.db.baselines ==> exists i :: 0 <= i < |commands| && TagOf(commands[i]) == Some(s.tag)
    ensures |trace| == |commands| + 1 && trace[|commands|].strays == m.strays
    ensures forall n :: n in m.strays ==>
              exists i: nat :: i < |commands| && SlippedAt(trace, commands, i, n, cfg.default)
    ensures forall n :: Sleepwalks(m.db.rows, m.host.pool, n) ==>
              exists i: nat :: i < |commands| && RousedAt(trace, commands, i, n)
    ensures (forall c :: c in commands ==> !c.DeathCmd?) ==> m.faithful
  {
    hide Inv, Clean, TagsFresh, CutsOk, Victims, Lineage, MaySlip, LineageStep, RouseStep, MayRouse;
    FreshStart(cfg.default, data);
    var db := new DB(map[], map[]);
    var host := new Host(FreshPool(cfg.default.tag, data));
    m := new Manager(cfg, db, host);
    NobodyStrays(m);
    cuts, trace := Run(m, commands);
    forall n | n in m.strays ensures exists i: nat :: i < |commands| && SlippedAt(trace, commands, i, n, cfg.default) {
      StrayHistory(trace, commands, |commands|, n, cfg.default);
    }
    forall n | Sleepwalks(m.db.rows, m.host.pool, n)
      ensures exists i: nat :: i < |commands| && RousedAt(trace, commands, i, n) {
      SleepwalkHistory(trace, commands, |commands|, n, cfg.default);
      assert !Sleepwalks(trace[0].rows, trace[0].pool, n);
    }
  }

  lemma NobodyStrays(m: Manager)
    requires m.Valid() && m.db.rows == map[]
    ensures m.strays == {}
  {
    hide Inv, Clean;
  }

  // ---- a branch that comes up on one baseline while its row names another ----

  const NAME := "a"
  const OWN := Branch(NAME)
  const ASIDE := StashName(NAME)
  const ONE := SnapRef(Base, "one")
  const TWO := SnapRef(Base, "two")
  const AT_INIT := SnapRef(OWN, INIT)

  const ROW := Row(Sleeping, 3310, ONE, NoOp, false, Some(AT_INIT), "", 0, None, None, None)
  const ROWS: Rows := map[NAME := ROW]
  const BASELINES: Baselines := map[TWO := BaselineRow(0, true, true, true)]

  function BaseVolume(): Volume {
    Volume(0, NoOrigin, [Snapshot("one", 1, true), Snapshot("two", 2, true)], 2, false)
  }

  /** Asleep on a clone of the first base snapshot, while the second is current. */
  function AsleepOnOne(): Pool {
    Pool(map[Base := BaseVolume(), OWN := Volume(1, ClonedFrom(0, "one"), [Snapshot(INIT, 1, true)], 1, false)], map[],
         2)
  }

  lemma AsleepIsSound()
    ensures Inv(ROWS, BASELINES, AsleepOnOne(), ONE, {}) && Clean(ROWS, AsleepOnOne())
    ensures CurrentOf(BASELINES, ONE) == TWO && CloneOf(AsleepOnOne(), OWN, ONE)
  {
    hide PoolOk, CurrentOk, HasTag, IsReserved, CurrentOf;
    AsleepPool();
    AsleepTables();
  }

  lemma AsleepPool()
    ensures PoolOk(BASELINES, AsleepOnOne()) && Clean(ROWS, AsleepOnOne())
    ensures Exists(AsleepOnOne(), ONE) && Exists(AsleepOnOne(), TWO) && HasInit(AsleepOnOne(), NAME)
  {
    hide Clean, HasTag;
    AsleepSnaps();
    assert GuidsOk(AsleepOnOne()) && ProcsOk(AsleepOnOne());
    assert ClonesOk(BASELINES, AsleepOnOne()) && HousedOk(BASELINES, AsleepOnOne());
  }

  lemma AsleepSnaps()
    ensures Exists(AsleepOnOne(), ONE) && Exists(AsleepOnOne(), TWO) && HasInit(AsleepOnOne(), NAME)
    ensures Clean(ROWS, AsleepOnOne())
  {
    var p := AsleepOnOne();
    var one, init := p.vols[Base].snaps, p.vols[OWN].snaps;
    assert one[0].tag == "one" && one[1].tag == "two" && init[0].tag == INIT;
    assert SnapsClean(p.vols[Base]) && SnapsClean(p.vols[OWN]);
  }

  lemma AsleepTables()
    ensures CurrentOk(BASELINES, AsleepOnOne(), ONE) && CurrentOf(BASELINES, ONE) == TWO
    ensures !IsReserved(NAME)
  {
    assert BASELINES[TWO].current;
    CurrentIs(BASELINES, ONE, TWO);
  }

  /** What recreateFrom's calls make of it up to the start of the finished volume. */
  function RebuiltOnTwo(): Pool {
    Pool(map[Base := BaseVolume(), Branch(ASIDE) := AsleepOnOne().vols[OWN],
             OWN := Volume(2, ClonedFrom(0, "two"), [Snapshot(INIT, 2, true)], 2, false)], map[], 3)
  }

  /** Every call of Recreate succeeds - the old volume is set aside, the second base snapshot cloned, the clone
      started, its hook run, stopped and snapshotted - until the last, which starts the engine and fails. The
      row, in error now, still names the first snapshot; Reset finds the @init it needs and the branch runs. */
  lemma RecreateThenResetStrays()
    ensures var p, q := AsleepOnOne(), RebuiltOnTwo();
            && CanRename(p, OWN, Branch(ASIDE))
            && var p1 := DoRename(p, OWN, Branch(ASIDE));
            && CanClone(p1, TWO, OWN)
            && var p2 := DoClone(p1, TWO, OWN);
            && OWN in p2.vols
            && var p3 := DoStop(DoStart(p2, NAME, OWN), NAME);
            && CanSnapshot(p3, AT_INIT) && DoSnapshot(p3, AT_INIT) == q
            && Call(false, Failed, true, q, DoStart(q, NAME, OWN), q)
    ensures var q := RebuiltOnTwo();
            && CanRollback(q, AT_INIT)
            && var r := DoStart(DoRollback(q, AT_INIT), NAME, OWN);
            && Live(r, NAME, OWN) && HasInit(r, NAME)
            && CloneOf(r, OWN, TWO) && !CloneOf(r, OWN, ONE) && Stray(ROWS, r, NAME)
  {
    var p, q := AsleepOnOne(), RebuiltOnTwo();
    StashNames(NAME, NAME);
    var p1 := DoRename(p, OWN, Branch(ASIDE));
    assert p1.vols[Base].snaps[1].tag == "two";
    assert At(p1, TWO) == Snapshot("two", 2, true);
    var p2 := DoClone(p1, TWO, OWN);
    var p3 := DoStop(DoStart(p2, NAME, OWN), NAME);
    assert p3.procs == map[] && !AnyLive(p3, OWN);
    assert p3.vols[OWN] == Volume(2, ClonedFrom(0, "two"), [], 2, false);
    assert DoSnapshot(p3, AT_INIT).vols[OWN] == q.vols[OWN];
    assert DoSnapshot(p3, AT_INIT).vols == q.vols;
    assert q.vols[OWN].snaps[0].tag == INIT;
    var r := DoStart(DoRollback(q, AT_INIT), NAME, OWN);
    assert r.vols[OWN].snaps[0].tag == INIT;
  }
}
