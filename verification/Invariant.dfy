/** What holds of state.db and the pool after every single backend call and every single
    statement, so at every point where the daemon can die. */
module Invariant {
  import opened Names
  import opened Pool
  import opened Store

  // ---- the parts ----

  /** Row states between operations; the others mean an operation is under way. */
  predicate Settled(st: State) {
    st == Running || st == Sleeping || st == Error
  }

  /** Rows whose volume Reset or Wake will rely on. */
  predicate Usable(r: Row) {
    r.state == Running || r.state == Sleeping || (r.state == Error && r.failedOp == WakeOp)
  }

  /** The datasets a process of `unit` may be found on. */
  predicate Home(unit: string, ds: Dataset) {
    ds == Branch(unit) || ds == Branch(StashName(unit)) || (ds == Base && unit == REFRESH_UNIT)
  }

  predicate Twins(v: Volume, w: Volume) {
    v.guid == w.guid
  }

  predicate OldGuids(v: Volume, next: nat) {
    v.guid < next && (v.origin.ClonedFrom? ==> v.origin.guid < next)
  }

  ghost predicate GuidsOk(p: Pool) {
    && Base in p.vols
    && (forall d :: d in p.vols ==> OldGuids(p.vols[d], p.next))
    && (forall d, e :: d in p.vols && e in p.vols && Twins(p.vols[d], p.vols[e]) ==> d == e)
  }

  ghost predicate ProcsOk(p: Pool) {
    && (forall u :: u in p.procs ==> p.procs[u] < p.next && !HasSuffix(u, RECREATING_SUFFIX))
    && (forall u, d :: u in p.procs && Live(p, u, d) ==> Home(u, d) && p.vols[d].dirty)
  }

  predicate NoBaselineOn(bs: Baselines, name: string) {
    forall s :: s in bs ==> s.ds != Branch(name)
  }

  /** `lost`: baseline snapshots whose deletion was cut short between zfs and state.db. */
  ghost predicate RowOk(n: string, r: Row, bs: Baselines, p: Pool, lost: set<SnapRef>) {
    && !IsReserved(n)
    && (r.origin in bs || r.origin.ds == Base)
    && (r.origin !in lost ==> Exists(p, r.origin))
    && (r.initSnapshot.Some? ==> r.initSnapshot.value == SnapRef(Branch(n), INIT))
    && (Usable(r) ==> HasInit(p, n))
    && (!Settled(r.state) ==> NoBaselineOn(bs, n))
  }

  ghost predicate BaselineOk(s: SnapRef, rows: Rows, p: Pool, lost: set<SnapRef>) {
    && s.tag != INIT
    && (s !in lost <==> Exists(p, s))
    && (s.ds.Branch? ==> s.ds.name in rows)
  }

  predicate ClonedOff(v: Volume, w: Volume) {
    v.origin.ClonedFrom? && v.origin.guid == w.guid
  }

  /** A clone of anything but a base snapshot is a clone of a registered baseline. */
  ghost predicate ClonesOk(bs: Baselines, p: Pool) {
    forall d, e :: d in p.vols && e in p.vols && ClonedOff(p.vols[d], p.vols[e]) ==>
                     e == Base || SnapRef(e, p.vols[d].origin.tag) in bs
  }

  /** The dataset of a registered baseline is there, even when the snapshot is not. */
  predicate HousedOk(bs: Baselines, p: Pool) {
    forall s :: s in bs ==> s.ds in p.vols
  }

  ghost predicate PoolOk(bs: Baselines, p: Pool) {
    GuidsOk(p) && ProcsOk(p) && ClonesOk(bs, p) && HousedOk(bs, p)
  }

  ghost predicate CurrentOk(bs: Baselines, p: Pool, default: SnapRef) {
    && default.ds == Base && default.tag != INIT
    && AtMostOneCurrent(bs)
    && (!HasCurrent(bs) ==> Exists(p, default))
  }

  predicate PortsDistinct(rows: Rows) {
    forall n, m :: n in rows && m in rows && rows[n].port == rows[m].port ==> n == m
  }

  ghost predicate Inv(rows: Rows, bs: Baselines, p: Pool, default: SnapRef, lost: set<SnapRef>) {
    && PoolOk(bs, p)
    && (forall n :: n in rows ==> RowOk(n, rows[n], bs, p, lost))
    && lost <= bs.Keys
    && (forall s :: s in bs ==> BaselineOk(s, rows, p, lost))
    && CurrentOk(bs, p, default)
    && PortsDistinct(rows)
  }

  predicate SnapsClean(v: Volume) {
    forall i :: 0 <= i < |v.snaps| ==> v.snaps[i].clean
  }

  predicate OwnDirt(p: Pool, unit: string, ds: Dataset) {
    ds in p.vols && p.vols[ds].dirty ==> Live(p, unit, ds)
  }

  /** If engines stop only through Stop or Kill: every snapshot is clean, and the datadir of
      a usable branch, like the base datadir, is dirty only under its own live process. */
  ghost predicate Clean(rows: Rows, p: Pool) {
    && (forall d :: d in p.vols ==> SnapsClean(p.vols[d]))
    && (forall n :: n in rows && Usable(rows[n]) ==> OwnDirt(p, n, Branch(n)))
    && OwnDirt(p, REFRESH_UNIT, Base)
  }

  // ---- which rows name their volume's lineage ----

  /** The branch has a volume, and it was not cloned from the baseline its row names. */
  predicate Stray(rows: Rows, p: Pool, n: string) {
    n in rows && Branch(n) in p.vols && !CloneOf(p, Branch(n), rows[n].origin)
  }

  ghost predicate StraysAre(rows: Rows, p: Pool, strays: set<string>) {
    forall n :: n in strays <==> Stray(rows, p, n)
  }

  // ---- what the invariant says to a caller ----

  /** A volume without registered baselines has no clones, so zfs will let go of it. */
  lemma NothingBlocksDestroy(rows: Rows, bs: Baselines, p: Pool, default: SnapRef, lost: set<SnapRef>, name: string)
    requires Inv(rows, bs, p, default, lost)
    requires Branch(name) in p.vols && NoBaselineOn(bs, name)
    ensures CanDestroy(p, Branch(name))
    ensures HasInit(p, name) ==> CanRollback(p, SnapRef(Branch(name), INIT))
  {
    forall d | d in p.vols ensures !ClonedOff(p.vols[d], p.vols[Branch(name)]) {}
  }

  /** Nothing is registered under a stash name, nor under any other reserved name. */
  lemma NoBaselineOnReserved(rows: Rows, bs: Baselines, p: Pool, default: SnapRef, lost: set<SnapRef>, name: string)
    requires Inv(rows, bs, p, default, lost)
    requires IsReserved(name) || name !in rows
    ensures NoBaselineOn(bs, name)
  {
    forall s | s in bs ensures s.ds != Branch(name) {
      assert BaselineOk(s, rows, p, lost);
    }
  }

  /** The current baseline is registered or a base snapshot, and there unless its deletion was cut short. */
  lemma CurrentExists(rows: Rows, bs: Baselines, p: Pool, default: SnapRef, lost: set<SnapRef>)
    requires Inv(rows, bs, p, default, lost)
    ensures var c := CurrentOf(bs, default);
            (c in bs || c.ds == Base) && (c !in lost || !HasCurrent(bs) ==> Exists(p, c))
  {
    var c := CurrentOf(bs, default);
    if HasCurrent(bs) {
      var s :| s in bs && bs[s].current;
      CurrentIs(bs, default, s);
      assert BaselineOk(s, rows, p, lost);
    }
  }

  // ---- moving the invariant from one pool to the next ----

  /** Snapshots that rows, baselines or the default rely on. */
  ghost predicate Relied(rows: Rows, bs: Baselines, s: SnapRef) {
    || s in bs
    || s.ds == Base
    || (s.tag == INIT && s.ds.Branch? && s.ds.name in rows && Usable(rows[s.ds.name]))
  }

  lemma Transfer(rows: Rows, bs: Baselines, p: Pool, q: Pool, default: SnapRef, lost: set<SnapRef>)
    requires Inv(rows, bs, p, default, lost)
    requires PoolOk(bs, q)
    requires forall s :: Relied(rows, bs, s) && Exists(p, s) ==> Exists(q, s)
    requires forall s :: s in bs && Exists(q, s) ==> Exists(p, s)
    ensures Inv(rows, bs, q, default, lost)
  {
    hide PoolOk, PortsDistinct;
    forall n | n in rows ensures RowOk(n, rows[n], bs, q, lost) {
      var r := rows[n];
      assert RowOk(n, r, bs, p, lost);
      assert Relied(rows, bs, r.origin);
      if Usable(r) { assert Relied(rows, bs, SnapRef(Branch(n), INIT)); }
    }
    forall s | s in bs ensures BaselineOk(s, rows, q, lost) {
      assert BaselineOk(s, rows, p, lost);
      assert Relied(rows, bs, s);
    }
    assert Relied(rows, bs, default);
  }

  /** Same datasets, guids and origins: the clones are the same. Only the processes still need a look. */
  ghost predicate SameLineage(p: Pool, q: Pool) {
    && p.vols.Keys == q.vols.Keys && p.next == q.next
    && (forall d :: d in p.vols ==> q.vols[d].guid == p.vols[d].guid && q.vols[d].origin == p.vols[d].origin)
  }

  lemma LineageKeeps(bs: Baselines, p: Pool, q: Pool)
    requires SameLineage(p, q) && GuidsOk(p) && ClonesOk(bs, p) && HousedOk(bs, p) && ProcsOk(q)
    ensures PoolOk(bs, q)
  {
    forall d | d in q.vols ensures OldGuids(q.vols[d], q.next) {
      assert OldGuids(p.vols[d], p.next);
    }
    forall d, e | d in q.vols && e in q.vols && Twins(q.vols[d], q.vols[e]) ensures d == e {
      assert Twins(p.vols[d], p.vols[e]);
    }
    forall d, e | d in q.vols && e in q.vols && ClonedOff(q.vols[d], q.vols[e])
      ensures e == Base || SnapRef(e, q.vols[d].origin.tag) in bs {
      assert ClonedOff(p.vols[d], p.vols[e]);
    }
  }

  // ---- zfs commands ----

  lemma ClonePool(bs: Baselines, p: Pool, s: SnapRef, name: string)
    requires PoolOk(bs, p) && CanClone(p, s, Branch(name)) && (s.ds == Base || s in bs)
    ensures PoolOk(bs, DoClone(p, s, Branch(name)))
  {
    var q := DoClone(p, s, Branch(name));
    forall d | d in q.vols ensures OldGuids(q.vols[d], q.next) {
      assert d != Branch(name) ==> OldGuids(p.vols[d], p.next);
      assert OldGuids(p.vols[s.ds], p.next);
    }
    forall d, e | d in q.vols && e in q.vols && Twins(q.vols[d], q.vols[e]) ensures d == e {
      assert d != Branch(name) ==> OldGuids(p.vols[d], p.next);
      assert e != Branch(name) ==> OldGuids(p.vols[e], p.next);
      assert d != Branch(name) && e != Branch(name) ==> Twins(p.vols[d], p.vols[e]);
    }
    forall d, e | d in q.vols && e in q.vols && ClonedOff(q.vols[d], q.vols[e])
      ensures e == Base || SnapRef(e, q.vols[d].origin.tag) in bs {
      assert d != Branch(name) ==> OldGuids(p.vols[d], p.next);
      if d == Branch(name) {
        assert OldGuids(p.vols[s.ds], p.next);
        assert e != Branch(name);
        assert Twins(p.vols[s.ds], p.vols[e]);
      } else if e != Branch(name) {
        assert ClonedOff(p.vols[d], p.vols[e]);
      }
    }
    forall u, d | u in q.procs && Live(q, u, d) ensures Home(u, d) && q.vols[d].dirty {
      assert d != Branch(name);
      assert Live(p, u, d);
    }
  }

  lemma CloneKeeps(rows: Rows, bs: Baselines, p: Pool, default: SnapRef, lost: set<SnapRef>, s: SnapRef, name: string)
    requires Inv(rows, bs, p, default, lost)
    requires CanClone(p, s, Branch(name)) && (s.ds == Base || s in bs)
    ensures Inv(rows, bs, DoClone(p, s, Branch(name)), default, lost)
  {
    hide PoolOk, CurrentOk, PortsDistinct, RowOk, BaselineOk;
    ClonePool(bs, p, s, name);
    Transfer(rows, bs, p, DoClone(p, s, Branch(name)), default, lost);
  }

  lemma CloneClean(rows: Rows, bs: Baselines, p: Pool, default: SnapRef, lost: set<SnapRef>, s: SnapRef, name: string)
    requires Inv(rows, bs, p, default, lost) && Clean(rows, p)
    requires CanClone(p, s, Branch(name))
    ensures Clean(rows, DoClone(p, s, Branch(name)))
    ensures !DoClone(p, s, Branch(name)).vols[Branch(name)].dirty
  {
    var q := DoClone(p, s, Branch(name));
    assert SnapsClean(p.vols[s.ds]);
    forall n | n in rows && Usable(rows[n]) ensures OwnDirt(q, n, Branch(n)) {
      assert OwnDirt(p, n, Branch(n));
    }
  }

  lemma SnapshotKeeps(rows: Rows, bs: Baselines, p: Pool, default: SnapRef, lost: set<SnapRef>, s: SnapRef)
    requires Inv(rows, bs, p, default, lost)
    requires CanSnapshot(p, s) && s !in bs
    ensures Inv(rows, bs, DoSnapshot(p, s), default, lost)
    ensures Exists(DoSnapshot(p, s), s)
    ensures forall t :: Exists(p, t) ==> Exists(DoSnapshot(p, s), t)
  {
    hide GuidsOk, ClonesOk, HousedOk, CurrentOk, PortsDistinct, RowOk, BaselineOk;
    var q := DoSnapshot(p, s);
    var v, w := p.vols[s.ds], q.vols[s.ds];
    forall t | HasTag(v.snaps, t) ensures HasTag(w.snaps, t) {
      var i :| 0 <= i < |v.snaps| && v.snaps[i].tag == t;
      assert w.snaps[i].tag == t;
    }
    assert w.snaps[|v.snaps|].tag == s.tag;
    forall u, d | u in q.procs && Live(q, u, d) ensures Home(u, d) && q.vols[d].dirty {
      assert Live(p, u, d);
    }
    LineageKeeps(bs, p, q);
    Transfer(rows, bs, p, q, default, lost);
  }

  lemma SnapshotClean(rows: Rows, bs: Baselines, p: Pool, default: SnapRef, lost: set<SnapRef>, s: SnapRef)
    requires Inv(rows, bs, p, default, lost) && Clean(rows, p)
    requires CanSnapshot(p, s) && !p.vols[s.ds].dirty
    ensures Clean(rows, DoSnapshot(p, s))
  {
    var q := DoSnapshot(p, s);
    assert !AnyLive(p, s.ds);
    assert SnapsClean(p.vols[s.ds]);
    forall n | n in rows && Usable(rows[n]) ensures OwnDirt(q, n, Branch(n)) {
      assert OwnDirt(p, n, Branch(n));
    }
  }

  /** Stashing a volume, or putting a stashed one back. */
  predicate StashMove(a: string, b: string) {
    (b == StashName(a) && !HasSuffix(a, RECREATING_SUFFIX)) || (a == StashName(b) && !HasSuffix(b, RECREATING_SUFFIX))
  }

  lemma HomeMoves(a: string, b: string, unit: string)
    requires StashMove(a, b) && !HasSuffix(unit, RECREATING_SUFFIX)
    ensures Home(unit, Branch(a)) ==> Home(unit, Branch(b))
  {
    StashNames(unit, a);
    StashNames(unit, b);
    StashNames(a, unit);
    StashNames(b, unit);
  }

  lemma RenamePool(bs: Baselines, p: Pool, a: string, b: string)
    requires PoolOk(bs, p) && CanRename(p, Branch(a), Branch(b)) && StashMove(a, b) && NoBaselineOn(bs, a)
    ensures PoolOk(bs, DoRename(p, Branch(a), Branch(b)))
  {
    var q := DoRename(p, Branch(a), Branch(b));
    forall d | d in q.vols ensures OldGuids(q.vols[d], q.next) {
      assert OldGuids(p.vols[if d == Branch(b) then Branch(a) else d], p.next);
    }
    forall d, e | d in q.vols && e in q.vols && Twins(q.vols[d], q.vols[e]) ensures d == e {
      assert Twins(p.vols[if d == Branch(b) then Branch(a) else d], p.vols[if e == Branch(b) then Branch(a) else e]);
    }
    forall d, e | d in q.vols && e in q.vols && ClonedOff(q.vols[d], q.vols[e])
      ensures e == Base || SnapRef(e, q.vols[d].origin.tag) in bs {
      assert ClonedOff(p.vols[if d == Branch(b) then Branch(a) else d],
                       p.vols[if e == Branch(b) then Branch(a) else e]);
    }
    forall u, d | u in q.procs && Live(q, u, d) ensures Home(u, d) && q.vols[d].dirty {
      if d == Branch(b) {
        assert Live(p, u, Branch(a));
        HomeMoves(a, b, u);
      } else {
        assert Live(p, u, d);
      }
    }
  }

  lemma RenameKeeps(rows: Rows, bs: Baselines, p: Pool, default: SnapRef, lost: set<SnapRef>, a: string, b: string)
    requires Inv(rows, bs, p, default, lost)
    requires CanRename(p, Branch(a), Branch(b)) && StashMove(a, b) && NoBaselineOn(bs, a)
    requires a in rows ==> !Usable(rows[a])
    ensures Inv(rows, bs, DoRename(p, Branch(a), Branch(b)), default, lost)
  {
    hide GuidsOk, ProcsOk, ClonesOk, CurrentOk, PortsDistinct, RowOk, BaselineOk;
    RenamePool(bs, p, a, b);
    Transfer(rows, bs, p, DoRename(p, Branch(a), Branch(b)), default, lost);
  }

  lemma RenameClean(rows: Rows, bs: Baselines, p: Pool, default: SnapRef, lost: set<SnapRef>, a: string, b: string)
    requires Inv(rows, bs, p, default, lost) && Clean(rows, p)
    requires CanRename(p, Branch(a), Branch(b))
    requires a in rows ==> !Usable(rows[a])
    requires b in rows ==> !Usable(rows[b])
    ensures Clean(rows, DoRename(p, Branch(a), Branch(b)))
  {
    var q := DoRename(p, Branch(a), Branch(b));
    forall n | n in rows && Usable(rows[n]) ensures OwnDirt(q, n, Branch(n)) {
      assert OwnDirt(p, n, Branch(n));
    }
  }

  lemma RollbackKeeps(rows: Rows, bs: Baselines, p: Pool, default: SnapRef, lost: set<SnapRef>, name: string)
    requires Inv(rows, bs, p, default, lost)
    requires NoBaselineOn(bs, name) && CanRollback(p, SnapRef(Branch(name), INIT))
    ensures Inv(rows, bs, DoRollback(p, SnapRef(Branch(name), INIT)), default, lost)
    ensures HasInit(DoRollback(p, SnapRef(Branch(name), INIT)), name)
  {
    hide GuidsOk, ClonesOk, HousedOk, CurrentOk, PortsDistinct, RowOk, BaselineOk;
    var s := SnapRef(Branch(name), INIT);
    var q := DoRollback(p, s);
    var v, w := p.vols[s.ds], q.vols[s.ds];
    assert w.snaps[IndexOf(v.snaps, INIT)].tag == INIT;
    forall u, d | u in q.procs && Live(q, u, d) ensures Home(u, d) && q.vols[d].dirty {
      assert Live(p, u, d);
    }
    LineageKeeps(bs, p, q);
    Transfer(rows, bs, p, q, default, lost);
  }

  /** Whatever runs on the datadir of a branch is the branch's own engine. */
  lemma OnlyOwnEngine(p: Pool, name: string)
    requires ProcsOk(p) && !IsReserved(name) && AnyLive(p, Branch(name))
    ensures Live(p, name, Branch(name))
  {
    var u :| u in p.procs && Live(p, u, Branch(name));
    StashNames(u, name);
    assert Home(u, Branch(name));
  }

  lemma RollbackClean(rows: Rows, bs: Baselines, p: Pool, default: SnapRef, lost: set<SnapRef>, name: string)
    requires Inv(rows, bs, p, default, lost) && Clean(rows, p)
    requires CanRollback(p, SnapRef(Branch(name), INIT))
    requires !IsReserved(name)
    ensures Clean(rows, DoRollback(p, SnapRef(Branch(name), INIT)))
    ensures OwnDirt(DoRollback(p, SnapRef(Branch(name), INIT)), name, Branch(name))
  {
    hide GuidsOk, ClonesOk, HousedOk, CurrentOk, PortsDistinct, RowOk, BaselineOk, ProcsOk, IsReserved, AnyLive;
    var s := SnapRef(Branch(name), INIT);
    var q := DoRollback(p, s);
    assert SnapsClean(p.vols[s.ds]);
    if AnyLive(p, s.ds) { OnlyOwnEngine(p, name); }
    forall n | n in rows && Usable(rows[n]) ensures OwnDirt(q, n, Branch(n)) {
      assert OwnDirt(p, n, Branch(n));
    }
  }

  lemma DestroyPool(bs: Baselines, p: Pool, name: string)
    requires PoolOk(bs, p) && CanDestroy(p, Branch(name)) && NoBaselineOn(bs, name)
    ensures PoolOk(bs, DoDestroy(p, Branch(name)))
  {
    var q := DoDestroy(p, Branch(name));
    forall d, e | d in q.vols && e in q.vols && Twins(q.vols[d], q.vols[e]) ensures d == e {
      assert Twins(p.vols[d], p.vols[e]);
    }
    forall u, d | u in q.procs && Live(q, u, d) ensures Home(u, d) && q.vols[d].dirty {
      assert Live(p, u, d);
    }
  }

  lemma DestroyKeeps(rows: Rows, bs: Baselines, p: Pool, default: SnapRef, lost: set<SnapRef>, name: string)
    requires Inv(rows, bs, p, default, lost)
    requires CanDestroy(p, Branch(name)) && NoBaselineOn(bs, name)
    requires name in rows ==> !Usable(rows[name])
    ensures Inv(rows, bs, DoDestroy(p, Branch(name)), default, lost)
  {
    hide PoolOk, CurrentOk, PortsDistinct, RowOk, BaselineOk;
    DestroyPool(bs, p, name);
    Transfer(rows, bs, p, DoDestroy(p, Branch(name)), default, lost);
  }

  lemma DestroyClean(rows: Rows, p: Pool, name: string)
    requires Clean(rows, p) && CanDestroy(p, Branch(name))
    ensures Clean(rows, DoDestroy(p, Branch(name)))
  {
    var q := DoDestroy(p, Branch(name));
    forall n | n in rows && Usable(rows[n]) ensures OwnDirt(q, n, Branch(n)) {
      assert OwnDirt(p, n, Branch(n));
    }
  }

  predicate Unreferenced(rows: Rows, s: SnapRef) {
    forall n :: n in rows ==> rows[n].origin != s
  }

  /** A baseline that DeleteBaseline and GCBaselines may take away. */
  ghost predicate Removable(rows: Rows, bs: Baselines, default: SnapRef, s: SnapRef) {
    s in bs && s != CurrentOf(bs, default) && Unreferenced(rows, s)
  }

  lemma RemovableIsNotCurrent(rows: Rows, bs: Baselines, default: SnapRef, s: SnapRef)
    requires Removable(rows, bs, default, s) && AtMostOneCurrent(bs)
    ensures !bs[s].current
    ensures HasCurrent(bs) ==> HasCurrent(bs - {s})
  {
    if bs[s].current { CurrentIs(bs, default, s); }
    if HasCurrent(bs) {
      var c :| c in bs && bs[c].current;
      assert (bs - {s})[c].current;
    }
  }

  /** A registered baseline is lost exactly when its snapshot is not there. */
  lemma LostIsGone(rows: Rows, bs: Baselines, p: Pool, default: SnapRef, lost: set<SnapRef>, s: SnapRef)
    requires Inv(rows, bs, p, default, lost) && s in bs
    ensures s in lost <==> !Exists(p, s)
  {
    hide PoolOk, CurrentOk;
    assert BaselineOk(s, rows, p, lost);
  }

  /** Between zfs destroy and the statement that follows it, the registered snapshot is lost. */
  lemma OneSnapLess(p: Pool, s: SnapRef, t: SnapRef)
    requires CanDestroySnap(p, s)
    ensures Exists(DoDestroySnap(p, s), t) <==> Exists(p, t) && t != s
    ensures SameLineage(p, DoDestroySnap(p, s)) && DoDestroySnap(p, s).procs == p.procs && s.ds in p.vols
    ensures forall d :: d in p.vols ==> DoDestroySnap(p, s).vols[d].dirty == p.vols[d].dirty
  {
    hide HasTag;
  }

  lemma DestroySnapKeeps(rows: Rows, bs: Baselines, p: Pool, default: SnapRef, lost: set<SnapRef>, s: SnapRef)
    requires Inv(rows, bs, p, default, lost)
    requires Removable(rows, bs, default, s) && CanDestroySnap(p, s)
    ensures Inv(rows, bs, DoDestroySnap(p, s), default, lost + {s})
  {
    hide GuidsOk, ClonesOk, HousedOk, PortsDistinct, Exists;
    OneSnapLess(p, s, s);
    var q := DoDestroySnap(p, s);
    RemovableIsNotCurrent(rows, bs, default, s);
    forall t ensures Exists(q, t) <==> Exists(p, t) && t != s { OneSnapLess(p, s, t); }
    assert BaselineOk(s, rows, p, lost);
    forall u, d | u in q.procs && Live(q, u, d) ensures Home(u, d) && q.vols[d].dirty {
      assert Live(p, u, d);
    }
    LineageKeeps(bs, p, q);
    forall n | n in rows ensures RowOk(n, rows[n], bs, q, lost + {s}) {
      assert RowOk(n, rows[n], bs, p, lost);
    }
    forall t | t in bs ensures BaselineOk(t, rows, q, lost + {s}) {
      assert BaselineOk(t, rows, p, lost);
    }
  }

  lemma DestroySnapClean(rows: Rows, p: Pool, s: SnapRef)
    requires Clean(rows, p) && CanDestroySnap(p, s)
    ensures Clean(rows, DoDestroySnap(p, s))
  {
    var q := DoDestroySnap(p, s);
    assert SnapsClean(p.vols[s.ds]);
    forall n | n in rows && Usable(rows[n]) ensures OwnDirt(q, n, Branch(n)) {
      assert OwnDirt(p, n, Branch(n));
    }
  }

  // ---- engine units ----

  lemma StartKeeps(rows: Rows, bs: Baselines, p: Pool, default: SnapRef, lost: set<SnapRef>, unit: string, ds: Dataset)
    requires Inv(rows, bs, p, default, lost)
    requires ds in p.vols && Home(unit, ds) && !HasSuffix(unit, RECREATING_SUFFIX)
    ensures Inv(rows, bs, DoStart(p, unit, ds), default, lost)
  {
    hide ClonesOk, HousedOk, CurrentOk, PortsDistinct, RowOk, BaselineOk;
    var q := DoStart(p, unit, ds);
    forall u, d | u in q.procs && Live(q, u, d) ensures Home(u, d) && q.vols[d].dirty {
      if u != unit || unit in p.procs { assert Live(p, u, d); }
    }
    LineageKeeps(bs, p, q);
    Transfer(rows, bs, p, q, default, lost);
  }

  lemma StartClean(rows: Rows, p: Pool, unit: string, ds: Dataset)
    requires Clean(rows, p) && ds in p.vols
    requires ds == Branch(unit) || (ds == Base && unit == REFRESH_UNIT)
    ensures Clean(rows, DoStart(p, unit, ds))
    ensures OwnDirt(p, unit, ds) ==> OwnDirt(DoStart(p, unit, ds), unit, ds)
  {
    var q := DoStart(p, unit, ds);
    forall n | n in rows && Usable(rows[n]) ensures OwnDirt(q, n, Branch(n)) {
      assert OwnDirt(p, n, Branch(n));
    }
  }

  lemma StopKeeps(rows: Rows, bs: Baselines, p: Pool, default: SnapRef, lost: set<SnapRef>, unit: string)
    requires Inv(rows, bs, p, default, lost)
    ensures Inv(rows, bs, DoStop(p, unit), default, lost)
  {
    hide GuidsOk, ClonesOk, HousedOk, CurrentOk, PortsDistinct, RowOk, BaselineOk;
    var q := DoStop(p, unit);
    forall u, d | u in q.procs && Live(q, u, d) ensures Home(u, d) && q.vols[d].dirty {
      assert Live(p, u, d);
      if unit in p.procs && p.vols[d].guid == p.procs[unit] {
        assert Live(p, unit, d);
        StashNames(u, unit);
        StashNames(unit, u);
      }
    }
    LineageKeeps(bs, p, q);
    Transfer(rows, bs, p, q, default, lost);
  }

  /** After a graceful stop the datadir is clean if it was dirty only under that process. */
  lemma StopClean(rows: Rows, p: Pool, unit: string)
    requires Clean(rows, p)
    ensures Clean(rows, DoStop(p, unit))
    ensures forall ds :: ds in p.vols && OwnDirt(p, unit, ds) ==> !DoStop(p, unit).vols[ds].dirty
  {
    var q := DoStop(p, unit);
    forall d | d in q.vols ensures SnapsClean(q.vols[d]) {
      assert SnapsClean(p.vols[d]);
    }
    forall n | n in rows && Usable(rows[n]) ensures OwnDirt(q, n, Branch(n)) {
      assert OwnDirt(p, n, Branch(n));
    }
  }

  lemma KillKeeps(rows: Rows, bs: Baselines, p: Pool, default: SnapRef, lost: set<SnapRef>, unit: string)
    requires Inv(rows, bs, p, default, lost)
    ensures Inv(rows, bs, DoKill(p, unit), default, lost)
  {
    hide GuidsOk, ClonesOk, HousedOk, CurrentOk, PortsDistinct, RowOk, BaselineOk;
    var q := DoKill(p, unit);
    forall u, d | u in q.procs && Live(q, u, d) ensures Home(u, d) && q.vols[d].dirty {
      assert Live(p, u, d);
    }
    LineageKeeps(bs, p, q);
    Transfer(rows, bs, p, q, default, lost);
  }

  lemma KillClean(rows: Rows, p: Pool, unit: string)
    requires Clean(rows, p) && unit != REFRESH_UNIT
    requires unit in rows ==> !Usable(rows[unit])
    ensures Clean(rows, DoKill(p, unit))
  {
    var q := DoKill(p, unit);
    forall n | n in rows && Usable(rows[n]) ensures OwnDirt(q, n, Branch(n)) {
      assert OwnDirt(p, n, Branch(n));
    }
  }

  lemma WriteKeeps(rows: Rows, bs: Baselines, p: Pool, default: SnapRef, lost: set<SnapRef>, unit: string, data: int)
    requires Inv(rows, bs, p, default, lost)
    ensures Inv(rows, bs, DoWrite(p, unit, data), default, lost)
    ensures Clean(rows, p) ==> Clean(rows, DoWrite(p, unit, data))
  {
    hide GuidsOk, ClonesOk, HousedOk, CurrentOk, PortsDistinct, RowOk, BaselineOk;
    var q := DoWrite(p, unit, data);
    forall u, d | u in q.procs && Live(q, u, d) ensures Home(u, d) && q.vols[d].dirty {
      assert Live(p, u, d);
    }
    LineageKeeps(bs, p, q);
    Transfer(rows, bs, p, q, default, lost);
    if Clean(rows, p) {
      forall d | d in q.vols ensures SnapsClean(q.vols[d]) {
        assert SnapsClean(p.vols[d]);
      }
      forall n | n in rows && Usable(rows[n]) ensures OwnDirt(q, n, Branch(n)) {
        assert OwnDirt(p, n, Branch(n));
      }
    }
  }

  // ---- statements ----

  /** An insert or update of one row: that row must be in order, and its port free. */
  lemma RowKeeps(rows: Rows, bs: Baselines, p: Pool, default: SnapRef, lost: set<SnapRef>, n: string, r: Row)
    requires Inv(rows, bs, p, default, lost)
    requires RowOk(n, r, bs, p, lost)
    requires forall m :: m in rows && m != n ==> rows[m].port != r.port
    ensures Inv(rows[n := r], bs, p, default, lost)
  {
    hide PoolOk, CurrentOk;
    forall t | t in bs ensures BaselineOk(t, rows[n := r], p, lost) {
      assert BaselineOk(t, rows, p, lost);
    }
  }

  lemma DropRowKeeps(rows: Rows, bs: Baselines, p: Pool, default: SnapRef, lost: set<SnapRef>, n: string)
    requires Inv(rows, bs, p, default, lost)
    requires NoBaselineOn(bs, n)
    ensures Inv(rows - {n}, bs, p, default, lost)
    ensures Clean(rows, p) ==> Clean(rows - {n}, p)
  {
    forall t | t in bs ensures BaselineOk(t, rows - {n}, p, lost) {
      assert BaselineOk(t, rows, p, lost);
    }
    forall m | m in rows - {n} ensures RowOk(m, (rows - {n})[m], bs, p, lost) {
      assert RowOk(m, rows[m], bs, p, lost);
    }
  }

  lemma RegisterPool(bs: Baselines, cs: Baselines, p: Pool, s: SnapRef)
    requires PoolOk(bs, p) && s.ds in p.vols && cs.Keys == bs.Keys + {s}
    ensures PoolOk(cs, p)
  {
    hide GuidsOk, ProcsOk;
  }

  lemma RegisterCurrent(bs: Baselines, p: Pool, default: SnapRef, s: SnapRef, masked: bool, validated: bool, now: int)
    requires CurrentOk(bs, p, default)
    ensures CurrentOk(Registered(bs, s, masked, validated, now), p, default)
    ensures HasCurrent(Registered(bs, s, masked, validated, now)) <==> HasCurrent(bs)
    ensures CurrentOf(Registered(bs, s, masked, validated, now), default) == CurrentOf(bs, default)
  {
    hide Exists;
    var cs := Registered(bs, s, masked, validated, now);
    if HasCurrent(bs) {
      var c :| c in bs && bs[c].current;
      CurrentIs(bs, default, c);
      CurrentIs(cs, default, c);
    }
  }

  /** A new or renewed registration; on a branch's dataset only while no operation rebuilds the branch. */
  lemma RegisterKeeps(rows: Rows, bs: Baselines, p: Pool, default: SnapRef, lost: set<SnapRef>,
                      s: SnapRef, masked: bool, validated: bool, now: int)
    requires Inv(rows, bs, p, default, lost)
    requires BaselineOk(s, rows, p, lost) && s.ds in p.vols
    requires s.ds.Branch? ==> Settled(rows[s.ds.name].state)
    ensures Inv(rows, Registered(bs, s, masked, validated, now), p, default, lost)
  {
    hide PoolOk, CurrentOk, PortsDistinct;
    var cs := Registered(bs, s, masked, validated, now);
    RegisterPool(bs, cs, p, s);
    RegisterCurrent(bs, p, default, s, masked, validated, now);
    forall n | n in rows ensures RowOk(n, rows[n], cs, p, lost) {
      assert RowOk(n, rows[n], bs, p, lost);
    }
  }

  lemma MakeCurrentKeeps(rows: Rows, bs: Baselines, p: Pool, default: SnapRef, lost: set<SnapRef>, s: SnapRef, now: int)
    requires Inv(rows, bs, p, default, lost) && s in bs
    ensures Inv(rows, MadeCurrent(bs, s, now), p, default, lost)
    ensures HasCurrent(MadeCurrent(bs, s, now)) && CurrentOf(MadeCurrent(bs, s, now), default) == s
  {
    var cs := MadeCurrent(bs, s, now);
    assert cs[s].current;
    CurrentIs(cs, default, s);
    forall n | n in rows ensures RowOk(n, rows[n], cs, p, lost) {
      assert RowOk(n, rows[n], bs, p, lost);
    }
    forall t | t in cs ensures BaselineOk(t, rows, p, lost) {
      assert t in bs;
      assert BaselineOk(t, rows, p, lost);
    }
  }

  lemma ForgetPool(bs: Baselines, p: Pool, s: SnapRef)
    requires PoolOk(bs, p) && (s.ds in p.vols ==> !Cloned(p, p.vols[s.ds].guid, s.tag))
    ensures PoolOk(bs - {s}, p)
  {
    hide GuidsOk, ProcsOk;
    forall d, e | d in p.vols && e in p.vols && ClonedOff(p.vols[d], p.vols[e])
      ensures e == Base || SnapRef(e, p.vols[d].origin.tag) in bs - {s} {
      assert e == s.ds ==> p.vols[d].origin == ClonedFrom(p.vols[s.ds].guid, p.vols[d].origin.tag);
    }
  }

  lemma ForgetCurrent(rows: Rows, bs: Baselines, p: Pool, default: SnapRef, s: SnapRef)
    requires CurrentOk(bs, p, default) && Removable(rows, bs, default, s)
    ensures CurrentOk(bs - {s}, p, default)
  {
    RemovableIsNotCurrent(rows, bs, default, s);
  }

  /** The row of a deleted baseline whose snapshot is gone. */
  lemma ForgetBaselineKeeps(rows: Rows, bs: Baselines, p: Pool, default: SnapRef, lost: set<SnapRef>, s: SnapRef)
    requires Inv(rows, bs, p, default, lost + {s}) && s !in lost
    requires Removable(rows, bs, default, s)
    requires s.ds in p.vols ==> !Cloned(p, p.vols[s.ds].guid, s.tag)
    ensures Inv(rows, bs - {s}, p, default, lost)
  {
    hide PoolOk, CurrentOk, PortsDistinct;
    var cs := bs - {s};
    ForgetPool(bs, p, s);
    ForgetCurrent(rows, bs, p, default, s);
    forall n | n in rows ensures RowOk(n, rows[n], cs, p, lost) {
      assert RowOk(n, rows[n], bs, p, lost + {s});
    }
    forall t | t in cs ensures BaselineOk(t, rows, p, lost) {
      assert BaselineOk(t, rows, p, lost + {s});
    }
  }

  // ---- lineage ----

  lemma StraysStay(rows: Rows, p: Pool, q: Pool, strays: set<string>)
    requires StraysAre(rows, p, strays) && SameLineage(p, q)
    ensures StraysAre(rows, q, strays)
  {
    forall n ensures Stray(rows, q, n) <==> Stray(rows, p, n) {}
  }

  lemma StraysByOrigin(rows: Rows, rows': Rows, p: Pool, strays: set<string>)
    requires StraysAre(rows, p, strays) && rows'.Keys == rows.Keys
    requires forall n :: n in rows ==> rows'[n].origin == rows[n].origin
    ensures StraysAre(rows', p, strays)
  {
    forall n ensures Stray(rows', p, n) <==> Stray(rows, p, n) {}
  }

  /** A branch's volume and its stash may come and go without a change for other rows, as long as no
      baseline lives there. */
  lemma OtherStrays(rows: Rows, bs: Baselines, p: Pool, q: Pool, default: SnapRef, lost: set<SnapRef>, name: string,
                    n: string)
    requires Inv(rows, bs, p, default, lost) && HousedOk(bs, q) && Base in q.vols
    requires NoBaselineOn(bs, name) && n != name
    requires forall d :: d != Branch(name) && d != Branch(StashName(name)) ==>
               (d in p.vols <==> d in q.vols) && (d in p.vols && d in q.vols ==> q.vols[d] == p.vols[d])
    ensures Stray(rows, q, n) <==> Stray(rows, p, n)
  {
    hide PoolOk, CurrentOk, PortsDistinct, IsReserved;
    StashNames(name, name);
    NoBaselineOnReserved(rows, bs, p, default, lost, StashName(name));
    if n in rows {
      assert RowOk(n, rows[n], bs, p, lost);
      assert rows[n].origin.ds != Branch(name) && rows[n].origin.ds != Branch(StashName(name));
    }
  }

  /** Two references to what a volume was cloned from are the same. */
  lemma OneOrigin(p: Pool, ds: Dataset, s: SnapRef, t: SnapRef)
    requires GuidsOk(p) && CloneOf(p, ds, s) && t.ds in p.vols
    ensures CloneOf(p, ds, t) <==> t == s
  {
    if CloneOf(p, ds, t) { assert Twins(p.vols[s.ds], p.vols[t.ds]); }
  }
}
