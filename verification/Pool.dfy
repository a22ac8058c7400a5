/** The storage pool and the database processes that run on it, as the zfs and systemctl
    commands issued by the ebs-zfs backend and the MySQL engine change them.

    A dataset is found by its name; its guid survives a rename. A clone remembers the guid
    and tag it was cloned from, and a process keeps the guid of the datadir it opened. */
module Pool {
  import opened Names

  datatype Dataset = Base | Branch(name: string)

  datatype SnapRef = SnapRef(ds: Dataset, tag: string)

  /** `clean`: taken of a datadir without a live process and after a graceful stop. */
  datatype Snapshot = Snapshot(tag: string, data: int, clean: bool)

  datatype Origin = NoOrigin | ClonedFrom(guid: nat, tag: string)

  /** `snaps` is oldest first. `dirty`: a start on this datadir needs crash recovery. */
  datatype Volume = Volume(guid: nat, origin: Origin, snaps: seq<Snapshot>, data: int, dirty: bool)

  /** `procs` maps a unit to the guid of the volume its process runs on. */
  datatype Pool = Pool(vols: map<Dataset, Volume>, procs: map<string, nat>, next: nat)

  const INIT := "init"

  predicate HasTag(snaps: seq<Snapshot>, tag: string) {
    exists i :: 0 <= i < |snaps| && snaps[i].tag == tag
  }

  function IndexOf(snaps: seq<Snapshot>, tag: string): (i: nat)
    requires HasTag(snaps, tag)
    ensures i < |snaps| && snaps[i].tag == tag
    ensures forall j :: 0 <= j < i ==> snaps[j].tag != tag
  {
    if snaps[0].tag == tag then 0
    else
      assert HasTag(snaps[1..], tag) by {
        var i :| 0 <= i < |snaps| && snaps[i].tag == tag;
        assert snaps[1..][i - 1].tag == tag;
      }
      1 + IndexOf(snaps[1..], tag)
  }

  predicate Exists(p: Pool, s: SnapRef) {
    s.ds in p.vols && HasTag(p.vols[s.ds].snaps, s.tag)
  }

  function At(p: Pool, s: SnapRef): Snapshot
    requires Exists(p, s)
  {
    var snaps := p.vols[s.ds].snaps;
    snaps[IndexOf(snaps, s.tag)]
  }

  /** Some volume is still a clone of snapshot `tag` of the dataset with this guid. */
  predicate Cloned(p: Pool, guid: nat, tag: string) {
    exists d :: d in p.vols && p.vols[d].origin == ClonedFrom(guid, tag)
  }

  predicate Live(p: Pool, unit: string, ds: Dataset) {
    ds in p.vols && unit in p.procs && p.procs[unit] == p.vols[ds].guid
  }

  predicate AnyLive(p: Pool, ds: Dataset) {
    exists unit :: unit in p.procs && Live(p, unit, ds)
  }

  predicate HasInit(p: Pool, name: string) {
    Exists(p, SnapRef(Branch(name), INIT))
  }

  /** Volume `ds` was cloned from snapshot `s`, which is still where it was. */
  predicate CloneOf(p: Pool, ds: Dataset, s: SnapRef) {
    ds in p.vols && s.ds in p.vols && p.vols[ds].origin == ClonedFrom(p.vols[s.ds].guid, s.tag)
  }

  // ---- zfs commands: when they are accepted, and what they do ----

  predicate CanClone(p: Pool, s: SnapRef, ds: Dataset) {
    Exists(p, s) && ds !in p.vols
  }

  function DoClone(p: Pool, s: SnapRef, ds: Dataset): Pool
    requires CanClone(p, s, ds)
  {
    var snap := At(p, s);
    p.(vols := p.vols[ds := Volume(p.next, ClonedFrom(p.vols[s.ds].guid, s.tag), [], snap.data, !snap.clean)],
       next := p.next + 1)
  }

  predicate CanSnapshot(p: Pool, s: SnapRef) {
    s.ds in p.vols && !HasTag(p.vols[s.ds].snaps, s.tag)
  }

  function DoSnapshot(p: Pool, s: SnapRef): Pool
    requires CanSnapshot(p, s)
  {
    var v := p.vols[s.ds];
    p.(vols := p.vols[s.ds := v.(snaps := v.snaps + [Snapshot(s.tag, v.data, !v.dirty && !AnyLive(p, s.ds))])])
  }

  predicate CanRename(p: Pool, from: Dataset, to: Dataset) {
    from in p.vols && to !in p.vols
  }

  function DoRename(p: Pool, from: Dataset, to: Dataset): Pool
    requires CanRename(p, from, to)
  {
    p.(vols := (p.vols - {from})[to := p.vols[from]])
  }

  /** `zfs rollback -r`: refused while a later snapshot has clones. */
  predicate CanRollback(p: Pool, s: SnapRef) {
    Exists(p, s) &&
    var v := p.vols[s.ds];
    forall j :: IndexOf(v.snaps, s.tag) < j < |v.snaps| ==> !Cloned(p, v.guid, v.snaps[j].tag)
  }

  /** Later snapshots are dropped with the data written since. */
  function DoRollback(p: Pool, s: SnapRef): Pool
    requires CanRollback(p, s)
  {
    var v := p.vols[s.ds];
    var i := IndexOf(v.snaps, s.tag);
    p.(vols := p.vols[s.ds := v.(snaps := v.snaps[..i + 1], data := v.snaps[i].data,
                                 dirty := !v.snaps[i].clean || AnyLive(p, s.ds))])
  }

  /** `zfs destroy -r`: refused while any snapshot of the dataset has clones. */
  predicate CanDestroy(p: Pool, ds: Dataset) {
    ds in p.vols && ds != Base &&
    forall i :: 0 <= i < |p.vols[ds].snaps| ==> !Cloned(p, p.vols[ds].guid, p.vols[ds].snaps[i].tag)
  }

  function DoDestroy(p: Pool, ds: Dataset): Pool
    requires CanDestroy(p, ds)
  {
    p.(vols := p.vols - {ds})
  }

  predicate CanDestroySnap(p: Pool, s: SnapRef) {
    Exists(p, s) && !Cloned(p, p.vols[s.ds].guid, s.tag)
  }

  function Without(snaps: seq<Snapshot>, tag: string): (r: seq<Snapshot>)
    ensures forall t :: HasTag(r, t) <==> HasTag(snaps, t) && t != tag
    ensures (forall i :: 0 <= i < |snaps| ==> snaps[i].clean) ==> forall i :: 0 <= i < |r| ==> r[i].clean
  {
    if snaps == [] then []
    else
      var rest := Without(snaps[1..], tag);
      var r := if snaps[0].tag == tag then rest else [snaps[0]] + rest;
      assert forall t :: HasTag(r, t) <==> HasTag(snaps, t) && t != tag by {
        forall t ensures HasTag(r, t) <==> HasTag(snaps, t) && t != tag {
          HeadOrTail(snaps, t);
          HeadOrTail(r, t);
          if r != rest { assert r[1..] == rest; }
        }
      }
      r
  }

  lemma HeadOrTail(snaps: seq<Snapshot>, tag: string)
    ensures HasTag(snaps, tag) <==> snaps != [] && (snaps[0].tag == tag || HasTag(snaps[1..], tag))
  {
    if HasTag(snaps, tag) {
      var i :| 0 <= i < |snaps| && snaps[i].tag == tag;
      if i > 0 { assert snaps[1..][i - 1].tag == tag; }
    }
    if snaps != [] && HasTag(snaps[1..], tag) {
      var i :| 0 <= i < |snaps[1..]| && snaps[1..][i].tag == tag;
      assert snaps[i + 1].tag == tag;
    }
  }

  function DoDestroySnap(p: Pool, s: SnapRef): Pool
    requires CanDestroySnap(p, s)
  {
    var v := p.vols[s.ds];
    p.(vols := p.vols[s.ds := v.(snaps := Without(v.snaps, s.tag))])
  }

  // ---- engine units ----

  /** `systemctl start`: nothing happens when the unit is already active. */
  function DoStart(p: Pool, unit: string, ds: Dataset): Pool
    requires ds in p.vols
  {
    if unit in p.procs then p
    else p.(vols := p.vols[ds := p.vols[ds].(dirty := true)], procs := p.procs[unit := p.vols[ds].guid])
  }

  /** A graceful stop leaves the datadir the process ran on clean. */
  function DoStop(p: Pool, unit: string): Pool {
    if unit !in p.procs then p
    else
      var g := p.procs[unit];
      p.(vols := map d | d in p.vols :: if p.vols[d].guid == g then p.vols[d].(dirty := false) else p.vols[d],
         procs := p.procs - {unit})
  }

  function DoKill(p: Pool, unit: string): Pool {
    p.(procs := p.procs - {unit})
  }

  /** A client or a hook writes through the process of `unit`. */
  function DoWrite(p: Pool, unit: string, data: int): Pool {
    if unit !in p.procs then p
    else
      var g := p.procs[unit];
      p.(vols := map d | d in p.vols :: if p.vols[d].guid == g then p.vols[d].(data := data) else p.vols[d])
  }

  // ---- what the commands do to each other ----

  /** A clone of a fresh snapshot has the data, and needs recovery exactly if the datadir was in use or had not been
      stopped gracefully. */
  lemma CopyNeedsRecovery(p: Pool, s: SnapRef, ds: Dataset)
    requires CanSnapshot(p, s) && ds !in p.vols
    ensures CanClone(DoSnapshot(p, s), s, ds)
    ensures var v := DoClone(DoSnapshot(p, s), s, ds).vols[ds];
            && v.data == p.vols[s.ds].data && v.snaps == []
            && (v.dirty <==> p.vols[s.ds].dirty || exists u :: u in p.procs && p.procs[u] == p.vols[s.ds].guid)
  {
    SnapshotIsLast(p.vols[s.ds].snaps, DoSnapshot(p, s).vols[s.ds].snaps[|p.vols[s.ds].snaps|]);
    assert AnyLive(p, s.ds) <==> exists u :: u in p.procs && p.procs[u] == p.vols[s.ds].guid by {
      if u :| u in p.procs && p.procs[u] == p.vols[s.ds].guid { assert Live(p, u, s.ds); }
    }
  }

  lemma SnapshotIsLast(snaps: seq<Snapshot>, snap: Snapshot)
    requires !HasTag(snaps, snap.tag)
    ensures HasTag(snaps + [snap], snap.tag) && IndexOf(snaps + [snap], snap.tag) == |snaps|
  {
    assert (snaps + [snap])[|snaps|] == snap;
    assert forall j :: 0 <= j < |snaps| ==> snaps[j].tag != snap.tag && (snaps + [snap])[j] == snaps[j];
  }

  /** After a snapshot, another one and a write, a rollback to the first is refused exactly if the second has
      clones, and
      otherwise brings back the data and takes the second snapshot away. */
  lemma RollbackUndoes(p: Pool, s: SnapRef, later: string, unit: string, data: int)
    requires CanSnapshot(p, s) && later != s.tag && !HasTag(p.vols[s.ds].snaps, later)
    ensures CanSnapshot(DoSnapshot(p, s), SnapRef(s.ds, later))
    ensures var q := DoWrite(DoSnapshot(DoSnapshot(p, s), SnapRef(s.ds, later)), unit, data);
            && (CanRollback(q, s) <==> !Cloned(p, p.vols[s.ds].guid, later))
            && (CanRollback(q, s) ==>
                && DoRollback(q, s).vols[s.ds].data == p.vols[s.ds].data
                && (forall t :: HasTag(DoRollback(q, s).vols[s.ds].snaps, t) <==>
                                HasTag(p.vols[s.ds].snaps, t) || t == s.tag))
  {
    hide DoSnapshot, HasTag, IndexOf, Cloned, DoWrite, CanRollback;
    var snaps, guid := p.vols[s.ds].snaps, p.vols[s.ds].guid;
    var first := SnapshotAdds(p, s);
    OneTagMore(snaps, first, later);
    var one := DoSnapshot(p, s);
    var second := SnapshotAdds(one, SnapRef(s.ds, later));
    var two := DoSnapshot(one, SnapRef(s.ds, later));
    forall t ensures HasTag(snaps + [first], t) <==> HasTag(snaps, t) || t == s.tag { OneTagMore(snaps, first, t); }
    SnapshotIsLast(snaps, first);
    IndexStays(snaps + [first], second, s.tag);
    WriteKeepsSnaps(two, unit, data);
    var q := DoWrite(two, unit, data);
    SameClones(p, one, guid, later);
    SameClones(one, two, guid, later);
    SameClones(two, q, guid, later);
    assert q.vols[s.ds].snaps[..|snaps| + 1] == snaps + [first];
    RollbackPastOne(q, s, snaps + [first], second);
  }

  lemma RollbackPastOne(q: Pool, s: SnapRef, snaps: seq<Snapshot>, last: Snapshot)
    requires s.ds in q.vols && q.vols[s.ds].snaps == snaps + [last] && HasTag(snaps, s.tag)
    requires HasTag(snaps + [last], s.tag) && IndexOf(snaps + [last], s.tag) == |snaps| - 1
    ensures CanRollback(q, s) <==> !Cloned(q, q.vols[s.ds].guid, last.tag)
  {
    hide IndexOf, Cloned;
    var v := q.vols[s.ds];
    assert v.snaps[|snaps|] == last;
  }

  lemma SnapshotAdds(p: Pool, s: SnapRef) returns (snap: Snapshot)
    requires CanSnapshot(p, s)
    ensures var q := DoSnapshot(p, s);
            && q.vols.Keys == p.vols.Keys && (forall d :: d in p.vols ==> q.vols[d].origin == p.vols[d].origin)
            && q.vols[s.ds].snaps == p.vols[s.ds].snaps + [snap] && q.vols[s.ds].guid == p.vols[s.ds].guid
    ensures snap.tag == s.tag && snap.data == p.vols[s.ds].data
  {
    var snaps := DoSnapshot(p, s).vols[s.ds].snaps;
    snap := snaps[|snaps| - 1];
  }

  lemma WriteKeepsSnaps(p: Pool, unit: string, data: int)
    ensures var q := DoWrite(p, unit, data);
            q.vols.Keys == p.vols.Keys && forall d :: d in p.vols ==>
              q.vols[d].origin == p.vols[d].origin && q.vols[d].snaps == p.vols[d].snaps
                && q.vols[d].guid == p.vols[d].guid
  {
  }

  lemma OneTagMore(snaps: seq<Snapshot>, snap: Snapshot, t: string)
    ensures HasTag(snaps + [snap], t) <==> HasTag(snaps, t) || t == snap.tag
  {
    var more := snaps + [snap];
    if i :| 0 <= i < |snaps| && snaps[i].tag == t { assert more[i].tag == t; }
    assert more[|snaps|] == snap;
  }

  lemma IndexStays(snaps: seq<Snapshot>, snap: Snapshot, t: string)
    requires HasTag(snaps, t)
    ensures HasTag(snaps + [snap], t) && IndexOf(snaps + [snap], t) == IndexOf(snaps, t)
  {
    OneTagMore(snaps, snap, t);
    var more := snaps + [snap];
    var i, j := IndexOf(snaps, t), IndexOf(more, t);
    assert more[i] == snaps[i];
    if j < |snaps| { assert more[j] == snaps[j]; }
  }

  lemma SameClones(p: Pool, q: Pool, guid: nat, tag: string)
    requires p.vols.Keys == q.vols.Keys && forall d :: d in p.vols ==> q.vols[d].origin == p.vols[d].origin
    ensures Cloned(p, guid, tag) <==> Cloned(q, guid, tag)
  {
    if Cloned(q, guid, tag) {
      var d :| d in q.vols && q.vols[d].origin == ClonedFrom(guid, tag);
      assert d in p.vols.Keys;
    }
    if Cloned(p, guid, tag) {
      var d :| d in p.vols && p.vols[d].origin == ClonedFrom(guid, tag);
      assert d in q.vols.Keys;
    }
  }

  /** A clone protects what it was cloned from until it is destroyed itself; the base is never destroyed. */
  lemma ClonesProtect(p: Pool, s: SnapRef, name: string)
    requires CanClone(p, s, Branch(name))
    ensures var q := DoClone(p, s, Branch(name));
            && !CanDestroySnap(q, s) && !CanDestroy(q, s.ds)
            && (p.next !in (set d | d in p.vols && p.vols[d].origin.ClonedFrom? :: p.vols[d].origin.guid) ==>
                CanDestroy(q, Branch(name)) && DoDestroy(q, Branch(name)).vols == p.vols)
    ensures !CanDestroy(p, Base)
  {
    var q := DoClone(p, s, Branch(name));
    assert q.vols[Branch(name)].origin == ClonedFrom(p.vols[s.ds].guid, s.tag);
    assert Cloned(q, q.vols[s.ds].guid, s.tag);
    assert q.vols[s.ds].snaps[IndexOf(q.vols[s.ds].snaps, s.tag)].tag == s.tag;
    assert q.vols[Branch(name)].snaps == [];
  }
}
