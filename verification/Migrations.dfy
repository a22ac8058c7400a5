/** The source loader: one temporary server on the base datadir, the migrations that have not been recorded
    yet in name order, the application user, and a graceful end whatever happens. */
module Migrations {
  import opened Names

  // ---- names and their order ----

  /** Byte-wise, as sort.Strings compares. */
  predicate Before(a: string, b: string) {
    if a == "" then true
    else if b == "" then false
    else if a[0] == b[0] then Before(a[1..], b[1..])
    else a[0] < b[0]
  }

  lemma {:induction false} BeforeTotal(a: string, b: string)
    ensures Before(a, b) || Before(b, a)
    ensures Before(a, b) && Before(b, a) ==> a == b
  {
    if a != "" && b != "" && a[0] == b[0] {
      BeforeTotal(a[1..], b[1..]);
      assert a == [a[0]] + a[1..] && b == [b[0]] + b[1..];
    }
  }

  lemma {:induction false} BeforeTransitive(a: string, b: string, c: string)
    requires Before(a, b) && Before(b, c)
    ensures Before(a, c)
  {
    if a != "" && b != "" && c != "" && a[0] == b[0] == c[0] { BeforeTransitive(a[1..], b[1..], c[1..]); }
  }

  /** The one is the beginning of the other, or smaller at the first place where they differ. */
  ghost predicate Precedes(a: string, b: string) {
    a <= b || exists k :: 0 <= k < |a| && k < |b| && a[..k] == b[..k] && a[k] < b[k]
  }

  lemma {:induction false} BeforePrecedes(a: string, b: string)
    requires Before(a, b)
    ensures Precedes(a, b)
  {
    if a != "" && a[0] == b[0] {
      BeforePrecedes(a[1..], b[1..]);
      if a[1..] <= b[1..] {
        assert a == [a[0]] + a[1..] && b == [b[0]] + b[1..];
      } else {
        var k :| 0 <= k < |a[1..]| && k < |b[1..]| && a[1..][..k] == b[1..][..k] && a[1..][k] < b[1..][k];
        assert a[..k + 1] == [a[0]] + a[1..][..k] && b[..k + 1] == [b[0]] + b[1..][..k];
        assert a[k + 1] < b[k + 1];
      }
    } else if a != "" {
      assert a[..0] == b[..0];
    }
  }

  lemma {:induction false} PrecedesBefore(a: string, b: string)
    requires Precedes(a, b)
    ensures Before(a, b)
  {
    if a != "" && b != "" {
      if !(a <= b) {
        var k :| 0 <= k < |a| && k < |b| && a[..k] == b[..k] && a[k] < b[k];
        if k > 0 {
          assert a[0] == a[..k][0] == b[..k][0] == b[0];
          assert a[1..][..k - 1] == a[..k][1..] && b[1..][..k - 1] == b[..k][1..];
          assert a[1..][k - 1] < b[1..][k - 1];
          PrecedesBefore(a[1..], b[1..]);
        }
      } else {
        assert a[1..] <= b[1..];
        PrecedesBefore(a[1..], b[1..]);
      }
    }
  }

  lemma SortedByBytes(s: seq<string>)
    requires Sorted(s)
    ensures forall i, j :: 0 <= i < j < |s| ==>
              s[i] <= s[j] || exists k ::
                0 <= k < |s[i]| && k < |s[j]| && s[i][..k] == s[j][..k] && s[i][k] < s[j][k]
  {
    hide Before;
    forall i, j | 0 <= i < j < |s|
      ensures s[i] <= s[j] || exists k ::
                0 <= k < |s[i]| && k < |s[j]| && s[i][..k] == s[j][..k] && s[i][k] < s[j][k] {
      BeforePrecedes(s[i], s[j]);
    }
  }

  ghost predicate Sorted(s: seq<string>) {
    forall i, j :: 0 <= i < j < |s| ==> Before(s[i], s[j])
  }

  predicate Distinct(s: seq<string>) {
    forall i, j :: 0 <= i < j < |s| ==> s[i] != s[j]
  }

  function Insert(s: seq<string>, x: string): (r: seq<string>)
    ensures multiset(r) == multiset(s) + multiset{x}
  {
    if s == [] || Before(x, s[0]) then
      assert [x] + s == [x] + s;
      [x] + s
    else
      assert s == [s[0]] + s[1..];
      [s[0]] + Insert(s[1..], x)
  }

  lemma {:induction false} InsertSorts(s: seq<string>, x: string)
    requires Sorted(s)
    ensures Sorted(Insert(s, x))
  {
    var r := Insert(s, x);
    if s == [] {
    } else if Before(x, s[0]) {
      forall i, j | 0 <= i < j < |r| ensures Before(r[i], r[j]) {
        if i > 0 {
          assert r[i] == s[i - 1] && r[j] == s[j - 1];
        } else if j > 1 {
          BeforeTransitive(x, s[0], s[j - 1]);
        }
      }
    } else {
      InsertSorts(s[1..], x);
      BeforeTotal(x, s[0]);
      forall j | 0 < j < |r| ensures Before(r[0], r[j]) {
        assert r[j] in multiset(Insert(s[1..], x));
        if r[j] != x {
          assert r[j] in multiset(s[1..]);
          var k :| 0 <= k < |s[1..]| && s[1..][k] == r[j];
          assert s[k + 1] == r[j];
        }
      }
      forall i, j | 0 <= i < j < |r| ensures Before(r[i], r[j]) {
        if i > 0 { assert r[i] == r[1..][i - 1] && r[j] == r[1..][j - 1]; }
      }
    }
  }

  /** migrationFiles: the names of a directory in order, or an error for a name that does not fit. */
  method MigrationFiles(found: seq<string>, nameOk: string -> bool) returns (files: Option<seq<string>>)
    ensures files.Some? <==> forall f :: f in found ==> nameOk(f)
    ensures files.Some? ==> Sorted(files.value) && multiset(files.value) == multiset(found)
    // in ascending byte order: of two names, the first begins the second or is smaller where they first differ
    ensures files.Some? ==> var s := files.value;
              forall i, j :: 0 <= i < j < |s| ==>
              s[i] <= s[j] || exists k ::
                0 <= k < |s[i]| && k < |s[j]| && s[i][..k] == s[j][..k] && s[i][k] < s[j][k]
  {
    var sorted: seq<string> := [];
    for i := 0 to |found|
      invariant Sorted(sorted) && multiset(sorted) == multiset(found[..i])
    {
      InsertSorts(sorted, found[i]);
      sorted := Insert(sorted, found[i]);
      assert found[..i + 1] == found[..i] + [found[i]];
    }
    assert found[..|found|] == found;
    for i := 0 to |sorted|
      invariant forall j :: 0 <= j < i ==> nameOk(sorted[j])
    {
      if !nameOk(sorted[i]) {
        assert sorted[i] in multiset(found);
        return None;
      }
    }
    forall f | f in found ensures nameOk(f) {
      assert f in multiset(sorted);
    }
    SortedByBytes(sorted);
    files := Some(sorted);
  }

  // ---- the loader ----

  /** The files that are not recorded, in the order of the list. */
  function Pending(files: seq<string>, recorded: set<string>): seq<string> {
    if files == [] then []
    else if files[0] in recorded then Pending(files[1..], recorded)
    else [files[0]] + Pending(files[1..], recorded)
  }

  lemma {:induction false} PendingOf(a: seq<string>, b: seq<string>, recorded: set<string>)
    ensures Pending(a + b, recorded) == Pending(a, recorded) + Pending(b, recorded)
  {
    hide Pending;
    if a == [] {
      PendingNone(recorded);
      assert a + b == b && [] + Pending(b, recorded) == Pending(b, recorded);
    } else {
      PendingOf(a[1..], b, recorded);
      PendingFirst(a + b, recorded);
      PendingFirst(a, recorded);
      assert (a + b)[1..] == a[1..] + b;
      Associate(if a[0] in recorded then [] else [a[0]], Pending(a[1..], recorded), Pending(b, recorded));
    }
  }

  lemma Associate(a: seq<string>, b: seq<string>, c: seq<string>)
    ensures a + (b + c) == (a + b) + c
  {
  }

  lemma PendingNone(recorded: set<string>)
    ensures Pending([], recorded) == []
  {
  }

  lemma PendingFirst(files: seq<string>, recorded: set<string>)
    requires files != []
    ensures Pending(files, recorded) == (if files[0] in recorded then [] else [files[0]]) + Pending(files[1..],
        recorded)
  {
    assert [] + Pending(files[1..], recorded) == Pending(files[1..], recorded);
  }

  /** It keeps the order, and takes each file at most once. */
  lemma {:induction false} PendingKeepsOrder(files: seq<string>, recorded: set<string>)
    requires Sorted(files) && Distinct(files)
    ensures Sorted(Pending(files, recorded)) && Distinct(Pending(files, recorded))
    ensures forall f :: f in Pending(files, recorded) <==> f in files && f !in recorded
  {
    if files != [] {
      PendingKeepsOrder(files[1..], recorded);
      var rest := Pending(files[1..], recorded);
      forall f | f in rest ensures Before(files[0], f) && f != files[0] {
        var k :| 0 <= k < |files[1..]| && files[1..][k] == f;
        assert files[k + 1] == f;
      }
      assert files == [files[0]] + files[1..];
    }
  }

  class Loader {
    /** The applied-migrations table of the base. */
    var recorded: set<string>
    var running: bool
    /** Every migration that ran to its end, in order, over all runs. */
    ghost var completed: seq<string>
    /** Those whose record could not be written. */
    ghost var unrecorded: multiset<string>
    ghost var shutdowns: nat
    /** Writing an application record does not fail; everything else still may. */
    const recordsHold: bool

    constructor (recordsHold: bool)
      ensures Accounted() && recorded == {} && completed == [] && unrecorded == multiset{} && !running && shutdowns == 0
      ensures this.recordsHold == recordsHold
    {
      recorded, running, completed, unrecorded, shutdowns := {}, false, [], multiset{}, 0;
      this.recordsHold := recordsHold;
    }

    /** Every completion is either recorded, and then never repeated, or its record was lost. */
    ghost predicate Accounted()
      reads this`recorded, this`completed, this`unrecorded
    {
      multiset(completed) == multiset(recorded) + unrecorded
    }

    method Fate() returns (ok: bool)
    {
      ok := *;
    }

    /** ApplyFile and then its record. A file that fails half-way has not completed; a record that fails may
        have been written all the same. */
    method ApplyOne(f: string) returns (ok: bool)
      requires Accounted() && f !in recorded
      modifies this`recorded, this`completed, this`unrecorded
      ensures Accounted()
      ensures ok ==>
                completed == old(completed) + [f] && recorded == old(recorded) + {f} && unrecorded == old(unrecorded)
      ensures !ok ==>
                || (completed == old(completed) && recorded == old(recorded) && unrecorded == old(unrecorded))
                || (completed == old(completed) + [f] && recorded == old(recorded) &&
                  unrecorded == old(unrecorded) + multiset{f})
                || (completed == old(completed) + [f] && recorded == old(recorded) + {f} &&
                  unrecorded == old(unrecorded))
      ensures recordsHold ==> unrecorded == old(unrecorded)
    {
      ok := Fate();
      if !ok { return; }
      completed := completed + [f];
      var written := true;
      if !recordsHold {
        ok := Fate();
        if !ok { written := *; }
      }
      if written {
        recorded := recorded + {f};
      } else {
        unrecorded := unrecorded + multiset{f};
      }
    }

    /** One file of the list: looked up, and applied if it is not recorded. */
    method ApplyNext(f: string) returns (ok: bool, applied: bool, ghost completes: bool)
      requires Accounted()
      modifies this`recorded, this`completed, this`unrecorded
      ensures Accounted() && old(recorded) <= recorded <= old(recorded) + {f}
      ensures completed == old(completed) + if completes then [f] else []
      ensures completes ==> f !in old(recorded)
      ensures ok ==> f in recorded && applied == completes == (f !in old(recorded)) && unrecorded == old(unrecorded)
      ensures recordsHold ==> unrecorded == old(unrecorded)
      ensures !ok ==>
                && !applied
                && (unrecorded == old(unrecorded) || (completes && unrecorded == old(unrecorded) + multiset{f}))
    {
      applied, completes := false, false;
      ok := Fate();
      if !ok || f in recorded { return; }
      ok := ApplyOne(f);
      applied, completes := ok, completed != old(completed);
    }

    /** The files not yet recorded, in order, until one fails. */
    method ApplyMigrations(files: seq<string>) returns (ok: bool, applied: seq<string>, ghost done: seq<string>)
      requires Accounted() && Distinct(files)
      modifies this`recorded, this`completed, this`unrecorded
      ensures Accounted() && old(recorded) <= recorded
      ensures completed == old(completed) + done && done <= Pending(files, old(recorded))
      ensures ok ==> applied == done == Pending(files, old(recorded)) && forall f :: f in files ==> f in recorded
      ensures recordsHold ==> unrecorded == old(unrecorded)
      ensures unrecorded != old(unrecorded) ==>
                !ok && done != [] && unrecorded == old(unrecorded) + multiset{done[|done| - 1]}
    {
      hide Pending, Accounted, Distinct;
      ok, applied, done := true, [], [];
      PendingNone(recorded);
      if files == [] { return; }
      ok := Fate();
      if !ok { return; }
      for i := 0 to |files|
        invariant ok && Accounted() && old(recorded) <= recorded && unrecorded == old(unrecorded)
        invariant applied == done == Pending(files[..i], old(recorded)) && completed == old(completed) + done
        invariant forall f :: f in files[..i] ==> f in recorded
        invariant forall f :: f in files[i..] ==> (f in recorded <==> f in old(recorded))
      {
        NextPending(files, i, old(recorded));
        var taken;
        ghost var completes;
        ok, taken, completes := ApplyNext(files[i]);
        if completes { done := done + [files[i]]; }
        if !ok { return; }
        if taken { applied := applied + [files[i]]; }
      }
      assert files[..|files|] == files;
    }

    lemma NextPending(files: seq<string>, i: nat, recorded: set<string>)
      requires i < |files| && Distinct(files)
      ensures Pending(files[..i + 1], recorded) == Pending(files[..i], recorded) + if files[i] in recorded then []
        else [files[i]]
      ensures Pending(files[..i], recorded) <= Pending(files, recorded)
              && Pending(files[..i + 1], recorded) <= Pending(files, recorded)
      ensures files[i] in files[i..] && files[i] !in files[i + 1..] && files[i..] == [files[i]] + files[i + 1..]
      ensures files[..i + 1] == files[..i] + [files[i]]
    {
      assert files[..i + 1] == files[..i] + [files[i]];
      PendingOf(files[..i], [files[i]], recorded);
      assert Pending([files[i]], recorded) == if files[i] in recorded then [] else [files[i]];
      assert files == files[..i] + files[i..];
      PendingOf(files[..i], files[i..], recorded);
      assert files == files[..i + 1] + files[i + 1..];
      PendingOf(files[..i + 1], files[i + 1..], recorded);
    }

    /** Ask for a graceful stop and wait until the server is gone. */
    method Shutdown() returns (ok: bool)
      modifies this`running, this`shutdowns
      ensures shutdowns == old(shutdowns) + 1
      ensures ok ==> !running
    {
      shutdowns := shutdowns + 1;
      ok := Fate();
      if !ok { return; }
      ok := Fate();
      if ok { running := false; }
    }

    /** From the started server to the requested shutdown, whatever fails in between. */
    method Serve(files: seq<string>, sync: bool) returns (ok: bool, applied: seq<string>, ghost done: seq<string>)
      requires Accounted() && Distinct(files)
      modifies this
      ensures Accounted() && old(recorded) <= recorded
      ensures completed == old(completed) + done && done <= Pending(files, old(recorded))
      ensures shutdowns == old(shutdowns) + 1
      ensures ok ==> !running && applied == done && forall f :: f in files ==> f in recorded
      ensures ok || recordsHold ==> unrecorded == old(unrecorded)
      ensures unrecorded != old(unrecorded) ==> done != [] && unrecorded == old(unrecorded) + multiset{done[|done| - 1]}
    {
      hide Pending, Accounted, Distinct;
      applied, done := [], [];
      running := true;
      ok := Fate();
      if ok { ok, applied, done := ApplyMigrations(files); }
      if ok && sync { ok := Fate(); }
      var gone := Shutdown();
      ok := ok && gone;
    }

    /** The files in order, and a server for as long as there is something to do. */
    method ApplyAndSync(found: seq<string>, nameOk: string -> bool, sync: bool)
      returns (ok: bool, applied: seq<string>, started: bool, ghost done: seq<string>)
      requires Accounted() && Distinct(found) && !running
      modifies this
      ensures Accounted() && old(recorded) <= recorded
      ensures completed == old(completed) + done
      ensures Sorted(done) && Distinct(done) && forall f :: f in done ==> f in found && f !in old(recorded)
      ensures forall f, g :: f in done && g in found && g !in old(recorded) && Precedes(g, f) ==> g in done
      ensures started || ok ==> forall f :: f in found ==> nameOk(f)
      ensures started ==> shutdowns == old(shutdowns) + 1
      ensures !started ==> done == [] && shutdowns == old(shutdowns)
      ensures ok ==> !running && applied == done && forall f :: f in found ==> f in recorded
      ensures ok || recordsHold ==> unrecorded == old(unrecorded)
      ensures unrecorded != old(unrecorded) ==> done != [] && unrecorded == old(unrecorded) + multiset{done[|done| - 1]}
    {
      hide Pending, Before, Precedes, Accounted;
      ok, applied, started, done := false, [], false, [];
      var files := MigrationFiles(found, nameOk);
      if files.None? { return; }
      SameNames(found, files.value);
      if files.value == [] && !sync {
        return true, [], false, [];
      }
      PendingKeepsOrder(files.value, recorded);
      started := Fate();
      if !started { return; }
      ok, applied, done := Serve(files.value, sync);
      PrefixKeepsOrder(done, Pending(files.value, old(recorded)));
      NonePassedOver(done, Pending(files.value, old(recorded)));
    }

    /** A server a former run could not stop is stopped first, and then applyAndSync. */
    method Run(found: seq<string>, nameOk: string -> bool, sync: bool)
      returns (ok: bool, applied: seq<string>, started: bool, ghost done: seq<string>)
      requires Accounted() && Distinct(found)
      modifies this
      ensures Accounted() && old(recorded) <= recorded
      ensures completed == old(completed) + done
      // in ascending byte order, each once, and none that is recorded
      ensures forall i, j :: 0 <= i < j < |done| ==>
                done[i] <= done[j] || exists k ::
                  0 <= k < |done[i]| && k < |done[j]| && done[i][..k] == done[j][..k] && done[i][k] < done[j][k]
      ensures Distinct(done) && forall f :: f in done ==> f in found && f !in old(recorded)
      // wherever it ends, no file has been passed over for one behind it
      ensures forall f, g :: f in done && g in found && g !in old(recorded) && Precedes(g, f) ==> g in done
      ensures started || ok ==> forall f :: f in found ==> nameOk(f)
      ensures started ==> shutdowns == old(shutdowns) + 1
      ensures !started ==> done == [] && shutdowns == old(shutdowns)
      ensures ok ==> !running && applied == done && forall f :: f in found ==> f in recorded
      ensures ok || recordsHold ==> unrecorded == old(unrecorded)
      ensures unrecorded != old(unrecorded) ==> done != [] && unrecorded == old(unrecorded) + multiset{done[|done| - 1]}
    {
      hide Precedes, Accounted, Sorted;
      ok, applied, started, done := false, [], false, [];
      if running {
        var stopped := Fate();
        if !stopped { return; }
        running := false;
      }
      ok, applied, started, done := ApplyAndSync(found, nameOk, sync);
      SortedByBytes(done);
    }

    lemma SameNames(found: seq<string>, files: seq<string>)
      requires multiset(files) == multiset(found) && Distinct(found)
      ensures Distinct(files) && |files| == |found| && forall f :: f in found <==> f in files
    {
      forall f ensures f in found <==> f in files {
        assert f in multiset(found) <==> f in multiset(files);
      }
      assert |multiset(files)| == |multiset(found)|;
      DistinctOnce(found);
      OnceDistinct(files);
    }
  }

  lemma OnceDistinct(s: seq<string>)
    requires forall f :: multiset(s)[f] <= 1
    ensures Distinct(s)
  {
    forall i, j | 0 <= i < j < |s| && s[i] == s[j] ensures multiset(s)[s[i]] >= 2 { TwiceCounted(s, i, j); }
  }

  lemma {:induction false} DistinctOnce(s: seq<string>)
    requires Distinct(s)
    ensures forall f :: multiset(s)[f] <= 1
  {
    if s != [] {
      assert s == [s[0]] + s[1..];
      DistinctOnce(s[1..]);
      assert forall k :: 0 <= k < |s[1..]| ==> s[1..][k] == s[k + 1];
      assert s[0] !in s[1..];
      assert multiset(s[1..])[s[0]] == 0;
    }
  }

  lemma TwiceCounted(s: seq<string>, i: nat, j: nat)
    requires i < j < |s| && s[i] == s[j]
    ensures multiset(s)[s[i]] >= 2
  {
    assert s == s[..i] + [s[i]] + s[i + 1..j] + [s[j]] + s[j + 1..];
  }

  lemma NonePassedOver(done: seq<string>, all: seq<string>)
    requires done <= all && Sorted(all) && Distinct(all)
    ensures forall f, g :: f in done && g in all && Precedes(g, f) ==> g in done
  {
    hide Before, Precedes;
    forall f, g | f in done && g in all && Precedes(g, f) ensures g in done {
      var i :| 0 <= i < |done| && done[i] == f;
      var j :| 0 <= j < |all| && all[j] == g;
      if j >= |done| {
        assert all[i] == f && Before(all[i], all[j]);
        PrecedesBefore(g, f);
        BeforeTotal(f, g);
      } else {
        assert done[j] == g;
      }
    }
  }

  lemma PrefixKeepsOrder(done: seq<string>, all: seq<string>)
    requires done <= all && Sorted(all) && Distinct(all)
    ensures Sorted(done) && Distinct(done) && forall f :: f in done ==> f in all
  {
  }

  /** Each run loses at most one record: that of the last migration it completed. */
  ghost predicate LostBy(before: multiset<string>, after: multiset<string>, runs: nat) {
    before <= after && |after| <= |before| + runs
  }

  /** Any sequence of runs, each of which may fail anywhere. A migration completes once more for every record
      of it that was lost, and where records hold, at most once over all runs. */
  method RunAll(l: Loader, rounds: seq<seq<string>>, nameOk: string -> bool, sync: bool)
    requires l.Accounted() && forall k :: 0 <= k < |rounds| ==> Distinct(rounds[k])
    modifies l
    ensures l.Accounted() && old(l.recorded) <= l.recorded && old(l.completed) <= l.completed
    ensures LostBy(old(l.unrecorded), l.unrecorded, |rounds|)
    ensures forall f :: multiset(l.completed)[f] == (if f in l.recorded then 1 else 0) + l.unrecorded[f]
    ensures l.recordsHold && old(l.unrecorded) == multiset{} ==> forall f :: multiset(l.completed)[f] <= 1
  {
    for k := 0 to |rounds|
      invariant l.Accounted() && old(l.recorded) <= l.recorded && old(l.completed) <= l.completed
      invariant LostBy(old(l.unrecorded), l.unrecorded, k)
      invariant l.recordsHold ==> l.unrecorded == old(l.unrecorded)
    {
      ghost var done;
      var ok, applied, started;
      ok, applied, started, done := l.Run(rounds[k], nameOk, sync);
    }
    CompletionsCounted(l);
  }

  lemma CompletionsCounted(l: Loader)
    requires l.Accounted()
    ensures forall f :: multiset(l.completed)[f] == (if f in l.recorded then 1 else 0) + l.unrecorded[f]
  {
  }
}
