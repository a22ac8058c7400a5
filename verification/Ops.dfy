/** The operation runner: StartExclusive lets one operation at a time run on a target. Calls and the
    goroutines they start interleave at the runner's mutex sections, at the store's statements and
    at the end of the operation itself. */
module Ops {

  /** A StartExclusive call: the target is reserved; its operation could not be recorded; its goroutine is on its
      way. */
  datatype Call = Reserved(target: string) | Broken(target: string) | Spawned(target: string, id: string) | Returned

  /** fn runs; fn has ended, by a panic or not; the slot is free; the record says finished; the goroutine is gone. */
  datatype Phase = Executing | Ended | Released | Recorded | Gone

  datatype Job = Job(target: string, exclusive: bool, phase: Phase)

  datatype Runner = Runner(exclusive: map<string, string>, calls: map<nat, Call>, jobs: map<string, Job>,
                           finished: set<string>, pending: int)

  datatype Step =
    | Reserve(c: nat, target: string) | Refuse(c: nat, target: string)
    | CreateFails(c: nat) | Spawn(c: nat, id: string) | CleanUp(c: nat) | Publish(c: nat)
    | StartPlain(target: string, id: string)
    | End(id: string) | Release(id: string) | Record(id: string) | Leave(id: string)

  function WithCall(r: Runner, c: nat, call: Call): Runner {
    r.(calls := r.calls[c := call])
  }

  function WithPhase(r: Runner, id: string, phase: Phase): Runner
    requires id in r.jobs
  {
    r.(jobs := r.jobs[id := r.jobs[id].(phase := phase)])
  }

  predicate InPhase(r: Runner, id: string, phase: Phase) {
    id in r.jobs && r.jobs[id].phase == phase
  }

  predicate Next(r: Runner, r': Runner, step: Step) {
    match step
    case Reserve(c, target) =>
      c !in r.calls && target !in r.exclusive &&
      r' == WithCall(r, c, Reserved(target)).(exclusive := r.exclusive[target := ""])
    case Refuse(c, target) =>
      target in r.exclusive && r' == r
    case CreateFails(c) =>
      c in r.calls && r.calls[c].Reserved? && r' == WithCall(r, c, Broken(r.calls[c].target))
    case Spawn(c, id) =>
      c in r.calls && r.calls[c].Reserved? && id !in r.jobs && id != "" &&
      r' == WithCall(r, c, Spawned(r.calls[c].target, id))
              .(jobs := r.jobs[id := Job(r.calls[c].target, true, Executing)], pending := r.pending + 1)
    case CleanUp(c) =>
      c in r.calls && r.calls[c].Broken? &&
      r' == WithCall(r, c, Returned).(exclusive := r.exclusive - {r.calls[c].target})
    case Publish(c) =>
      // the operation may have ended by now, and another one may hold the target
      c in r.calls && r.calls[c].Spawned? &&
      var target := r.calls[c].target;
      r' == WithCall(r, c, Returned)
              .(exclusive := if target in r.exclusive then r.exclusive[target := r.calls[c].id] else r.exclusive)
    case StartPlain(target, id) =>
      id !in r.jobs &&
      r' == r.(jobs := r.jobs[id := Job(target, false, Executing)], pending := r.pending + 1)
    case End(id) =>
      InPhase(r, id, Executing) && r' == WithPhase(r, id, Ended)
    case Release(id) =>
      InPhase(r, id, Ended) &&
      r' == WithPhase(r, id, Released)
              .(exclusive := if r.jobs[id].exclusive then r.exclusive - {r.jobs[id].target} else r.exclusive)
    case Record(id) =>
      InPhase(r, id, Released) && r' == WithPhase(r, id, Recorded).(finished := r.finished + {id})
    case Leave(id) =>
      InPhase(r, id, Recorded) && r' == WithPhase(r, id, Gone).(pending := r.pending - 1)
  }

  // ---- who has a target ----

  datatype Owner = ByCall(c: nat) | ByJob(id: string)

  /** The call that reserved the target, until its operation is started or given up; then the operation, until it is
      over. */
  predicate Owns(r: Runner, o: Owner, target: string) {
    match o
    case ByCall(c) => c in r.calls && (r.calls[c].Reserved? || r.calls[c].Broken?) && r.calls[c].target == target
    case ByJob(id) =>
      && id in r.jobs && r.jobs[id].exclusive && (r.jobs[id].phase == Executing || r.jobs[id].phase == Ended)
      && r.jobs[id].target == target
  }

  ghost predicate Owned(r: Runner, target: string) {
    exists o :: Owns(r, o, target)
  }

  ghost function Live(jobs: map<string, Job>): set<string> {
    set id | id in jobs && jobs[id].phase != Gone
  }

  /** The key is present exactly while one operation has the target; a finished record comes after the release;
      the wait group counts the goroutines that are not gone. */
  ghost predicate Inv(r: Runner) {
    && (forall target :: target in r.exclusive <==> Owned(r, target))
    && (forall o, o', target :: Owns(r, o, target) && Owns(r, o', target) ==> o == o')
    && (forall id :: id in r.finished <==> id in r.jobs && (r.jobs[id].phase == Recorded || r.jobs[id].phase == Gone))
    && r.pending == |Live(r.jobs)|
    && IdsKnown(r)
  }

  /** An id that is published, or about to be, is that of an operation that was started. */
  predicate IdsKnown(r: Runner) {
    && (forall target :: target in r.exclusive && r.exclusive[target] != "" ==> r.exclusive[target] in r.jobs)
    && (forall c :: c in r.calls && r.calls[c].Spawned? ==> r.calls[c].id in r.jobs && r.calls[c].id != "")
  }

  lemma IdsStep(r: Runner, r': Runner, step: Step)
    requires IdsKnown(r) && Next(r, r', step)
    ensures IdsKnown(r')
  {
    forall c | c in r'.calls && r'.calls[c].Spawned? ensures r'.calls[c].id in r'.jobs && r'.calls[c].id != "" {
      assert c in r.calls;
    }
    forall target | target in r'.exclusive && r'.exclusive[target] != "" ensures r'.exclusive[target] in r'.jobs {
      assert (step.Publish? && r.calls[step.c].target == target) ||
             (target in r.exclusive && r.exclusive[target] == r'.exclusive[target]);
    }
  }

  lemma Inv0()
    ensures Inv(Runner(map[], map[], map[], {}, 0))
  {
    var r := Runner(map[], map[], map[], {}, 0);
    assert forall target, o :: !Owns(r, o, target);
    assert Live(r.jobs) == {};
  }

  lemma OwnersAfter(r: Runner, r': Runner, step: Step)
    requires Inv(r) && Next(r, r', step)
    ensures forall o, target :: Owns(r', o, target) ==>
              Owns(r, o, target) || (step.Reserve? && o == ByCall(step.c) && target == step.target)
                                 || (step.Spawn? && o == ByJob(step.id) && Owns(r, ByCall(step.c), target))
    ensures forall o, target :: Owns(r, o, target) ==>
              Owns(r', o, target) || (step.CleanUp? && o == ByCall(step.c)) || (step.Release? && o == ByJob(step.id))
                                  || (step.Spawn? && o == ByCall(step.c))
  {
  }

  lemma KeysStep(r: Runner, r': Runner, step: Step)
    requires Inv(r) && Next(r, r', step)
    ensures forall target :: target in r'.exclusive <==> Owned(r', target)
    ensures forall o, o', target :: Owns(r', o, target) && Owns(r', o', target) ==> o == o'
  {
    OwnersAfter(r, r', step);
    forall target ensures target in r'.exclusive <==> Owned(r', target) {
      assert target in r.exclusive <==> Owned(r, target);
      if target in r'.exclusive {
        if step.Reserve? && target == step.target {
          assert Owns(r', ByCall(step.c), target);
        } else {
          var o :| Owns(r, o, target);
          if step.Spawn? && o == ByCall(step.c) {
            assert Owns(r', ByJob(step.id), target);
          } else {
            assert Owns(r', o, target);
          }
        }
      } else if Owned(r', target) {
        var o :| Owns(r', o, target);
        if step.CleanUp? && target in r.exclusive { assert Owns(r, ByCall(step.c), target); }
        if step.Release? && target in r.exclusive { assert Owns(r, ByJob(step.id), target); }
      }
    }
  }

  lemma LiveWith(jobs: map<string, Job>, id: string, j: Job)
    ensures Live(jobs[id := j]) == if j.phase == Gone then Live(jobs) - {id} else Live(jobs) + {id}
    ensures id in jobs && jobs[id].phase != Gone ==> id in Live(jobs) && Live(jobs) + {id} == Live(jobs)
    ensures id !in jobs ==> id !in Live(jobs)
  {
  }

  /** What a step does to the goroutines, the records and the count of the wait group. */
  lemma JobsAfter(r: Runner, r': Runner, step: Step)
    requires Next(r, r', step)
    ensures if step.Spawn? || step.StartPlain? then
              step.id !in r.jobs && (exists j: Job :: j.phase == Executing && r'.jobs == r.jobs[step.id := j])
                && r'.pending == r.pending + 1 && r'.finished == r.finished
            else if step.Leave? then
              InPhase(r, step.id, Recorded) && r'.jobs == r.jobs[step.id := r.jobs[step.id].(phase := Gone)]
                && r'.pending == r.pending - 1 && r'.finished == r.finished
            else if step.End? || step.Release? || step.Record? then
              && step.id in r.jobs && r.jobs[step.id].phase in {Executing, Ended, Released}
              && r'.jobs == r.jobs[step.id := r.jobs[step.id].(phase :=
                   if step.End? then Ended else if step.Release? then Released else Recorded)]
              && r'.pending == r.pending && r'.finished == (if step.Record? then r.finished + {step.id} else r.finished)
            else r'.jobs == r.jobs && r'.pending == r.pending && r'.finished == r.finished
  {
    if step.Spawn? { assert r'.jobs == r.jobs[step.id := Job(r.calls[step.c].target, true, Executing)]; }
    if step.StartPlain? { assert r'.jobs == r.jobs[step.id := Job(step.target, false, Executing)]; }
  }

  lemma CountStep(r: Runner, r': Runner, step: Step)
    requires Inv(r) && Next(r, r', step)
    ensures r'.pending == |Live(r'.jobs)|
    ensures forall id :: id in r'.finished <==>
              id in r'.jobs && (r'.jobs[id].phase == Recorded || r'.jobs[id].phase == Gone)
  {
    hide Live, Owned, Owns, Next;
    JobsAfter(r, r', step);
    if step.Spawn? || step.StartPlain? || step.End? || step.Release? || step.Record? || step.Leave? {
      LiveWith(r.jobs, step.id, r'.jobs[step.id]);
    }
  }

  ghost predicate Behaviour(runs: seq<Runner>, steps: seq<Step>) {
    && |runs| == |steps| + 1
    && runs[0] == Runner(map[], map[], map[], {}, 0)
    && forall i :: 0 <= i < |steps| ==> Next(runs[i], runs[i + 1], steps[i])
  }

  lemma {:induction false} AlwaysInv(runs: seq<Runner>, steps: seq<Step>, i: nat)
    requires Behaviour(runs, steps) && i < |runs|
    ensures Inv(runs[i])
  {
    hide Inv, Next;
    if i == 0 {
      Inv0();
    } else {
      AlwaysInv(runs, steps, i - 1);
      StepKeeps(runs[i - 1], runs[i], steps[i - 1]);
    }
  }

  lemma StepKeeps(r: Runner, r': Runner, step: Step)
    requires Inv(r) && Next(r, r', step)
    ensures Inv(r')
  {
    KeysStep(r, r', step);
    CountStep(r, r', step);
    IdsStep(r, r', step);
  }

  /** Two exclusive operations on one target never run at once, whatever starts, fails or panics in between. */
  lemma NeverTwo(runs: seq<Runner>, steps: seq<Step>, i: nat, a: string, b: string)
    requires Behaviour(runs, steps) && i < |runs|
    requires InPhase(runs[i], a, Executing) && InPhase(runs[i], b, Executing)
    requires runs[i].jobs[a].exclusive && runs[i].jobs[b].exclusive && runs[i].jobs[a].target == runs[i].jobs[b].target
    ensures a == b
  {
    AlwaysInv(runs, steps, i);
    assert Owns(runs[i], ByJob(a), runs[i].jobs[a].target);
    assert Owns(runs[i], ByJob(b), runs[i].jobs[a].target);
  }

  /** A caller that sees the record finished is not turned away on account of that operation: its slot is free,
      or held by another one. */
  lemma FinishedMeansReleased(runs: seq<Runner>, steps: seq<Step>, i: nat, id: string)
    requires Behaviour(runs, steps) && i < |runs| && id in runs[i].finished
    ensures forall target :: !Owns(runs[i], ByJob(id), target)
    ensures id in runs[i].jobs
    ensures runs[i].jobs[id].target in runs[i].exclusive ==>
              exists o :: o != ByJob(id) && Owns(runs[i], o, runs[i].jobs[id].target)
  {
    AlwaysInv(runs, steps, i);
    var target := runs[i].jobs[id].target;
    if target in runs[i].exclusive {
      var o :| Owns(runs[i], o, target);
      assert o != ByJob(id);
    }
  }

  /** Drain returns true when the wait group is empty: then no operation is executing any more. */
  lemma DrainedMeansIdle(runs: seq<Runner>, steps: seq<Step>, i: nat, id: string)
    requires Behaviour(runs, steps) && i < |runs| && runs[i].pending == 0 && id in runs[i].jobs
    ensures runs[i].jobs[id].phase == Gone
  {
    AlwaysInv(runs, steps, i);
    assert id !in Live(runs[i].jobs);
  }

  // ---- the id a refused caller is told ----

  /** A caller that is refused is told the id of an operation that does not have the target. */
  predicate Stale(r: Runner, target: string) {
    target in r.exclusive && r.exclusive[target] != "" && !Owns(r, ByJob(r.exclusive[target]), target)
  }

  /** A caller publishes the id of its operation. */
  predicate Publishes(r: Runner, step: Step, target: string) {
    step.Publish? && step.c in r.calls && r.calls[step.c].Spawned? && r.calls[step.c].target == target
  }

  /** The target is reserved, but no longer for the operation whose caller comes to publish its id. */
  predicate PublishesLate(r: Runner, step: Step, target: string) {
    Publishes(r, step, target) && target in r.exclusive && !Owns(r, ByJob(r.calls[step.c].id), target)
  }

  predicate PublishesInTime(r: Runner, step: Step, target: string) {
    Publishes(r, step, target) && Owns(r, ByJob(r.calls[step.c].id), target)
  }

  /** The operation a key names has the target after a step exactly if it had it before. */
  lemma SameOwnerOfKey(r: Runner, r': Runner, step: Step, target: string, id: string)
    requires Inv(r) && Next(r, r', step) && target in r.exclusive && target in r'.exclusive && id in r.jobs
    ensures Owns(r', ByJob(id), target) <==> Owns(r, ByJob(id), target)
  {
    hide Live, IdsKnown;
    OwnersAfter(r, r', step);
  }

  /** The told id goes stale by a late caller only, and stays so until the owner's caller publishes or the
      owner is over. */
  lemma StaleStep(r: Runner, r': Runner, step: Step, target: string)
    requires Inv(r) && Next(r, r', step)
    ensures Stale(r', target) <==>
            || PublishesLate(r, step, target)
            || (Stale(r, target) && !PublishesInTime(r, step, target) && target in r'.exclusive)
  {
    hide Live, Owns;
    if target in r.exclusive && target in r'.exclusive {
      if r.exclusive[target] != "" { SameOwnerOfKey(r, r', step, target, r.exclusive[target]); }
      if Publishes(r, step, target) { SameOwnerOfKey(r, r', step, target, r.calls[step.c].id); }
    }
    if PublishesInTime(r, step, target) { InTimeIsBusy(r, r', step, target); }
  }

  lemma InTimeIsBusy(r: Runner, r': Runner, step: Step, target: string)
    requires Inv(r) && Next(r, r', step) && PublishesInTime(r, step, target)
    ensures target in r.exclusive && target in r'.exclusive
  {
    hide Live, IdsKnown;
    assert Owned(r, target);
  }

  /** The id told at `i` is stale exactly if some caller published late at a `j` before, and since then neither
      has the owner's caller published nor the target been free. */
  lemma {:induction false} StaleExactly(runs: seq<Runner>, steps: seq<Step>, i: nat, target: string)
    requires Behaviour(runs, steps) && i < |runs|
    ensures Stale(runs[i], target) <==> exists j: nat :: j < i && WentStale(runs, steps, j, i, target)
  {
    hide Next, Stale, PublishesLate, PublishesInTime, Inv;
    if i == 0 {
      StartIsNotStale(runs, steps, target);
    } else {
      var h := i - 1;
      AlwaysInv(runs, steps, h);
      StaleStep(runs[h], runs[i], steps[h], target);
      StaleExactly(runs, steps, h, target);
      if PublishesLate(runs[h], steps[h], target) {
        StaleIsBusy(runs[i], target);
        assert WentStale(runs, steps, h, i, target);
      } else if Stale(runs[h], target) {
        var j: nat :| j < h && WentStale(runs, steps, j, h, target);
        if Stale(runs[i], target) { assert WentStale(runs, steps, j, i, target); }
      }
      forall j: nat | j < i && WentStale(runs, steps, j, i, target) ensures Stale(runs[i], target) {
        if j < h { assert WentStale(runs, steps, j, h, target); }
      }
    }
  }

  lemma StaleIsBusy(r: Runner, target: string)
    requires Stale(r, target)
    ensures target in r.exclusive
  {
  }

  lemma StartIsNotStale(runs: seq<Runner>, steps: seq<Step>, target: string)
    requires Behaviour(runs, steps)
    ensures !Stale(runs[0], target)
  {
  }

  /** A caller published late in the `j`-th step, and up to `i` no publication of the owner's and no release undid
      it. */
  predicate WentStale(runs: seq<Runner>, steps: seq<Step>, j: nat, i: nat, target: string)
    requires |runs| == |steps| + 1 && i < |runs|
  {
    && j < i && PublishesLate(runs[j], steps[j], target)
    && (forall k :: j < k < i ==> !PublishesInTime(runs[k], steps[k], target))
    && (forall k :: j < k <= i ==> target in runs[k].exclusive)
  }

  /** So where every caller publishes while its operation still has the target, the id told is the owner's. */
  lemma PromptCallersAreBelieved(runs: seq<Runner>, steps: seq<Step>, i: nat, target: string)
    requires Behaviour(runs, steps) && i < |runs|
    requires forall j :: 0 <= j < i ==> !PublishesLate(runs[j], steps[j], target)
    ensures target in runs[i].exclusive && runs[i].exclusive[target] != "" ==>
              Owns(runs[i], ByJob(runs[i].exclusive[target]), target)
  {
    StaleExactly(runs, steps, i, target);
  }

  /** The id reported while busy can be that of an operation that is over: the first operation ends before its
      caller publishes the id, and the second caller's reservation gets it. */
  lemma BusyIdMayBeStale() returns (runs: seq<Runner>, steps: seq<Step>)
    ensures Behaviour(runs, steps)
    ensures var r := runs[|steps|]; "t" in r.exclusive && r.exclusive["t"] == "a" && "a" in r.finished
  {
    hide Next;
    var r0 := Runner(map[], map[], map[], {}, 0);
    var r5 := Runner(map[], map[1 := Spawned("t", "a")], map["a" := Job("t", true, Recorded)], {"a"}, 1);
    var r1, r2, r3, r4 := RunsThrough("t", "a");
    var r6, r7 := LateCaller(r5, 1, 2, "t");
    runs := [r0, r1, r2, r3, r4, r5, r6, r7];
    steps := [Reserve(1, "t"), Spawn(1, "a"), End("a"), Release("a"), Record("a"), Reserve(2, "t"), Publish(1)];
  }

  /** One exclusive operation from start to record, its caller not yet back. */
  lemma RunsThrough(t: string, id: string) returns (r1: Runner, r2: Runner, r3: Runner, r4: Runner)
    requires id != ""
    ensures Next(Runner(map[], map[], map[], {}, 0), r1, Reserve(1, t)) && Next(r1, r2, Spawn(1, id))
    ensures Next(r2, r3, End(id)) && Next(r3, r4, Release(id))
    ensures Next(r4, Runner(map[], map[1 := Spawned(t, id)], map[id := Job(t, true, Recorded)], {id}, 1), Record(id))
  {
    hide Next;
    r1 := Runner(map[t := ""], map[1 := Reserved(t)], map[], {}, 0);
    r2 := Runner(map[t := ""], map[1 := Spawned(t, id)], map[id := Job(t, true, Executing)], {}, 1);
    r3 := Runner(map[t := ""], map[1 := Spawned(t, id)], map[id := Job(t, true, Ended)], {}, 1);
    r4 := Runner(map[], map[1 := Spawned(t, id)], map[id := Job(t, true, Released)], {}, 1);
    Starts(t, id);
    Ends(t, id);
  }

  lemma Starts(t: string, id: string)
    requires id != ""
    ensures var r1 := Runner(map[t := ""], map[1 := Reserved(t)], map[], {}, 0);
            && Next(Runner(map[], map[], map[], {}, 0), r1, Reserve(1, t))
            && Next(r1, Runner(map[t := ""], map[1 := Spawned(t, id)], map[id := Job(t, true, Executing)], {}, 1),
                    Spawn(1, id))
  {
    assert map[1 := Spawned(t, id)] == map[1 := Reserved(t)][1 := Spawned(t, id)];
  }

  lemma Ends(t: string, id: string)
    ensures var calls := map[1 := Spawned(t, id)];
            var r2 := Runner(map[t := ""], calls, map[id := Job(t, true, Executing)], {}, 1);
            var r3 := Runner(map[t := ""], calls, map[id := Job(t, true, Ended)], {}, 1);
            var r4 := Runner(map[], calls, map[id := Job(t, true, Released)], {}, 1);
            && Next(r2, r3, End(id)) && Next(r3, r4, Release(id))
            && Next(r4, Runner(map[], calls, map[id := Job(t, true, Recorded)], {id}, 1), Record(id))
  {
    assert map[t := ""] - {t} == map[];
    assert map[id := Job(t, true, Ended)] == map[id := Job(t, true, Executing)][id := Job(t, true, Ended)];
    assert map[id := Job(t, true, Released)] == map[id := Job(t, true, Ended)][id := Job(t, true, Released)];
    assert map[id := Job(t, true, Recorded)] == map[id := Job(t, true, Released)][id := Job(t, true, Recorded)];
  }

  /** A second caller reserves the target, and the first one, late, writes its id over the reservation. */
  lemma LateCaller(r: Runner, first: nat, second: nat, t: string) returns (r1: Runner, r2: Runner)
    requires first in r.calls && r.calls[first].Spawned? && r.calls[first].target == t
    requires second !in r.calls && t !in r.exclusive
    ensures Next(r, r1, Reserve(second, t)) && Next(r1, r2, Publish(first))
    ensures t in r2.exclusive && r2.exclusive[t] == r.calls[first].id && r2.finished == r.finished
  {
    r1 := WithCall(r, second, Reserved(t)).(exclusive := r.exclusive[t := ""]);
    r2 := WithCall(r1, first, Returned).(exclusive := r1.exclusive[t := r.calls[first].id]);
  }
}
