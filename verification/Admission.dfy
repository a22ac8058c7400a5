/** The admission limits under concurrency. Any number of requests run at once; what they interleave
    at is their mutex sections: taking the branch lock, reading the row under it, the one section
    under admitMu that checks the limits and writes the row, and the final write with the unlock. */
module Admission {
  import opened Store
  import M = Manager

  datatype Limits = Limits(maxBranches: int, maxRunning: int, portLow: int, portHigh: int)

  datatype Slot = Slot(state: State, wakeFailed: bool, port: int)

  datatype Request = Create | Wake | Recreate | Reset | Sleep | Delete

  /** Idle; waiting for nothing but holding the branch lock; with the row as it was read; past admission. */
  datatype Phase = Idle | Holding(op: Request, name: string) | Seen(op: Request, name: string, row: Slot)
                 | Absent(name: string) | Working(op: Request, name: string)

  datatype Sys = Sys(rows: map<string, Slot>, holder: map<string, nat>, threads: map<nat, Phase>)

  function At(s: Sys, t: nat): Phase {
    if t in s.threads then s.threads[t] else Idle
  }

  ghost function ActiveSlots(rows: map<string, Slot>): set<string> {
    set n | n in rows && M.Active(rows[n].state)
  }

  predicate PortTaken(rows: map<string, Slot>, port: int) {
    exists n :: n in rows && rows[n].port == port
  }

  ghost predicate Room(l: Limits, rows: map<string, Slot>) {
    l.maxRunning > 0 ==> |ActiveSlots(rows)| < l.maxRunning
  }

  // ---- the steps ----

  datatype Step = Lock(t: nat, op: Request, name: string) | Look(t: nat) | GiveUp(t: nat)
                | AdmitCreate(t: nat, port: int) | AdmitWake(t: nat) | AdmitRecreate(t: nat)
                | Proceed(t: nat) | Finish(t: nat, ok: bool)

  function Moved(s: Sys, t: nat, p: Phase): Sys {
    s.(threads := s.threads[t := p])
  }

  function Unlocked(s: Sys, t: nat, name: string): Sys {
    Moved(s, t, Idle).(holder := s.holder - {name})
  }

  function Written(s: Sys, name: string, st: State, wakeFailed: bool): Sys
    requires name in s.rows
  {
    s.(rows := s.rows[name := s.rows[name].(state := st, wakeFailed := wakeFailed)])
  }

  predicate Wakeable(r: Slot) {
    r.state == Sleeping || r.state == Running || (r.state == State.Error && r.wakeFailed)
  }

  /** What a request does with the state it reads; Recreate and Reset are also what Retry calls. */
  predicate Fits(op: Request, r: Slot) {
    match op
    case Create => false
    case Wake => Wakeable(r)
    case Sleep => r.state == Running
    case _ => true
  }

  ghost predicate Next(l: Limits, s: Sys, s': Sys, step: Step) {
    match step
    case Lock(t, op, name) =>
      At(s, t) == Idle && name !in s.holder &&
      s' == Moved(s, t, Holding(op, name)).(holder := s.holder[name := t])
    case Look(t) =>
      At(s, t).Holding? &&
      var op, name := At(s, t).op, At(s, t).name;
      if op == Create then s' == (if name in s.rows then Unlocked(s, t, name) else Moved(s, t, Absent(name)))
      else s' == (if name in s.rows && Fits(op, s.rows[name]) then Moved(s, t, Seen(op, name, s.rows[name]))
                  else Unlocked(s, t, name))
    case GiveUp(t) =>
      // refused: by a guard, or by the section under admitMu
      (At(s, t).Seen? || At(s, t).Absent?) && s' == Unlocked(s, t, At(s, t).name)
    case AdmitCreate(t, port) =>
      At(s, t).Absent? &&
      var name := At(s, t).name;
      && (l.maxBranches > 0 ==> |s.rows| < l.maxBranches)
      && l.portLow <= port <= l.portHigh && !PortTaken(s.rows, port)
      && Room(l, s.rows)
      && s' == Moved(s, t, Working(Create, name)).(rows := s.rows[name := Slot(Creating, false, port)])
    case AdmitWake(t) =>
      At(s, t).Seen? && At(s, t).op == Wake && At(s, t).row.state != Running && At(s, t).name in s.rows &&
      Room(l, s.rows) &&
      s' == Moved(Written(s, At(s, t).name, Running, false), t, Working(Wake, At(s, t).name))
    case AdmitRecreate(t) =>
      At(s, t).Seen? && At(s, t).op == Recreate && At(s, t).name in s.rows &&
      Room(l, s.rows) &&
      s' == Moved(Written(s, At(s, t).name, Resetting, false), t, Working(Recreate, At(s, t).name))
    case Proceed(t) =>
      // no admission: Sleep, Delete, a Wake that finds the row running, and Reset
      At(s, t).Seen? && At(s, t).name in s.rows &&
      var op, name := At(s, t).op, At(s, t).name;
      match op {
        case Sleep => s' == Moved(s, t, Working(Sleep, name))
        case Delete => s' == Moved(Written(s, name, Deleting, false), t, Working(Delete, name))
        case Wake => At(s, t).row.state == Running && s' == Moved(s, t, Working(Wake, name))
        case Reset => s' == Moved(Written(s, name, Resetting, false), t, Working(Reset, name))
        case _ => false
      }
    case Finish(t, ok) =>
      At(s, t).Working? && At(s, t).name in s.rows &&
      var op, name := At(s, t).op, At(s, t).name;
      if op == Sleep then s' == Unlocked(if ok then Written(s, name, Sleeping, false) else s, t, name)
      else if op == Delete && ok then s' == Unlocked(s.(rows := s.rows - {name}), t, name)
      else s' == Unlocked(Written(s, name, if ok then Running else State.Error, !ok && op == Wake), t, name)
  }

  // ---- what holds ----

  /** A thread that is not idle holds the lock of its branch, and what it has read or written is still there. */
  predicate Holds(s: Sys, t: nat) {
    match At(s, t)
    case Idle => true
    case Holding(op, name) => name in s.holder && s.holder[name] == t
    case Absent(name) => name in s.holder && s.holder[name] == t && name !in s.rows
    case Seen(op, name, row) => name in s.holder && s.holder[name] == t && name in s.rows && s.rows[name] == row
      && Fits(op, row)
    case Working(op, name) =>
      && name in s.holder && s.holder[name] == t && name in s.rows
      && s.rows[name].state == match op {
           case Create => Creating case Wake => Running case Recreate => Resetting
           case Reset => Resetting case Sleep => Running case Delete => Deleting
         }
  }

  ghost predicate Locked(s: Sys) {
    forall t :: t in s.threads ==> Holds(s, t)
  }

  ghost predicate PortsOk(l: Limits, rows: map<string, Slot>) {
    && (forall n :: n in rows ==> l.portLow <= rows[n].port <= l.portHigh)
    && (forall n, m :: n in rows && m in rows && rows[n].port == rows[m].port ==> n == m)
  }

  predicate BranchesOk(l: Limits, rows: map<string, Slot>) {
    l.maxBranches > 0 ==> |rows| <= l.maxBranches
  }

  ghost predicate RunningOk(l: Limits, rows: map<string, Slot>) {
    l.maxRunning > 0 ==> |ActiveSlots(rows)| <= l.maxRunning
  }

  ghost predicate Safe(l: Limits, s: Sys) {
    Locked(s) && PortsOk(l, s.rows) && BranchesOk(l, s.rows)
  }

  /** The one step that starts an engine without asking for room. */
  ghost predicate Unasked(s: Sys, step: Step) {
    step.Proceed? && At(s, step.t).Seen? && At(s, step.t).op == Reset && At(s, step.t).name in s.rows
  }

  /** A step changes the row and the lock of its own branch only. */
  lemma OwnBranchOnly(l: Limits, s: Sys, s': Sys, step: Step, t: nat)
    requires Locked(s) && Next(l, s, s', step) && t != step.t && t in s.threads
    ensures Holds(s', t)
  {
    assert Holds(s, t);
    if step.t in s.threads { assert Holds(s, step.t); }
  }

  lemma LockedStep(l: Limits, s: Sys, s': Sys, step: Step)
    requires Locked(s) && Next(l, s, s', step)
    ensures Locked(s')
  {
    forall t | t in s'.threads ensures Holds(s', t) {
      if t != step.t { OwnBranchOnly(l, s, s', step, t); } else if t in s.threads { assert Holds(s, t); }
    }
  }

  lemma OneSlot(rows: map<string, Slot>, n: string, r: Slot)
    ensures ActiveSlots(rows[n := r]) == if M.Active(r.state) then ActiveSlots(rows) + {n} else ActiveSlots(rows) - {n}
  {
  }

  lemma DropSlot(rows: map<string, Slot>, n: string)
    ensures ActiveSlots(rows - {n}) == ActiveSlots(rows) - {n}
  {
  }

  /** Rows and what they count for, after any step. */
  lemma RowsAfter(l: Limits, s: Sys, s': Sys, step: Step)
    requires Locked(s) && Next(l, s, s', step)
    ensures s'.rows == s.rows
         || (step.AdmitCreate? && At(s, step.t).Absent? && At(s, step.t).name !in s.rows &&
             s'.rows == s.rows[At(s, step.t).name := Slot(Creating, false, step.port)])
         || (exists n, st, w :: n in s.rows && s'.rows == s.rows[n := s.rows[n].(state := st, wakeFailed := w)] &&
               (M.Active(st) ==> M.Active(s.rows[n].state) || Room(l, s.rows) || Unasked(s, step)))
         || (exists n :: n in s.rows && s'.rows == s.rows - {n})
  {
    if step.t in s.threads { assert Holds(s, step.t); }
    if step.Finish? || step.AdmitWake? || step.AdmitRecreate? || step.Proceed? {
      var n := At(s, step.t).name;
      if n in s'.rows {
        assert s'.rows == s.rows
               || s'.rows == s.rows[n := s.rows[n].(state := s'.rows[n].state, wakeFailed := s'.rows[n].wakeFailed)];
      }
    }
  }

  lemma PortsInsert(l: Limits, rows: map<string, Slot>, n: string, r: Slot)
    requires PortsOk(l, rows) && BranchesOk(l, rows) && n !in rows
    requires l.portLow <= r.port <= l.portHigh && !PortTaken(rows, r.port)
    requires l.maxBranches > 0 ==> |rows| < l.maxBranches
    ensures PortsOk(l, rows[n := r]) && BranchesOk(l, rows[n := r])
  {
    assert rows[n := r].Keys == rows.Keys + {n};
  }

  lemma PortsUpdate(l: Limits, rows: map<string, Slot>, n: string, st: State, w: bool)
    requires PortsOk(l, rows) && BranchesOk(l, rows) && n in rows
    ensures PortsOk(l, rows[n := rows[n].(state := st, wakeFailed := w)])
            && BranchesOk(l, rows[n := rows[n].(state := st, wakeFailed := w)])
  {
    assert rows[n := rows[n].(state := st, wakeFailed := w)].Keys == rows.Keys;
  }

  lemma PortsDrop(l: Limits, rows: map<string, Slot>, n: string)
    requires PortsOk(l, rows) && BranchesOk(l, rows) && n in rows
    ensures PortsOk(l, rows - {n}) && BranchesOk(l, rows - {n})
  {
    assert (rows - {n}).Keys == rows.Keys - {n};
    Smaller(rows.Keys, n);
  }

  lemma PortsStep(l: Limits, s: Sys, s': Sys, step: Step)
    requires Safe(l, s) && Next(l, s, s', step)
    ensures PortsOk(l, s'.rows) && BranchesOk(l, s'.rows)
  {
    hide Locked, Next, ActiveSlots, PortsOk, BranchesOk, PortTaken;
    RowsAfter(l, s, s', step);
    if s'.rows == s.rows {
    } else if step.AdmitCreate? && At(s, step.t).Absent? && At(s, step.t).name !in s.rows
              && s'.rows == s.rows[At(s, step.t).name := Slot(Creating, false, step.port)] {
      CreateChecks(l, s, s', step);
      PortsInsert(l, s.rows, At(s, step.t).name, Slot(Creating, false, step.port));
    } else if n, st, w :| n in s.rows && s'.rows == s.rows[n := s.rows[n].(state := st, wakeFailed := w)] {
      PortsUpdate(l, s.rows, n, st, w);
    } else {
      var n :| n in s.rows && s'.rows == s.rows - {n};
      PortsDrop(l, s.rows, n);
    }
  }

  lemma CreateChecks(l: Limits, s: Sys, s': Sys, step: Step)
    requires Next(l, s, s', step) && step.AdmitCreate?
    ensures (l.maxBranches > 0 ==> |s.rows| < l.maxBranches) && Room(l, s.rows)
    ensures l.portLow <= step.port <= l.portHigh && !PortTaken(s.rows, step.port)
  {
  }

  lemma RunningStep(l: Limits, s: Sys, s': Sys, step: Step)
    requires Locked(s) && Next(l, s, s', step) && RunningOk(l, s.rows) && !Unasked(s, step)
    ensures RunningOk(l, s'.rows)
  {
    hide Locked, Next, ActiveSlots;
    RowsAfter(l, s, s', step);
    if s'.rows == s.rows {
    } else if step.AdmitCreate? && At(s, step.t).Absent? &&
              s'.rows == s.rows[At(s, step.t).name := Slot(Creating, false, step.port)] {
      CreateChecks(l, s, s', step);
      OneSlot(s.rows, At(s, step.t).name, Slot(Creating, false, step.port));
    } else if n, st, w :| n in s.rows && s'.rows == s.rows[n := s.rows[n].(state := st, wakeFailed := w)] &&
                          (M.Active(st) ==> M.Active(s.rows[n].state) || Room(l, s.rows) || Unasked(s, step)) {
      OneSlot(s.rows, n, s.rows[n].(state := st, wakeFailed := w));
      ActiveIn(s.rows, n);
      Smaller(ActiveSlots(s.rows), n);
    } else {
      var n :| n in s.rows && s'.rows == s.rows - {n};
      DropSlot(s.rows, n);
      Smaller(ActiveSlots(s.rows), n);
    }
  }

  lemma ActiveIn(rows: map<string, Slot>, n: string)
    requires n in rows
    ensures n in ActiveSlots(rows) <==> M.Active(rows[n].state)
  {
  }

  lemma Smaller(a: set<string>, n: string)
    ensures |a - {n}| <= |a| && (n in a ==> a + {n} == a) && |a + {n}| <= |a| + 1
  {
    if n in a {
      assert a + {n} == a && a == (a - {n}) + {n};
    } else {
      assert a - {n} == a;
    }
  }

  /** Reset writes `resetting` without asking: the bound survives exactly when the branch already counted,
      or there was room. */
  lemma ResetKeepsBoundIff(l: Limits, s: Sys, s': Sys, step: Step)
    requires Locked(s) && Next(l, s, s', step) && RunningOk(l, s.rows) && Unasked(s, step)
    ensures RunningOk(l, s'.rows) <==> M.Active(s.rows[At(s, step.t).name].state) || Room(l, s.rows)
  {
    var n := At(s, step.t).name;
    OneSlot(s.rows, n, s.rows[n].(state := Resetting, wakeFailed := false));
    var a := ActiveSlots(s.rows);
    if n in a { assert a + {n} == a; } else { assert |a + {n}| == |a| + 1; }
  }

  // ---- whole behaviours ----

  ghost predicate Path(l: Limits, states: seq<Sys>, steps: seq<Step>) {
    |states| == |steps| + 1 && forall i :: 0 <= i < |steps| ==> Next(l, states[i], states[i + 1], steps[i])
  }

  ghost predicate Behaviour(l: Limits, states: seq<Sys>, steps: seq<Step>) {
    && Path(l, states, steps)
    && states[0] == Sys(states[0].rows, map[], map[])
    && PortsOk(l, states[0].rows) && BranchesOk(l, states[0].rows) && RunningOk(l, states[0].rows)
  }

  /** In every interleaving rows never exceed max_branches and ports stay distinct and in range. */
  lemma {:induction false} LimitsHold(l: Limits, states: seq<Sys>, steps: seq<Step>, i: nat)
    requires Behaviour(l, states, steps) && i < |states|
    ensures Safe(l, states[i])
    ensures l.maxBranches > 0 ==> |states[i].rows| <= l.maxBranches
    ensures forall n :: n in states[i].rows ==> l.portLow <= states[i].rows[n].port <= l.portHigh
    ensures forall n, o :: n in states[i].rows && o in states[i].rows && n != o ==>
              states[i].rows[n].port != states[i].rows[o].port
  {
    if i > 0 {
      LimitsHold(l, states, steps, i - 1);
      LockedStep(l, states[i - 1], states[i], steps[i - 1]);
      PortsStep(l, states[i - 1], states[i], steps[i - 1]);
    }
  }

  /** A Reset that found its branch inactive although max_running was reached. */
  ghost predicate Overcommits(l: Limits, s: Sys, step: Step) {
    Unasked(s, step) && !M.Active(s.rows[At(s, step.t).name].state) && !Room(l, s.rows)
  }

  /** Active rows never exceed max_running as long as no reset overcommits - and the first one that does exceeds it. */
  lemma {:induction false} RunningHolds(l: Limits, states: seq<Sys>, steps: seq<Step>, i: nat)
    requires Behaviour(l, states, steps) && i < |states|
    requires forall k :: 0 <= k < i - 1 ==> !Overcommits(l, states[k], steps[k])
    ensures RunningOk(l, states[i].rows) <==> i == 0 || !Overcommits(l, states[i - 1], steps[i - 1])
  {
    if i > 0 {
      LimitsHold(l, states, steps, i - 1);
      RunningHolds(l, states, steps, i - 1);
      assert i > 1 ==> !Overcommits(l, states[i - 2], steps[i - 2]);
      if Unasked(states[i - 1], steps[i - 1]) {
        ResetKeepsBoundIff(l, states[i - 1], states[i], steps[i - 1]);
      } else {
        RunningStep(l, states[i - 1], states[i], steps[i - 1]);
      }
    }
  }

  /** An idle thread can always take a free branch through Reset up to the unasked step. */
  lemma ResetGetsThere(l: Limits, s: Sys, t: nat, name: string) returns (s1: Sys, s2: Sys, s3: Sys)
    requires At(s, t) == Idle && name in s.rows && name !in s.holder
    ensures Next(l, s, s1, Lock(t, Reset, name)) && Next(l, s1, s2, Look(t)) && Next(l, s2, s3, Proceed(t))
    ensures s3.rows == s.rows[name := s.rows[name].(state := Resetting, wakeFailed := false)]
  {
    s1 := Moved(s, t, Holding(Reset, name)).(holder := s.holder[name := t]);
    s2 := Moved(s1, t, Seen(Reset, name, s.rows[name]));
    s3 := Moved(Written(s2, name, Resetting, false), t, Working(Reset, name));
  }

  /** It happens: with room for one, a sleeping branch is reset while another runs. */
  lemma ResetOvercommits() returns (l: Limits, states: seq<Sys>, steps: seq<Step>)
    ensures Behaviour(l, states, steps) && !RunningOk(l, states[|steps|].rows)
  {
    hide Next;
    l := Limits(0, 1, 1, 2);
    var rows := map["a" := Slot(Running, false, 1), "b" := Slot(Sleeping, false, 2)];
    var s0 := Sys(rows, map[], map[]);
    var s1, s2, s3 := ResetGetsThere(l, s0, 0, "b");
    states, steps := [s0, s1, s2, s3], [Lock(0, Reset, "b"), Look(0), Proceed(0)];
    assert ActiveSlots(rows) == {"a"};
    assert ActiveSlots(s3.rows) == {"a", "b"};
  }
}
