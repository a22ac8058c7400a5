/** The requests of the manager are requests of the admission model: what one does to the rows is what the mutex
    sections of one thread do, from whatever state the other threads have left. */
module Sections {
  import opened Names
  import opened Pool
  import opened Store
  import opened Host
  import opened Invariant
  import opened Manager
  import opened Lifecycle
  import opened Rebuild
  import opened Requests
  import A = Admission

  // ---- rows in the words of the model ----

  function SlotOf(row: Row): A.Slot {
    A.Slot(row.state, row.state == Error && row.failedOp == WakeOp, row.port)
  }

  ghost predicate Mirrors(slots: map<string, A.Slot>, rows: Rows) {
    slots.Keys == rows.Keys && forall n :: n in rows ==> slots[n] == SlotOf(rows[n])
  }

  function LimitsOf(cfg: Config): A.Limits {
    A.Limits(cfg.maxBranches, cfg.maxRunning, cfg.portLow, cfg.portHigh)
  }

  /** The limits are checked alike on both sides. */
  lemma Alike(slots: map<string, A.Slot>, rows: Rows)
    requires Mirrors(slots, rows)
    ensures A.ActiveSlots(slots) == ActiveRows(rows) && |slots| == |rows|
    ensures forall n :: n in slots <==> n in rows
    ensures forall port :: A.PortTaken(slots, port) <==> PortUsed(rows, port)
  {
    assert |slots.Keys| == |rows.Keys|;
    assert forall n :: n in slots.Keys <==> n in rows.Keys;
    forall port ensures A.PortTaken(slots, port) <==> PortUsed(rows, port) {
      if A.PortTaken(slots, port) {
        var n :| n in slots && slots[n].port == port;
        assert n in rows.Keys && rows[n].port == port;
      }
      if PortUsed(rows, port) {
        var n :| n in rows && rows[n].port == port;
        assert n in slots.Keys && slots[n].port == port;
      }
    }
  }

  lemma StillMirrors(slots: map<string, A.Slot>, rows: Rows, slots': map<string, A.Slot>, rows': Rows, name: string)
    requires Mirrors(slots, rows) && OthersKept(rows, rows', name) && slots' - {name} == slots - {name}
    requires name in slots' <==> name in rows'
    requires name in slots' && name in rows' ==> slots'[name] == SlotOf(rows'[name])
    ensures Mirrors(slots', rows')
  {
    forall n | n != name
      ensures (n in slots' <==> n in rows') && (n in slots' && n in rows' ==> slots'[n] == SlotOf(rows'[n])) {
      assert n in slots' <==> n in slots' - {name};
      assert n in slots <==> n in slots - {name};
      assert n in rows' <==> n in rows' - {name};
      assert n in rows <==> n in rows - {name};
      assert n in slots <==> n in slots.Keys;
      if n in rows { assert (rows - {name})[n] == (rows' - {name})[n]; }
      if n in slots { assert (slots - {name})[n] == (slots' - {name})[n]; }
    }
    forall n ensures n in slots'.Keys <==> n in rows'.Keys {}
  }

  // ---- one request, section by section ----

  /** Refused, or over before a row was written; cut short behind admission; carried through, well or not. */
  datatype Ending = TurnedAway | CutShort | Over(ok: bool)

  predicate Idle(s: A.Sys, t: nat, name: string) {
    A.At(s, t) == A.Idle && name !in s.holder
  }

  /** What the section that writes the row asks for. */
  ghost predicate MayEnter(l: A.Limits, slots: map<string, A.Slot>, op: A.Request, name: string, port: int) {
    match op
    case Create =>
      && name !in slots && (l.maxBranches > 0 ==> |slots| < l.maxBranches)
      && l.portLow <= port <= l.portHigh && !A.PortTaken(slots, port) && A.Room(l, slots)
    case Wake => name in slots && A.Wakeable(slots[name]) && (slots[name].state != Running ==> A.Room(l, slots))
    case Recreate => name in slots && A.Room(l, slots)
    case Sleep => name in slots && slots[name].state == Running
    case _ => name in slots
  }

  function In(slots: map<string, A.Slot>, name: string, st: State): map<string, A.Slot>
    requires name in slots
  {
    slots[name := slots[name].(state := st, wakeFailed := false)]
  }

  function Entered(slots: map<string, A.Slot>, op: A.Request, name: string, port: int): map<string, A.Slot>
    requires op == A.Create || name in slots
  {
    match op
    case Create => slots[name := A.Slot(Creating, false, port)]
    case Wake => if slots[name].state == Running then slots else In(slots, name, Running)
    case Recreate => In(slots, name, Resetting)
    case Reset => In(slots, name, Resetting)
    case Sleep => slots
    case Delete => In(slots, name, Deleting)
  }

  function Left(slots: map<string, A.Slot>, op: A.Request, name: string, ok: bool): map<string, A.Slot>
    requires name in slots
  {
    match op
    case Sleep => if ok then In(slots, name, Sleeping) else slots
    case Delete => if ok then slots - {name} else In(slots, name, Error)
    case _ =>
      if ok then In(slots, name, Running)
      else slots[name := slots[name].(state := Error, wakeFailed := op == A.Wake)]
  }

  function Afterwards(slots: map<string, A.Slot>, op: A.Request, name: string, port: int, e: Ending):
    map<string, A.Slot>
    requires op == A.Create || e == TurnedAway || name in slots
  {
    match e
    case TurnedAway => slots
    case CutShort => Entered(slots, op, name, port)
    case Over(ok) => Left(Entered(slots, op, name, port), op, name, ok)
  }

  /** Every section is this thread's. */
  predicate OfThread(steps: seq<A.Step>, t: nat) {
    forall i :: 0 <= i < |steps| ==> steps[i].t == t
  }

  lemma Onward(l: A.Limits, states: seq<A.Sys>, steps: seq<A.Step>, step: A.Step, s': A.Sys)
    returns (states': seq<A.Sys>, steps': seq<A.Step>)
    requires A.Path(l, states, steps) && A.Next(l, states[|steps|], s', step) && OfThread(steps, step.t)
    ensures A.Path(l, states', steps') && states'[0] == states[0] && states'[|steps'|] == s' && OfThread(steps', step.t)
  {
    hide A.Next;
    states', steps' := states + [s'], steps + [step];
  }

  /** The lock, and the row read under it. */
  lemma Looked(l: A.Limits, s: A.Sys, t: nat, op: A.Request, name: string)
    returns (states: seq<A.Sys>, steps: seq<A.Step>)
    requires Idle(s, t, name)
    ensures A.Path(l, states, steps) && OfThread(steps, t) && states[0] == s && states[|steps|].rows == s.rows
    ensures var q := states[|steps|];
            if op == A.Create && name !in s.rows then A.At(q, t) == A.Absent(name)
            else if op != A.Create && name in s.rows && A.Fits(op, s.rows[name]) then
              A.At(q, t) == A.Seen(op, name, s.rows[name])
            else Idle(q, t, name)
  {
    states, steps := [s], [];
    var s1 := A.Moved(s, t, A.Holding(op, name)).(holder := s.holder[name := t]);
    states, steps := Onward(l, states, steps, A.Lock(t, op, name), s1);
    var s2 := if op == A.Create then if name in s.rows then A.Unlocked(s1, t, name) else A.Moved(s1, t, A.Absent(name))
    else if name in s.rows && A.Fits(op, s.rows[name]) then A.Moved(s1, t, A.Seen(op, name, s.rows[name]))
    else A.Unlocked(s1, t, name);
    states, steps := Onward(l, states, steps, A.Look(t), s2);
  }

  lemma Admitting(l: A.Limits, s: A.Sys, t: nat, op: A.Request, name: string, port: int)
    returns (step: A.Step, s': A.Sys)
    requires MayEnter(l, s.rows, op, name, port)
    requires A.At(s, t) == if op == A.Create then A.Absent(name) else A.Seen(op, name, s.rows[name])
    ensures A.Next(l, s, s', step) && step.t == t && s'.rows == Entered(s.rows, op, name, port)
    ensures A.At(s', t) == A.Working(op, name)
  {
    s' := A.Moved(s.(rows := Entered(s.rows, op, name, port)), t, A.Working(op, name));
    step := match op
      case Create => A.AdmitCreate(t, port)
      case Wake => if s.rows[name].state == Running then A.Proceed(t) else A.AdmitWake(t)
      case Recreate => A.AdmitRecreate(t)
      case _ => A.Proceed(t);
  }

  lemma Finishing(l: A.Limits, s: A.Sys, t: nat, op: A.Request, name: string, ok: bool) returns (s': A.Sys)
    requires A.At(s, t) == A.Working(op, name) && name in s.rows
    ensures A.Next(l, s, s', A.Finish(t, ok)) && s'.rows == Left(s.rows, op, name, ok) && Idle(s', t, name)
  {
    s' := A.Unlocked(s.(rows := Left(s.rows, op, name, ok)), t, name);
  }

  /** Whatever a request may do is done by a path of the model. */
  lemma RequestRuns(l: A.Limits, s: A.Sys, t: nat, op: A.Request, name: string, port: int, e: Ending)
    returns (states: seq<A.Sys>, steps: seq<A.Step>)
    requires Idle(s, t, name) && (e != TurnedAway ==> MayEnter(l, s.rows, op, name, port))
    ensures A.Path(l, states, steps) && OfThread(steps, t) && states[0] == s
    ensures states[|steps|].rows == Afterwards(s.rows, op, name, port, e)
    ensures e != CutShort ==> Idle(states[|steps|], t, name)
  {
    hide A.Next, A.Room, A.PortTaken;
    states, steps := Looked(l, s, t, op, name);
    var q := states[|steps|];
    if e == TurnedAway {
      if !Idle(q, t, name) {
        GivingUp(l, q, t);
        states, steps := Onward(l, states, steps, A.GiveUp(t), A.Unlocked(q, t, A.At(q, t).name));
      }
    } else {
      var step, q1 := Admitting(l, q, t, op, name, port);
      states, steps := Onward(l, states, steps, step, q1);
      if e.Over? {
        var q2 := Finishing(l, q1, t, op, name, e.ok);
        states, steps := Onward(l, states, steps, A.Finish(t, e.ok), q2);
      }
    }
  }

  lemma GivingUp(l: A.Limits, s: A.Sys, t: nat)
    requires A.At(s, t).Seen? || A.At(s, t).Absent?
    ensures A.Next(l, s, A.Unlocked(s, t, A.At(s, t).name), A.GiveUp(t))
    ensures Idle(A.Unlocked(s, t, A.At(s, t).name), t, A.At(s, t).name)
  {
  }

  // ---- the requests ----

  /** A path of the model, all of this thread, that ends with the manager's rows, and with the thread idle if the
      daemon has survived. */
  ghost predicate Told(m: Manager, s: A.Sys, t: nat, name: string, crashed: bool, states: seq<A.Sys>,
                       steps: seq<A.Step>)
    reads m, m.db
  {
    && A.Path(LimitsOf(m.cfg), states, steps) && OfThread(steps, t) && states[0] == s
    && Mirrors(states[|steps|].rows, m.db.rows)
    && (!crashed ==> Idle(states[|steps|], t, name))
  }

  lemma ToldMeans(m: Manager, s: A.Sys, t: nat, name: string, crashed: bool, states: seq<A.Sys>, steps: seq<A.Step>)
    requires Told(m, s, t, name, crashed, states, steps)
    ensures |states| == |steps| + 1 && states[0] == s
    ensures forall i :: 0 <= i < |steps| ==>
              steps[i].t == t && A.Next(LimitsOf(m.cfg), states[i], states[i + 1], steps[i])
    ensures forall n :: n in m.db.rows <==> n in states[|steps|].rows
    ensures forall n :: n in m.db.rows ==>
              && states[|steps|].rows[n].state == m.db.rows[n].state
              && states[|steps|].rows[n].port == m.db.rows[n].port
    ensures !crashed ==> A.At(states[|steps|], t) == A.Idle
  {
    hide A.Next;
    forall n ensures n in m.db.rows <==> n in states[|steps|].rows {
      assert n in m.db.rows.Keys <==> n in states[|steps|].rows.Keys;
    }
  }

  /** From the ending of the request to the path that tells it. */
  lemma Tell(m: Manager, rows: Rows, s: A.Sys, t: nat, op: A.Request, name: string, port: int, e: Ending,
             crashed: bool)
    returns (states: seq<A.Sys>, steps: seq<A.Step>)
    requires e == CutShort ==> crashed
    requires Idle(s, t, name) && Mirrors(s.rows, rows) && OthersKept(rows, m.db.rows, name)
    requires e != TurnedAway ==> MayEnter(LimitsOf(m.cfg), s.rows, op, name, port)
    requires e == TurnedAway ==> m.db.rows == rows || SameSlots(rows, m.db.rows, name)
    requires e != TurnedAway ==>
               var slots := Afterwards(s.rows, op, name, port, e);
               && (name in slots <==> name in m.db.rows)
               && (name in slots && name in m.db.rows ==> slots[name] == SlotOf(m.db.rows[name]))
    ensures Told(m, s, t, name, crashed, states, steps)
  {
    hide A.Path, A.Room, A.PortTaken, Mirrors, OthersKept;
    var l := LimitsOf(m.cfg);
    states, steps := RequestRuns(l, s, t, op, name, port, e);
    if e == TurnedAway {
      SameMirror(s.rows, rows, m.db.rows, name);
    } else {
      OtherSlots(s.rows, op, name, port, e);
      StillMirrors(s.rows, rows, Afterwards(s.rows, op, name, port, e), m.db.rows, name);
    }
  }

  /** The row has changed at most where the model does not look. */
  predicate SameSlots(rows: Rows, rows': Rows, name: string) {
    name in rows && name in rows' && SlotOf(rows'[name]) == SlotOf(rows[name])
  }

  lemma SameMirror(slots: map<string, A.Slot>, rows: Rows, rows': Rows, name: string)
    requires Mirrors(slots, rows) && OthersKept(rows, rows', name)
    requires rows' == rows || SameSlots(rows, rows', name)
    ensures Mirrors(slots, rows')
  {
    if rows' != rows {
      assert name in slots.Keys;
      StillMirrors(slots, rows, slots, rows', name);
    }
  }

  lemma OtherSlots(slots: map<string, A.Slot>, op: A.Request, name: string, port: int, e: Ending)
    requires op == A.Create || name in slots
    ensures Afterwards(slots, op, name, port, e) - {name} == slots - {name}
  {
  }

  method CreateRuns(m: Manager, name: string, port: int, profile: string, baseline: Option<SnapRef>, ghost s: A.Sys,
                    ghost t: nat)
    returns (r: Result, ghost states: seq<A.Sys>, ghost steps: seq<A.Step>)
    requires m.Valid() && Mirrors(s.rows, m.db.rows) && Idle(s, t, name)
    modifies m.db`rows, m.host`pool, m.host`failures, m.host`hooks, m.host`wrote, m`strays
    ensures m.Valid() && Told(m, s, t, name, r.Crashed?, states, steps)
  {
    hide Inv, Clean, StraysAre, Local, Ready, RefusedFor, Mirrors, OthersKept, ActiveRows, PortUsed, A.ActiveSlots,
      A.PortTaken, Told;
    ghost var rows := m.db.rows;
    Alike(s.rows, rows);
    r := Create(m, name, port, profile, baseline);
    ghost var e := if m.db.rows == rows then TurnedAway else if r.Crashed? then CutShort else Over(r.Done?);
    ghost var taken := if name in m.db.rows then m.db.rows[name].port else 0;
    states, steps := Tell(m, rows, s, t, A.Create, name, taken, e, r.Crashed?);
  }

  method WakeRuns(m: Manager, name: string, ghost s: A.Sys, ghost t: nat)
    returns (r: Result, ghost states: seq<A.Sys>, ghost steps: seq<A.Step>)
    requires m.Valid() && Mirrors(s.rows, m.db.rows) && Idle(s, t, name)
    modifies m.db`rows, m.host`pool, m.host`failures
    ensures m.Valid() && Told(m, s, t, name, r.Crashed?, states, steps)
  {
    hide Inv, Clean, StraysAre, Local, SameContents, OthersKept, ActiveRows, PortUsed, A.ActiveSlots, A.PortTaken, Told;
    ghost var rows := m.db.rows;
    Alike(s.rows, rows);
    r := Wake(m, name);
    ghost var e := if r.Refused? || (r.Crashed? && SameSlots(rows, m.db.rows, name)) then TurnedAway
                   else if r.Crashed? then CutShort else Over(r.Done?);
    states, steps := Tell(m, rows, s, t, A.Wake, name, 0, e, r.Crashed?);
  }

  /** What is left of a rebuild as far as the model can see. */
  lemma RebuiltSlot(r: Result, row: Row, p: Pool, row': Row, q: Pool, name: string, origin: SnapRef, now: int)
    requires Rebuilt(r, row, p, row', q, name, origin, RecreateOp, now) && row'.port == row.port
    ensures r.Refused? ==> row' == row
    ensures r.Done? ==> SlotOf(row') == A.Slot(Running, false, row.port)
    ensures r.FailedAt? ==> SlotOf(row') == A.Slot(Error, false, row.port)
    ensures r.Crashed? ==> row' == row || SlotOf(row') == A.Slot(Resetting, false, row.port)
  {
    hide OldOrNew, Named, Survives, HasInit;
  }

  method RecreateRuns(m: Manager, name: string, ghost s: A.Sys, ghost t: nat)
    returns (r: Result, ghost states: seq<A.Sys>, ghost steps: seq<A.Step>)
    requires m.Valid() && m.Free(name) && Mirrors(s.rows, m.db.rows) && Idle(s, t, name)
    modifies m.db`rows, m.host`pool, m.host`failures, m.host`hooks, m.host`wrote, m`strays
    ensures m.Valid() && Told(m, s, t, name, r.Crashed?, states, steps)
  {
    hide Inv, Clean, StraysAre, Local, OthersKept, ActiveRows, PortUsed, A.ActiveSlots, A.PortTaken, Told, Rebuilt,
      CanRebuild, Because, CurrentOf;
    ghost var rows, p := m.db.rows, m.host.pool;
    Alike(s.rows, rows);
    r := Recreate(m, name);
    if name in rows && m.db.rows != rows {
      RebuiltSlot(r, rows[name], p, m.db.rows[name], m.host.pool, name, CurrentOf(m.db.baselines, m.cfg.default),
                  m.clock);
    }
    ghost var e := if m.db.rows == rows || SameSlots(rows, m.db.rows, name) then TurnedAway
                   else if r.Crashed? then CutShort else Over(r.Done?);
    states, steps := Tell(m, rows, s, t, A.Recreate, name, 0, e, r.Crashed?);
  }

  method ResetRuns(m: Manager, name: string, ghost s: A.Sys, ghost t: nat)
    returns (r: Result, ghost states: seq<A.Sys>, ghost steps: seq<A.Step>)
    requires m.Valid() && Mirrors(s.rows, m.db.rows) && Idle(s, t, name)
    modifies m.db`rows, m.host`pool, m.host`failures, m.host`hooks, m.host`wrote
    ensures m.Valid() && Told(m, s, t, name, r.Crashed?, states, steps)
  {
    hide Inv, Clean, StraysAre, Local, SameClone, DataOfInit, OthersKept, A.ActiveSlots, A.PortTaken, Told;
    ghost var rows := m.db.rows;
    r := Reset(m, name);
    ghost var e := if r.Refused? then TurnedAway else if r.Crashed? then CutShort else Over(r.Done?);
    states, steps := Tell(m, rows, s, t, A.Reset, name, 0, e, r.Crashed?);
  }

  method SleepRuns(m: Manager, name: string, ghost s: A.Sys, ghost t: nat)
    returns (r: Result, ghost states: seq<A.Sys>, ghost steps: seq<A.Step>)
    requires m.Valid() && Mirrors(s.rows, m.db.rows) && Idle(s, t, name)
    modifies m.db`rows, m.host`pool, m.host`failures
    ensures m.Valid() && Told(m, s, t, name, r.Crashed?, states, steps)
  {
    hide Inv, Clean, StraysAre, Local, SameContents, OthersKept, A.ActiveSlots, A.PortTaken, Told;
    ghost var rows := m.db.rows;
    r := Sleep(m, name);
    ghost var e := if m.db.rows == rows then TurnedAway else Over(true);
    states, steps := Tell(m, rows, s, t, A.Sleep, name, 0, e, r.Crashed?);
  }

  method DeleteRuns(m: Manager, name: string, ghost s: A.Sys, ghost t: nat)
    returns (r: Result, ghost states: seq<A.Sys>, ghost steps: seq<A.Step>)
    requires m.Valid() && Mirrors(s.rows, m.db.rows) && Idle(s, t, name)
    modifies m.db`rows, m.host`pool, m.host`failures, m.host`hooks, m.host`wrote, m`strays
    ensures m.Valid() && Told(m, s, t, name, r.Crashed?, states, steps)
  {
    hide Inv, Clean, StraysAre, Local, OthersKept, A.ActiveSlots, A.PortTaken, Told;
    ghost var rows := m.db.rows;
    r := Delete(m, name);
    ghost var e := if r.Refused? then TurnedAway else if r.Crashed? then CutShort else Over(r.Done?);
    states, steps := Tell(m, rows, s, t, A.Delete, name, 0, e, r.Crashed?);
  }
}
