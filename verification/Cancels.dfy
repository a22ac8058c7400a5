/** The cancel keys of the PostgreSQL proxy: one table for all sessions, from the key a backend announces to the
    backend's address. A session puts in every key its backend announces, and at its end takes out the last one. */
module Cancels {
  import opened Names
  import opened Bits

  type Key = (nat, nat)

  /** `key`: the last one announced, which the session will take out; what was announced before is forgotten. */
  datatype Session = Session(address: Chars, key: Option<Key>, live: bool)

  datatype State = State(table: map<Key, Chars>, sessions: map<nat, Session>)

  /** A session has its backend, a key is announced, the session ends, a cancel request arrives. */
  datatype Step = Open(id: nat, address: Chars) | Announce(id: nat, key: Key) | End(id: nat) | Relay(key: Key)

  predicate Live(s: State, id: nat) {
    id in s.sessions && s.sessions[id].live
  }

  /** A client of this session cancels with this key. */
  predicate Holds(s: State, id: nat, key: Key) {
    Live(s, id) && s.sessions[id].key == Some(key)
  }

  predicate Enabled(s: State, step: Step) {
    match step
    case Open(id, _) => id !in s.sessions
    case Announce(id, _) => Live(s, id)
    case End(id) => Live(s, id)
    case Relay(_) => true
  }

  function Succ(s: State, step: Step): State
    requires Enabled(s, step)
  {
    match step
    case Open(id, address) => s.(sessions := s.sessions[id := Session(address, None, true)])
    case Announce(id, key) =>
      State(s.table[key := s.sessions[id].address], s.sessions[id := s.sessions[id].(key := Some(key))])
    case End(id) =>
      State(if s.sessions[id].key.Some? then s.table - {s.sessions[id].key.value} else s.table,
            s.sessions[id := s.sessions[id].(live := false)])
    case Relay(_) => s
  }

  predicate Next(s: State, s': State, step: Step) {
    Enabled(s, step) && s' == Succ(s, step)
  }

  const START := State(map[], map[])

  ghost predicate Behaviour(states: seq<State>, steps: seq<Step>) {
    && |states| == |steps| + 1 && states[0] == START
    && forall i :: 0 <= i < |steps| ==> Next(states[i], states[i + 1], steps[i])
  }

  // ---- where a cancel request goes ----

  predicate Registers(s: State, step: Step, key: Key, address: Chars) {
    step.Announce? && step.key == key && Live(s, step.id) && s.sessions[step.id].address == address
  }

  /** The step puts the key in or takes it out. */
  predicate Touches(s: State, step: Step, key: Key) {
    (step.Announce? && step.key == key) || (step.End? && Holds(s, step.id, key))
  }

  /** Of the first `i` steps, the latest that touched the key registered it for this address. */
  ghost predicate LatestIs(states: seq<State>, steps: seq<Step>, i: nat, key: Key, address: Chars)
    requires i <= |steps| < |states|
  {
    exists j :: 0 <= j < i && Registers(states[j], steps[j], key, address)
      && forall m :: j < m < i ==> !Touches(states[m], steps[m], key)
  }

  predicate Goes(s: State, key: Key, address: Chars) {
    key in s.table && s.table[key] == address
  }

  lemma TouchStep(s: State, s': State, step: Step, key: Key, address: Chars)
    requires Next(s, s', step)
    ensures Goes(s', key, address) <==>
              if Touches(s, step, key) then Registers(s, step, key, address) else Goes(s, key, address)
  {
  }

  lemma LatestStep(states: seq<State>, steps: seq<Step>, i: nat, key: Key, address: Chars)
    requires i < |steps| < |states|
    ensures LatestIs(states, steps, i + 1, key, address) <==>
              if Touches(states[i], steps[i], key) then Registers(states[i], steps[i], key, address)
              else LatestIs(states, steps, i, key, address)
  {
    if !Touches(states[i], steps[i], key) && LatestIs(states, steps, i, key, address) {
      var j :| 0 <= j < i && Registers(states[j], steps[j], key, address)
        && forall m :: j < m < i ==> !Touches(states[m], steps[m], key);
      assert forall m :: j < m < i + 1 ==> !Touches(states[m], steps[m], key);
    }
  }

  /** In every interleaving: a cancel request goes where the latest registration or removal of its key says. */
  lemma {:induction false} LookupIsLatest(states: seq<State>, steps: seq<Step>, i: nat, key: Key, address: Chars)
    requires Behaviour(states, steps) && i < |states|
    ensures Goes(states[i], key, address) <==> LatestIs(states, steps, i, key, address)
  {
    hide LatestIs, Touches, Registers, Goes, Next;
    if i == 0 {
      NothingYet(states, steps, key, address);
    } else {
      LookupIsLatest(states, steps, i - 1, key, address);
      TouchStep(states[i - 1], states[i], steps[i - 1], key, address);
      LatestStep(states, steps, i - 1, key, address);
    }
  }

  lemma NothingYet(states: seq<State>, steps: seq<Step>, key: Key, address: Chars)
    requires Behaviour(states, steps)
    ensures !Goes(states[0], key, address) && !LatestIs(states, steps, 0, key, address)
  {
  }

  /** The session's cancel request goes to its own backend. */
  predicate Reaches(s: State, id: nat)
    requires id in s.sessions
  {
    s.sessions[id].key.Some? && Goes(s, s.sessions[id].key.value, s.sessions[id].address)
  }

  /** A live session's cancel reaches its own backend exactly if the latest registration or removal of its key, by
      whichever session, is a registration for that backend. */
  lemma ReachesIff(states: seq<State>, steps: seq<Step>, i: nat, id: nat, key: Key)
    requires Behaviour(states, steps) && i < |states| && Holds(states[i], id, key)
    ensures Reaches(states[i], id) <==> LatestIs(states, steps, i, key, states[i].sessions[id].address)
  {
    hide LatestIs, Behaviour;
    LookupIsLatest(states, steps, i, key, states[i].sessions[id].address);
  }

  // ---- when the table is exactly the live sessions ----

  ghost predicate Shared(s: State, id: nat, key: Key) {
    exists o :: o != id && Holds(s, o, key)
  }

  /** Every entry belongs to a live session, and every live session's cancel reaches its own backend. */
  ghost predicate Exact(s: State) {
    && (forall k :: k in s.table ==> exists id :: Holds(s, id, k))
    && (forall id, k :: Holds(s, id, k) ==> Goes(s, k, s.sessions[id].address))
  }

  /** An announcement does harm if a live session with another address holds the key, or if it makes the session
      forget a key that nobody else holds; an end, if another live session holds the key it takes out. */
  ghost predicate Harmless(s: State, step: Step) {
    match step
    case Announce(id, key) =>
      && Live(s, id)
      && (forall o :: o != id && Holds(s, o, key) ==> s.sessions[o].address == s.sessions[id].address)
      && (s.sessions[id].key in {None, Some(key)} || Shared(s, id, s.sessions[id].key.value))
    case End(id) => Live(s, id) && (s.sessions[id].key.Some? ==> !Shared(s, id, s.sessions[id].key.value))
    case _ => true
  }

  lemma HoldsAfter(s: State, s': State, step: Step)
    requires Next(s, s', step)
    ensures forall id, k :: Holds(s', id, k) <==>
              if step == Announce(id, k) then true
              else Holds(s, id, k) && !(step.Announce? && step.id == id) && step != End(id)
  {
  }

  lemma OpenKeeps(s: State, s': State, step: Step)
    requires Exact(s) && Next(s, s', step) && (step.Open? || step.Relay?)
    ensures Exact(s')
  {
    HoldsAfter(s, s', step);
    forall k | k in s'.table ensures exists id :: Holds(s', id, k) {
      var id :| Holds(s, id, k);
      assert Holds(s', id, k);
    }
  }

  lemma AnnounceKeeps(s: State, s': State, step: Step)
    requires Exact(s) && Next(s, s', step) && step.Announce? && Harmless(s, step)
    ensures Exact(s')
  {
    HoldsAfter(s, s', step);
    forall k | k in s'.table ensures exists o :: Holds(s', o, k) {
      if k == step.key { assert Holds(s', step.id, k); } else { StillHeld(s, s', step, k); }
    }
    forall o, k | Holds(s', o, k) ensures Goes(s', k, s'.sessions[o].address) {
      HeldStillGoes(s, s', step, o, k);
    }
  }

  lemma StillHeld(s: State, s': State, step: Step, k: Key)
    requires Exact(s) && Next(s, s', step) && step.Announce? && Harmless(s, step) && k in s.table && k != step.key
    ensures exists o :: Holds(s', o, k)
  {
    HoldsAfter(s, s', step);
    var o :| Holds(s, o, k) && (o != step.id || !Shared(s, step.id, k));
    assert Holds(s', o, k);
  }

  lemma HeldStillGoes(s: State, s': State, step: Step, o: nat, k: Key)
    requires Exact(s) && Next(s, s', step) && step.Announce? && Harmless(s, step) && Holds(s', o, k)
    ensures Goes(s', k, s'.sessions[o].address)
  {
    if o != step.id { assert Holds(s, o, k); }
  }

  lemma AnnounceHarms(s: State, s': State, step: Step)
    requires Exact(s) && Next(s, s', step) && step.Announce? && Exact(s')
    ensures Harmless(s, step)
  {
    var id, key, was := step.id, step.key, s.sessions[step.id].key;
    HoldsAfter(s, s', step);
    assert Holds(s', id, key);
    forall o | o != id && Holds(s, o, key) ensures s.sessions[o].address == s.sessions[id].address {
      assert Holds(s', o, key);
    }
    if was.Some? && was.value != key {
      assert Holds(s, id, was.value);
      assert was.value in s'.table;
      var o :| Holds(s', o, was.value);
      assert Holds(s, o, was.value);
    }
  }

  lemma EndKeepsIff(s: State, s': State, step: Step)
    requires Exact(s) && Next(s, s', step) && step.End?
    ensures Exact(s') <==> Harmless(s, step)
  {
    var id, was := step.id, s.sessions[step.id].key;
    HoldsAfter(s, s', step);
    if was.Some? && Shared(s, id, was.value) {
      var o :| o != id && Holds(s, o, was.value);
      assert Holds(s', o, was.value);
    }
    if Harmless(s, step) {
      forall k | k in s'.table ensures exists o :: Holds(s', o, k) {
        var o :| Holds(s, o, k);
        assert Holds(s', o, k);
      }
    }
  }

  /** One step from an exact table leads to an exact one exactly if it is harmless. */
  lemma ExactStep(s: State, s': State, step: Step)
    requires Exact(s) && Next(s, s', step)
    ensures Exact(s') <==> Harmless(s, step)
  {
    hide Exact, Next;
    match step {
      case Announce(_, _) =>
        if Harmless(s, step) { AnnounceKeeps(s, s', step); }
        if Exact(s') { AnnounceHarms(s, s', step); }
      case End(_) => EndKeepsIff(s, s', step);
      case _ => OpenKeeps(s, s', step);
    }
  }

  /** In every interleaving the table is exact until, and exactly until, a step that does harm. */
  lemma {:induction false} ExactHolds(states: seq<State>, steps: seq<Step>, i: nat)
    requires Behaviour(states, steps) && i < |states|
    requires forall j :: 0 <= j < i ==> Harmless(states[j], steps[j])
    ensures Exact(states[i])
    ensures i < |steps| ==> (Exact(states[i + 1]) <==> Harmless(states[i], steps[i]))
  {
    hide Exact, Harmless;
    if i == 0 {
      StartIsExact();
    } else {
      ExactHolds(states, steps, i - 1);
    }
    if i < |steps| { ExactStep(states[i], states[i + 1], steps[i]); }
  }

  lemma StartIsExact()
    ensures Exact(START)
  {
  }

  /** No two live sessions hold one key. */
  ghost predicate KeysDistinct(s: State) {
    forall id, o :: Live(s, id) && Live(s, o) && s.sessions[id].key.Some? && s.sessions[id].key == s.sessions[o].key ==>
      id == o
  }

  /** The session has announced no key before. */
  predicate AnnouncesFirst(s: State, step: Step) {
    step.Announce? && step.id in s.sessions ==> s.sessions[step.id].key.None?
  }

  lemma HeldByOne(s: State)
    requires forall key, id, o :: Holds(s, id, key) && Holds(s, o, key) ==> id == o
    ensures KeysDistinct(s)
  {
    forall id, o | Live(s, id) && Live(s, o) && s.sessions[id].key.Some? && s.sessions[id].key == s.sessions[o].key
      ensures id == o {
      assert Holds(s, id, s.sessions[id].key.value) && Holds(s, o, s.sessions[id].key.value);
    }
  }

  lemma DistinctIsHarmless(s: State, s': State, step: Step)
    requires Next(s, s', step) && KeysDistinct(s) && KeysDistinct(s')
    requires AnnouncesFirst(s, step)
    ensures Harmless(s, step)
  {
    if step.Announce? {
      assert Holds(s', step.id, step.key);
      forall o | o != step.id && Holds(s, o, step.key) ensures false {
        assert Holds(s', o, step.key);
      }
    }
  }

  /** With one key a session, and never one key for two live sessions, the table is exactly the live sessions, so every
      cancel request reaches its own session's backend, or none once that session has ended. */
  lemma {:induction false} DistinctIsExact(states: seq<State>, steps: seq<Step>, i: nat)
    requires Behaviour(states, steps) && i < |states|
    requires forall j, key, id, o :: 0 <= j <= i && Holds(states[j], id, key) && Holds(states[j], o, key) ==> id == o
    requires forall j :: 0 <= j < i ==> AnnouncesFirst(states[j], steps[j])
    ensures Exact(states[i])
    ensures forall key, address :: Goes(states[i], key, address) <==>
              exists id :: Holds(states[i], id, key) && states[i].sessions[id].address == address
  {
    hide Harmless, Next, KeysDistinct, AnnouncesFirst;
    forall j | 0 <= j <= i ensures KeysDistinct(states[j]) { HeldByOne(states[j]); }
    forall j | 0 <= j < i ensures Harmless(states[j], steps[j]) {
      DistinctIsHarmless(states[j], states[j + 1], steps[j]);
    }
    ExactHolds(states, steps, i);
    forall key, address | Goes(states[i], key, address)
      ensures exists id :: Holds(states[i], id, key) && states[i].sessions[id].address == address {
      var id :| Holds(states[i], id, key);
    }
  }

  // ---- three ways it goes wrong ----

  const K: Key := (1, 1)
  const L: Key := (2, 2)
  const HERE: Chars := [1]
  const THERE: Chars := [2]

  lemma First() returns (states: seq<State>, steps: seq<Step>)
    ensures Behaviour(states, steps) && states == [START] && steps == []
  {
    states, steps := [START], [];
  }

  lemma Further(states: seq<State>, steps: seq<Step>, step: Step) returns (states': seq<State>, steps': seq<Step>)
    requires Behaviour(states, steps) && Enabled(states[|steps|], step)
    ensures Behaviour(states', steps') && states' == states + [Succ(states[|steps|], step)] && steps' == steps + [step]
  {
    hide Enabled, Succ;
    states', steps' := states + [Succ(states[|steps|], step)], steps + [step];
  }

  /** Two backends announce one key: the first session's cancel goes to the second backend, and when the second
      session ends it goes nowhere. */
  lemma SharedKey() returns (states: seq<State>, steps: seq<Step>)
    ensures Behaviour(states, steps) && steps == [Open(0, HERE), Announce(0, K), Open(1, THERE), Announce(1, K), End(1)]
    ensures Holds(states[4], 0, K) && states[4].sessions[0].address == HERE && Goes(states[4], K, THERE)
    ensures Holds(states[5], 0, K) && K !in states[5].table
  {
    states, steps := First();
    states, steps := Further(states, steps, Open(0, HERE));
    states, steps := Further(states, steps, Announce(0, K));
    states, steps := Further(states, steps, Open(1, THERE));
    states, steps := Further(states, steps, Announce(1, K));
    states, steps := Further(states, steps, End(1));
  }

  /** A backend announces two keys: the first stays in the table when the session has ended. */
  lemma SecondKey() returns (states: seq<State>, steps: seq<Step>)
    ensures Behaviour(states, steps) && steps == [Open(0, HERE), Announce(0, K), Announce(0, L), End(0)]
    ensures Goes(states[4], K, HERE) && forall id :: !Live(states[4], id)
  {
    states, steps := First();
    states, steps := Further(states, steps, Open(0, HERE));
    states, steps := Further(states, steps, Announce(0, K));
    states, steps := Further(states, steps, Announce(0, L));
    states, steps := Further(states, steps, End(0));
  }

  // ---- the table as the server holds it ----

  predicate By(step: Step, id: nat) {
    !step.Relay? && step.id == id
  }

  function Mine(step: Step, id: nat): seq<Step> {
    if By(step, id) then [step] else []
  }

  /** The steps of one session. */
  function Own(steps: seq<Step>, id: nat): seq<Step> {
    if steps == [] then [] else Mine(steps[0], id) + Own(steps[1..], id)
  }

  lemma {:induction false} OwnOf(a: seq<Step>, b: seq<Step>, id: nat)
    ensures Own(a + b, id) == Own(a, id) + Own(b, id)
  {
    hide Mine;
    if a == [] {
      assert a + b == b;
    } else {
      OwnOf(a[1..], b, id);
      assert (a + b)[1..] == a[1..] + b;
      assert Own(a + b, id) == Mine(a[0], id) + (Own(a[1..], id) + Own(b, id));
    }
  }

  /** Since `before` the session has taken these steps, and other sessions any number of theirs. */
  ghost predicate Took(before: seq<Step>, after: seq<Step>, id: nat, own: seq<Step>) {
    before <= after && Own(after[|before|..], id) == own
  }

  lemma TookBoth(a: seq<Step>, b: seq<Step>, c: seq<Step>, id: nat, x: seq<Step>, y: seq<Step>)
    requires Took(a, b, id, x) && Took(b, c, id, y)
    ensures Took(a, c, id, x + y)
  {
    assert c[|a|..] == b[|a|..] + c[|b|..];
    OwnOf(b[|a|..], c[|b|..], id);
  }

  lemma TookOne(a: seq<Step>, step: Step, id: nat)
    ensures Took(a, a + [step], id, Mine(step, id))
    ensures Took(a, a, id, [])
    ensures Mine(step, id) == if step.Relay? || step.id != id then [] else [step]
  {
    assert (a + [step])[|a|..] == [step] && a[|a|..] == [];
    assert Own([step], id) == Mine(step, id) + Own([step][1..], id);
  }

  /** The table, with what the sessions themselves remember, and the steps that led there. */
  class Registry {
    var state: State
    ghost var states: seq<State>
    ghost var steps: seq<Step>

    constructor ()
      ensures Valid() && state == START && steps == []
    {
      state, states, steps := START, [START], [];
    }

    ghost predicate Valid()
      reads this
    {
      Behaviour(states, steps) && states[|steps|] == state
    }

    /** The latest registration or removal of the key is a registration for this address. */
    ghost predicate Latest(key: Key, address: Chars)
      requires Valid()
      reads this
    {
      LatestIs(states, steps, |steps|, key, address)
    }

    method Take(step: Step)
      requires Valid() && Enabled(state, step)
      modifies this
      ensures Valid() && state == Succ(old(state), step) && steps == old(steps) + [step]
    {
      hide Enabled, Succ;
      ghost var states', steps' := Further(states, steps, step);
      states, steps, state := states', steps', Succ(state, step);
    }

    /** A session that has its backend. */
    method Connected(id: nat, address: Chars)
      requires Valid() && id !in state.sessions
      modifies this
      ensures Valid() && state == Succ(old(state), Open(id, address)) && steps == old(steps) + [Open(id, address)]
      ensures Took(old(steps), steps, id, [Open(id, address)])
      ensures Live(state, id) && state.sessions[id] == Session(address, None, true)
    {
      TookOne(steps, Open(id, address), id);
      Take(Open(id, address));
    }

    method Register(id: nat, key: Key)
      requires Valid() && Live(state, id)
      modifies this
      ensures Valid() && state == Succ(old(state), Announce(id, key)) && steps == old(steps) + [Announce(id, key)]
      ensures Took(old(steps), steps, id, [Announce(id, key)])
      ensures Live(state, id)
    {
      TookOne(steps, Announce(id, key), id);
      Take(Announce(id, key));
    }

    /** The session ends, and takes out the key it remembers, if its backend has announced one. */
    method Unregister(id: nat)
      requires Valid() && Live(state, id)
      modifies this
      ensures Valid() && state == Succ(old(state), End(id)) && steps == old(steps) + [End(id)]
      ensures Took(old(steps), steps, id, [End(id)])
      ensures !Live(state, id)
    {
      TookOne(steps, End(id), id);
      Take(End(id));
    }

    /** Looked up for a cancel request: the backend that the latest registration of the key names, unless the key has
        been taken out since. */
    method Lookup(key: Key) returns (address: Option<Chars>)
      requires Valid()
      modifies this
      ensures Valid() && state == old(state) && steps == old(steps) + [Relay(key)]
      ensures address.Some? <==> key in state.table
      ensures forall a :: address == Some(a) <==> Latest(key, a)
    {
      Take(Relay(key));
      forall a ensures Goes(state, key, a) <==> Latest(key, a) {
        LookupIsLatest(states, steps, |steps|, key, a);
      }
      address := if key in state.table then Some(state.table[key]) else None;
    }

    /** Other sessions go on while this one does not look. */
    method Meanwhile(id: nat)
      requires Valid() && Live(state, id)
      modifies this
      ensures Valid() && Live(state, id) && state.sessions[id] == old(state).sessions[id]
      ensures Took(old(steps), steps, id, [])
    {
      hide Behaviour;
      TookOne(steps, Relay((0, 0)), id);
      var rounds: int := *;
      while rounds > 0
        invariant Valid() && Live(state, id) && state.sessions[id] == old(state).sessions[id]
        invariant Took(old(steps), steps, id, [])
      {
        var step: Step := *;
        if Enabled(state, step) && !By(step, id) {
          TookOne(steps, step, id);
          TookBoth(old(steps), steps, steps + [step], id, [], []);
          Take(step);
        }
        rounds := rounds - 1;
      }
    }
  }
}
