/** Client sessions of a proxy, any number at once. Either proxy takes a session through the same
    gates: the limiter's slot around the password check, then the route, then the branch's connection
    count. Sessions interleave at the mutex sections of the limiter and of the server. */
module Sessions {
  import opened Bits

  const MAX_CHECKS := 8

  /** Accepted; a valid user@branch received; checking, slot held; judged, slot still held; slot returned with
      the verdict; routed; counted against the branch; closed. */
  datatype Phase = Fresh | Named | Checking | Judged(ok: bool) | Released(ok: bool) | Routed | Counted | Closed

  datatype Session = Session(src: string, branch: Chars, phase: Phase)

  datatype Proxy = Proxy(sessions: map<nat, Session>, inflight: map<string, nat>, conns: map<Chars, nat>,
                         events: seq<Event>)

  /** What the outside sees of a session. */
  datatype Event = CheckPassed(id: nat) | CheckFailed(id: nat) | SlotReturned(id: nat) | RouteBranch(id: nat)

  datatype Step =
    | Accept(id: nat, src: string) | Hello(id: nat, branch: Chars) | Drop(id: nat)
    | Acquire(id: nat) | Verdict(id: nat, ok: bool) | Abort(id: nat) | Release(id: nat)
    | Route(id: nat) | Count(id: nat) | Leave(id: nat)

  function Get<K>(m: map<K, nat>, k: K): nat {
    if k in m then m[k] else 0
  }

  function To(p: Proxy, id: nat, phase: Phase): Proxy
    requires id in p.sessions
  {
    p.(sessions := p.sessions[id := p.sessions[id].(phase := phase)])
  }

  predicate In(p: Proxy, id: nat, phase: Phase) {
    id in p.sessions && p.sessions[id].phase == phase
  }

  function Note(p: Proxy, e: Event): Proxy {
    p.(events := p.events + [e])
  }

  /** When a session may take a step. A source without an address is not limited. */
  predicate Enabled(max: nat, p: Proxy, step: Step) {
    match step
    case Accept(id, src) => id !in p.sessions
    case Hello(id, branch) => In(p, id, Fresh)
    case Drop(id) =>
      // a malformed or refused message, no slot, a wrong password, an unknown branch, a full branch
      id in p.sessions && (p.sessions[id].phase in {Fresh, Named, Routed} || p.sessions[id].phase.Released?)
    case Acquire(id) => In(p, id, Named)
      && (p.sessions[id].src != "" ==> Get(p.inflight, p.sessions[id].src) < MAX_CHECKS)
    case Verdict(id, ok) => In(p, id, Checking)
    case Abort(id) => In(p, id, Checking)
    case Release(id) => id in p.sessions && p.sessions[id].phase.Judged?
    case Route(id) => In(p, id, Released(true))
    case Count(id) => In(p, id, Routed) && Get(p.conns, p.sessions[id].branch) < max
    case Leave(id) => In(p, id, Counted)
  }

  /** What the step does. A check that is cancelled or breaks off is nobody's verdict, but counts as failed. */
  function Succ(max: nat, p: Proxy, step: Step): Proxy
    requires Enabled(max, p, step)
  {
    match step
    case Accept(id, src) => p.(sessions := p.sessions[id := Session(src, [], Fresh)])
    case Hello(id, branch) => p.(sessions := p.sessions[id := p.sessions[id].(branch := branch, phase := Named)])
    case Drop(id) => To(p, id, Closed)
    case Acquire(id) =>
      To(p, id, Checking).(inflight :=
        if p.sessions[id].src == "" then p.inflight
        else p.inflight[p.sessions[id].src := Get(p.inflight, p.sessions[id].src) + 1])
    case Verdict(id, ok) => Note(To(p, id, Judged(ok)), if ok then CheckPassed(id) else CheckFailed(id))
    case Abort(id) => To(p, id, Judged(false))
    case Release(id) =>
      Note(To(p, id, Released(p.sessions[id].phase.ok)), SlotReturned(id)).(inflight :=
        if p.sessions[id].src == "" then p.inflight
        else if Get(p.inflight, p.sessions[id].src) <= 1 then p.inflight - {p.sessions[id].src}
        else p.inflight[p.sessions[id].src := Get(p.inflight, p.sessions[id].src) - 1])
    case Route(id) => Note(To(p, id, Routed), RouteBranch(id))
    case Count(id) =>
      To(p, id, Counted).(conns := p.conns[p.sessions[id].branch := Get(p.conns, p.sessions[id].branch) + 1])
    case Leave(id) =>
      To(p, id, Closed).(conns :=
        if Get(p.conns, p.sessions[id].branch) > 0
        then p.conns[p.sessions[id].branch := Get(p.conns, p.sessions[id].branch) - 1] else p.conns)
  }

  predicate Next(max: nat, p: Proxy, p': Proxy, step: Step) {
    Enabled(max, p, step) && p' == Succ(max, p, step)
  }

  // ---- what holds ----

  function Holders(p: Proxy, src: string): set<nat> {
    set id | id in p.sessions && p.sessions[id].src == src
      && (p.sessions[id].phase == Checking || p.sessions[id].phase.Judged?)
  }

  function Users(p: Proxy, branch: Chars): set<nat> {
    set id | id in p.sessions && p.sessions[id].branch == branch && p.sessions[id].phase == Counted
  }

  /** The counters count the sessions they are there for, and stay within their limits. */
  ghost predicate Counts(max: nat, p: Proxy) {
    && (forall src :: src != "" ==> Get(p.inflight, src) == |Holders(p, src)| <= MAX_CHECKS)
    && (forall branch :: Get(p.conns, branch) == |Users(p, branch)| <= max)
  }

  /** How far the events of a session have come is told by its phase. */
  ghost predicate Heard(p: Proxy) {
    && (forall id :: id in p.sessions && (p.sessions[id].phase in {Judged(true), Released(true), Routed, Counted}) ==>
        CheckPassed(id) in p.events)
    && (forall id :: id in p.sessions && (p.sessions[id].phase in {Released(true), Routed, Counted}) ==>
        SlotReturned(id) in p.events)
  }

  ghost predicate Ordered(events: seq<Event>) {
    forall i :: 0 <= i < |events| && events[i].RouteBranch? ==>
                  CheckPassed(events[i].id) in events[..i] && SlotReturned(events[i].id) in events[..i]
  }

  ghost predicate Story(p: Proxy) {
    Heard(p) && Ordered(p.events)
  }

  lemma OrderedSnoc(events: seq<Event>, e: Event)
    requires Ordered(events)
    requires e.RouteBranch? ==> CheckPassed(e.id) in events && SlotReturned(e.id) in events
    ensures Ordered(events + [e])
  {
    forall i | 0 <= i < |events + [e]| && (events + [e])[i].RouteBranch?
      ensures CheckPassed((events + [e])[i].id) in (events + [e])[..i]
              && SlotReturned((events + [e])[i].id) in (events + [e])[..i] {
      assert (events + [e])[..i] == events[..i];
      if i == |events| { assert events[..i] == events; }
    }
  }

  lemma HoldersStep(max: nat, p: Proxy, p': Proxy, step: Step, src: string)
    requires Next(max, p, p', step)
    ensures Holders(p', src) ==
              if step.Acquire? && p.sessions[step.id].src == src then Holders(p, src) + {step.id}
              else if step.Release? && p.sessions[step.id].src == src then Holders(p, src) - {step.id}
              else Holders(p, src)
    ensures step.Acquire? ==> step.id !in Holders(p, src)
    ensures step.Release? && p.sessions[step.id].src == src ==> step.id in Holders(p, src)
  {
  }

  lemma UsersStep(max: nat, p: Proxy, p': Proxy, step: Step, branch: Chars)
    requires Next(max, p, p', step)
    ensures Users(p', branch) ==
              if step.Count? && p.sessions[step.id].branch == branch then Users(p, branch) + {step.id}
              else if step.Leave? && p.sessions[step.id].branch == branch then Users(p, branch) - {step.id}
              else Users(p, branch)
    ensures step.Count? ==> step.id !in Users(p, branch)
    ensures step.Leave? && p.sessions[step.id].branch == branch ==> step.id in Users(p, branch)
  {
  }

  lemma CountersStep(max: nat, p: Proxy, p': Proxy, step: Step)
    requires Next(max, p, p', step)
    ensures forall src :: src != "" ==>
              Get(p'.inflight, src) ==
              (if step.Acquire? && p.sessions[step.id].src == src then Get(p.inflight, src) + 1
               else if step.Release? && p.sessions[step.id].src == src && Get(p.inflight, src) > 0
                 then Get(p.inflight, src) - 1
               else Get(p.inflight, src))
    ensures forall branch :: Get(p'.conns, branch) ==
              (if step.Count? && p.sessions[step.id].branch == branch then Get(p.conns, branch) + 1
               else if step.Leave? && p.sessions[step.id].branch == branch && Get(p.conns, branch) > 0
                 then Get(p.conns, branch) - 1
               else Get(p.conns, branch))
    ensures step.Acquire? && p.sessions[step.id].src != "" ==> Get(p.inflight, p.sessions[step.id].src) < MAX_CHECKS
    ensures step.Count? ==> Get(p.conns, p.sessions[step.id].branch) < max
  {
  }

  lemma CountsStep(max: nat, p: Proxy, p': Proxy, step: Step)
    requires Counts(max, p) && Next(max, p, p', step)
    ensures Counts(max, p')
  {
    hide Next, Holders, Users, Get;
    CountersStep(max, p, p', step);
    forall src | src != "" ensures Get(p'.inflight, src) == |Holders(p', src)| <= MAX_CHECKS {
      HoldersStep(max, p, p', step, src);
      assert Get(p.inflight, src) == |Holders(p, src)| <= MAX_CHECKS;
    }
    forall branch ensures Get(p'.conns, branch) == |Users(p', branch)| <= max {
      UsersStep(max, p, p', step, branch);
      assert Get(p.conns, branch) == |Users(p, branch)| <= max;
    }
  }

  lemma HeardStep(max: nat, p: Proxy, p': Proxy, step: Step)
    requires Heard(p) && Next(max, p, p', step)
    ensures Heard(p')
  {
    hide Get;
  }

  lemma StoryStep(max: nat, p: Proxy, p': Proxy, step: Step)
    requires Story(p) && Next(max, p, p', step)
    ensures Story(p')
  {
    hide Get, Ordered;
    HeardStep(max, p, p', step);
    if p'.events != p.events {
      OrderedSnoc(p.events, p'.events[|p.events|]);
    }
  }

  ghost predicate Path(max: nat, states: seq<Proxy>, steps: seq<Step>) {
    |states| == |steps| + 1 && forall i :: 0 <= i < |steps| ==> Next(max, states[i], states[i + 1], steps[i])
  }

  ghost predicate Behaviour(max: nat, states: seq<Proxy>, steps: seq<Step>) {
    Path(max, states, steps) && states[0] == Proxy(map[], map[], map[], [])
  }

  lemma {:induction false} AlwaysCountsAndStory(max: nat, states: seq<Proxy>, steps: seq<Step>, i: nat)
    requires Behaviour(max, states, steps) && i < |states|
    ensures Counts(max, states[i]) && Story(states[i])
  {
    if i == 0 {
      assert forall src :: Holders(states[0], src) == {};
      assert forall branch :: Users(states[0], branch) == {};
    } else {
      AlwaysCountsAndStory(max, states, steps, i - 1);
      CountsStep(max, states[i - 1], states[i], steps[i - 1]);
      StoryStep(max, states[i - 1], states[i], steps[i - 1]);
    }
  }

  /** At most eight password checks per source run at once, and at most `max` sessions count against a branch. */
  lemma LimitsHold(max: nat, states: seq<Proxy>, steps: seq<Step>, i: nat, src: string, branch: Chars)
    requires Behaviour(max, states, steps) && i < |states|
    ensures src != "" ==> |Holders(states[i], src)| <= 8
    ensures |Users(states[i], branch)| <= max
  {
    AlwaysCountsAndStory(max, states, steps, i);
    assert src != "" ==> Get(states[i].inflight, src) == |Holders(states[i], src)| <= MAX_CHECKS;
    assert Get(states[i].conns, branch) == |Users(states[i], branch)| <= max;
  }

  /** No branch is routed to - and so none is created or woken - before that session's password was found
      right and its slot was given back. */
  lemma RoutedAfterCheck(max: nat, states: seq<Proxy>, steps: seq<Step>, i: nat, k: nat)
    requires Behaviour(max, states, steps) && i < |states|
    requires k < |states[i].events| && states[i].events[k].RouteBranch?
    ensures exists a :: 0 <= a < k && states[i].events[a] == CheckPassed(states[i].events[k].id)
    ensures exists b :: 0 <= b < k && states[i].events[b] == SlotReturned(states[i].events[k].id)
  {
    AlwaysCountsAndStory(max, states, steps, i);
    var events := states[i].events;
    assert CheckPassed(events[k].id) in events[..k];
    assert SlotReturned(events[k].id) in events[..k];
  }
}
