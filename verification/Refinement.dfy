/** The sessions of both proxies are sessions of the interleaving model: what either method does to the counters
    and tells the outside is what some steps of one session do, from whatever state the others have left. */
module Refinement {
  import opened Names
  import opened Bits
  import opened Limiter
  import opened Gate
  import S = Sessions
  import M = MysqlProxy
  import P = PgProxy
  import MysqlWire
  import PgWire
  import Scram
  import Tokens

  // ---- what is told, in the words of the model ----

  function Word(id: nat, e: Event): seq<S.Event> {
    match e
    case Judged(ok) => [if ok then S.CheckPassed(id) else S.CheckFailed(id)]
    case SlotBack => [S.SlotReturned(id)]
    case Route(_) => [S.RouteBranch(id)]
    case Touch(_) => []
  }

  function Translated(id: nat, told: seq<Event>): seq<S.Event> {
    if told == [] then [] else Word(id, told[0]) + Translated(id, told[1..])
  }

  lemma FirstWord(id: nat, e: Event, more: seq<Event>)
    ensures Translated(id, [e] + more) == Word(id, e) + Translated(id, more)
  {
    assert ([e] + more)[1..] == more;
  }

  function Verdict(verdict: Option<bool>): seq<Event> {
    if verdict.Some? then [Judged(verdict.value), SlotBack] else [SlotBack]
  }

  /** Everything a session can tell, in order. */
  predicate Shaped(told: seq<Event>, branch: Chars) {
    || told in {[], [SlotBack], [Judged(false), SlotBack], [Judged(true), SlotBack]}
    || told == [Judged(true), SlotBack, Route(branch)]
    || told == [Judged(true), SlotBack, Route(branch), Touch(branch)]
  }

  // ---- the steps that tell it ----

  /** Path after path, one step at a time. */
  lemma Further(max: nat, states: seq<S.Proxy>, steps: seq<S.Step>, step: S.Step)
    returns (states': seq<S.Proxy>, steps': seq<S.Step>)
    requires S.Path(max, states, steps) && S.Enabled(max, states[|steps|], step)
    ensures S.Path(max, states', steps') && |states'| == |steps'| + 1 == |steps| + 2 && states'[0] == states[0]
    ensures states'[|steps'|] == S.Succ(max, states[|steps|], step)
  {
    hide S.Succ, S.Enabled;
    states', steps' := states + [S.Succ(max, states[|steps|], step)], steps + [step];
  }

  /** Only this session has moved, and it has told this; `slot` and `seat`: it holds a slot, it is counted. */
  ghost predicate Moved(p: S.Proxy, q: S.Proxy, id: nat, s: S.Session, told: seq<S.Event>, slot: bool, seat: bool) {
    && q.sessions == p.sessions[id := s] && q.events == p.events + told
    && (forall src :: src != "" ==>
        S.Get(q.inflight, src) == S.Get(p.inflight, src) + if slot && src == s.src then 1 else 0)
    && (forall b :: S.Get(q.conns, b) == S.Get(p.conns, b) + if seat && b == s.branch then 1 else 0)
  }

  /** A session that ends before its check. */
  lemma Turned(max: nat, p: S.Proxy, id: nat, src: string) returns (states: seq<S.Proxy>, steps: seq<S.Step>)
    requires id !in p.sessions
    ensures S.Path(max, states, steps) && states[0] == p
    ensures Moved(p, states[|steps|], id, S.Session(src, [], S.Closed), [], false, false)
  {
    states, steps := [p], [];
    states, steps := Further(max, states, steps, S.Accept(id, src));
    assert Moved(p, states[|steps|], id, S.Session(src, [], S.Fresh), [], false, false);
    states, steps := Further(max, states, steps, S.Drop(id));
  }

  lemma Admitted(max: nat, p: S.Proxy, id: nat, src: string, branch: Chars)
    returns (states: seq<S.Proxy>, steps: seq<S.Step>)
    requires id !in p.sessions && (src != "" ==> S.Get(p.inflight, src) < S.MAX_CHECKS)
    ensures S.Path(max, states, steps) && states[0] == p
    ensures Moved(p, states[|steps|], id, S.Session(src, branch, S.Checking), [], true, false)
  {
    states, steps := [p], [];
    states, steps := Further(max, states, steps, S.Accept(id, src));
    assert Moved(p, states[|steps|], id, S.Session(src, [], S.Fresh), [], false, false);
    states, steps := Further(max, states, steps, S.Hello(id, branch));
    assert Moved(p, states[|steps|], id, S.Session(src, branch, S.Named), [], false, false);
    states, steps := Further(max, states, steps, S.Acquire(id));
  }

  /** The verdict, or none, and the slot given back. */
  lemma Settled(max: nat, p: S.Proxy, before: seq<S.Proxy>, until: seq<S.Step>, id: nat, src: string, branch: Chars,
                verdict: Option<bool>)
    returns (states: seq<S.Proxy>, steps: seq<S.Step>)
    requires S.Path(max, before, until) && before[0] == p
    requires Moved(p, before[|until|], id, S.Session(src, branch, S.Checking), [], true, false)
    ensures S.Path(max, states, steps) && states[0] == p
    ensures Moved(p, states[|steps|], id, S.Session(src, branch, S.Released(verdict == Some(true))),
                  Translated(id, Verdict(verdict)),
                  false, false)
  {
    hide S.Path, Translated;
    var ok := verdict == Some(true);
    var told := if verdict.None? then [] else Word(id, Judged(ok));
    states, steps := Further(max, before, until, if verdict.None? then S.Abort(id) else S.Verdict(id, ok));
    assert Moved(p, states[|steps|], id, S.Session(src, branch, S.Judged(ok)), told, true, false);
    TranslatedCheck(id, verdict, []);
    NothingTranslated(id);
    assert Verdict(verdict) + [] == Verdict(verdict);
    states, steps := SlotBackAgain(max, p, states, steps, id, S.Session(src, branch, S.Judged(ok)), told);
  }

  lemma SlotBackAgain(max: nat, p: S.Proxy, before: seq<S.Proxy>, until: seq<S.Step>, id: nat, s: S.Session,
                      told: seq<S.Event>)
    returns (states: seq<S.Proxy>, steps: seq<S.Step>)
    requires S.Path(max, before, until) && before[0] == p && s.phase.Judged?
    requires Moved(p, before[|until|], id, s, told, true, false)
    ensures S.Path(max, states, steps) && states[0] == p
    ensures Moved(p, states[|steps|], id, s.(phase := S.Released(s.phase.ok)), told + [S.SlotReturned(id)], false,
                  false)
  {
    states, steps := Further(max, before, until, S.Release(id));
    assert p.events + told + [S.SlotReturned(id)] == p.events + (told + [S.SlotReturned(id)]);
  }

  lemma TranslatedCheck(id: nat, verdict: Option<bool>, more: seq<Event>)
    ensures Translated(id, Verdict(verdict) + more) ==
            (if verdict.Some? then Word(id, Judged(verdict.value)) else []) + [S.SlotReturned(id)]
            + Translated(id, more)
  {
    FirstWord(id, SlotBack, more);
    if verdict.Some? {
      FirstWord(id, Judged(verdict.value), [SlotBack] + more);
      assert Verdict(verdict) + more == [Judged(verdict.value)] + ([SlotBack] + more);
    }
  }

  lemma Gone(max: nat, p: S.Proxy, before: seq<S.Proxy>, until: seq<S.Step>, id: nat, s: S.Session, told: seq<S.Event>)
    returns (states: seq<S.Proxy>, steps: seq<S.Step>)
    requires S.Path(max, before, until) && before[0] == p && (s.phase.Released? || s.phase == S.Routed)
    requires Moved(p, before[|until|], id, s, told, false, false)
    ensures S.Path(max, states, steps) && states[0] == p
    ensures Moved(p, states[|steps|], id, s.(phase := S.Closed), told, false, false)
  {
    states, steps := Further(max, before, until, S.Drop(id));
  }

  lemma Routed(max: nat, p: S.Proxy, before: seq<S.Proxy>, until: seq<S.Step>, id: nat, s: S.Session,
               told: seq<S.Event>)
    returns (states: seq<S.Proxy>, steps: seq<S.Step>)
    requires S.Path(max, before, until) && before[0] == p && s.phase == S.Released(true)
    requires Moved(p, before[|until|], id, s, told, false, false)
    ensures S.Path(max, states, steps) && states[0] == p
    ensures Moved(p, states[|steps|], id, s.(phase := S.Routed), told + [S.RouteBranch(id)], false, false)
  {
    states, steps := Further(max, before, until, S.Route(id));
    assert p.events + told + [S.RouteBranch(id)] == p.events + (told + [S.RouteBranch(id)]);
  }

  lemma CountedOnce(max: nat, p: S.Proxy, before: seq<S.Proxy>, until: seq<S.Step>, id: nat, s: S.Session,
                    told: seq<S.Event>)
    returns (states: seq<S.Proxy>, steps: seq<S.Step>)
    requires S.Path(max, before, until) && before[0] == p && s.phase == S.Routed && S.Get(p.conns, s.branch) < max
    requires Moved(p, before[|until|], id, s, told, false, false)
    ensures S.Path(max, states, steps) && states[0] == p
    ensures Moved(p, states[|steps|], id, s.(phase := S.Closed), told, false, false)
  {
    states, steps := Further(max, before, until, S.Count(id));
    assert Moved(p, states[|steps|], id, s.(phase := S.Counted), told, false, true);
    states, steps := Further(max, states, steps, S.Leave(id));
  }

  lemma TranslatedRoute(id: nat, branch: Chars, touched: bool)
    ensures Translated(id, [Judged(true), SlotBack, Route(branch)] + if touched then [Touch(branch)] else []) ==
            Translated(id, Verdict(Some(true))) + [S.RouteBranch(id)]
  {
    var tail := if touched then [Touch(branch)] else [];
    NothingTranslated(id);
    if touched { FirstWord(id, Touch(branch), []); assert [Touch(branch)] + [] == tail; }
    FirstWord(id, Route(branch), tail);
    TranslatedCheck(id, Some(true), [Route(branch)] + tail);
    TranslatedCheck(id, Some(true), []);
    assert Verdict(Some(true)) + [] == Verdict(Some(true));
    assert Verdict(Some(true)) + ([Route(branch)] + tail) == [Judged(true), SlotBack, Route(branch)] + tail;
  }

  /** Whatever a session may tell is told by a path of the model, which leaves the counters as they were; `seat`:
      the session is counted in between. */
  lemma SessionRuns(max: nat, p: S.Proxy, id: nat, src: string, branch: Chars, told: seq<Event>, seat: bool)
    returns (states: seq<S.Proxy>, steps: seq<S.Step>)
    requires id !in p.sessions && Shaped(told, branch)
    requires told != [] && src != "" ==> S.Get(p.inflight, src) < S.MAX_CHECKS
    requires seat ==> |told| >= 3 && S.Get(p.conns, branch) < max
    ensures S.Path(max, states, steps) && |states| == |steps| + 1 && states[0] == p
    ensures exists s: S.Session ::
              s.phase == S.Closed && Moved(p, states[|steps|], id, s, Translated(id, told), false, false)
  {
    hide S.Path, S.Get, S.Succ, S.Enabled, Moved, Translated;
    if told == [] {
      NothingTranslated(id);
      states, steps := Turned(max, p, id, src);
      assert Moved(p, states[|steps|], id, S.Session(src, [], S.Closed), Translated(id, told), false, false);
    } else {
      states, steps := Admitted(max, p, id, src, branch);
      var verdict := if told[0] == SlotBack then None else Some(told[0].ok);
      states, steps := Settled(max, p, states, steps, id, src, branch, verdict);
      var s := S.Session(src, branch, S.Released(verdict == Some(true)));
      if |told| < 3 {
        states, steps := Gone(max, p, states, steps, id, s, Translated(id, told));
        assert Moved(p, states[|steps|], id, s.(phase := S.Closed), Translated(id, told), false, false);
      } else {
        TranslatedRoute(id, branch, |told| == 4);
        assert told == [Judged(true), SlotBack, Route(branch)] + if |told| == 4 then [Touch(branch)] else [];
        states, steps := Routed(max, p, states, steps, id, s, Translated(id, Verdict(Some(true))));
        s := s.(phase := S.Routed);
        if seat {
          states, steps := CountedOnce(max, p, states, steps, id, s, Translated(id, told));
        } else {
          states, steps := Gone(max, p, states, steps, id, s, Translated(id, told));
        }
        assert Moved(p, states[|steps|], id, s.(phase := S.Closed), Translated(id, told), false, false);
      }
    }
  }

  lemma NothingTranslated(id: nat)
    ensures Translated(id, []) == []
  {
  }

  // ---- the two proxies ----

  /** The model's counters are those of the limiter and of the branches. */
  ghost predicate Mirrors(p: S.Proxy, limiter: Limiter, branches: Branches)
    reads limiter, branches
  {
    && (forall src :: src != "" ==> S.Get(p.inflight, src) == limiter.InFlight(src))
    && (forall b :: S.Get(p.conns, b) == branches.Conns(b))
  }

  lemma StillMirrors(p: S.Proxy, q: S.Proxy, id: nat, s: S.Session, told: seq<S.Event>, limiter: Limiter,
                     branches: Branches)
    requires Mirrors(p, limiter, branches) && Moved(p, q, id, s, told, false, false)
    ensures Mirrors(q, limiter, branches) && q.events == p.events + told
  {
  }

  lemma MysqlTold(end: M.End, cancelledBefore: bool, ok: bool, branch: Chars)
    ensures Shaped(M.Told(end, cancelledBefore, ok, branch), branch)
    ensures M.Told(end, cancelledBefore, ok, branch) == [] <==> end !in {M.Cancelled, M.Denied} && !end.Passed?
    ensures end.Passed? ==> |M.Told(end, cancelledBefore, ok, branch)| >= 3
  {
  }

  /** A session of the MySQL proxy is a path of the model. */
  method MysqlSession(server: M.Server, first: seq<Byte>, src: string, salt: seq<Byte>, w: M.World, ghost p: S.Proxy,
                      ghost id: nat)
    returns (end: M.End, ghost told: seq<Event>, ghost states: seq<S.Proxy>, ghost steps: seq<S.Step>)
    requires server.limiter.Valid() && server.limiter.latest <= w.before <= w.after
             && server.limiter.p.maxInFly == S.MAX_CHECKS
    requires Tokens.Sized(server.pol.digests) && |salt| == 20
    requires Mirrors(p, server.limiter, server.branches) && id !in p.sessions
    modifies server.branches, server.limiter
    ensures server.branches.trace == old(server.branches.trace) + told
    ensures S.Path(server.branches.maxConn, states, steps) && states[0] == p
    ensures states[|steps|].events == p.events + Translated(id, told)
    ensures Mirrors(states[|steps|], server.limiter, server.branches)
  {
    hide S.Path, S.Get, Moved, Translated, M.Told, M.Flaw, MysqlWire.Parsed, M.Body, M.TokenFits, Shaped, Faithful,
      BranchOf, Tokens.Sized, Tokens.Native, Tokens.Sha2;
    var branch;
    ghost var verified;
    end, branch, verified := server.AuthTerminate(first, src, salt, w);
    told := M.Told(end, w.cancelledBefore, verified, branch);
    MysqlTold(end, w.cancelledBefore, verified, branch);
    ghost var seat := end == M.Passed(NoBackend) || end == M.Passed(Served);
    states, steps := SessionRuns(server.branches.maxConn, p, id, src, branch, told, seat);
    ghost var s: S.Session :| s.phase == S.Closed
      && Moved(p, states[|steps|], id, s, Translated(id, told), false, false);
    ghost var q := states[|steps|];
    StillMirrors(p, q, id, s, Translated(id, told), server.limiter, server.branches);
  }

  lemma PgTold(end: P.End, proof: P.Proof, branch: Chars)
    requires end.Passed? ==> proof == P.Right
    ensures Shaped(P.Told(end, proof, branch), branch)
    ensures P.Told(end, proof, branch) == [] <==> end !in {P.Cancelled, P.Denied} && !end.Passed?
    ensures end.Passed? ==> |P.Told(end, proof, branch)| >= 3
  {
  }

  /** So is a session of the PostgreSQL proxy, whatever its client sends. */
  method PgSession(server: P.Server, client: PgWire.Conn, src: string, w: P.World, ghost p: S.Proxy, id: nat)
    returns (end: P.End, ghost told: seq<Event>, ghost states: seq<S.Proxy>, ghost steps: seq<S.Step>)
    requires server.limiter.Valid() && server.limiter.latest <= w.before <= w.after
             && server.limiter.p.maxInFly == S.MAX_CHECKS
    requires Scram.Sized(server.pol.crypto) && Mirrors(p, server.limiter, server.branches) && id !in p.sessions
    requires server.registry.Valid() && id !in server.registry.state.sessions
    modifies server.registry, server.branches, server.limiter, client
    ensures server.branches.trace == old(server.branches.trace) + told
    ensures S.Path(server.branches.maxConn, states, steps) && states[0] == p
    ensures states[|steps|].events == p.events + Translated(id, told)
    ensures Mirrors(states[|steps|], server.limiter, server.branches)
  {
    hide S.Path, S.Get, Moved, Translated, P.Told, P.Hearing, P.Proved, Shaped, Faithful, BranchOf, Scram.Sized;
    var branch, sent;
    ghost var proof, answers;
    end, branch, proof, answers, sent := server.AuthTerminate(id, client, src, w);
    told := P.Told(end, proof, branch);
    PgTold(end, proof, branch);
    ghost var seat := end == P.Passed(NoBackend) || end == P.Passed(Served);
    states, steps := SessionRuns(server.branches.maxConn, p, id, src, branch, told, seat);
    ghost var s: S.Session :| s.phase == S.Closed
      && Moved(p, states[|steps|], id, s, Translated(id, told), false, false);
    ghost var q := states[|steps|];
    StillMirrors(p, q, id, s, Translated(id, told), server.limiter, server.branches);
  }
}
