/** One session of the MySQL proxy from the first client packet to its end: what it checks, in which order,
    and what it leaves behind. */
module MysqlProxy {
  import opened Names
  import opened Bits
  import opened Text
  import opened MysqlWire
  import opened Limiter
  import opened Gate
  import Tokens

  /** The configuration, with the app password, and the digests it is checked with. */
  datatype Policy = Policy(access: Access, tls: bool, password: Chars, digests: Tokens.Digests)

  /** What the session cannot decide: the TLS handshake and the packet after it, whether and when the
      context is cancelled, the route, the backend, and the time. */
  datatype World = World(tlsOk: bool, second: Option<seq<Byte>>, cancelledBefore: bool, cancelledAfter: bool,
                         routeOk: bool, backendOk: bool, before: int, after: int)

  /** Passed: the password was right, and the session got as far as this. */
  datatype End = NoTls | Broken | Malformed | BadUser | TooMany | Cancelled | Denied | Passed(passage: Passage)

  predicate IsSslRequest(body: seq<Byte>) {
    4 <= |body| <= 36 && Bit(FromLittleEndian(body[..4]), SSL)
  }

  /** The token of the app password in one of the two schemes. */
  ghost predicate TokenFits(pol: Policy, salt: seq<Byte>, token: seq<Byte>)
    requires Tokens.Sized(pol.digests) && |salt| == 20
  {
    token in {Tokens.Native(pol.digests, pol.password, salt), Tokens.Sha2(pol.digests, pol.password, salt)}
  }

  /** The packet that counts: the first one, or the one behind the TLS handshake. */
  function Body(pol: Policy, first: seq<Byte>, w: World): Option<seq<Byte>> {
    if !IsSslRequest(first) then Some(first) else if pol.tls && w.tlsOk then w.second else None
  }

  /** What is wrong with the opening, if anything is. */
  function Flaw(pol: Policy, first: seq<Byte>, w: World): Option<End> {
    match Body(pol, first, w)
    case None => Some(if pol.tls then Broken else NoTls)
    case Some(body) =>
      if !Parsed(body).Ok? then Some(Malformed)
      else if BranchOf(pol.access, Parsed(body).value.user).None? then Some(BadUser) else None
  }

  /** What the outside sees of a session that ends this way. */
  function Told(end: End, cancelledBefore: bool, ok: bool, branch: Chars): seq<Event> {
    match end
    case Cancelled => if cancelledBefore then [SlotBack] else [Judged(ok), SlotBack]
    case Denied => [Judged(false), SlotBack]
    case Passed(passage) => [Judged(true), SlotBack] + PassageTold(passage, branch)
    case _ => []
  }

  class Server {
    const pol: Policy
    const limiter: Limiter
    const branches: Branches

    constructor (pol: Policy, limiter: Limiter, branches: Branches)
      requires limiter.Valid()
      ensures this.pol == pol && this.limiter == limiter && this.branches == branches
    {
      this.pol, this.limiter, this.branches := pol, limiter, branches;
    }

    method CheckToken(token: seq<Byte>, salt: seq<Byte>) returns (fits: bool)
      requires Tokens.Sized(pol.digests) && |salt| == 20
      ensures fits <==> TokenFits(pol, salt, token)
    {
      assert salt[..20] == salt;
      fits := Tokens.Verify(pol.digests, pol.password, salt, token);
    }

    /** The slot is held for the check only, and returned whatever the verdict. A success clears the source's
        history, a failure lengthens it, a cancelled check leaves it alone. */
    method VerifyClient(src: string, token: seq<Byte>, salt: seq<Byte>, w: World)
      returns (verified: bool, admitted: bool, wait: int)
      requires limiter.Valid() && limiter.latest <= w.before <= w.after
      requires Tokens.Sized(pol.digests) && |salt| == 20
      modifies branches`trace, limiter
      ensures limiter.Valid() && forall k :: limiter.InFlight(k) == old(limiter.InFlight(k))
      ensures admitted <==> src == "" || old(limiter.InFlight(src)) < limiter.p.maxInFly
      ensures verified <==> admitted && !w.cancelledBefore && TokenFits(pol, salt, token)
      ensures !admitted ==> branches.trace == old(branches.trace)
      ensures admitted ==>
                branches.trace ==
                old(branches.trace) + if w.cancelledBefore then [SlotBack] else [Judged(verified), SlotBack]
      ensures admitted && src != "" ==>
                && wait == PenaltyOf(limiter.p, Of(old(limiter.history), src), w.before)
                && Of(limiter.history, src) == if w.cancelledBefore then Of(old(limiter.history), src)
                                               else if verified then [] else Of(old(limiter.history), src) + [w.after]
    {
      hide Limiter.Valid, PenaltyOf, TokenFits, Tokens.Sized;
      verified, wait := false, 0;
      admitted := limiter.Acquire(src);
      if !admitted { return; }
      wait := limiter.Penalty(src, w.before);
      if !w.cancelledBefore {
        verified := CheckToken(token, salt);
        branches.Tell([Judged(verified)]);
        if verified {
          limiter.Reset(src);
        } else {
          var d := limiter.Fail(src, w.after);
        }
      }
      limiter.Release(src);
      branches.Tell([SlotBack]);
    }

    /** Everything before the password check. */
    method ReadHello(first: seq<Byte>, w: World) returns (flaw: Option<End>, r: Response, branch: Chars)
      ensures flaw == Flaw(pol, first, w)
      ensures flaw.None? ==> Parsed(Body(pol, first, w).value) == Ok(r) && BranchOf(pol.access, r.user) == Some(branch)
    {
      hide Parsed, Bit, FromLittleEndian;
      r, branch := Response(0, 0, 0, [], [], []), [];
      var body := first;
      if IsSslRequest(first) {
        if !pol.tls { return Some(NoTls), r, branch; }
        if !w.tlsOk || w.second.None? { return Some(Broken), r, branch; }
        body := w.second.value;
      }
      var parsed := ParseResponse(body);
      if !parsed.Ok? { return Some(Malformed), r, branch; }
      r := parsed.value;
      var named := BranchOf(pol.access, r.user);
      if named.None? { return Some(BadUser), r, branch; }
      flaw, branch := None, named.value;
    }

    /** The whole session: how it ends, and what it tells the outside. Only a right password gets as far as the
        route; whatever the end, no slot and no connection count is left behind. */
    method AuthTerminate(first: seq<Byte>, src: string, salt: seq<Byte>, w: World)
      returns (end: End, branch: Chars, ghost verified: bool)
      requires limiter.Valid() && limiter.latest <= w.before <= w.after
      requires Tokens.Sized(pol.digests) && |salt| == 20
      modifies branches, limiter
      ensures limiter.Valid() && forall k :: limiter.InFlight(k) == old(limiter.InFlight(k))
      ensures forall b :: branches.Conns(b) == old(branches.Conns(b))
      ensures branches.trace == old(branches.trace) + Told(end, w.cancelledBefore, verified, branch)
      // a check has had a slot, and a counted session a place
      ensures Told(end, w.cancelledBefore, verified, branch) != [] && src != "" ==>
                old(limiter.InFlight(src)) < limiter.p.maxInFly
      ensures end in {Passed(NoBackend), Passed(Served)} ==> old(branches.Conns(branch)) < branches.maxConn
      // only the branch behind the at sign of the client's user is routed to, and only a user without one is
      // refused as such
      ensures forall e :: e in branches.trace[|old(branches.trace)|..] && (e.Route? || e.Touch?) ==>
                Asked(first, w).Some? && Addressed(pol.access, Asked(first, w).value.user, e.branch)
      ensures end == BadUser <==>
                Asked(first, w).Some? && forall b :: !Addressed(pol.access, Asked(first, w).value.user, b)
      ensures end == NoTls <==> AsksForTls(first) && !pol.tls
      // and only with a token of the app password, in either scheme
      ensures (exists b :: Route(b) in branches.trace[|old(branches.trace)|..]) ==>
                && Asked(first, w).Some?
                && (|| Asked(first, w).value.authResp == Tokens.Native(pol.digests, pol.password, salt)
                    || Asked(first, w).value.authResp == Tokens.Sha2(pol.digests, pol.password, salt))
      ensures end == Denied ==>
                && Asked(first, w).Some?
                && Asked(first, w).value.authResp != Tokens.Native(pol.digests, pol.password, salt)
                && Asked(first, w).value.authResp != Tokens.Sha2(pol.digests, pol.password, salt)
      ensures Flaw(pol, first, w).Some? ==> end == Flaw(pol, first, w).value && !end.Passed?
      ensures Flaw(pol, first, w).None? ==>
                && var r := Parsed(Body(pol, first, w).value).value;
                && BranchOf(pol.access, r.user) == Some(branch)
                && verified == (!w.cancelledBefore && TokenFits(pol, salt, r.authResp))
                && end == (if src != "" && old(limiter.InFlight(src)) >= limiter.p.maxInFly then TooMany
                           else if w.cancelledBefore || w.cancelledAfter then Cancelled
                           else if !verified then Denied
                           else Passed(if !w.routeOk then UnknownBranch
                                       else if old(branches.Conns(branch)) >= branches.maxConn then BranchFull
                                       else if !w.backendOk then NoBackend else Served))
    {
      hide Parsed, Body, Flaw, BranchOf, Faithful, Addressed, Asked, AsksForTls, Told, TokenFits,
        Tokens.Native, Tokens.Sha2, Tokens.Sized;
      var flaw, r;
      verified := false;
      flaw, r, branch := ReadHello(first, w);
      if flaw.Some? {
        FlawsTellNothing(first, w, branch);
        end := flaw.value;
      } else {
        var fits, admitted, wait := VerifyClient(src, r.authResp, salt, w);
        verified := !w.cancelledBefore && TokenFits(pol, salt, r.authResp);
        if !admitted {
          end := TooMany;
        } else if w.cancelledBefore || w.cancelledAfter {
          end := Cancelled;
        } else if !fits {
          end := Denied;
        } else {
          var passage := branches.RouteAndServe(branch, w.routeOk, w.backendOk);
          end := Passed(passage);
        }
        WhatIsTold(end, w.cancelledBefore, verified, branch);
      }
      AddressOf(first, w, branch, salt, end);
      assert branches.trace[|old(branches.trace)|..] == Told(end, w.cancelledBefore, verified, branch);
      RoutesTold(end, w.cancelledBefore, verified, branch);
    }

    /** A packet of 4 to 36 bytes with bit 11 of its capabilities set asks for TLS. */
    ghost predicate AsksForTls(first: seq<Byte>) {
      4 <= |first| <= 36 && Bit(FromLittleEndian(first[..4]), 11)
    }

    /** What the client has asked for, if it came to that: in its first packet, or behind the TLS handshake. */
    ghost function Asked(first: seq<Byte>, w: World): Option<Response> {
      if !AsksForTls(first) then (if Parsed(first).Ok? then Some(Parsed(first).value) else None)
      else if !pol.tls || !w.tlsOk || w.second.None? then None
      else if Parsed(w.second.value).Ok? then Some(Parsed(w.second.value).value) else None
    }

    lemma WhatIsTold(end: End, cancelledBefore: bool, ok: bool, branch: Chars)
      ensures Told(end, cancelledBefore, ok, branch) ==
              match end
              case Cancelled => if cancelledBefore then [SlotBack] else [Judged(ok), SlotBack]
              case Denied => [Judged(false), SlotBack]
              case Passed(passage) => [Judged(true), SlotBack] + PassageTold(passage, branch)
              case _ => []
    {
    }

    lemma RoutesTold(end: End, cancelledBefore: bool, ok: bool, branch: Chars)
      ensures RoutesOnly(Told(end, cancelledBefore, ok, branch), branch)
      ensures forall e :: e in Told(end, cancelledBefore, ok, branch) && (e.Route? || e.Touch?) ==> end.Passed?
    {
    }

    lemma AddressOf(first: seq<Byte>, w: World, branch: Chars, salt: seq<Byte>, end: End)
      requires Tokens.Sized(pol.digests) && |salt| == 20
      ensures Flaw(pol, first, w) == Some(NoTls) <==> AsksForTls(first) && !pol.tls
      ensures Flaw(pol, first, w) == Some(BadUser) <==>
              Asked(first, w).Some? && forall b :: !Addressed(pol.access, Asked(first, w).value.user, b)
      ensures Flaw(pol, first, w).None? ==>
                && Asked(first, w) == Some(Parsed(Body(pol, first, w).value).value)
                && var r := Asked(first, w).value;
                && (BranchOf(pol.access, r.user) == Some(branch) ==> Addressed(pol.access, r.user, branch))
                && (TokenFits(pol, salt, r.authResp) <==>
                    || r.authResp == Tokens.Native(pol.digests, pol.password, salt)
                    || r.authResp == Tokens.Sha2(pol.digests, pol.password, salt))
    {
      hide Parsed, BranchOf, Addressed, Bit, FromLittleEndian, Tokens.Native, Tokens.Sha2;
      if Asked(first, w).Some? {
        NobodyAddressed(pol.access, Asked(first, w).value.user);
        BranchOfIs(pol.access, Asked(first, w).value.user, branch);
      }
    }

    lemma FlawsTellNothing(first: seq<Byte>, w: World, branch: Chars)
      ensures Flaw(pol, first, w).Some? ==>
                Told(Flaw(pol, first, w).value, w.cancelledBefore, false, branch) == []
                  && !Flaw(pol, first, w).value.Passed? && Flaw(pol, first, w).value != Denied
    {
    }
  }
}
