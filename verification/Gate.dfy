/** What both proxies do on both sides of the password check: who is let in, and then the route, the branch's
    connection count and the backend. */
module Gate {
  import opened Names
  import opened Bits
  import opened Text

  /** Branch names that may exist, and the user that may log in; an empty one stands for any. */
  datatype Access = Access(nameOk: Chars -> bool, allowedUser: Chars)

  const AT_SIGN: Byte := 64

  /** user@branch, with a branch name that may exist and a user that may log in. */
  function BranchOf(access: Access, user: Chars): Option<Chars> {
    match Cut(user, AT_SIGN)
    case None => None
    case Some(p) =>
      if access.nameOk(p.1) && (access.allowedUser != [] ==> p.0 == access.allowedUser) then Some(p.1) else None
  }

  /** The user field names the branch behind its first at sign and a user that may log in before it. */
  ghost predicate Addressed(access: Access, user: Chars, branch: Chars) {
    exists u: Chars :: user == u + [64] + branch && 64 !in u && access.nameOk(branch) &&
                       (access.allowedUser == [] || u == access.allowedUser)
  }

  lemma BranchOfIs(access: Access, user: Chars, branch: Chars)
    ensures BranchOf(access, user) == Some(branch) <==> Addressed(access, user, branch)
  {
    hide Cut;
    CutSplits(user, AT_SIGN);
    if Addressed(access, user, branch) {
      var u: Chars :| user == u + [64] + branch && 64 !in u && access.nameOk(branch) &&
                      (access.allowedUser == [] || u == access.allowedUser);
      CutAt(u, AT_SIGN, branch);
    }
    if BranchOf(access, user) == Some(branch) {
      var u := Cut(user, AT_SIGN).value.0;
      assert user == u + [64] + branch;
    }
  }

  lemma NobodyAddressed(access: Access, user: Chars)
    ensures BranchOf(access, user).None? <==> forall b :: !Addressed(access, user, b)
  {
    hide BranchOf, Addressed;
    forall b ensures BranchOf(access, user) == Some(b) <==> Addressed(access, user, b) { BranchOfIs(access, user, b); }
    if BranchOf(access, user).Some? { assert Addressed(access, user, BranchOf(access, user).value); }
  }

  /** Whatever these events route to or touch is this branch. */
  ghost predicate RoutesOnly(events: seq<Event>, branch: Chars) {
    forall e :: e in events && (e.Route? || e.Touch?) ==> e.branch == branch
  }

  /** What the outside sees of a session. */
  datatype Event = Judged(ok: bool) | SlotBack | Route(branch: Chars) | Touch(branch: Chars)

  /** How far a session gets behind the password check. */
  datatype Passage = UnknownBranch | BranchFull | NoBackend | Served

  function PassageTold(end: Passage, branch: Chars): seq<Event> {
    if end == Served then [Route(branch), Touch(branch)] else [Route(branch)]
  }

  class Branches {
    const maxConn: nat
    var conns: map<Chars, nat>
    ghost var trace: seq<Event>

    constructor (maxConn: nat)
      ensures this.maxConn == maxConn && conns == map[] && trace == [] && forall b :: Conns(b) == 0
    {
      this.maxConn, conns, trace := maxConn, map[], [];
    }

    function Conns(branch: Chars): nat
      reads this
    {
      if branch in conns then conns[branch] else 0
    }

    method Acquire(branch: Chars) returns (ok: bool)
      modifies this`conns
      ensures ok <==> old(Conns(branch)) < maxConn
      ensures forall b :: Conns(b) == old(Conns(b)) + if ok && b == branch then 1 else 0
    {
      if Conns(branch) >= maxConn { return false; }
      conns := conns[branch := Conns(branch) + 1];
      ok := true;
    }

    method Release(branch: Chars)
      modifies this`conns
      ensures forall b :: Conns(b) == old(Conns(b)) - if b == branch && old(Conns(b)) > 0 then 1 else 0
    {
      if Conns(branch) > 0 { conns := conns[branch := Conns(branch) - 1]; }
    }

    ghost method Tell(events: seq<Event>)
      modifies this`trace
      ensures trace == old(trace) + events
    {
      trace := trace + events;
    }

    /** Routes once; a session that finds its backend touches the branch, and stays counted. */
    method Enter(branch: Chars, routeOk: bool, backendOk: bool) returns (end: Passage)
      modifies this`conns, this`trace
      ensures forall b :: Conns(b) == old(Conns(b)) + if end == Served && b == branch then 1 else 0
      ensures trace == old(trace) + PassageTold(end, branch)
      ensures end == if !routeOk then UnknownBranch else if old(Conns(branch)) >= maxConn then BranchFull
                     else if !backendOk then NoBackend else Served
    {
      trace := trace + [Route(branch)];
      if !routeOk { return UnknownBranch; }
      var counted := Acquire(branch);
      if !counted { return BranchFull; }
      if !backendOk {
        Release(branch);
        return NoBackend;
      }
      trace := trace + [Touch(branch)];
      end := Served;
    }

    /** The session is counted while it lasts. */
    method RouteAndServe(branch: Chars, routeOk: bool, backendOk: bool) returns (end: Passage)
      modifies this`conns, this`trace
      ensures forall b :: Conns(b) == old(Conns(b))
      ensures trace == old(trace) + PassageTold(end, branch)
      ensures end == if !routeOk then UnknownBranch else if old(Conns(branch)) >= maxConn then BranchFull
                     else if !backendOk then NoBackend else Served
    {
      end := Enter(branch, routeOk, backendOk);
      if end == Served { Release(branch); }
    }
  }
}
