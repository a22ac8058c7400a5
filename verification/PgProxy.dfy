/** One session of the PostgreSQL proxy, from the first byte the client sends to its end: what it checks, in which
    order, and what it leaves behind. */
module PgProxy {
  import opened Names
  import opened Bits
  import opened Text
  import opened Base64
  import opened PgWire
  import opened Limiter
  import opened Gate
  import opened Cancels
  import Scram

  datatype Policy = Policy(access: Access, tls: bool, crypto: Scram.Crypto, password: string)

  /** What the session cannot decide: how each TLS handshake goes and what the client sends inside, whether and
      when the context is cancelled, the random bytes, the route, the backend with its address and what it says
      once the session is logged in, how many messages of that the client takes, and the time. */
  datatype World = World(handshakes: seq<Option<seq<Byte>>>, cancelledBefore: bool, cancelledAfter: bool,
                         random: seq<Byte>, salt: seq<Byte>, routeOk: bool, backendOk: bool,
                         address: Chars, backend: seq<Byte>, takes: nat, before: int, after: int)

  // ---- up to the startup message ----

  const NO: Byte := 78
  const YES: Byte := 83

  /** The answers to requests for encryption, and the message behind them with what follows it, if one comes. */
  datatype Heard = Heard(answers: seq<Byte>, asked: Option<(Startup, seq<Byte>)>)

  lemma StartupShrinks(b: seq<Byte>)
    ensures StartupAt(b).Some? ==> |StartupAt(b).value.1| < |b|
  {
  }

  /** Requests for encryption may come any number of times, each TLS handshake inside the one before. */
  function Hearing(tls: bool, b: seq<Byte>, handshakes: seq<Option<seq<Byte>>>): Heard
    decreases |handshakes|, |b|
  {
    match StartupAt(b)
    case None => Heard([], None)
    case Some(p) =>
      StartupShrinks(b);
      if p.0 == Other(SSL_REQUEST) && tls then
        if handshakes == [] || handshakes[0].None? then Heard([YES], None)
        else After([YES], Hearing(tls, handshakes[0].value, handshakes[1..]))
      else if p.0 == Other(SSL_REQUEST) || p.0 == Other(GSSENC_REQUEST) then
        After([NO], Hearing(tls, p.1, handshakes))
      else Heard([], Some(p))
  }

  function After(answers: seq<Byte>, h: Heard): Heard {
    h.(answers := answers + h.answers)
  }

  lemma AfterTwice(a: seq<Byte>, b: seq<Byte>, h: Heard)
    ensures After(a, After(b, h)) == After(a + b, h)
  {
    assert a + (b + h.answers) == a + b + h.answers;
  }

  /** By the bytes on the wire: a request for TLS is answered with S and a handshake where there is TLS, and with N
      elsewhere; one for encryption by GSSAPI always with N. */
  lemma HearingByBytes(tls: bool, rest: seq<Byte>, handshakes: seq<Option<seq<Byte>>>)
    ensures Hearing(tls, [0, 0, 0, 8, 4, 210, 22, 47] + rest, handshakes) ==
            if !tls then After([78], Hearing(tls, rest, handshakes))
            else if handshakes == [] || handshakes[0].None? then Heard([83], None)
            else After([83], Hearing(tls, handshakes[0].value, handshakes[1..]))
    ensures Hearing(tls, [0, 0, 0, 8, 4, 210, 22, 48] + rest, handshakes) ==
            After([78], Hearing(tls, rest, handshakes))
  {
    hide StartupAt, After;
    TlsBytes();
    GssBytes();
    CodeIsRead(SSL_REQUEST, rest);
    CodeIsRead(GSSENC_REQUEST, rest);
  }

  lemma CodeIsRead(code: nat, rest: seq<Byte>)
    requires code in {SSL_REQUEST, GSSENC_REQUEST}
    ensures StartupAt(StartupFrame(BigEndian(4, code)) + rest) == Some((Other(code), rest))
  {
    hide BigEndian, FromBigEndian;
    var body := BigEndian(4, code);
    Power32();
    BigEndianBack(4, code);
    StartupHead(body, rest);
    var s := StartupFrame(body) + rest;
    assert s[4..8] == s[4..][..4] == body && body[..4] == body;
  }

  // ---- the password ----

  /** Wrong: a well-formed proof of another password; NoProof: none, or none that is well formed. */
  datatype Proof = Right | Wrong | NoProof

  const PASSWORD_MESSAGE: Byte := 112
  const MECHANISM := "SCRAM-SHA-256"

  /** The client-first-message a stream starts with, and what follows it. */
  function FirstOf(b: seq<Byte>): Option<(string, seq<Byte>)> {
    match MessageAt(b)
    case None => None
    case Some(p) =>
      if p.0.typ != PASSWORD_MESSAGE then None
      else match CString(p.0.body)
        case None => None
        case Some(q) =>
          if q.0 != Bytes(MECHANISM) || |q.1| < 4 then None else Some((FromBytes(q.1[4..]), p.1))
  }

  function FinalOf(b: seq<Byte>): Option<string> {
    match MessageAt(b)
    case None => None
    case Some(p) => if p.0.typ != PASSWORD_MESSAGE then None else Some(FromBytes(p.0.body))
  }

  /** What a stream proves to a server that challenges it with these bytes. */
  function Proved(pol: Policy, b: seq<Byte>, random: seq<Byte>, salt: seq<Byte>): Proof {
    match FirstOf(b)
    case None => NoProof
    case Some(p) =>
      match Opening(p.0, ',')
      case None => NoProof
      case Some(parts) =>
        if parts.0 !in {"n", "y"} || Scram.Field(parts.2, "r=") == "" then NoProof
        else match FinalOf(p.1)
          case None => NoProof
          case Some(final) => FinalProves(pol, parts, final, random, salt)
  }

  function FinalProves(pol: Policy, parts: (string, string, string), final: string, random: seq<Byte>,
                       salt: seq<Byte>): Proof {
    var nonce := Scram.Field(parts.2, "r=") + Encode(random);
    var keys := Scram.Derive(pol.crypto, pol.password, salt, Scram.ITERATIONS);
    var message := Scram.AuthMessage(parts.2, Scram.ServerFirst(nonce, salt), final);
    if !Scram.WellFormedFinal(final, parts.0 + "," + parts.1 + ",", nonce) then NoProof
    else if Scram.ProvesPassword(pol.crypto, keys, Decode(Scram.Field(final, "p=")).value, message) then Right
    else Wrong
  }

  /** The two messages an honest client with the same password sends are proof enough, whatever follows them. */
  lemma HonestClientIsRight(pol: Policy, cnonce: string, length: seq<Byte>, first: seq<Byte>, final: seq<Byte>,
                            rest: seq<Byte>, random: seq<Byte>, salt: seq<Byte>)
    requires Scram.Sized(pol.crypto) && ',' !in cnonce && cnonce != "" && |length| == 4
    requires FromBytes(first) == "n,," + Scram.ClientFirstBare(cnonce)
    requires var nonce := cnonce + Encode(random);
             var keys := Scram.Derive(pol.crypto, pol.password, salt, Scram.ITERATIONS);
             FromBytes(final) == Scram.ClientFinal(pol.crypto, keys, nonce, Scram.Signed(nonce, salt, cnonce))
    requires |first| + 18 <= MAX_MESSAGE - 4 && |final| <= MAX_MESSAGE - 4
    ensures Proved(pol, Frame(Message(PASSWORD_MESSAGE, Bytes(MECHANISM) + [0] + length + first)) +
                        (Frame(Message(PASSWORD_MESSAGE, final)) + rest), random, salt) == Right
  {
    hide Frame, MessageAt, Scram.Field, Scram.Derive, Scram.Signed, Scram.ClientFinal, Scram.WellFormedFinal,
      Scram.ProvesPassword,
      Scram.AuthMessage, Scram.ServerFirst, Scram.ClientFirstBare, Opening, Encode, Decode, FromBytes, Bytes, CString;
    var m1 := Message(PASSWORD_MESSAGE, Bytes(MECHANISM) + [0] + length + first);
    var m2 := Message(PASSWORD_MESSAGE, final);
    FrameIsAt(m1, Frame(m2) + rest);
    FrameIsAt(m2, rest);
    MechanismIsRead(length, first);
    Scram.FirstIsRead(cnonce);
    EncodeIsPlain(random);
    var nonce := cnonce + Encode(random);
    var keys := Scram.Derive(pol.crypto, pol.password, salt, Scram.ITERATIONS);
    Scram.SizedHmac(pol.crypto);
    DerivedStored(pol, salt);
    Scram.HonestFinal(pol.crypto, keys, nonce, salt, cnonce);
    assert "n" + "," + "" + "," == "n,,";
  }

  lemma DerivedStored(pol: Policy, salt: seq<Byte>)
    ensures var keys := Scram.Derive(pol.crypto, pol.password, salt, Scram.ITERATIONS);
            keys.stored == pol.crypto.sha(keys.client)
  {
  }

  lemma MechanismIsRead(length: seq<Byte>, first: seq<Byte>)
    requires |length| == 4
    ensures CString(Bytes(MECHANISM) + [0] + length + first) == Some((Bytes(MECHANISM), length + first))
    ensures (length + first)[4..] == first && |Bytes(MECHANISM)| == 13
  {
    assert NulFree(Bytes(MECHANISM));
    assert Bytes(MECHANISM) + [0] + length + first == Bytes(MECHANISM) + [0] + (length + first);
    CStringAt(Bytes(MECHANISM), length + first);
  }

  /** Under a hash without collisions, a right proof is two messages: an opening, and a final message that repeats its
      channel, both nonces, and holds the proof that the server's own password makes. */
  lemma RightMeans(pol: Policy, b: seq<Byte>, random: seq<Byte>, salt: seq<Byte>)
    returns (m1: Message, m2: Message, rest: seq<Byte>, gs2: string, bare: string)
    requires Scram.Sized(pol.crypto) && Scram.CollisionFree(pol.crypto) && Proved(pol, b, random, salt) == Right
    ensures b == Frame(m1) + (Frame(m2) + rest) && m1.typ == m2.typ == 112
    ensures ("n," <= gs2 || "y," <= gs2) && Scram.Field(bare, "r=") != ""
    ensures exists name, length, first :: m1.body == name + [0] + length + first && |length| == 4 &&
              name == Bytes("SCRAM-SHA-256") && FromBytes(first) == gs2 + bare
    ensures var final := FromBytes(m2.body);
            var nonce := Scram.Field(bare, "r=") + Encode(random);
            && Scram.Field(final, "c=") == Encode(Bytes(gs2)) && Scram.Field(final, "r=") == nonce
            && Decode(Scram.Field(final, "p=")) ==
               Some(Scram.RfcProof(pol.crypto, pol.password, salt,
                                   bare + ",r=" + nonce + ",s=" + Encode(salt) + ",i=4096," + Before(final, ",p=")))
  {
    hide Frame, MessageAt, Opening, Encode, Decode, FromBytes, Bytes, CString, Scram.Field, Scram.Derive,
      Scram.RfcProof,
      Scram.Sized, Scram.CollisionFree, Scram.ProvesPassword, FinalProves, FirstOf;
    FirstOfIs(b);
    m1 := MessageAt(b).value.0;
    var (first, after) := FirstOf(b).value;
    m2, rest := MessageAt(after).value.0, MessageAt(after).value.1;
    AtIsFrame(after);
    var parts := Opening(first, ',').value;
    OpeningIs(first, ',', parts.0, parts.1, parts.2);
    gs2, bare := parts.0 + "," + parts.1 + ",", parts.2;
    assert first == gs2 + bare;
    FinalMeans(pol, parts, FromBytes(m2.body), random, salt);
  }

  lemma FirstOfIs(b: seq<Byte>)
    requires FirstOf(b).Some?
    ensures MessageAt(b).Some?
    ensures var (m1, after) := MessageAt(b).value;
            && b == Frame(m1) + after && FirstOf(b).value.1 == after && m1.typ == 112
            && exists name, length, first :: m1.body == name + [0] + length + first && |length| == 4 &&
                 name == Bytes("SCRAM-SHA-256") && FromBytes(first) == FirstOf(b).value.0
  {
    hide Frame, MessageAt, FromBytes, Bytes, CString;
    AtIsFrame(b);
    var m1 := MessageAt(b).value.0;
    CStringSplits(m1.body);
    var (name, tail) := CString(m1.body).value;
    assert m1.body == name + [0] + tail[..4] + tail[4..];
  }

  lemma FinalMeans(pol: Policy, parts: (string, string, string), final: string, random: seq<Byte>, salt: seq<Byte>)
    requires Scram.Sized(pol.crypto) && Scram.CollisionFree(pol.crypto)
    requires FinalProves(pol, parts, final, random, salt) == Right
    ensures var nonce := Scram.Field(parts.2, "r=") + Encode(random);
            && Scram.Field(final, "c=") == Encode(Bytes(parts.0 + "," + parts.1 + ","))
            && Scram.Field(final, "r=") == nonce
            && Decode(Scram.Field(final, "p=")) ==
               Some(Scram.RfcProof(pol.crypto, pol.password, salt,
                                   parts.2 + ",r=" + nonce + ",s=" + Encode(salt) + ",i=4096," + Before(final, ",p=")))
  {
    hide Encode, Decode, Bytes, Scram.Field, Scram.Derive, Scram.RfcProof, Scram.Sized, Scram.CollisionFree,
      Scram.ProvesPassword, Before;
    var nonce := Scram.Field(parts.2, "r=") + Encode(random);
    var keys := Scram.Derive(pol.crypto, pol.password, salt, Scram.ITERATIONS);
    var message := Scram.AuthMessage(parts.2, Scram.ServerFirst(nonce, salt), final);
    var proof := Decode(Scram.Field(final, "p=")).value;
    Scram.DerivedAsRfc(pol.crypto, pol.password, salt, message);
    Scram.ProofIsTheOne(pol.crypto, keys, proof, message);
    assert message == parts.2 + ",r=" + nonce + ",s=" + Encode(salt) + ",i=4096," + Before(final, ",p=");
  }

  // ---- the end ----

  const REPLICATION := Bytes("replication")
  const OFF := {[], Bytes("false"), Bytes("off"), Bytes("0"), Bytes("no")}

  datatype End = Lost | Unsupported | CancelSent | CancelDropped | BadUser | NoReplication
               | TooMany | Cancelled | Denied | Passed(passage: Passage)

  function Param(params: PgWire.Params, name: Chars): Chars {
    if name in params then params[name] else []
  }

  /** The client wants to stream the write-ahead log. */
  predicate Replicates(params: PgWire.Params) {
    Bytes("replication") in params &&
    params[Bytes("replication")] !in {[], Bytes("false"), Bytes("off"), Bytes("0"), Bytes("no")}
  }

  /** What is wrong with the parameters, if anything is. */
  function Flaw(access: Access, params: PgWire.Params): Option<End> {
    if BranchOf(access, Param(params, USER)).None? then Some(BadUser)
    else if Param(params, REPLICATION) !in OFF then Some(NoReplication) else None
  }

  /** What a check tells: only one that ran to the comparison is judged. */
  function Checked(proof: Proof): seq<Event> {
    if proof == NoProof then [SlotBack] else [Judged(proof == Right), SlotBack]
  }

  function Told(end: End, proof: Proof, branch: Chars): seq<Event> {
    match end
    case Cancelled => Checked(proof)
    case Denied => Checked(proof)
    case Passed(passage) => Checked(proof) + PassageTold(passage, branch)
    case _ => []
  }

  // ---- the backend's startup sequence ----

  const KEY_DATA: Byte := 75
  const READY: Byte := 90
  const ERROR_RESPONSE: Byte := 69

  /** The key a message announces, if it does. */
  function KeysIn(m: Message): seq<Key> {
    if m.typ == KEY_DATA && |m.body| >= 8 then [(FromBigEndian(m.body[..4]), FromBigEndian(m.body[4..8]))] else []
  }

  /** The backend is ready, or has failed. */
  predicate Closing(m: Message) {
    m.typ in {READY, ERROR_RESPONSE}
  }

  /** The keys a backend announces before it is ready, as far as the client takes its messages. */
  function Announced(b: seq<Byte>, takes: nat): seq<Key>
    decreases |b|
  {
    match MessageAt(b)
    case None => []
    case Some(p) =>
      KeysIn(p.0) + if takes == 0 || Closing(p.0) then [] else Announced(p.1, takes - 1)
  }

  /** By the bytes on the wire: a message of type K announces the two numbers it holds, one of type Z or E ends the
      startup sequence, and any other passes. */
  lemma AnnouncedByBytes(m: Message, pid: nat, secret: nat, rest: seq<Byte>, takes: nat)
    requires Fits(m) && pid < Pow256(4) && secret < Pow256(4)
    ensures Announced(Frame(Message(75, BigEndian(4, pid) + BigEndian(4, secret))) + rest, takes) ==
            [(pid, secret)] + if takes == 0 then [] else Announced(rest, takes - 1)
    ensures m.typ in {90, 69} ==> Announced(Frame(m) + rest, takes) == []
    ensures m.typ !in {75, 90, 69} && takes > 0 ==> Announced(Frame(m) + rest, takes) == Announced(rest, takes - 1)
  {
    hide Frame, MessageAt, BigEndian, FromBigEndian;
    var key := Message(75, BigEndian(4, pid) + BigEndian(4, secret));
    FrameIsAt(key, rest);
    FrameIsAt(m, rest);
    BigEndianBack(4, pid);
    BigEndianBack(4, secret);
    assert key.body[..4] == BigEndian(4, pid) && key.body[4..8] == BigEndian(4, secret);
  }

  /** An error response, letter by letter. */
  lemma ErrorByBytes(sqlstate: Chars, msg: Chars)
    ensures ErrorBody(sqlstate, msg) ==
            Bytes("SFATAL") + [0] + Bytes("VFATAL") + [0] + Bytes("C") + sqlstate + [0] + Bytes("M") + msg + [0, 0]
  {
    assert Bytes("SFATAL") == [FIELD_S] + FATAL && Bytes("VFATAL") == [FIELD_V] + FATAL;
    assert Bytes("C") == [FIELD_C] && Bytes("M") == [FIELD_M];
  }

  /** What a session does to the table of cancel keys: it puts in every key announced, and at its end takes out
      the last one. */
  function KeySteps(id: nat, keys: seq<Key>): seq<Step> {
    if keys == [] then [] else [Announce(id, keys[0])] + KeySteps(id, keys[1..])
  }

  function ServedSteps(id: nat, w: World): seq<Step> {
    [Open(id, w.address)] + KeySteps(id, Announced(w.backend, w.takes)) + [Cancels.End(id)]
  }

  lemma {:induction false} KeyStepsOf(id: nat, a: seq<Key>, b: seq<Key>)
    ensures KeySteps(id, a + b) == KeySteps(id, a) + KeySteps(id, b)
  {
    if a == [] {
      assert a + b == b;
    } else {
      KeyStepsOf(id, a[1..], b);
      assert (a + b)[1..] == a[1..] + b;
    }
  }

  /** One message further. */
  lemma NextAnnounced(id: nat, b: seq<Byte>, before: seq<Key>, takes: nat)
    ensures MessageAt(b).None? ==> before + Announced(b, takes) == before
    ensures MessageAt(b).Some? ==>
              && var (m, rest) := MessageAt(b).value;
              && before + Announced(b, takes) ==
                 before + KeysIn(m) + (if takes == 0 || Closing(m) then [] else Announced(rest, takes - 1))
              && KeySteps(id, before) + KeySteps(id, KeysIn(m)) == KeySteps(id, before + KeysIn(m))
  {
    hide MessageAt, KeysIn, Closing, KeySteps;
    if MessageAt(b).Some? { KeyStepsOf(id, before, KeysIn(MessageAt(b).value.0)); }
  }

  lemma NothingTaken(steps: seq<Step>, id: nat)
    ensures Took(steps, steps, id, []) && KeySteps(id, []) == []
    ensures forall keys: seq<Key> :: [] + keys == keys
  {
    TookOne(steps, Relay((0, 0)), id);
  }

  lemma FrameIsLong(m: Message)
    ensures |Frame(m)| >= 5
  {
  }

  class Server {
    const pol: Policy
    const limiter: Limiter
    const branches: Branches
    /** Which backend a cancel key was handed out for. */
    const registry: Registry

    constructor (pol: Policy, limiter: Limiter, branches: Branches, registry: Registry)
      requires limiter.Valid()
      ensures this.pol == pol && this.limiter == limiter && this.branches == branches && this.registry == registry
    {
      this.pol, this.limiter, this.branches, this.registry := pol, limiter, branches, registry;
    }

    method ReadStartupWithTls(client: Conn, w: World) returns (c: Conn, su: Option<Startup>, ghost answers: seq<Byte>)
      modifies client
      ensures c == client || fresh(c)
      ensures var h := Hearing(pol.tls, old(client.unread), w.handshakes);
              h == Heard(answers, if su.Some? then Some((su.value, c.unread)) else None)
    {
      hide StartupAt;
      c, su, answers := client, None, [];
      var handshakes := w.handshakes;
      while true
        invariant c == client || fresh(c)
        invariant After(answers, Hearing(pol.tls, c.unread, handshakes)) ==
                  Hearing(pol.tls, old(client.unread), w.handshakes)
        decreases |handshakes|, |c.unread|
      {
        ghost var b := c.unread;
        StartupShrinks(b);
        var r := ReadStartup(c, [], []);
        if r.Err? { return; }
        if r.value == Other(SSL_REQUEST) && pol.tls {
          c.Write([YES]);
          AfterTwice(answers, [YES],
                     Hearing(pol.tls, if handshakes == [] || handshakes[0].None? then [] else handshakes[0].value,
                                             if handshakes == [] then [] else handshakes[1..]));
          answers := answers + [YES];
          if handshakes == [] || handshakes[0].None? { return; }
          c := new Conn(handshakes[0].value);
          handshakes := handshakes[1..];
        } else if r.value == Other(SSL_REQUEST) || r.value == Other(GSSENC_REQUEST) {
          c.Write([NO]);
          AfterTwice(answers, [NO], Hearing(pol.tls, c.unread, handshakes));
          answers := answers + [NO];
        } else {
          su := Some(r.value);
          return;
        }
      }
    }

    /** The SASL exchange, the server's side of it. */
    method VerifyScram(c: Conn, w: World) returns (proof: Proof)
      requires Scram.Sized(pol.crypto)
      modifies c
      ensures proof == Proved(pol, old(c.unread), w.random, w.salt)
    {
      hide MessageAt, CString, Opening, Scram.Field, Scram.WellFormedFinal, Scram.ProvesPassword, Scram.Derive, Decode,
        Encode, Bytes,
        FromBytes;
      proof := NoProof;
      var m := ReadMessage(c);
      if m.Err? || m.value.typ != PASSWORD_MESSAGE { return; }
      var mech := TakeCString(m.value.body);
      if mech.None? || mech.value.0 != Bytes(MECHANISM) || |mech.value.1| < 4 { return; }
      var sv := new Scram.Server(pol.crypto, pol.password);
      var first := sv.FirstReply(FromBytes(mech.value.1[4..]), w.random, w.salt);
      if first.Err? { return; }
      m := ReadMessage(c);
      if m.Err? || m.value.typ != PASSWORD_MESSAGE { return; }
      var final := sv.FinalReply(FromBytes(m.value.body));
      proof := if final.Ok? then Right else if final.error == Scram.PasswordMismatch then Wrong else NoProof;
    }

    /** The slot is held for the exchange only, and returned whatever comes of it. A right proof clears the source's
        history and a wrong one lengthens it; an exchange that breaks off leaves it alone. */
    method VerifyClient(src: string, c: Conn, w: World) returns (proof: Proof, admitted: bool, wait: int)
      requires limiter.Valid() && limiter.latest <= w.before <= w.after && Scram.Sized(pol.crypto)
      modifies branches`trace, limiter, c
      ensures limiter.Valid() && forall k :: limiter.InFlight(k) == old(limiter.InFlight(k))
      ensures admitted <==> src == "" || old(limiter.InFlight(src)) < limiter.p.maxInFly
      ensures proof == if admitted && !w.cancelledBefore then Proved(pol, old(c.unread), w.random, w.salt) else NoProof
      ensures branches.trace == old(branches.trace) + if admitted then Checked(proof) else []
      ensures admitted && src != "" ==>
                && wait == PenaltyOf(limiter.p, Of(old(limiter.history), src), w.before)
                && Of(limiter.history, src) ==
                   match proof
                   case Right => []
                   case Wrong => Of(old(limiter.history), src) + [w.after]
                   case NoProof => Of(old(limiter.history), src)
    {
      hide Limiter.Valid, PenaltyOf, Proved, Scram.Sized;
      proof, wait := NoProof, 0;
      admitted := limiter.Acquire(src);
      if !admitted { return; }
      wait := limiter.Penalty(src, w.before);
      if !w.cancelledBefore {
        proof := VerifyScram(c, w);
        if proof != NoProof { branches.Tell([Judged(proof == Right)]); }
        if proof == Right {
          limiter.Reset(src);
        } else if proof == Wrong {
          var d := limiter.Fail(src, w.after);
        }
      }
      limiter.Release(src);
      branches.Tell([SlotBack]);
    }

    /** A cancel request goes to the backend that the latest registration of its key names, and is dropped if there
        is none, or the key has been taken out since. */
    method RelayCancel(pid: nat, secret: nat, w: World) returns (end: End, sent: Option<(Chars, seq<Byte>)>)
      requires registry.Valid()
      modifies registry
      ensures registry.Valid() && registry.state == old(registry.state)
      ensures registry.steps == old(registry.steps) + [Relay((pid, secret))]
      ensures end in {CancelSent, CancelDropped} && (sent.Some? <==> end == CancelSent)
      ensures forall a :: sent == Some((a, StartupFrame(CancelBody(pid, secret)))) <==>
                w.backendOk && registry.Latest((pid, secret), a)
      ensures sent.Some? ==> sent.value.1 == StartupFrame(CancelBody(pid, secret))
    {
      hide Registry.Latest, Behaviour, CancelBody;
      var address := registry.Lookup((pid, secret));
      if address.None? || !w.backendOk { return CancelDropped, None; }
      sent := Some((address.value, BigEndian(4, 4 + |CancelBody(pid, secret)|) + CancelBody(pid, secret)));
      end := CancelSent;
    }

    /** A key the backend announces goes into the table; other sessions have gone on in between. */
    method NoteKey(id: nat, m: Message)
      requires registry.Valid() && Live(registry.state, id)
      modifies registry
      ensures registry.Valid() && Live(registry.state, id)
      ensures Took(old(registry.steps), registry.steps, id, KeySteps(id, KeysIn(m)))
    {
      hide Behaviour, Took, FromBigEndian;
      ghost var before := registry.steps;
      registry.Meanwhile(id);
      if m.typ == KEY_DATA && |m.body| >= 8 {
        var key: Key := (FromBigEndian(m.body[..4]), FromBigEndian(m.body[4..8]));
        ghost var mid := registry.steps;
        registry.Register(id, key);
        TookBoth(before, mid, registry.steps, id, [], [Announce(id, key)]);
        assert [] + [Announce(id, key)] == [Announce(id, key)] == KeySteps(id, [key]);
      }
    }

    /** The backend's messages go to the client one by one, up to the one that says it is ready or has failed. What
        reaches the client is what the backend sent, and every key in it is in the table before. */
    method ForwardStartup(id: nat, backend: Conn, client: Conn, takes: nat) returns (ghost passed: seq<Byte>)
      requires registry.Valid() && Live(registry.state, id) && backend != client
      modifies registry, backend, client`written
      ensures registry.Valid() && Live(registry.state, id)
      ensures Took(old(registry.steps), registry.steps, id, KeySteps(id, Announced(old(backend.unread), takes)))
      ensures client.written == old(client.written) + passed && passed <= old(backend.unread)
    {
      hide Behaviour, Took, MessageAt, Frame, Fits, Live, KeysIn, KeySteps, Announced;
      ghost var all, start := backend.unread, registry.steps;
      ghost var keys: seq<Key> := [];
      passed := [];
      var left := takes;
      NothingTaken(start, id);
      while true
        invariant registry.Valid() && Live(registry.state, id)
        invariant Took(start, registry.steps, id, KeySteps(id, keys))
        invariant Announced(all, takes) == keys + Announced(backend.unread, left)
        invariant client.written == old(client.written) + passed && all == passed + backend.unread
        decreases |backend.unread|
      {
        ghost var b, mid := backend.unread, registry.steps;
        var m := ReadMessage(backend);
        NextAnnounced(id, b, keys, left);
        if m.Err? { return; }
        FrameIsLong(m.value);
        NoteKey(id, m.value);
        TookBoth(start, mid, registry.steps, id, KeySteps(id, keys), KeySteps(id, KeysIn(m.value)));
        keys := keys + KeysIn(m.value);
        assert keys + [] == keys;
        if left == 0 { return; }
        left := left - 1;
        WriteMessage(client, m.value);
        passed := passed + Frame(m.value);
        assert all == passed + backend.unread;
        if Closing(m.value) { return; }
      }
    }

    /** Route and serve. While the session lasts it is counted, and the keys its backend announced are in the table. */
    method Pass(id: nat, branch: Chars, client: Conn, w: World) returns (end: Passage)
      requires registry.Valid() && id !in registry.state.sessions
      modifies registry, branches`conns, branches`trace, client`written
      ensures forall b :: branches.Conns(b) == old(branches.Conns(b))
      ensures branches.trace == old(branches.trace) + PassageTold(end, branch)
      ensures end == if !w.routeOk then UnknownBranch
                     else if old(branches.Conns(branch)) >= branches.maxConn then BranchFull
                     else if !w.backendOk then NoBackend else Served
      ensures registry.Valid() && (end != Served ==> registry.state == old(registry.state))
      ensures Took(old(registry.steps), registry.steps, id, if end == Served then ServedSteps(id, w) else [])
    {
      hide Behaviour, Took, Announced, KeySteps, Live;
      ghost var start := registry.steps;
      NothingTaken(start, id);
      end := branches.Enter(branch, w.routeOk, w.backendOk);
      if end == Served {
        ServeKeys(id, client, w);
        branches.Release(branch);
      }
    }

    /** The served session as the table of cancel keys sees it. */
    method ServeKeys(id: nat, client: Conn, w: World)
      requires registry.Valid() && id !in registry.state.sessions
      modifies registry, client`written
      ensures registry.Valid() && Took(old(registry.steps), registry.steps, id, ServedSteps(id, w))
    {
      hide Behaviour, Took, Announced, KeySteps, Live;
      ghost var a := registry.steps;
      var backend := new Conn(w.backend);
      registry.Connected(id, w.address);
      ghost var b := registry.steps;
      ghost var passed := ForwardStartup(id, backend, client, w.takes);
      ghost var c, keys := registry.steps, KeySteps(id, Announced(w.backend, w.takes));
      TookBoth(a, b, c, id, [Open(id, w.address)], keys);
      registry.Meanwhile(id);
      ghost var d := registry.steps;
      TookBoth(a, c, d, id, [Open(id, w.address)] + keys, []);
      registry.Unregister(id);
      assert [Open(id, w.address)] + keys + [] == [Open(id, w.address)] + keys;
      TookBoth(a, d, registry.steps, id, [Open(id, w.address)] + keys, [Cancels.End(id)]);
    }

    /** A session whose startup message asks for a branch. */
    method Authenticate(id: nat, params: PgWire.Params, src: string, c: Conn, w: World)
      returns (end: End, branch: Chars, proof: Proof)
      requires limiter.Valid() && limiter.latest <= w.before <= w.after && Scram.Sized(pol.crypto)
      requires registry.Valid() && id !in registry.state.sessions
      modifies registry, branches, limiter, c
      ensures limiter.Valid() && forall k :: limiter.InFlight(k) == old(limiter.InFlight(k))
      ensures forall b :: branches.Conns(b) == old(branches.Conns(b))
      ensures branches.trace == old(branches.trace) + Told(end, proof, branch)
      ensures end == Ends(params, src, w, old(c.unread), old(limiter.InFlight(src)), branch,
                          old(branches.Conns(branch)))
      ensures Flaw(pol.access, params).None? ==> BranchOf(pol.access, Param(params, USER)) == Some(branch)
      ensures end.Passed? ==> proof == Right
      ensures registry.Valid() && (end != Passed(Served) ==> registry.state == old(registry.state))
      ensures Took(old(registry.steps), registry.steps, id, if end == Passed(Served) then ServedSteps(id, w) else [])
    {
      hide Proved, Faithful, Scram.Sized, BranchOf, Param, Behaviour, Took, ServedSteps;
      NothingTaken(registry.steps, id);
      branch, proof := [], NoProof;
      var flaw := Flaw(pol.access, params);
      if flaw.Some? { end := flaw.value; return; }
      branch := BranchOf(pol.access, Param(params, USER)).value;
      var admitted, wait;
      proof, admitted, wait := VerifyClient(src, c, w);
      if !admitted { end := TooMany; return; }
      if w.cancelledBefore || w.cancelledAfter { end := Cancelled; return; }
      if proof != Right { end := Denied; return; }
      var passage := Pass(id, branch, c, w);
      end := Passed(passage);
    }

    /** How such a session ends, given what is in flight from its source and on its branch. */
    function Ends(params: PgWire.Params, src: string, w: World, rest: seq<Byte>, inFlight: nat, branch: Chars,
                  conns: nat): End {
      if Flaw(pol.access, params).Some? then Flaw(pol.access, params).value
      else if src != "" && inFlight >= limiter.p.maxInFly then TooMany
      else if w.cancelledBefore || w.cancelledAfter then Cancelled
      else if Proved(pol, rest, w.random, w.salt) != Right then Denied
      else Passed(if !w.routeOk then UnknownBranch else if conns >= branches.maxConn then BranchFull
                  else if !w.backendOk then NoBackend else Served)
    }

    /** The whole session, for every byte stream a client may send: how it ends, and what it tells the outside. Only
        a right proof gets as far as the route; whatever the end, no slot and no connection count is left behind. */
    method AuthTerminate(id: nat, client: Conn, src: string, w: World)
      returns (end: End, branch: Chars, ghost proof: Proof, ghost answers: seq<Byte>, sent: Option<(Chars, seq<Byte>)>)
      requires limiter.Valid() && limiter.latest <= w.before <= w.after && Scram.Sized(pol.crypto)
      requires registry.Valid() && id !in registry.state.sessions
      modifies registry, branches, limiter, client
      ensures registry.Valid() && limiter.Valid() && forall k :: limiter.InFlight(k) == old(limiter.InFlight(k))
      ensures forall b :: branches.Conns(b) == old(branches.Conns(b))
      ensures branches.trace == old(branches.trace) + Told(end, proof, branch)
      ensures end.Passed? ==> proof == Right
      // a check has had a slot, and a counted session a place
      ensures Told(end, proof, branch) != [] && src != "" ==> old(limiter.InFlight(src)) < limiter.p.maxInFly
      ensures end in {Passed(NoBackend), Passed(Served)} ==> old(branches.Conns(branch)) < branches.maxConn
      ensures answers == Hearing(pol.tls, old(client.unread), w.handshakes).answers
      ensures match Hearing(pol.tls, old(client.unread), w.handshakes).asked
              case None => end == Lost
              case Some(p) =>
                match p.0
                case Other(_) => end == Unsupported
                case Cancel(pid, secret) =>
                  && end in {CancelSent, CancelDropped}
                  && registry.steps == old(registry.steps) + [Relay((pid, secret))]
                  && forall a :: sent == Some((a, StartupFrame(CancelBody(pid, secret)))) <==>
                       w.backendOk && registry.Latest((pid, secret), a)
                case Session(params) =>
                  && end == Ends(params, src, w, p.1, old(limiter.InFlight(src)), branch, old(branches.Conns(branch)))
                  && (Flaw(pol.access, params).None? ==> BranchOf(pol.access, Param(params, USER)) == Some(branch))
                  // only the branch behind the at sign of the client's user is routed to, and no replication
                  && (forall e :: e in branches.trace[|old(branches.trace)|..] && (e.Route? || e.Touch?) ==>
                        && Bytes("user") in params && Addressed(pol.access, params[Bytes("user")], e.branch)
                        && !Replicates(params) && Proved(pol, p.1, w.random, w.salt) == Right)
                  && (end == BadUser <==>
                      !(Bytes("user") in params && exists b :: Addressed(pol.access, params[Bytes("user")], b)))
                  && (end == NoReplication ==> Replicates(params))
      ensures !Hearing(pol.tls, old(client.unread), w.handshakes).asked.Some? ||
              !Hearing(pol.tls, old(client.unread), w.handshakes).asked.value.0.Session? ==>
                branches.trace == old(branches.trace)
      ensures sent.Some? <==> end == CancelSent
      // a served session has put in the keys of its backend, and taken out the last; any other leaves the table alone
      ensures end != Passed(Served) ==> registry.state == old(registry.state)
      ensures Took(old(registry.steps), registry.steps, id, if end == Passed(Served) then ServedSteps(id, w) else [])
    {
      hide Hearing, Proved, Faithful, Scram.Sized, BranchOf, Param, Flaw, StartupFrame, CancelBody, Behaviour, Took,
        ServedSteps, Registry.Latest, Addressed, Bytes, Told;
      NothingTaken(registry.steps, id);
      branch, proof, sent := [], NoProof, None;
      var c, su;
      c, su, answers := ReadStartupWithTls(client, w);
      if su.None? {
        end := Lost;
      } else {
        match su.value {
          case Cancel(pid, secret) =>
            TookOne(registry.steps, Relay((pid, secret)), id);
            end, sent := RelayCancel(pid, secret, w);
          case Other(_) =>
            end := Unsupported;
          case Session(params) =>
            var shown;
            end, branch, shown := Authenticate(id, params, src, c, w);
            proof := shown;
            FlawIsNoCancel(params);
            FlawIs(params, branch);
        }
      }
      RoutesTold(end, proof, branch);
      assert branches.trace[|old(branches.trace)|..] == Told(end, proof, branch);
    }

    lemma RoutesTold(end: End, proof: Proof, branch: Chars)
      ensures RoutesOnly(Told(end, proof, branch), branch)
      ensures forall e :: e in Told(end, proof, branch) && (e.Route? || e.Touch?) ==> end.Passed?
      ensures Told(end, proof, branch) == [] <==> end !in {Cancelled, Denied} && !end.Passed?
    {
    }

    lemma FlawIs(params: PgWire.Params, branch: Chars)
      ensures Flaw(pol.access, params) == Some(BadUser) <==>
              !(Bytes("user") in params && exists b :: Addressed(pol.access, params[Bytes("user")], b))
      ensures Flaw(pol.access, params).None? && BranchOf(pol.access, Param(params, USER)) == Some(branch) ==>
                && Bytes("user") in params && Addressed(pol.access, params[Bytes("user")], branch)
      ensures Flaw(pol.access, params).None? ==> !Replicates(params)
      ensures Flaw(pol.access, params) == Some(NoReplication) ==> Replicates(params)
    {
      hide BranchOf, Addressed;
      assert USER == Bytes("user");
      var user := Param(params, USER);
      NobodyAddressed(pol.access, user);
      BranchOfIs(pol.access, user, branch);
      if USER !in params {
        forall b ensures !Addressed(pol.access, [], b) { NotAddressed(b); }
      }
    }

    lemma NotAddressed(branch: Chars)
      ensures !Addressed(pol.access, [], branch)
    {
    }

    lemma FlawIsNoCancel(params: PgWire.Params)
      ensures Flaw(pol.access, params).Some? ==> Flaw(pol.access, params).value in {BadUser, NoReplication}
    {
    }
  }
}
