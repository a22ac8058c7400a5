/** Framing of the PostgreSQL frontend/backend protocol, version 3: what one side writes the other reads
    back, byte for byte, and no byte more. */
module PgWire {
  import opened Names
  import opened Bits

  const PROTOCOL_V3 := 196608
  const SSL_REQUEST := 80877103
  const GSSENC_REQUEST := 80877104
  const CANCEL_REQUEST := 80877102
  const MAX_STARTUP := 0x10_0000
  const MAX_MESSAGE := 0x100_0000

  datatype Error = Eof | OutOfRange | Unterminated
  datatype Result<T> = Ok(value: T) | Err(error: Error)

  /** One end of a connection. */
  class Conn {
    var unread: seq<Byte>
    var written: seq<Byte>

    constructor (unread: seq<Byte>)
      ensures this.unread == unread && written == []
    {
      this.unread, written := unread, [];
    }

    /** io.ReadFull: exactly `n` bytes or an error. */
    method ReadFull(n: nat) returns (r: Option<seq<Byte>>)
      modifies this`unread
      ensures r.Some? <==> n <= |old(unread)|
      ensures r.Some? ==> r.value == old(unread)[..n] && unread == old(unread)[n..]
    {
      if |unread| < n {
        unread := [];
        return None;
      }
      r := Some(unread[..n]);
      unread := unread[n..];
    }

    method Write(b: seq<Byte>)
      modifies this`written
      ensures written == old(written) + b
    {
      written := written + b;
    }
  }

  // ---- typed messages ----

  datatype Message = Message(typ: Byte, body: seq<Byte>)

  /** The length counts itself and the body, not the type. */
  function Frame(m: Message): seq<Byte> {
    [m.typ] + BigEndian(4, 4 + |m.body|) + m.body
  }

  predicate Fits(m: Message) {
    4 + |m.body| <= MAX_MESSAGE
  }

  method WriteMessage(c: Conn, m: Message)
    modifies c`written
    ensures c.written == old(c.written) + Frame(m)
  {
    c.Write([m.typ] + BigEndian(4, 4 + |m.body|) + m.body);
  }

  lemma Power32()
    ensures Pow256(4) == 0x1_0000_0000
  {
    assert Pow256(2) == 65536;
  }

  /** What a frame starts with. */
  lemma FrameHead(m: Message, rest: seq<Byte>)
    requires Fits(m)
    ensures var s := Frame(m) + rest;
            && s[..5] == [m.typ] + BigEndian(4, 4 + |m.body|)
            && s[5..][..|m.body|] == m.body && s[5 + |m.body|..] == rest
            && FromBigEndian(s[..5][1..5]) == 4 + |m.body|
  {
    Power32();
    BigEndianBack(4, 4 + |m.body|);
    var s := Frame(m) + rest;
    assert s[..5] == [m.typ] + BigEndian(4, 4 + |m.body|);
    assert s[..5][1..5] == BigEndian(4, 4 + |m.body|);
  }

  /** Big-endian bytes and the number they stand for determine each other. */
  lemma {:induction false} BigEndianOf(b: seq<Byte>)
    ensures BigEndian(|b|, FromBigEndian(b)) == b
  {
    hide Pow256;
    if b != [] {
      var high, low := FromBigEndian(b[..|b| - 1]), b[|b| - 1];
      BigEndianOf(b[..|b| - 1]);
      LastDigit(high, low);
      assert BigEndian(|b|, 256 * high + low) == BigEndian(|b| - 1, high) + [low];
      assert b == b[..|b| - 1] + [low];
    }
  }

  lemma LastDigit(high: nat, low: Byte)
    ensures (256 * high + low) / 256 == high && (256 * high + low) % 256 == low
  {
  }

  /** The message a stream starts with, and what follows it. */
  function MessageAt(b: seq<Byte>): Option<(Message, seq<Byte>)> {
    if |b| < 5 then None
    else
      var n := FromBigEndian(b[1..5]);
      if n < 4 || n > MAX_MESSAGE || |b| < n + 1 then None else Some((Message(b[0], b[5..n + 1]), b[n + 1..]))
  }

  lemma FrameIsAt(m: Message, rest: seq<Byte>)
    requires Fits(m)
    ensures MessageAt(Frame(m) + rest) == Some((m, rest))
  {
    FrameHead(m, rest);
    var s := Frame(m) + rest;
    assert s[..5][1..5] == s[1..5] && s[5..][..|m.body|] == s[5..5 + |m.body|];
  }

  lemma AtIsFrame(b: seq<Byte>)
    ensures MessageAt(b).Some? ==> Fits(MessageAt(b).value.0) && b == Frame(MessageAt(b).value.0) + MessageAt(b).value.1
  {
    if MessageAt(b).Some? {
      var (m, rest) := MessageAt(b).value;
      BigEndianOf(b[1..5]);
      assert b == [b[0]] + b[1..5] + b[5..5 + |m.body|] + rest;
    }
  }

  lemma FiveThenBody(all: seq<Byte>, n: nat)
    requires 4 <= n < |all|
    ensures all[..5][1..5] == all[1..5] && all[5..][..n - 4] == all[5..n + 1] && all[5..][n - 4..] == all[n + 1..]
  {
  }

  /** Reads one frame if there is one, and then consumes it and nothing else. */
  method ReadMessage(c: Conn) returns (r: Result<Message>)
    modifies c`unread
    ensures r.Ok? <==> MessageAt(old(c.unread)).Some?
    ensures r.Ok? ==> MessageAt(old(c.unread)) == Some((r.value, c.unread))
    ensures r.Ok? ==> old(c.unread) == Frame(r.value) + c.unread && Fits(r.value) && |r.value.body| <= 16777216 - 4
    ensures forall m, rest :: old(c.unread) == Frame(m) + rest && |m.body| <= 16777216 - 4 ==>
              r == Ok(m) && c.unread == rest
  {
    hide Frame, FromBigEndian;
    ghost var all := c.unread;
    AtIsFrame(all);
    forall m, rest | all == Frame(m) + rest && Fits(m) ensures MessageAt(all) == Some((m, rest)) { FrameIsAt(m, rest); }
    var head := c.ReadFull(5);
    if head.None? { return Err(Eof); }
    assert all[..5][1..5] == all[1..5];
    var n := FromBigEndian(head.value[1..5]);
    if n < 4 || n > MAX_MESSAGE { return Err(OutOfRange); }
    var body := c.ReadFull(n - 4);
    if body.None? { return Err(Eof); }
    FiveThenBody(all, n);
    r := Ok(Message(head.value[0], body.value));
  }

  function Frames(ms: seq<Message>): seq<Byte> {
    if ms == [] then [] else Frame(ms[0]) + Frames(ms[1..])
  }

  predicate AllFit(ms: seq<Message>) {
    forall m :: m in ms ==> Fits(m)
  }

  /** A stream of messages parses back to the same list, whatever `list` was written and whatever follows. */
  method ReadMessages(c: Conn, n: nat, ghost list: seq<Message>, ghost rest: seq<Byte>)
    returns (ms: seq<Message>, ok: bool)
    modifies c`unread
    ensures ok ==> |ms| == n && AllFit(ms) && old(c.unread) == Frames(ms) + c.unread
    ensures old(c.unread) == Frames(list) + rest && |list| == n && AllFit(list) ==> ok && ms == list && c.unread == rest
  {
    hide Frame, Frames, Fits, AllFit, MessageAt;
    ms, ok := [], true;
    ghost var all := c.unread;
    NoFrames(list, all, rest);
    while |ms| < n
      invariant ok && |ms| <= n && AllFit(ms)
      invariant all == Frames(ms) + c.unread
      invariant all == Frames(list) + rest && |list| == n && AllFit(list) ==>
                  ms == list[..|ms|] && c.unread == Frames(list[|ms|..]) + rest
    {
      if all == Frames(list) + rest && |list| == n && AllFit(list) {
        NextFrame(list, |ms|, rest);
      }
      var r := ReadMessage(c);
      if r.Err? { return ms, false; }
      FrameRead(ms, r.value, c.unread);
      ms := ms + [r.value];
    }
  }

  lemma NoFrames(list: seq<Message>, all: seq<Byte>, rest: seq<Byte>)
    ensures AllFit([]) && Frames([]) + all == all && list[..0] == [] && Frames(list[0..]) == Frames(list)
    ensures Frames(list[|list|..]) + rest == rest && list[..|list|] == list
  {
    hide Frame;
    assert Frames([]) == [];
    assert [] + all == all && [] + rest == rest;
    assert list[0..] == list && list[|list|..] == [];
  }

  lemma FrameRead(ms: seq<Message>, m: Message, unread: seq<Byte>)
    requires AllFit(ms) && Fits(m)
    ensures Frames(ms) + (Frame(m) + unread) == Frames(ms + [m]) + unread && AllFit(ms + [m])
  {
    FramesSnoc(ms, m);
  }

  // ---- bytes on the wire, as the protocol has them ----

  /** A Sync message. */
  lemma SyncBytes()
    ensures Frame(Message(83, [])) == [83, 0, 0, 0, 4]
  {
    hide BigEndian;
    FourBytes(4);
  }

  /** A request for TLS. */
  lemma TlsBytes()
    ensures StartupFrame(BigEndian(4, SSL_REQUEST)) == [0, 0, 0, 8, 4, 210, 22, 47]
  {
    hide BigEndian;
    FourBytes(8);
    FourBytes(SSL_REQUEST);
  }

  /** And for encryption by GSSAPI. */
  lemma GssBytes()
    ensures StartupFrame(BigEndian(4, GSSENC_REQUEST)) == [0, 0, 0, 8, 4, 210, 22, 48]
  {
    hide BigEndian;
    FourBytes(8);
    FourBytes(GSSENC_REQUEST);
  }

  /** A startup message without parameters. */
  lemma EmptyStartupBytes()
    ensures StartupFrame(StartupBody([])) == [0, 0, 0, 9, 0, 3, 0, 0, 0]
  {
    hide BigEndian;
    FourBytes(9);
    FourBytes(PROTOCOL_V3);
    NoPairs();
  }

  /** A cancel request. */
  lemma CancelBytes()
    ensures StartupFrame(CancelBody(1, 258)) == [0, 0, 0, 16, 4, 210, 22, 46, 0, 0, 0, 1, 0, 0, 1, 2]
  {
    hide BigEndian;
    FourBytes(16);
    FourBytes(1);
    FourBytes(258);
    FourBytes(CANCEL_REQUEST);
  }

  lemma FourBytes(n: nat)
    ensures BigEndian(4, n) == [n / 256 / 256 / 256 % 256, n / 256 / 256 % 256, n / 256 % 256, n % 256]
  {
    assert BigEndian(0, n / 256 / 256 / 256 / 256) == [];
    assert BigEndian(1, n / 256 / 256 / 256) == [n / 256 / 256 / 256 % 256];
    assert BigEndian(2, n / 256 / 256) == [n / 256 / 256 / 256 % 256, n / 256 / 256 % 256];
    assert BigEndian(3, n / 256) == [n / 256 / 256 / 256 % 256, n / 256 / 256 % 256, n / 256 % 256];
  }

  lemma NextFrame(list: seq<Message>, i: nat, rest: seq<Byte>)
    requires i < |list| && AllFit(list)
    ensures Fits(list[i])
    ensures Frames(list[i..]) + rest == Frame(list[i]) + (Frames(list[i + 1..]) + rest)
    ensures list[..i + 1] == list[..i] + [list[i]]
  {
    assert list[i..][1..] == list[i + 1..];
  }

  lemma {:induction false} FramesSnoc(ms: seq<Message>, m: Message)
    ensures Frames(ms + [m]) == Frames(ms) + Frame(m)
  {
    if ms == [] {
      assert Frames([m]) == Frame(m) + Frames([m][1..]);
    } else {
      FramesSnoc(ms[1..], m);
      assert (ms + [m])[1..] == ms[1..] + [m];
    }
  }

  // ---- the startup message ----

  type Params = map<Chars, Chars>

  function Pair(p: (Chars, Chars)): seq<Byte> {
    p.0 + [0] + p.1 + [0]
  }

  /** Parameters are written in whatever order the map is walked. */
  function Pairs(list: seq<(Chars, Chars)>): seq<Byte> {
    if list == [] then [] else Pair(list[0]) + Pairs(list[1..])
  }

  function MapOf(list: seq<(Chars, Chars)>): Params {
    if list == [] then map[] else map[list[0].0 := list[0].1] + MapOf(list[1..])
  }

  /** What a zero-terminated list of pairs can carry: no zero byte, and no empty name, which would end the list. */
  predicate Clean(list: seq<(Chars, Chars)>) {
    forall i :: 0 <= i < |list| ==> list[i].0 != [] && NulFree(list[i].0) && NulFree(list[i].1)
  }

  function StartupBody(list: seq<(Chars, Chars)>): seq<Byte> {
    BigEndian(4, PROTOCOL_V3) + Pairs(list) + [0]
  }

  function StartupFrame(body: seq<Byte>): seq<Byte> {
    BigEndian(4, 4 + |body|) + body
  }

  function CancelBody(pid: nat, secret: nat): seq<Byte> {
    BigEndian(4, CANCEL_REQUEST) + BigEndian(4, pid) + BigEndian(4, secret)
  }

  /** The list as the loop reads it: a later value for a name wins. */
  function ParsePairs(rest: seq<Byte>, acc: Params): Option<Params>
    decreases |rest|
  {
    if rest == [] || rest[0] == 0 then Some(acc)
    else match CString(rest)
      case None => None
      case Some(k) =>
        CStringShrinks(rest);
        match CString(k.1)
        case None => None
        case Some(v) =>
          CStringShrinks(k.1);
          ParsePairs(v.1, acc[k.0 := v.0])
  }

  /** One pair, read off the front of the list. */
  lemma PairFirst(k: Chars, v: Chars, more: seq<Byte>, acc: Params)
    requires k != [] && NulFree(k) && NulFree(v)
    ensures ParsePairs(Pair((k, v)) + more, acc) == ParsePairs(more, acc[k := v])
  {
    var b := Pair((k, v)) + more;
    assert b == k + [0] + (v + [0] + more);
    assert b[0] == k[0] && k[0] != 0;
    CStringAt(k, v + [0] + more);
    CStringAt(v, more);
  }

  lemma NoMorePairs(tail: seq<Byte>, acc: Params)
    ensures ParsePairs([0] + tail, acc) == Some(acc)
  {
    assert ([0] + tail)[0] == 0;
  }

  lemma Associate(a: seq<Byte>, b: seq<Byte>, c: seq<Byte>)
    ensures (a + b) + c == a + (b + c)
  {
  }

  lemma AssociateMaps(a: Params, b: Params, c: Params)
    ensures (a + b) + c == a + (b + c)
  {
  }

  lemma FirstOfPairs(list: seq<(Chars, Chars)>, end: seq<Byte>, acc: Params)
    requires list != []
    ensures Pairs(list) + end == Pair(list[0]) + (Pairs(list[1..]) + end)
    ensures acc + MapOf(list) == acc[list[0].0 := list[0].1] + MapOf(list[1..])
  {
    hide Pair;
    Associate(Pair(list[0]), Pairs(list[1..]), end);
    var first: Params := map[list[0].0 := list[0].1];
    AssociateMaps(acc, first, MapOf(list[1..]));
    assert acc + first == acc[list[0].0 := list[0].1];
  }

  lemma {:induction false} PairsBack(list: seq<(Chars, Chars)>, tail: seq<Byte>, acc: Params)
    requires Clean(list)
    ensures ParsePairs(Pairs(list) + ([0] + tail), acc) == Some(acc + MapOf(list))
  {
    hide Pair, Pairs, MapOf, ParsePairs;
    NoPairs();
    if list == [] {
      NoMorePairs(tail, acc);
      assert acc + map[] == acc && [] + ([0] + tail) == [0] + tail;
    } else {
      var (k, v) := list[0];
      FirstOfPairs(list, [0] + tail, acc);
      PairFirst(k, v, Pairs(list[1..]) + ([0] + tail), acc);
      PairsBack(list[1..], tail, acc[k := v]);
    }
  }

  datatype Startup = Session(params: Params) | Cancel(pid: nat, secret: nat) | Other(code: nat)

  /** What a startup body means. A cancel request too short for its key reads as one for process 0. */
  function Meaning(body: seq<Byte>): Result<Startup>
    requires |body| >= 4
  {
    var code := FromBigEndian(body[..4]);
    if code == CANCEL_REQUEST then
      if |body| >= 12 then Ok(Cancel(FromBigEndian(body[4..8]), FromBigEndian(body[8..12]))) else Ok(Cancel(0, 0))
    else if code != PROTOCOL_V3 then Ok(Other(code))
    else match ParsePairs(body[4..], map[])
      case None => Err(Unterminated)
      case Some(params) => Ok(Session(params))
  }

  /** The length-prefixed body a stream starts with, and what follows it. */
  function BodyAt(b: seq<Byte>): Result<(seq<Byte>, seq<Byte>)> {
    if |b| < 4 then Err(Eof)
    else
      var n := FromBigEndian(b[..4]);
      if n < 8 || n > MAX_STARTUP then Err(OutOfRange) else if |b| < n then Err(Eof) else Ok((b[4..n], b[n..]))
  }

  /** The startup message a stream starts with, and what follows it. */
  function StartupAt(b: seq<Byte>): Option<(Startup, seq<Byte>)> {
    match BodyAt(b)
    case Err(_) => None
    case Ok(p) =>
      match Meaning(p.0)
      case Err(_) => None
      case Ok(su) => Some((su, p.1))
  }

  method ReadParams(body: seq<Byte>) returns (r: Option<Params>)
    ensures r == ParsePairs(body, map[])
  {
    var params: Params := map[];
    var rest := body;
    while rest != [] && rest[0] != 0
      invariant ParsePairs(rest, params) == ParsePairs(body, map[])
      decreases |rest|
    {
      CStringShrinks(rest);
      var k := TakeCString(rest);
      if k.None? { return None; }
      CStringShrinks(k.value.1);
      var v := TakeCString(k.value.1);
      if v.None? { return None; }
      params := params[k.value.0 := v.value.0];
      rest := v.value.1;
    }
    r := Some(params);
  }

  lemma TwoReads(all: seq<Byte>, n: nat)
    requires 4 <= n <= |all|
    ensures all[4..][..n - 4] == all[4..n] && all[4..][n - 4..] == all[n..] && all == all[..4] + all[4..n] + all[n..]
  {
  }

  method ReadBody(c: Conn, ghost sent: seq<Byte>, ghost rest: seq<Byte>) returns (r: Result<seq<Byte>>)
    modifies c`unread
    ensures if r.Ok? then BodyAt(old(c.unread)) == Ok((r.value, c.unread)) else BodyAt(old(c.unread)) == Err(r.error)
    ensures old(c.unread) == StartupFrame(sent) + rest && 4 <= |sent| <= MAX_STARTUP - 4 ==>
              r == Ok(sent) && c.unread == rest
    ensures r.Ok? ==> 4 <= |r.value| <= MAX_STARTUP - 4 && old(c.unread) == StartupFrame(r.value) + c.unread
  {
    ghost var all := c.unread;
    if all == StartupFrame(sent) + rest && 4 <= |sent| <= MAX_STARTUP - 4 { StartupHead(sent, rest); }
    var head := c.ReadFull(4);
    if head.None? { return Err(Eof); }
    var n := FromBigEndian(head.value);
    if n < 8 || n > MAX_STARTUP { return Err(OutOfRange); }
    var read := c.ReadFull(n - 4);
    if read.None? { return Err(Eof); }
    TwoReads(all, n);
    BigEndianOf(head.value);
    r := Ok(read.value);
  }

  /** Reads a length-prefixed body within the limits, consumes it and nothing else, and says what it means. */
  method ReadStartup(c: Conn, ghost sent: seq<Byte>, ghost rest: seq<Byte>) returns (r: Result<Startup>)
    modifies c`unread
    ensures r.Ok? <==> StartupAt(old(c.unread)).Some?
    ensures r.Ok? ==> StartupAt(old(c.unread)) == Some((r.value, c.unread))
    ensures old(c.unread) == StartupFrame(sent) + rest && 4 <= |sent| <= 1048576 - 4 ==>
              r == Meaning(sent) && c.unread == rest
    ensures r.Ok? ==>
              exists body :: 4 <= |body| <= 1048576 - 4 && old(c.unread) == StartupFrame(body) + c.unread
                && r == Meaning(body)
  {
    hide BodyAt, StartupFrame;
    var read := ReadBody(c, sent, rest);
    if read.Err? { return Err(read.error); }
    var body := read.value;
    var code := FromBigEndian(body[..4]);
    if code == CANCEL_REQUEST {
      if |body| < 12 { return Ok(Cancel(0, 0)); }
      return Ok(Cancel(FromBigEndian(body[4..8]), FromBigEndian(body[8..12])));
    }
    if code != PROTOCOL_V3 { return Ok(Other(code)); }
    var params := ReadParams(body[4..]);
    r := if params.None? then Err(Unterminated) else Ok(Session(params.value));
  }

  lemma StartupHead(body: seq<Byte>, rest: seq<Byte>)
    requires 4 <= |body| <= MAX_STARTUP - 4
    ensures var s := StartupFrame(body) + rest;
            FromBigEndian(s[..4]) == 4 + |body| && s[4..][..|body|] == body && s[4 + |body|..] == rest
  {
    hide BigEndian, FromBigEndian, Pow256;
    Power32();
    BigEndianBack(4, 4 + |body|);
    HeadBodyRest(BigEndian(4, 4 + |body|), body, rest);
  }

  /** A concatenation of three taken apart. */
  lemma HeadBodyRest(head: seq<Byte>, body: seq<Byte>, rest: seq<Byte>)
    ensures var s := head + body + rest;
            s[..|head|] == head && s[|head|..][..|body|] == body && s[|head| + |body|..] == rest
  {
  }

  /** `list` holds the parameters, each once. */
  predicate Enumerates(list: seq<(Chars, Chars)>, params: Params) {
    && (forall i :: 0 <= i < |list| ==> list[i].0 in params && params[list[i].0] == list[i].1)
    && |list| == |params| && MapOf(list) == params
  }

  method WriteStartup(c: Conn, params: Params) returns (ghost list: seq<(Chars, Chars)>)
    modifies c`written
    ensures Enumerates(list, params) && c.written == old(c.written) + StartupFrame(StartupBody(list))
  {
    hide Pair, Pairs, MapOf, BigEndian;
    list := [];
    var body := BigEndian(4, PROTOCOL_V3);
    NoPairs();
    var left := params.Keys;
    while left != {}
      invariant c.written == old(c.written)
      invariant left <= params.Keys && body == BigEndian(4, PROTOCOL_V3) + Pairs(list)
      invariant forall i :: 0 <= i < |list| ==> list[i].0 in params && params[list[i].0] == list[i].1
      invariant MapOf(list) == params - left && |list| + |left| == |params.Keys|
    {
      var k :| k in left;
      PairsGrow(list, (k, params[k]));
      MapGrows(list, (k, params[k]));
      BodyGrows(BigEndian(4, PROTOCOL_V3), list, k, params[k]);
      body := body + k + [0] + params[k] + [0];
      list := list + [(k, params[k])];
      left := left - {k};
    }
    assert params - left == params;
    body := body + [0];
    assert body == StartupBody(list);
    var frame := BigEndian(4, 4 + |body|) + body;
    assert frame == StartupFrame(StartupBody(list));
    c.Write(frame);
  }

  lemma NoPairs()
    ensures Pairs([]) == [] && MapOf([]) == map[]
  {
  }

  lemma BodyGrows(head: seq<Byte>, list: seq<(Chars, Chars)>, k: Chars, v: Chars)
    ensures head + Pairs(list) + k + [0] + v + [0] == head + (Pairs(list) + Pair((k, v)))
  {
  }

  lemma {:induction false} PairsGrow(list: seq<(Chars, Chars)>, p: (Chars, Chars))
    ensures Pairs(list + [p]) == Pairs(list) + Pair(p)
  {
    hide Pair, MapOf;
    if list == [] {
      assert [p][1..] == [];
    } else {
      PairsGrow(list[1..], p);
      assert (list + [p])[1..] == list[1..] + [p];
    }
  }

  lemma LaterWins(a: Params, b: Params, k: Chars, v: Chars)
    ensures a + b[k := v] == (a + b)[k := v]
  {
  }

  lemma {:induction false} MapGrows(list: seq<(Chars, Chars)>, p: (Chars, Chars))
    ensures MapOf(list + [p]) == MapOf(list)[p.0 := p.1]
  {
    hide Pair, Pairs;
    if list == [] {
      assert [p][1..] == [];
    } else {
      MapGrows(list[1..], p);
      assert (list + [p])[1..] == list[1..] + [p];
      LaterWins(map[list[0].0 := list[0].1], MapOf(list[1..]), p.0, p.1);
    }
  }

  predicate Sendable(params: Params) {
    forall k :: k in params ==> k != [] && NulFree(k) && NulFree(params[k])
  }

  /** Written and read back, a map of parameters is the same map; a cancel request the same key. */
  lemma StartupBack(list: seq<(Chars, Chars)>, params: Params)
    requires Enumerates(list, params) && Sendable(params)
    ensures Meaning(StartupBody(list)) == Ok(Session(params))
  {
    hide Pairs, MapOf, ParsePairs, BigEndian, FromBigEndian;
    Power32();
    BigEndianBack(4, PROTOCOL_V3);
    var body := StartupBody(list);
    assert body[..4] == BigEndian(4, PROTOCOL_V3);
    assert body[4..] == Pairs(list) + ([0] + []);
    PairsBack(list, [], map[]);
    assert map[] + MapOf(list) == params;
  }

  lemma CancelBack(pid: nat, secret: nat)
    requires pid < Pow256(4) && secret < Pow256(4)
    ensures Meaning(CancelBody(pid, secret)) == Ok(Cancel(pid, secret))
    ensures StartupFrame(CancelBody(pid, secret)) == BigEndian(4, 16) + CancelBody(pid, secret)
  {
    Power32();
    BigEndianBack(4, CANCEL_REQUEST);
    BigEndianBack(4, pid);
    BigEndianBack(4, secret);
    var body := CancelBody(pid, secret);
    assert body[..4] == BigEndian(4, CANCEL_REQUEST) && body[4..8] == BigEndian(4, pid)
           && body[8..12] == BigEndian(4, secret);
  }

  // ---- from the client to the backend ----

  const USER: Chars := [117, 115, 101, 114]
  const DATABASE: Chars := [100, 97, 116, 97, 98, 97, 115, 101]

  /** The client's parameters, except that the user is the application's and an empty database is none. */
  method BackendParams(user: Chars, params: Params) returns (r: Params)
    ensures USER in r && r[USER] == user
    ensures DATABASE in r <==> DATABASE in params && params[DATABASE] != []
    ensures forall k :: k != USER && k != DATABASE ==> (k in r <==> k in params)
    ensures forall k :: k != USER && k in r ==> k in params && r[k] == params[k]
  {
    r := map[];
    var left := params.Keys;
    while left != {}
      invariant left <= params.Keys
      invariant forall k :: k in r <==> k in params && k !in left
      invariant forall k :: k in r ==> r[k] == params[k]
    {
      var k :| k in left;
      r := r[k := params[k]];
      left := left - {k};
    }
    r := r[USER := user];
    if DATABASE !in r || r[DATABASE] == [] {
      r := r - {DATABASE};
    }
  }

  /** What the client sent, through the proxy, is what the backend reads. */
  method Forward(user: Chars, params: Params, backend: Conn, ghost rest: seq<Byte>)
    returns (seen: Result<Startup>, sent: Params, ghost list: seq<(Chars, Chars)>)
    requires Sendable(params) && NulFree(user) && backend.written == []
    modifies backend
    ensures USER in sent && sent[USER] == user
    ensures DATABASE in sent <==> DATABASE in params && params[DATABASE] != []
    ensures forall k :: k != USER && k != DATABASE ==> (k in sent <==> k in params)
    ensures forall k :: k != USER && k in sent ==> k in params && sent[k] == params[k]
    ensures |StartupBody(list)| <= MAX_STARTUP - 4 ==> seen == Ok(Session(sent))
  {
    sent := BackendParams(user, params);
    list := WriteStartup(backend, sent);
    StartupBack(list, sent);
    // the other end of the connection
    var server := new Conn(backend.written);
    assert server.unread == StartupFrame(StartupBody(list)) + [];
    seen := ReadStartup(server, StartupBody(list), []);
  }

  // ---- error responses ----

  const FATAL: Chars := [70, 65, 84, 65, 76]
  const FIELD_S: Byte := 83
  const FIELD_V: Byte := 86
  const FIELD_C: Byte := 67
  const FIELD_M: Byte := 77

  function ErrorBody(sqlstate: Chars, msg: Chars): seq<Byte> {
    [FIELD_S] + FATAL + [0, FIELD_V] + FATAL + [0, FIELD_C] + sqlstate + [0, FIELD_M] + msg + [0, 0]
  }

  datatype ErrorText = Text(msg: Chars) | UnknownError | MalformedResponse

  function TextOf(rest: seq<Byte>): ErrorText
    decreases |rest|
  {
    if rest == [] || rest[0] == 0 then UnknownError
    else match CString(rest[1..])
      case None => MalformedResponse
      case Some(v) =>
        CStringShrinks(rest[1..]);
        if rest[0] == FIELD_M then Text(v.0) else TextOf(v.1)
  }

  method ReadErrorText(body: seq<Byte>) returns (t: ErrorText)
    ensures t == TextOf(body)
  {
    var rest := body;
    while rest != [] && rest[0] != 0
      invariant TextOf(rest) == TextOf(body)
      decreases |rest|
    {
      CStringShrinks(rest[1..]);
      var v := TakeCString(rest[1..]);
      if v.None? { return MalformedResponse; }
      if rest[0] == FIELD_M { return Text(v.value.0); }
      rest := v.value.1;
    }
    t := UnknownError;
  }

  lemma FieldSkipped(code: Byte, v: Chars, more: seq<Byte>)
    requires code != 0 && NulFree(v)
    ensures TextOf([code] + v + [0] + more) == if code == FIELD_M then Text(v) else TextOf(more)
  {
    var b := [code] + v + [0] + more;
    assert b[1..] == v + [0] + more;
    CStringAt(v, more);
  }

  /** The message of an error response is found behind its other fields. */
  lemma ErrorTextBack(sqlstate: Chars, msg: Chars)
    requires NulFree(sqlstate) && NulFree(msg)
    ensures TextOf(ErrorBody(sqlstate, msg)) == Text(msg)
  {
    var m := [FIELD_M] + msg + [0] + [0];
    var c := [FIELD_C] + sqlstate + [0] + m;
    var v := [FIELD_V] + FATAL + [0] + c;
    assert ErrorBody(sqlstate, msg) == [FIELD_S] + FATAL + [0] + v;
    FieldSkipped(FIELD_M, msg, [0]);
    FieldSkipped(FIELD_C, sqlstate, m);
    FieldSkipped(FIELD_V, FATAL, c);
    FieldSkipped(FIELD_S, FATAL, v);
  }
}
