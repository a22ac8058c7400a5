/** MySQL packets, the synthetic greeting, and the handshake response the proxy reads from a client and
    writes to a backend. Capability sets are 32-bit numbers. */
module MysqlWire {
  import opened Names
  import opened Bits

  // ---- capabilities ----

  const CONNECT_WITH_DB := 3
  const PROTOCOL41 := 9
  const SSL := 11
  const SECURE_CONN := 15
  const PLUGIN_AUTH := 19
  const LENENC_AUTH := 21

  /** Bits 0, 3, 9, 13, 15, 16, 17, 19, 21 and 24: all the proxy ever advertises, TLS aside. */
  const SYNTH_CAPS: nat := 0x12B_A209
  /** Bits 9, 15 and 19, which it always claims towards a backend. */
  const FIXED_CAPS: nat := 0x8_8200

  function And(a: nat, b: nat): nat {
    Combine(AND, 32, a, b)
  }

  function Or(a: nat, b: nat): nat {
    Combine(OR, 32, a, b)
  }

  function Negotiated(client: nat, backend: nat): nat {
    Or(And(And(client, backend), SYNTH_CAPS), FIXED_CAPS)
  }

  lemma {:induction false} ShiftedBit(a: nat, k: nat, i: nat)
    ensures Bit(a * Pow2(k), i) <==> i >= k && Bit(a, i - k)
  {
    if k > 0 {
      assert a * Pow2(k) == 2 * (a * Pow2(k - 1));
      if i > 0 { ShiftedBit(a, k - 1, i - 1); }
    }
  }

  lemma {:induction false} NoBits(i: nat)
    ensures !Bit(0, i)
  {
    if i > 0 { NoBits(i - 1); }
  }

  lemma FixedBits(i: nat)
    ensures Bit(FIXED_CAPS, i) <==> i in {PROTOCOL41, SECURE_CONN, PLUGIN_AUTH}
  {
    assert Pow2(3) == 8;
    assert Pow2(5) == 32 by { PowSum(3, 2); assert Pow2(2) == 4; }
    assert Pow2(9) == 512 by { PowSum(5, 4); PowSum(3, 1); assert Pow2(1) == 2; }
    ShiftedBit(0x441, 9, i);
    if i > 9 {
      assert 0x441 / 2 == 0x11 * 32;
      ShiftedBit(0x11, 5, i - 10);
      if i > 15 {
        assert 0x11 / 2 == 1 * 8;
        ShiftedBit(1, 3, i - 16);
        if i > 19 { NoBits(i - 20); }
      }
    }
  }

  /** A capability is claimed exactly when all three sides have it, or it is one of the fixed ones. */
  lemma NegotiatedExactly(client: nat, backend: nat, i: nat)
    requires i < 32
    ensures Bit(Negotiated(client, backend), i) <==>
            (Bit(client, i) && Bit(backend, i) && Bit(SYNTH_CAPS, i)) || i in {PROTOCOL41, SECURE_CONN, PLUGIN_AUTH}
  {
    BitOfCombine(OR, 32, And(And(client, backend), SYNTH_CAPS), FIXED_CAPS, i);
    BitOfCombine(AND, 32, And(client, backend), SYNTH_CAPS, i);
    BitOfCombine(AND, 32, client, backend, i);
    FixedBits(i);
  }

  // ---- packets ----

  datatype Packet = Packet(seqNo: Byte, body: seq<Byte>)

  /** Three bytes of length, the sequence number, the body. The length is cut to its low 24 bits. */
  function Frame(p: Packet): seq<Byte> {
    LittleEndian(3, |p.body|) + [p.seqNo] + p.body
  }

  /** What is left after one packet; None when the stream ends too soon. */
  function Unframe(s: seq<Byte>): Option<(Packet, seq<Byte>)> {
    if |s| < 4 then None
    else
      var n := FromLittleEndian(s[..3]);
      if |s| < 4 + n then None else Some((Packet(s[3], s[4..4 + n]), s[4 + n..]))
  }

  /** A packet of one byte, on the wire. */
  lemma OneByteOnTheWire()
    ensures Frame(Packet(0, [14])) == [1, 0, 0, 0, 14]
  {
    assert LittleEndian(2, 0) == [0, 0];
    assert LittleEndian(3, 1) == [1] + LittleEndian(2, 0);
  }

  lemma Power24()
    ensures Pow256(3) == 0x100_0000 && Pow256(4) == 0x1_0000_0000
  {
    assert Pow256(2) == 65536;
  }

  /** A packet is read back as it was written exactly when its length fits three bytes. */
  lemma PacketBackIff(p: Packet, rest: seq<Byte>)
    ensures Unframe(Frame(p) + rest) == Some((p, rest)) <==> |p.body| < 0x100_0000
  {
    Power24();
    var s := Frame(p) + rest;
    assert s[..3] == LittleEndian(3, |p.body|) && s[3] == p.seqNo;
    if |p.body| < Pow256(3) {
      LittleEndianBack(3, |p.body|);
      assert s[4..4 + |p.body|] == p.body && s[4 + |p.body|..] == rest;
    } else {
      assert FromLittleEndian(s[..3]) < Pow256(3);
    }
  }

  // ---- the greeting ----

  /** 8.0.0-sashiki-proxy */
  const VERSION: Chars := [56, 46, 48, 46, 48, 45, 115, 97, 115, 104, 105, 107, 105, 45, 112, 114, 111, 120, 121]
  /** caching_sha2_password */
  const SHA2_PLUGIN: Chars := [99, 97, 99, 104, 105, 110, 103, 95, 115, 104, 97, 50, 95, 112, 97, 115, 115, 119, 111,
                               114, 100]

  function Zeros(n: nat): (r: seq<Byte>)
    ensures |r| == n
  {
    seq(n, _ => 0)
  }

  function Advertised(ssl: bool): nat {
    if ssl then SYNTH_CAPS + 0x800 else SYNTH_CAPS
  }

  function Greeting(connId: nat, ssl: bool, salt: seq<Byte>): seq<Byte>
    requires |salt| == 20
  {
    [10] + VERSION + [0] + LittleEndian(4, connId) + salt[..8] + [0] + LittleEndian(2, Advertised(ssl) % 65536)
    + [0xff] + [0x02, 0x00] + LittleEndian(2, Advertised(ssl) / 65536)
    + [21] + Zeros(10) + salt[8..] + [0] + SHA2_PLUGIN + [0]
  }

  /** Random bytes become printable ones, so the salt has no zero byte. */
  method BuildGreeting(connId: nat, ssl: bool, random: seq<Byte>) returns (b: seq<Byte>, salt: seq<Byte>)
    requires |random| == 20
    ensures |salt| == 20 && NulFree(salt) && forall i :: 0 <= i < 20 ==> 33 <= salt[i] <= 126
    ensures b == Greeting(connId, ssl, salt)
  {
    var buffer := new Byte[20](i requires 0 <= i < 20 => random[i]);
    for i := 0 to 20
      invariant forall j :: 0 <= j < i ==> 33 <= buffer[j] <= 126
    {
      buffer[i] := buffer[i] % 94 + 33;
    }
    salt := buffer[..];
    var caps := Advertised(ssl);
    b := [10] + VERSION + [0];
    b := b + LittleEndian(4, connId) + salt[..8] + [0];
    b := b + LittleEndian(2, caps % 65536) + [0xff] + [0x02, 0x00];
    b := b + LittleEndian(2, caps / 65536) + [21] + Zeros(10);
    b := b + salt[8..20] + [0] + SHA2_PLUGIN + [0];
  }

  datatype Error = TooShort | OldProtocol | Unterminated | Truncated | BadVersion

  /** The slice bound the code computes is negative: the call does not return. */
  datatype Outcome<T> = Ok(value: T) | Err(error: Error) | Panic

  /** The fields of a backend's greeting that follow its version: where they start, and what they give. */
  function Fields(body: seq<Byte>, pos: nat): Outcome<(seq<Byte>, nat)> {
    if pos + 8 > |body| then Err(TooShort)
    else if pos + 11 > |body| then Err(TooShort)
    else
      var salt, low := body[pos..pos + 8], FromLittleEndian(body[pos + 9..pos + 11]);
      if pos + 27 > |body| then Ok((salt, low))
      else
        var caps := low + 65536 * FromLittleEndian(body[pos + 14..pos + 16]);
        var authLen: int := body[pos + 16];
        var rest := if authLen > 0 && authLen - 9 < 12 then authLen - 9 else 12;
        if rest < 0 then Panic
        else Ok((if pos + 27 + rest <= |body| then salt + body[pos + 27..pos + 27 + rest] else salt, caps))
  }

  /** Where the fields start: behind the first zero byte and the thread id, or behind the end. */
  function FieldsAt(body: seq<Byte>): nat
    requires body != []
  {
    1 + |UpToNul(body[1..])| + 5
  }

  function UpToNul(b: seq<Byte>): (r: Chars)
    ensures r <= b && NulFree(r)
    ensures |r| < |b| ==> b[|r|] == 0
  {
    if b == [] || b[0] == 0 then [] else [b[0]] + UpToNul(b[1..])
  }

  lemma {:induction false} UpToNulIs(b: seq<Byte>, n: nat)
    requires n <= |b| && NulFree(b[..n]) && (n < |b| ==> b[n] == 0)
    ensures UpToNul(b) == b[..n]
  {
    if n > 0 {
      assert b[1..][..n - 1] == b[..n][1..];
      UpToNulIs(b[1..], n - 1);
      assert b[..n] == [b[0]] + b[1..][..n - 1];
    }
  }

  /** Moves a cursor to the next zero byte or the end. */
  method SkipToNul(b: seq<Byte>, start: nat) returns (end: nat)
    requires start <= |b|
    ensures start <= end <= |b| && b[start..end] == UpToNul(b[start..])
    ensures end < |b| ==> b[end] == 0
  {
    end := start;
    while end < |b| && b[end] != 0
      invariant start <= end <= |b| && NulFree(b[start..end])
    {
      assert b[start..end + 1] == b[start..end] + [b[end]];
      end := end + 1;
    }
    assert b[start..][..end - start] == b[start..end];
    UpToNulIs(b[start..], end - start);
  }

  /** What a greeting says. */
  function GreetingOf(body: seq<Byte>): Outcome<(seq<Byte>, nat)> {
    if body == [] || body[0] != 10 then Err(BadVersion) else Fields(body, FieldsAt(body))
  }

  lemma FieldsStart(body: seq<Byte>, end: nat)
    requires 1 <= end <= |body| && body[1..end] == UpToNul(body[1..])
    ensures body[0] == 10 ==> GreetingOf(body) == Fields(body, end + 5)
  {
    hide UpToNul, Fields;
  }

  lemma NoGreeting(body: seq<Byte>)
    requires body == [] || body[0] != 10
    ensures GreetingOf(body) == Err(BadVersion)
  {
  }

  method ParseGreeting(body: seq<Byte>) returns (r: Outcome<(seq<Byte>, nat)>)
    ensures r == GreetingOf(body)
  {
    hide FromLittleEndian, UpToNul, NulFree, FieldsAt, GreetingOf;
    if |body| < 1 || body[0] != 10 {
      NoGreeting(body);
      return Err(BadVersion);
    }
    var pos := SkipToNul(body, 1);
    FieldsStart(body, pos);
    pos := pos + 1;
    pos := pos + 4;
    if pos + 8 > |body| { return Err(TooShort); }
    var salt := body[pos..pos + 8];
    pos := pos + 8;
    pos := pos + 1;
    if pos + 2 > |body| { return Err(TooShort); }
    var caps: nat := FromLittleEndian(body[pos..pos + 2]);
    pos := pos + 2;
    if pos + 1 + 2 + 2 + 1 + 10 <= |body| {
      pos := pos + 1;
      pos := pos + 2;
      caps := caps + 65536 * FromLittleEndian(body[pos..pos + 2]);
      pos := pos + 2;
      var authLen: int := body[pos];
      pos := pos + 1;
      pos := pos + 10;
      var rest := 12;
      if authLen > 0 && authLen - 8 - 1 < rest { rest := authLen - 8 - 1; }
      if pos + rest <= |body| {
        if rest < 0 { return Panic; }
        salt := salt + body[pos..pos + rest];
      }
    }
    r := Ok((salt, caps));
  }

  /** The parser panics exactly on a long greeting of version 10 that declares 1 to 8 bytes of auth data. */
  lemma PanicsIff(body: seq<Byte>)
    ensures GreetingOf(body).Panic? <==>
              && body != [] && body[0] == 10 && FieldsAt(body) + 27 <= |body|
              && 1 <= body[FieldsAt(body) + 16] <= 8
  {
    hide UpToNul, FromLittleEndian;
  }

  /** One that does: an empty version string, zeros, and a length of one. */
  lemma PanicHappens()
    ensures GreetingOf([10] + Zeros(21) + [1] + Zeros(10)).Panic?
  {
    var body := [10] + Zeros(21) + [1] + Zeros(10);
    assert body[1..][0] == 0 && UpToNul(body[1..]) == [];
    PanicsIff(body);
  }

  /** The next field, and what is behind it. */
  lemma Peel(s: seq<Byte>, pos: nat, x: seq<Byte>, y: seq<Byte>)
    requires pos <= |s| && s[pos..] == x + y
    ensures pos + |x| <= |s| && s[pos..pos + |x|] == x && s[pos + |x|..] == y
  {
    assert s[pos..pos + |x|] == s[pos..][..|x|];
    assert s[pos + |x|..] == s[pos..][|x|..];
  }

  lemma FieldsFromSlices(body: seq<Byte>, p: nat, salt1: seq<Byte>, low: seq<Byte>, high: seq<Byte>, salt2: seq<Byte>)
    requires p + 39 <= |body| && body[p..p + 8] == salt1 && body[p + 9..p + 11] == low && body[p + 14..p + 16] == high
    requires body[p + 16] == 21 && body[p + 27..p + 39] == salt2
    ensures Fields(body, p) == Ok((salt1 + salt2, FromLittleEndian(low) + 65536 * FromLittleEndian(high)))
  {
    hide FromLittleEndian;
  }

  /** The fields of a greeting laid out one after the other. */
  lemma FieldsRead(body: seq<Byte>, p: nat, salt1: seq<Byte>, low: seq<Byte>, high: seq<Byte>, salt2: seq<Byte>,
                   tail: seq<Byte>)
    requires p <= |body| && |salt1| == 8 && |low| == 2 && |high| == 2 && |salt2| == 12
    requires body[p..] == salt1 + ([0] + (low + ([0xff, 0x02, 0x00] + (high + ([21] + (Zeros(10) + (salt2 + tail)))))))
    ensures Fields(body, p) == Ok((salt1 + salt2, FromLittleEndian(low) + 65536 * FromLittleEndian(high)))
  {
    hide Fields, FromLittleEndian, Zeros;
    var t7 := salt2 + tail;
    var t6 := Zeros(10) + t7;
    var t5 := [21] + t6;
    var t4 := high + t5;
    var t3 := [0xff, 0x02, 0x00] + t4;
    var t2 := low + t3;
    Peel(body, p, salt1, [0] + t2);
    Peel(body, p + 8, [0], t2);
    Peel(body, p + 9, low, t3);
    Peel(body, p + 11, [0xff, 0x02, 0x00], t4);
    Peel(body, p + 14, high, t5);
    Peel(body, p + 16, [21], t6);
    Peel(body, p + 17, Zeros(10), t7);
    Peel(body, p + 27, salt2, tail);
    assert body[p + 16] == body[p + 16..p + 17][0];
    FieldsFromSlices(body, p, salt1, low, high, salt2);
  }

  lemma Assoc(a: seq<Byte>, b: seq<Byte>, c: seq<Byte>)
    ensures (a + b) + c == a + (b + c)
  {
  }

  /** From the left or from the right, it is the same greeting. */
  lemma Regroup(head: seq<Byte>, a: seq<Byte>, b: seq<Byte>, c: seq<Byte>, d: seq<Byte>, e: seq<Byte>, f: seq<Byte>,
                g: seq<Byte>, h: seq<Byte>)
    ensures head + a + b + c + d + e + f + g + h == head + (a + (b + (c + (d + (e + (f + (g + h)))))))
  {
    Assoc(head + a + b + c + d + e + f, g, h);
    Assoc(head + a + b + c + d + e, f, g + h);
    Assoc(head + a + b + c + d, e, f + (g + h));
    Assoc(head + a + b + c, d, e + (f + (g + h)));
    Assoc(head + a + b, c, d + (e + (f + (g + h))));
    Assoc(head + a, b, c + (d + (e + (f + (g + h)))));
    Assoc(head, a, b + (c + (d + (e + (f + (g + h))))));
  }

  /** The parser recovers the whole salt and the capabilities from the greeting. */
  lemma GreetingBack(connId: nat, ssl: bool, salt: seq<Byte>)
    requires |salt| == 20
    ensures var b := Greeting(connId, ssl, salt);
            b != [] && b[0] == 10 && Fields(b, FieldsAt(b)) == Ok((salt, Advertised(ssl)))
  {
    hide Fields, LittleEndian, FromLittleEndian, UpToNul, Greeting, Advertised, Zeros;
    var b := Greeting(connId, ssl, salt);
    var low, high := LittleEndian(2, Advertised(ssl) % 65536), LittleEndian(2, Advertised(ssl) / 65536);
    var head := [10] + VERSION + [0] + LittleEndian(4, connId);
    var tail := [0] + SHA2_PLUGIN + [0];
    var inner := salt[..8] + ([0] + (low + ([0xff, 0x02, 0x00] + (high + ([21] + (Zeros(10) + (salt[8..] + tail)))))));
    assert b == head + inner by { GreetingNested(connId, ssl, salt); }
    assert b[|head|..] == inner;
    FieldsRead(b, |head|, salt[..8], low, high, salt[8..], tail);
    assert b[1..] == VERSION + ([0] + LittleEndian(4, connId) + inner);
    assert b[1..][..|VERSION|] == VERSION && b[1..][|VERSION|] == 0;
    UpToNulIs(b[1..], |VERSION|);
    CapsBack(ssl);
    assert salt[..8] + salt[8..] == salt;
  }

  /** A greeting advertises ten capabilities, and that of TLS exactly where the proxy has it. */
  lemma AdvertisedExactly(connId: nat, ssl: bool, salt: seq<Byte>, i: nat)
    requires |salt| == 20 && i < 32
    ensures var r := GreetingOf(Greeting(connId, ssl, salt));
            && r.Ok? && r.value.0 == salt
            && (Bit(r.value.1, i) <==> i in {0, 3, 9, 13, 15, 16, 17, 19, 21, 24} || (ssl && i == 11))
  {
    hide Fields, Greeting;
    GreetingBack(connId, ssl, salt);
    SynthBits(i);
  }

  /** Bits four at a time. */
  lemma FourBits(a: nat, i: nat)
    ensures if i < 4 then Bit(a, i) <==> [a % 2, a / 2 % 2, a / 4 % 2, a / 8 % 2][i] == 1
            else Bit(a, i) <==> Bit(a / 16, i - 4)
  {
    if i > 0 { assert Bit(a, i) <==> Bit(a / 2, i - 1); }
    if i > 1 { assert Bit(a / 2, i - 1) <==> Bit(a / 4, i - 2); }
    if i > 2 { assert Bit(a / 4, i - 2) <==> Bit(a / 8, i - 3); }
    if i > 3 { assert Bit(a / 8, i - 3) <==> Bit(a / 16, i - 4); }
  }

  /** The ten, and with TLS eleven; the two numbers differ in their low twelve bits only. */
  lemma SynthBits(i: nat)
    requires i < 32
    ensures Bit(0x12B_A209, i) <==> i in {0, 3, 9, 13, 15, 16, 17, 19, 21, 24}
    ensures Bit(0x12B_AA09, i) <==> i in {0, 3, 9, 11, 13, 15, 16, 17, 19, 21, 24}
  {
    hide Bit;
    FourBits(0x12B_A209, i);
    FourBits(0x12B_AA09, i);
    if i >= 4 {
      FourBits(0x12B_A20, i - 4);
      FourBits(0x12B_AA0, i - 4);
    }
    if i >= 8 {
      FourBits(0x12B_A2, i - 8);
      FourBits(0x12B_AA, i - 8);
    }
    if i >= 12 { HighBits(i - 12); }
  }

  lemma HighBits(i: nat)
    requires i < 20
    ensures Bit(0x12BA, i) <==> i in {1, 3, 4, 5, 7, 9, 12}
  {
    hide Bit;
    FourBits(0x12BA, i);
    if i >= 4 { FourBits(0x12B, i - 4); }
    if i >= 8 { FourBits(0x12, i - 8); }
    if i >= 12 { FourBits(0x1, i - 12); }
    if i >= 16 { NoBits(i - 16); }
  }

  lemma CapsBack(ssl: bool)
    ensures FromLittleEndian(LittleEndian(2, Advertised(ssl) % 65536))
            + 65536 * FromLittleEndian(LittleEndian(2, Advertised(ssl) / 65536)) == Advertised(ssl)
  {
    assert Pow256(2) == 65536;
    LittleEndianBack(2, Advertised(ssl) % 65536);
    LittleEndianBack(2, Advertised(ssl) / 65536);
  }

  lemma GreetingNested(connId: nat, ssl: bool, salt: seq<Byte>)
    requires |salt| == 20
    ensures var low, high := LittleEndian(2, Advertised(ssl) % 65536), LittleEndian(2, Advertised(ssl) / 65536);
            Greeting(connId, ssl, salt) == [10] + VERSION + [0] + LittleEndian(4, connId)
              + (salt[..8] + ([0] + (low + ([0xff, 0x02, 0x00]
                + (high + ([21] + (Zeros(10) + (salt[8..] + ([0] + SHA2_PLUGIN + [0])))))))))
  {
    hide LittleEndian, Advertised;
    var low, high := LittleEndian(2, Advertised(ssl) % 65536), LittleEndian(2, Advertised(ssl) / 65536);
    var head := [10] + VERSION + [0] + LittleEndian(4, connId);
    Assoc(head + salt[..8] + [0] + low, [0xff], [0x02, 0x00]);
    assert [0xff] + [0x02, 0x00] == [0xff, 0x02, 0x00];
    var front := head + salt[..8] + [0] + low + [0xff, 0x02, 0x00] + high + [21] + Zeros(10) + salt[8..];
    Assoc(front, [0], SHA2_PLUGIN);
    Assoc(front, [0] + SHA2_PLUGIN, [0]);
    Regroup(head, salt[..8], [0], low, [0xff, 0x02, 0x00], high, [21], Zeros(10),
            salt[8..] + ([0] + SHA2_PLUGIN + [0]));
    Assoc(head + salt[..8] + [0] + low + [0xff, 0x02, 0x00] + high + [21] + Zeros(10), salt[8..],
          [0] + SHA2_PLUGIN + [0]);
  }

  // ---- the handshake response ----

  /** HandshakeResponse41, as far as the proxy looks at it. */
  datatype Response = Response(caps: nat, maxLen: nat, charset: Byte, user: Chars, database: Chars, authResp: seq<Byte>)

  /** The authentication data and what is behind them: counted by one byte, or, for old clients, up to a zero byte. */
  function AuthOf(caps: nat, u: seq<Byte>): Outcome<(seq<Byte>, seq<Byte>)> {
    if Bit(caps, LENENC_AUTH) || Bit(caps, SECURE_CONN) then
      if u == [] || 1 + u[0] > |u| then Err(Truncated) else Ok((u[1..1 + u[0]], u[1 + u[0]..]))
    else
      var auth := UpToNul(u);
      if |auth| + 1 > |u| then Err(Truncated) else Ok((auth, u[|auth| + 1..]))
  }

  /** The part behind the fixed 32 bytes: user, database, authentication data. */
  function Tail(caps: nat, b: seq<Byte>): Outcome<(Chars, Chars, seq<Byte>)> {
    match CString(b)
    case None => Err(Unterminated)
    case Some(u) =>
      match AuthOf(caps, u.1)
      case Err(e) => Err(e)
      case Panic => Panic
      case Ok(a) => Ok((u.0, DatabaseIn(caps, a.1), a.0))
  }

  /** It may end with the packet instead of a zero byte. */
  function DatabaseIn(caps: nat, b: seq<Byte>): Chars {
    if Bit(caps, CONNECT_WITH_DB) then UpToNul(b) else []
  }

  function Parsed(body: seq<Byte>): Outcome<Response> {
    if |body| < 32 then Err(TooShort)
    else
      var caps := FromLittleEndian(body[..4]);
      if !Bit(caps, PROTOCOL41) then Err(OldProtocol)
      else match Tail(caps, body[32..])
        case Err(e) => Err(e)
        case Panic => Panic
        case Ok(t) => Ok(Response(caps, FromLittleEndian(body[4..8]), body[8], t.0, t.1, t.2))
  }

  method ParseAuth(caps: nat, body: seq<Byte>) returns (r: Outcome<(seq<Byte>, seq<Byte>)>)
    ensures r == AuthOf(caps, body) && !r.Panic?
  {
    var pos := 0;
    if Bit(caps, LENENC_AUTH) || Bit(caps, SECURE_CONN) {
      if pos >= |body| { return Err(Truncated); }
      var n: int := body[pos];
      pos := pos + 1;
      if pos + n > |body| { return Err(Truncated); }
      return Ok((body[pos..pos + n], body[pos + n..]));
    }
    pos := SkipToNul(body, 0);
    assert body[0..] == body;
    var auth := body[..pos];
    pos := pos + 1;
    if pos > |body| { return Err(Truncated); }
    r := Ok((auth, body[pos..]));
  }

  method ParseResponse(body: seq<Byte>) returns (r: Outcome<Response>)
    ensures r == Parsed(body) && !r.Panic?
  {
    hide AuthOf, CString, FromLittleEndian, UpToNul, Bit;
    if |body| < 32 { return Err(TooShort); }
    var caps := FromLittleEndian(body[..4]);
    if !Bit(caps, PROTOCOL41) { return Err(OldProtocol); }
    var maxLen, charset := FromLittleEndian(body[4..8]), body[8];
    var user := TakeCString(body[32..]);
    if user.None? { return Err(Unterminated); }
    var auth := ParseAuth(caps, user.value.1);
    if auth.Err? { return Err(auth.error); }
    var rest := auth.value.1;
    var database: Chars := [];
    if Bit(caps, CONNECT_WITH_DB) {
      var end := SkipToNul(rest, 0);
      assert rest[0..] == rest;
      database := rest[0..end];
    }
    r := Ok(Response(caps, maxLen, charset, user.value.0, database, auth.value.0));
  }

  /** The response the proxy sends: capabilities cut to what all sides share, and its own user and token. */
  function ResponseBytes(caps: nat, r: Response, user: Chars, auth: seq<Byte>, plugin: Chars): seq<Byte> {
    LittleEndian(4, caps) + LittleEndian(4, r.maxLen) + [r.charset] + Zeros(23)
    + (user + [0] + ([|auth| % 256] + auth
      + ((if Bit(caps, CONNECT_WITH_DB) then r.database + [0] else []) + (plugin + [0]))))
  }

  method BuildResponse(r: Response, backendCaps: nat, user: Chars, auth: seq<Byte>, plugin: Chars)
    returns (b: seq<Byte>)
    ensures b == ResponseBytes(Negotiated(r.caps, backendCaps), r, user, auth, plugin)
  {
    hide LittleEndian, Negotiated, Bit;
    var caps := Negotiated(r.caps, backendCaps);
    b := LittleEndian(4, caps);
    b := b + LittleEndian(4, r.maxLen);
    b := b + [r.charset];
    b := b + Zeros(23);
    ghost var head := b;
    b := b + user;
    b := b + [0];
    b := b + [|auth| % 256];
    b := b + auth;
    ghost var db: seq<Byte> := [];
    if Bit(caps, CONNECT_WITH_DB) {
      b := b + r.database;
      b := b + [0];
      db := r.database + [0];
    }
    b := b + plugin;
    b := b + [0];
    assert b == head + (user + [0] + ([|auth| % 256] + auth + (db + (plugin + [0]))));
  }

  lemma AuthBack(caps: nat, auth: seq<Byte>, rest: seq<Byte>)
    requires |auth| <= 255 && Bit(caps, SECURE_CONN)
    ensures AuthOf(caps, [|auth| % 256] + auth + rest) == Ok((auth, rest))
  {
    hide Bit;
    var u := [|auth| % 256] + auth + rest;
    assert u[0] == |auth|;
    assert u[1..1 + |auth|] == auth && u[1 + |auth|..] == rest;
  }

  lemma DatabaseBack(caps: nat, database: Chars, rest: seq<Byte>)
    requires NulFree(database)
    ensures DatabaseIn(caps, (if Bit(caps, CONNECT_WITH_DB) then database + [0] else []) + rest) ==
            if Bit(caps, CONNECT_WITH_DB) then database else []
  {
    hide Bit;
    if Bit(caps, CONNECT_WITH_DB) {
      var b := database + [0] + rest;
      assert b[..|database|] == database && b[|database|] == 0;
      UpToNulIs(b, |database|);
    }
  }

  /** The tail of a response, taken apart again. */
  lemma TailBack(caps: nat, user: Chars, auth: seq<Byte>, database: Chars, plugin: Chars)
    requires NulFree(user) && NulFree(database) && |auth| <= 255 && Bit(caps, SECURE_CONN)
    ensures var b := user + [0] + ([|auth| % 256] + auth
              + ((if Bit(caps, CONNECT_WITH_DB) then database + [0] else []) + (plugin + [0])));
            Tail(caps, b) == Ok((user, if Bit(caps, CONNECT_WITH_DB) then database else [], auth))
  {
    hide Bit, CString, AuthOf, DatabaseIn;
    var rest := (if Bit(caps, CONNECT_WITH_DB) then database + [0] else []) + (plugin + [0]);
    CStringAt(user, [|auth| % 256] + auth + rest);
    AuthBack(caps, auth, rest);
    DatabaseBack(caps, database, plugin + [0]);
  }

  /** What the proxy writes to a backend, parsed: everything as it was put in, with the negotiated
      capabilities, and the database if they include one. */
  lemma ResponseBack(r: Response, backendCaps: nat, user: Chars, auth: seq<Byte>, plugin: Chars)
    requires NulFree(user) && NulFree(r.database) && |auth| <= 255 && r.maxLen < Pow256(4)
    ensures var caps := Negotiated(r.caps, backendCaps);
            Parsed(ResponseBytes(caps, r, user, auth, plugin)) ==
              Ok(Response(caps, r.maxLen, r.charset, user, if Bit(caps, 3) then r.database else [], auth))
  {
    hide Tail, Bit, Negotiated, LittleEndian, FromLittleEndian;
    var caps := Negotiated(r.caps, backendCaps);
    NegotiatedFits(r.caps, backendCaps);
    NegotiatedExactly(r.caps, backendCaps, PROTOCOL41);
    NegotiatedExactly(r.caps, backendCaps, SECURE_CONN);
    LittleEndianBack(4, caps);
    LittleEndianBack(4, r.maxLen);
    TailBack(caps, user, auth, r.database, plugin);
    var tail := user + [0] + ([|auth| % 256] + auth
      + ((if Bit(caps, CONNECT_WITH_DB) then r.database + [0] else []) + (plugin + [0])));
    HeadRead(LittleEndian(4, caps), LittleEndian(4, r.maxLen), r.charset, tail);
  }

  /** What a client puts behind the user: a count and the data if it has capability 15 or 21, else the data and a zero
      byte; then the database if it has capability 3. */
  function AuthPart(caps: nat, auth: seq<Byte>): seq<Byte> {
    if Bit(caps, 15) || Bit(caps, 21) then [|auth| % 256] + auth else auth + [0]
  }

  function DatabasePart(caps: nat, database: Chars): seq<Byte> {
    if Bit(caps, 3) then database + [0] else []
  }

  /** Every client of protocol 4.1 is understood, those that count their authentication data and those that do not. */
  lemma ClientIsRead(r: Response, more: seq<Byte>)
    requires r.caps < Pow256(4) && r.maxLen < Pow256(4) && Bit(r.caps, 9) && NulFree(r.user) && NulFree(r.database)
    requires if Bit(r.caps, 15) || Bit(r.caps, 21) then |r.authResp| <= 255 else NulFree(r.authResp)
    requires r.database == [] || Bit(r.caps, 3)
    ensures Parsed(LittleEndian(4, r.caps) + LittleEndian(4, r.maxLen) + [r.charset] + Zeros(23)
                   + (r.user + [0] + (AuthPart(r.caps,
                                               r.authResp) + (DatabasePart(r.caps, r.database) + more)))) == Ok(r)
  {
    hide Tail, Bit, LittleEndian, FromLittleEndian, AuthPart, DatabasePart;
    LittleEndianBack(4, r.caps);
    LittleEndianBack(4, r.maxLen);
    var rest := DatabasePart(r.caps, r.database) + more;
    HeadRead(LittleEndian(4, r.caps), LittleEndian(4, r.maxLen), r.charset,
             r.user + [0] + (AuthPart(r.caps, r.authResp) + rest));
    ClientTail(r, more);
  }

  lemma ClientTail(r: Response, more: seq<Byte>)
    requires NulFree(r.user) && NulFree(r.database) && (r.database == [] || Bit(r.caps, 3))
    requires if Bit(r.caps, 15) || Bit(r.caps, 21) then |r.authResp| <= 255 else NulFree(r.authResp)
    ensures Tail(r.caps, r.user + [0] + (AuthPart(r.caps, r.authResp) + (DatabasePart(r.caps, r.database) + more))) ==
            Ok((r.user, r.database, r.authResp))
  {
    hide Bit, CString, AuthOf, DatabaseIn, AuthPart, DatabasePart;
    var rest := DatabasePart(r.caps, r.database) + more;
    CStringAt(r.user, AuthPart(r.caps, r.authResp) + rest);
    AuthPartBack(r.caps, r.authResp, rest);
    DatabasePartBack(r.caps, r.database, more);
  }

  lemma AuthPartBack(caps: nat, auth: seq<Byte>, rest: seq<Byte>)
    requires if Bit(caps, 15) || Bit(caps, 21) then |auth| <= 255 else NulFree(auth)
    ensures AuthOf(caps, AuthPart(caps, auth) + rest) == Ok((auth, rest))
  {
    hide Bit;
    var u := AuthPart(caps, auth) + rest;
    if Bit(caps, 15) || Bit(caps, 21) {
      assert u[0] == |auth| && u[1..1 + |auth|] == auth && u[1 + |auth|..] == rest;
    } else {
      assert u[..|auth|] == auth && u[|auth|] == 0 && u[|auth| + 1..] == rest;
      UpToNulIs(u, |auth|);
    }
  }

  lemma DatabasePartBack(caps: nat, database: Chars, rest: seq<Byte>)
    requires NulFree(database) && (database == [] || Bit(caps, 3))
    ensures DatabaseIn(caps, DatabasePart(caps, database) + rest) == database
  {
    hide Bit;
    DatabaseBack(caps, database, rest);
  }

  lemma HeadRead(caps: seq<Byte>, maxLen: seq<Byte>, charset: Byte, tail: seq<Byte>)
    requires |caps| == 4 && |maxLen| == 4
    ensures var b := caps + maxLen + [charset] + Zeros(23) + tail;
            |b| >= 32 && b[..4] == caps && b[4..8] == maxLen && b[8] == charset && b[32..] == tail
  {
  }

  lemma NegotiatedFits(client: nat, backend: nat)
    ensures Negotiated(client, backend) < Pow256(4)
  {
    hide Combine;
    assert Pow2(8) == 256 by { PowSum(4, 4); assert Pow2(4) == 16; }
    PowSum(8, 8);
    PowSum(16, 16);
    Power24();
  }
}
