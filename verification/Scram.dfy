/** SCRAM-SHA-256 as sections 3 and 5 of RFC 5802 and RFC 7677 describe it, in the two roles the
    PostgreSQL proxy plays: server towards the client, client towards the backend. */
module Scram {
  import opened Names
  import opened Bits
  import opened Text
  import opened Base64

  /** The functions the exchange is built on: SASLprep, PBKDF2, HMAC-SHA-256 and SHA-256. */
  datatype Crypto = Crypto(prep: string -> string, pbkdf2: (string, seq<Byte>, int) -> seq<Byte>,
                           hmac: (seq<Byte>, string) -> seq<Byte>, sha: seq<Byte> -> seq<Byte>)

  const DIGEST := 32
  const ITERATIONS := 4096
  const ITERATIONS_TEXT := "4096"

  ghost predicate Sized(c: Crypto) {
    && (forall k, m :: |c.hmac(k, m)| == DIGEST)
    && (forall x :: |c.sha(x)| == DIGEST)
  }

  /** No two digests have the same hash. */
  ghost predicate CollisionFree(c: Crypto) {
    forall x, y :: |x| == DIGEST && |y| == DIGEST && c.sha(x) == c.sha(y) ==> x == y
  }

  datatype Keys = Keys(client: seq<Byte>, stored: seq<Byte>, server: seq<Byte>)

  function Derive(c: Crypto, password: string, salt: seq<Byte>, iterations: int): Keys {
    var salted := c.pbkdf2(c.prep(password), salt, iterations);
    var client := c.hmac(salted, "Client Key");
    Keys(client, c.sha(client), c.hmac(salted, "Server Key"))
  }

  datatype Error = Malformed | ChannelBinding | NoNonce | NonceMismatch | BadProof | PasswordMismatch
                 | BadSalt | BadCount | BadSignature

  datatype Result<T> = Ok(value: T) | Err(error: Error)

  // ---- the messages ----

  function ClientFirstBare(cnonce: string): string {
    "n=,r=" + cnonce
  }

  function ServerFirst(nonce: string, salt: seq<Byte>): string {
    "r=" + nonce + ",s=" + Encode(salt) + ",i=" + ITERATIONS_TEXT
  }

  function WithoutProof(gs2: string, nonce: string): string {
    "c=" + Encode(Bytes(gs2)) + ",r=" + nonce
  }

  function Field(msg: string, prefix: string): string {
    LastField(Split(msg, ','), prefix)
  }

  /** What both sides sign. */
  function AuthMessage(clientFirstBare: string, serverFirst: string, clientFinal: string): string {
    clientFirstBare + "," + serverFirst + "," + Before(clientFinal, ",p=")
  }

  /** The scan over the comma-separated parts, last one wins. */
  method FindField(msg: string, prefix: string) returns (v: string)
    ensures v == Field(msg, prefix)
  {
    var parts := Split(msg, ',');
    v := "";
    for i := 0 to |parts|
      invariant v == LastField(parts[..i], prefix)
    {
      assert parts[..i + 1][..i] == parts[..i];
      if prefix <= parts[i] { v := parts[i][|prefix|..]; }
    }
    assert parts[..|parts|] == parts;
  }

  // ---- the server role ----

  class Server {
    const c: Crypto
    const password: string
    var gs2Header: string
    var clientFirstBare: string
    var serverFirst: string
    var nonce: string
    var keys: Keys

    constructor (c: Crypto, password: string)
      ensures this.c == c && this.password == password
    {
      this.c, this.password := c, password;
      gs2Header, clientFirstBare, serverFirst, nonce, keys := "", "", "", "", Keys([], [], []);
    }

    /** client-first-message in, server-first-message out. */
    method FirstReply(data: string, random: seq<Byte>, salt: seq<Byte>) returns (r: Result<string>)
      modifies this
      ensures r.Ok? <==>
                && Opening(data, ',').Some?
                && Opening(data, ',').value.0 in {"n", "y"}
                && Field(Opening(data, ',').value.2, "r=") != ""
      ensures r.Ok? ==>
                && clientFirstBare == Opening(data, ',').value.2
                && gs2Header == Opening(data, ',').value.0 + "," + Opening(data, ',').value.1 + ","
                && data == gs2Header + clientFirstBare
                && nonce == Field(clientFirstBare, "r=") + Encode(random)
                && serverFirst == ServerFirst(nonce, salt) && r.value == serverFirst
                && keys == Derive(c, password, salt, ITERATIONS)
    {
      var parts := Opening(data, ',');
      if parts.None? { return Err(Malformed); }
      var (flag, authzid, bare) := parts.value;
      OpeningIs(data, ',', flag, authzid, bare);
      if flag != "n" && flag != "y" { return Err(ChannelBinding); }
      gs2Header := flag + "," + authzid + ",";
      clientFirstBare := bare;
      assert data == gs2Header + clientFirstBare;
      var cnonce := FindField(clientFirstBare, "r=");
      if cnonce == "" { return Err(NoNonce); }
      nonce := cnonce + Encode(random);
      keys := Derive(c, password, salt, ITERATIONS);
      serverFirst := "r=" + nonce + ",s=" + Encode(salt) + ",i=" + ITERATIONS_TEXT;
      r := Ok(serverFirst);
    }

    /** client-final-message in, server-final-message out. A wrong password is told from everything else
        that may be wrong with the message; it is what the limiter counts. */
    method FinalReply(data: string) returns (r: Result<string>)
      requires Sized(c)
      ensures r.Ok? || r.error in {ChannelBinding, NonceMismatch, BadProof, PasswordMismatch}
      ensures (r.Ok? || r.error == PasswordMismatch) <==> WellFormedFinal(data, gs2Header, nonce)
      ensures r.Ok? <==> WellFormedFinal(data, gs2Header, nonce) &&
                         ProvesPassword(c, keys, Decode(Field(data, "p=")).value,
                                        AuthMessage(clientFirstBare, serverFirst, data))
      // nothing but the proof made from the client key is accepted
      ensures CollisionFree(c) && keys.stored == c.sha(keys.client) && |keys.client| == DIGEST ==>
                (r.Ok? <==>
                 && Field(data, "c=") == Encode(Bytes(gs2Header)) && Field(data, "r=") == nonce
                 && Decode(Field(data, "p=")) ==
                    Some(Xor(keys.client, c.hmac(keys.stored, AuthMessage(clientFirstBare, serverFirst, data)))))
      ensures r.Ok? ==> r.value == "v=" + Encode(c.hmac(keys.server, AuthMessage(clientFirstBare, serverFirst, data)))
    {
      hide CollisionFree, Xor, Field, Decode, Encode, Before;
      var channel := FindField(data, "c=");
      var rnonce := FindField(data, "r=");
      var proof64 := FindField(data, "p=");
      if channel != Encode(Bytes(gs2Header)) { return Err(ChannelBinding); }
      if rnonce != nonce { return Err(NonceMismatch); }
      var proof := Decode(proof64);
      if proof.None? || |proof.value| != DIGEST { return Err(BadProof); }
      var message := clientFirstBare + "," + serverFirst + "," + Before(data, ",p=");
      var signature := c.hmac(keys.stored, message);
      if |keys.client| == DIGEST && keys.stored == c.sha(keys.client) && CollisionFree(c) {
        ProofIsTheOne(c, keys, proof.value, message);
      }
      var recovered := XorBytes(proof.value, signature);
      if c.sha(recovered) != keys.stored { return Err(PasswordMismatch); }
      r := Ok("v=" + Encode(c.hmac(keys.server, message)));
    }
  }

  /** The channel the client declared first, the nonce both sides made, and a proof of the right size. */
  predicate WellFormedFinal(data: string, gs2Header: string, nonce: string) {
    && Field(data, "c=") == Encode(Bytes(gs2Header)) && Field(data, "r=") == nonce
    && Decode(Field(data, "p=")).Some? && |Decode(Field(data, "p=")).value| == DIGEST
  }

  /** The client key the proof hides hashes to the stored key. */
  predicate ProvesPassword(c: Crypto, keys: Keys, proof: seq<Byte>, message: string) {
    |proof| == |c.hmac(keys.stored, message)| && c.sha(Xor(proof, c.hmac(keys.stored, message))) == keys.stored
  }

  /** Under a hash without collisions only one proof does. */
  lemma ProofIsTheOne(c: Crypto, keys: Keys, proof: seq<Byte>, message: string)
    requires Sized(c) && CollisionFree(c) && |keys.client| == |proof| == DIGEST && keys.stored == c.sha(keys.client)
    ensures ProvesPassword(c, keys, proof, message) <==> proof == Xor(keys.client, c.hmac(keys.stored, message))
  {
    hide Xor;
    XorTurned(proof, c.hmac(keys.stored, message), keys.client);
  }

  // ---- proof and signature as section 3 of RFC 5802 has them ----

  ghost function RfcProof(c: Crypto, password: string, salt: seq<Byte>, message: string): (r: seq<Byte>)
    requires Sized(c)
    ensures |r| == 32
  {
    var clientKey := c.hmac(c.pbkdf2(c.prep(password), salt, 4096), "Client Key");
    Xor(clientKey, c.hmac(c.sha(clientKey), message))
  }

  ghost function RfcSignature(c: Crypto, password: string, salt: seq<Byte>, message: string): seq<Byte> {
    c.hmac(c.hmac(c.pbkdf2(c.prep(password), salt, 4096), "Server Key"), message)
  }

  /** What an honest pair signs: the three messages, the last one without its proof. */
  ghost function RfcMessage(clientRandom: seq<Byte>, serverRandom: seq<Byte>, salt: seq<Byte>): string {
    var nonce := Encode(clientRandom) + Encode(serverRandom);
    "n=,r=" + Encode(clientRandom) + ",r=" + nonce + ",s=" + Encode(salt) + ",i=4096,c=biws,r=" + nonce
  }

  lemma ChannelIsBiws()
    ensures Encode(Bytes("n,,")) == "biws"
  {
    assert Bytes("n,,") == [110, 44, 44];
    assert [110, 44, 44][3..] == [];
    assert Encode([]) == "";
  }

  lemma DerivedAsRfc(c: Crypto, password: string, salt: seq<Byte>, message: string)
    requires Sized(c)
    ensures var keys := Derive(c, password, salt, ITERATIONS);
            && |keys.client| == DIGEST && keys.stored == c.sha(keys.client)
            && Xor(keys.client, c.hmac(keys.stored, message)) == RfcProof(c, password, salt, message)
            && c.hmac(keys.server, message) == RfcSignature(c, password, salt, message)
  {
  }

  lemma SignedAsRfc(clientRandom: seq<Byte>, serverRandom: seq<Byte>, salt: seq<Byte>)
    ensures Signed(Encode(clientRandom) + Encode(serverRandom), salt, Encode(clientRandom)) ==
            RfcMessage(clientRandom, serverRandom, salt)
  {
    hide Encode, Bytes;
    ChannelIsBiws();
  }

  lemma NoCollisions(c: Crypto)
    ensures CollisionFree(c) <==> forall x, y :: |x| == |y| == 32 && c.sha(x) == c.sha(y) ==> x == y
  {
  }

  lemma SizedHmac(c: Crypto)
    requires Sized(c)
    ensures forall k, m :: |c.hmac(k, m)| == DIGEST
    ensures forall password, salt, n :: |Derive(c, password, salt, n).client| == DIGEST
  {
  }

  // ---- the client role ----

  class Client {
    const c: Crypto
    const password: string
    var clientFirstBare: string
    var cnonce: string
    var authMessage: string
    var keys: Keys

    constructor (c: Crypto, password: string)
      ensures this.c == c && this.password == password
    {
      this.c, this.password := c, password;
      clientFirstBare, cnonce, authMessage, keys := "", "", "", Keys([], [], []);
    }

    method First(random: seq<Byte>) returns (msg: string)
      modifies this
      ensures cnonce == Encode(random) && clientFirstBare == ClientFirstBare(cnonce)
      ensures msg == "n,," + clientFirstBare
    {
      cnonce := Encode(random);
      clientFirstBare := "n=,r=" + cnonce;
      msg := "n,," + clientFirstBare;
    }

    /** server-first-message in, client-final-message out. */
    method Final(first: string) returns (r: Result<string>)
      requires Sized(c)
      modifies this`authMessage, this`keys
      ensures r.Ok? <==> cnonce <= Field(first, "r=") && Decode(Field(first, "s=")).Some? &&
                         Atoi(Field(first, "i=")).Some? && Atoi(Field(first, "i=")).value > 0
      ensures r.Ok? ==>
                && keys == Derive(c, password, Decode(Field(first, "s=")).value, Atoi(Field(first, "i=")).value)
                && authMessage == clientFirstBare + "," + first + "," + WithoutProof("n,,", Field(first, "r="))
                && |keys.client| == DIGEST
                && r.value == WithoutProof("n,,",
                                           Field(first, "r=")) + ",p=" + Encode(Xor(keys.client,
                                                                                    c.hmac(keys.stored, authMessage)))
    {
      hide Field, Decode, Encode, Atoi, Xor, Derive, Sized;
      SizedHmac(c);
      var rnonce := FindField(first, "r=");
      var salt64 := FindField(first, "s=");
      var count := FindField(first, "i=");
      if !(cnonce <= rnonce) { return Err(NonceMismatch); }
      var salt := Decode(salt64);
      if salt.None? { return Err(BadSalt); }
      var iterations := Atoi(count);
      if iterations.None? || iterations.value <= 0 { return Err(BadCount); }
      keys := Derive(c, password, salt.value, iterations.value);
      var withoutProof := "c=" + Encode(Bytes("n,,")) + ",r=" + rnonce;
      authMessage := clientFirstBare + "," + first + "," + withoutProof;
      var proof := XorBytes(keys.client, c.hmac(keys.stored, authMessage));
      r := Ok(withoutProof + ",p=" + Encode(proof));
    }

    method VerifyServerFinal(msg: string) returns (ok: bool)
      ensures ok <==> Decode(Field(msg, "v=")) == Some(c.hmac(keys.server, authMessage))
    {
      var signature := FindField(msg, "v=");
      ok := Decode(signature) == Some(c.hmac(keys.server, authMessage));
    }
  }

  // ---- the honest exchange ----

  lemma FirstIsRead(cnonce: string)
    requires ',' !in cnonce
    ensures Opening("n,," + ClientFirstBare(cnonce), ',') == Some(("n", "", ClientFirstBare(cnonce)))
    ensures Field(ClientFirstBare(cnonce), "r=") == cnonce
  {
    OpeningIs("n,," + ClientFirstBare(cnonce), ',', "n", "", ClientFirstBare(cnonce));
    assert "n,," + ClientFirstBare(cnonce) == "n" + [','] + "" + [','] + ClientFirstBare(cnonce);
    SplitTwo("n=", "r=" + cnonce, ',');
    assert ClientFirstBare(cnonce) == "n=" + [','] + ("r=" + cnonce);
    assert Field(ClientFirstBare(cnonce), "r=") == cnonce;
  }

  lemma ServerFirstIsRead(nonce: string, salt: seq<Byte>)
    requires ',' !in nonce
    ensures Field(ServerFirst(nonce, salt), "r=") == nonce
    ensures Field(ServerFirst(nonce, salt), "s=") == Encode(salt)
    ensures Field(ServerFirst(nonce, salt), "i=") == ITERATIONS_TEXT && Atoi(ITERATIONS_TEXT) == Some(ITERATIONS)
  {
    hide Encode, Split;
    EncodeIsPlain(salt);
    var a, b, i := "r=" + nonce, "s=" + Encode(salt), "i=" + ITERATIONS_TEXT;
    assert ServerFirst(nonce, salt) == a + [','] + b + [','] + i;
    SplitThree(a, b, i, ',');
    assert a[0] == 'r' && b[0] == 's' && i[0] == 'i';
    OfThree(a, b, i, "r=");
    OfThree(a, b, i, "s=");
    OfThree(a, b, i, "i=");
    assert a[2..] == nonce && b[2..] == Encode(salt) && i[2..] == ITERATIONS_TEXT;
    CountIsRead();
  }

  lemma OfThree(a: string, b: string, i: string, prefix: string)
    ensures LastField([a, b, i], prefix) ==
              if prefix <= i then i[|prefix|..] else if prefix <= b then b[|prefix|..] else if prefix <= a
                then a[|prefix|..] else ""
  {
    assert [a, b, i][..2] == [a, b] && [a, b][..1] == [a] && [a][..0] == [];
    assert LastField([a], prefix) == if prefix <= a then a[|prefix|..] else "";
    assert LastField([a, b], prefix) == if prefix <= b then b[|prefix|..] else LastField([a], prefix);
  }

  lemma CountIsRead()
    ensures Atoi("4096") == Some(4096)
  {
    assert "4096"[..3] == "409" && "409"[..2] == "40" && "40"[..1] == "4" && "4"[..0] == "";
    assert Decimal("4") == 4;
    assert Decimal("40") == 40;
    assert Decimal("409") == 409;
    assert Decimal("4096") == 4096;
  }

  lemma FinalFields(gs2: string, nonce: string, proof: seq<Byte>)
    requires ',' !in nonce
    ensures var msg := WithoutProof(gs2, nonce) + ",p=" + Encode(proof);
            Field(msg, "c=") == Encode(Bytes(gs2)) && Field(msg, "r=") == nonce && Field(msg, "p=") == Encode(proof)
  {
    hide Encode, Split, Bytes;
    EncodeIsPlain(Bytes(gs2));
    EncodeIsPlain(proof);
    var a, b, i := "c=" + Encode(Bytes(gs2)), "r=" + nonce, "p=" + Encode(proof);
    assert WithoutProof(gs2, nonce) + ",p=" + Encode(proof) == a + [','] + b + [','] + i;
    SplitThree(a, b, i, ',');
    OfThree(a, b, i, "c=");
    OfThree(a, b, i, "r=");
    OfThree(a, b, i, "p=");
    assert a[0] == 'c' && b[0] == 'r' && i[0] == 'p';
    assert a[2..] == Encode(Bytes(gs2)) && b[2..] == nonce && i[2..] == Encode(proof);
  }

  lemma FinalIsRead(gs2: string, nonce: string, proof: seq<Byte>)
    requires ',' !in nonce
    ensures var msg := WithoutProof(gs2, nonce) + ",p=" + Encode(proof);
            && Field(msg, "c=") == Encode(Bytes(gs2)) && Field(msg, "r=") == nonce && Field(msg, "p=") == Encode(proof)
            && Before(msg, ",p=") == WithoutProof(gs2, nonce)
  {
    hide Encode, Field, Bytes;
    FinalFields(gs2, nonce, proof);
    EncodeIsPlain(Bytes(gs2));
    var a, b, x := "c=" + Encode(Bytes(gs2)), "r=" + nonce, WithoutProof(gs2, nonce);
    assert x == a + [','] + b;
    forall k | 0 <= k < |x| && x[k] == ',' ensures k + 1 < |x| && x[k + 1] != 'p' {
      assert k == |a|;
    }
    BeforeProof(x, Encode(proof));
  }

  /** The client's final message for these keys. */
  function ClientFinal(c: Crypto, keys: Keys, nonce: string, message: string): string
    requires |keys.client| == |c.hmac(keys.stored, message)|
  {
    WithoutProof("n,,", nonce) + ",p=" + Encode(Xor(keys.client, c.hmac(keys.stored, message)))
  }

  /** The message an honest client signs. */
  function Signed(nonce: string, salt: seq<Byte>, cnonce: string): string {
    ClientFirstBare(cnonce) + "," + ServerFirst(nonce, salt) + "," + WithoutProof("n,,", nonce)
  }

  /** The server reads off the final message what the client put there, signs the same message, and finds the
      password proved if it has the same keys. */
  lemma HonestFinal(c: Crypto, keys: Keys, nonce: string, salt: seq<Byte>, cnonce: string)
    requires Sized(c) && |keys.client| == DIGEST && ',' !in nonce
    ensures var message := Signed(nonce, salt, cnonce);
            var final := ClientFinal(c, keys, nonce, message);
            && WellFormedFinal(final, "n,,", nonce)
            && Decode(Field(final, "p=")) == Some(Xor(keys.client, c.hmac(keys.stored, message)))
            && AuthMessage(ClientFirstBare(cnonce), ServerFirst(nonce, salt), final) == message
            && (keys.stored == c.sha(keys.client) ==>
                ProvesPassword(c, keys, Xor(keys.client, c.hmac(keys.stored, message)), message))
  {
    hide Encode, Decode, Split, Before, LastField;
    var message := Signed(nonce, salt, cnonce);
    var signature := c.hmac(keys.stored, message);
    FinalIsRead("n,,", nonce, Xor(keys.client, signature));
    DecodeBack(Xor(keys.client, signature));
    XorBack(keys.client, signature);
  }

  lemma CommaFree(clientRandom: seq<Byte>, serverRandom: seq<Byte>)
    ensures ',' !in Encode(clientRandom) && ',' !in Encode(clientRandom) + Encode(serverRandom)
    ensures clientRandom != [] ==> Encode(clientRandom) != ""
  {
    EncodeIsPlain(clientRandom);
    EncodeIsPlain(serverRandom);
    if clientRandom != [] { EncodeIsLong(clientRandom); }
  }

  lemma DerivedKeys(c: Crypto, a: string, b: string, salt: seq<Byte>, n: int)
    requires Sized(c)
    ensures Derive(c, a, salt, n).stored == c.sha(Derive(c, a, salt, n).client)
            && |Derive(c, a, salt, n).client| == DIGEST
    ensures c.prep(a) == c.prep(b) ==> Derive(c, a, salt, n) == Derive(c, b, salt, n)
  {
  }

  /** Both roles, run against each other with any two passwords and any random bytes. The messages always get
      through and both sides sign what the RFC says; the server accepts exactly when the proof the client makes from its
      password is the one its own password makes, and the client exactly when the signatures are the same. */
  method Exchange(c: Crypto, clientPassword: string, serverPassword: string, clientRandom: seq<Byte>,
                  serverRandom: seq<Byte>, salt: seq<Byte>)
    returns (accepted: bool, verified: bool, message: string, ghost signed: string)
    requires Sized(c) && clientRandom != []
    ensures message == signed == RfcMessage(clientRandom, serverRandom, salt)
    ensures (forall x, y :: |x| == |y| == 32 && c.sha(x) == c.sha(y) ==> x == y) ==>
              (accepted <==> RfcProof(c, clientPassword, salt, message) == RfcProof(c, serverPassword, salt, message))
    ensures verified <==>
              && accepted
              && RfcSignature(c, clientPassword, salt, message) == RfcSignature(c, serverPassword, salt, message)
    ensures accepted <==>
              var mine := Derive(c, clientPassword, salt, ITERATIONS);
              var theirs := Derive(c, serverPassword, salt, ITERATIONS);
              && |mine.client| == |c.hmac(mine.stored, message)|
              && ProvesPassword(c, theirs, Xor(mine.client, c.hmac(mine.stored, message)), message)
    ensures c.prep(clientPassword) == c.prep(serverPassword) ==> accepted && verified
  {
    hide RfcProof, RfcSignature, RfcMessage, CollisionFree, Encode, Decode, Split, Opening, Before, LastField, Sized,
      ProvesPassword, Xor, Derive, Field, Atoi;
    accepted, verified := false, false;
    var client := new Client(c, clientPassword);
    var server := new Server(c, serverPassword);
    SizedHmac(c);
    NoCollisions(c);
    CommaFree(clientRandom, serverRandom);
    var first := client.First(clientRandom);
    FirstIsRead(client.cnonce);
    var reply := server.FirstReply(first, serverRandom, salt);
    ghost var nonce := server.nonce;
    ServerFirstIsRead(nonce, salt);
    DecodeBack(salt);
    DerivedKeys(c, clientPassword, serverPassword, salt, ITERATIONS);
    var final := client.Final(reply.value);
    message, signed := client.authMessage, AuthMessage(server.clientFirstBare, server.serverFirst, final.value);
    HonestFinal(c, client.keys, nonce, salt, client.cnonce);
    SignedAsRfc(clientRandom, serverRandom, salt);
    DerivedAsRfc(c, clientPassword, salt, message);
    DerivedAsRfc(c, serverPassword, salt, message);
    assert server.gs2Header == "n,,";
    var answer := server.FinalReply(final.value);
    accepted := answer.Ok?;
    if accepted {
      ServerFinalIsRead(c.hmac(server.keys.server, signed));
      verified := client.VerifyServerFinal(answer.value);
    }
  }

  lemma ServerFinalIsRead(signature: seq<Byte>)
    ensures Field("v=" + Encode(signature), "v=") == Encode(signature) && Decode(Encode(signature)) == Some(signature)
  {
    EncodeIsPlain(signature);
    SplitWhole("v=" + Encode(signature), ',');
    DecodeBack(signature);
  }
}
