/** The password tokens of MySQL's two schemes, mysql_native_password and caching_sha2_password. */
module Tokens {
  import opened Bits

  /** SHA-1 and SHA-256. */
  datatype Digests = Digests(sha1: seq<Byte> -> seq<Byte>, sha256: seq<Byte> -> seq<Byte>)

  ghost predicate Sized(d: Digests) {
    && (forall x :: |d.sha1(x)| == 20)
    && (forall x :: |d.sha256(x)| == 32)
  }

  /** No two digests have the same digest. */
  ghost predicate CollisionFree(d: Digests) {
    && (forall x, y :: |x| == |y| == 20 && d.sha1(x) == d.sha1(y) ==> x == y)
    && (forall x, y :: |x| == |y| == 32 && d.sha256(x) == d.sha256(y) ==> x == y)
  }

  /** An empty password has an empty token. */
  ghost function Native(d: Digests, password: Chars, salt: seq<Byte>): (r: seq<Byte>)
    requires Sized(d)
    ensures |r| == if password == [] then 0 else 20
  {
    if password == [] then []
    else
      var stage1 := d.sha1(password);
      Xor(stage1, d.sha1(salt + d.sha1(stage1)))
  }

  ghost function Sha2(d: Digests, password: Chars, nonce: seq<Byte>): (r: seq<Byte>)
    requires Sized(d)
    ensures |r| == if password == [] then 0 else 32
  {
    if password == [] then []
    else
      var h1 := d.sha256(password);
      Xor(h1, d.sha256(d.sha256(h1) + nonce))
  }

  method NativeToken(d: Digests, password: Chars, salt: seq<Byte>) returns (token: seq<Byte>)
    requires Sized(d)
    ensures token == Native(d, password, salt)
  {
    if password == [] { return []; }
    var stage1 := d.sha1(password);
    var stage2 := d.sha1(stage1);
    token := XorBytes(stage1, d.sha1(salt + stage2));
  }

  method CachingSha2Token(d: Digests, password: Chars, nonce: seq<Byte>) returns (token: seq<Byte>)
    requires Sized(d)
    ensures token == Sha2(d, password, nonce)
  {
    if password == [] { return []; }
    var h1 := d.sha256(password);
    var h2 := d.sha256(h1);
    token := XorBytes(h1, d.sha256(h2 + nonce));
  }

  /** A server that keeps only the doubly hashed password takes the same one token: with the digest of the salt taken
      off, it hashes to what is kept. */
  lemma NativeIsTheOne(d: Digests, password: Chars, salt: seq<Byte>, token: seq<Byte>)
    requires Sized(d) && CollisionFree(d) && password != [] && |token| == 20
    ensures var kept := d.sha1(d.sha1(password));
            token == Native(d, password, salt) <==> d.sha1(Xor(token, d.sha1(salt + kept))) == kept
  {
    XorTurned(token, d.sha1(salt + d.sha1(d.sha1(password))), d.sha1(password));
  }

  lemma Sha2IsTheOne(d: Digests, password: Chars, nonce: seq<Byte>, token: seq<Byte>)
    requires Sized(d) && CollisionFree(d) && password != [] && |token| == 32
    ensures var kept := d.sha256(d.sha256(password));
            token == Sha2(d, password, nonce) <==> d.sha256(Xor(token, d.sha256(kept + nonce))) == kept
  {
    XorTurned(token, d.sha256(d.sha256(d.sha256(password)) + nonce), d.sha256(password));
  }

  /** The scheme is told from the length of the token alone: all the same, exactly the two right tokens fit. */
  method Verify(d: Digests, password: Chars, salt: seq<Byte>, token: seq<Byte>) returns (fits: bool)
    requires Sized(d) && |salt| >= 20
    ensures fits <==> token == Sha2(d, password, salt[..20]) || token == Native(d, password, salt)
  {
    var right;
    if |token| != 20 {
      right := CachingSha2Token(d, password, salt[..20]);
    } else {
      right := NativeToken(d, password, salt);
    }
    fits := right == token;
  }
}
