/** Bytes, bits of unbounded numbers, and the fixed-width integers of the wire formats. */
module Bits {
  import opened Names

  type Byte = b: int | 0 <= b < 256

  function Pow2(k: nat): (r: nat)
    ensures r >= 1
  {
    if k == 0 then 1 else 2 * Pow2(k - 1)
  }

  lemma {:induction false} PowSum(a: nat, b: nat)
    ensures Pow2(a + b) == Pow2(a) * Pow2(b)
  {
    if a > 0 {
      PowSum(a - 1, b);
      assert Pow2(a) * Pow2(b) == 2 * Pow2(a - 1) * Pow2(b);
    }
  }

  predicate Bit(a: nat, i: nat) {
    if i == 0 then a % 2 == 1 else Bit(a / 2, i - 1)
  }

  /** The low `k` bits of `a` and `b`, combined one by one. */
  function Combine(f: (bool, bool) -> bool, k: nat, a: nat, b: nat): (r: nat)
    ensures r < Pow2(k)
  {
    if k == 0 then 0
    else 2 * Combine(f, k - 1, a / 2, b / 2) + (if f(a % 2 == 1, b % 2 == 1) then 1 else 0)
  }

  lemma {:induction false} BitOfCombine(f: (bool, bool) -> bool, k: nat, a: nat, b: nat, i: nat)
    requires i < k
    ensures Bit(Combine(f, k, a, b), i) == f(Bit(a, i), Bit(b, i))
  {
    if i > 0 { BitOfCombine(f, k - 1, a / 2, b / 2, i - 1); }
  }

  const XOR := (x: bool, y: bool) => x != y
  const AND := (x: bool, y: bool) => x && y
  const OR := (x: bool, y: bool) => x || y

  lemma {:induction false} XorTwice(k: nat, a: nat, b: nat)
    requires a < Pow2(k)
    ensures Combine(XOR, k, Combine(XOR, k, a, b), b) == a
  {
    if k > 0 { XorTwice(k - 1, a / 2, b / 2); }
  }

  function XorByte(a: Byte, b: Byte): Byte {
    assert Pow2(8) == 256 by { PowSum(4, 4); assert Pow2(4) == 16; }
    Combine(XOR, 8, a, b)
  }

  lemma XorBits(a: Byte, b: Byte, i: nat)
    requires i < 8
    ensures Bit(XorByte(a, b), i) <==> Bit(a, i) != Bit(b, i)
  {
    BitOfCombine(XOR, 8, a, b, i);
  }

  lemma XorByteTwice(a: Byte, b: Byte)
    ensures XorByte(XorByte(a, b), b) == a
  {
    PowSum(4, 4);
    assert Pow2(4) == 16;
    XorTwice(8, a, b);
  }

  function Xor(a: seq<Byte>, b: seq<Byte>): (r: seq<Byte>)
    requires |a| == |b|
    ensures |r| == |a|
  {
    seq(|a|, i requires 0 <= i < |a| => XorByte(a[i], b[i]))
  }

  lemma XorBack(a: seq<Byte>, b: seq<Byte>)
    requires |a| == |b|
    ensures Xor(Xor(a, b), b) == a
  {
    forall i | 0 <= i < |a| ensures Xor(Xor(a, b), b)[i] == a[i] {
      XorByteTwice(a[i], b[i]);
    }
  }

  lemma XorTurned(a: seq<Byte>, b: seq<Byte>, d: seq<Byte>)
    requires |a| == |b| == |d|
    ensures Xor(a, b) == d <==> a == Xor(d, b)
  {
    XorBack(a, b);
    XorBack(d, b);
  }

  method XorBytes(a: seq<Byte>, b: seq<Byte>) returns (r: seq<Byte>)
    requires |a| == |b|
    ensures r == Xor(a, b)
  {
    var buffer := new Byte[|a|];
    for i := 0 to |a|
      invariant buffer[..i] == Xor(a, b)[..i]
    {
      buffer[i] := XorByte(a[i], b[i]);
      assert buffer[..i + 1] == buffer[..i] + [buffer[i]];
      assert Xor(a, b)[..i + 1] == Xor(a, b)[..i] + [Xor(a, b)[i]];
    }
    r := buffer[..];
    assert buffer[..|a|] == buffer[..];
  }

  // ---- integers on the wire ----

  function Pow256(k: nat): (r: nat)
    ensures r >= 1
  {
    if k == 0 then 1 else 256 * Pow256(k - 1)
  }

  /** `k` bytes, the lowest first. */
  function LittleEndian(k: nat, x: nat): (r: seq<Byte>)
    ensures |r| == k
  {
    if k == 0 then [] else [x % 256] + LittleEndian(k - 1, x / 256)
  }

  function FromLittleEndian(b: seq<Byte>): (r: nat)
    ensures r < Pow256(|b|)
  {
    if b == [] then 0 else b[0] + 256 * FromLittleEndian(b[1..])
  }

  lemma {:induction false} LittleEndianBack(k: nat, x: nat)
    requires x < Pow256(k)
    ensures FromLittleEndian(LittleEndian(k, x)) == x
  {
    if k > 0 {
      LittleEndianBack(k - 1, x / 256);
      assert LittleEndian(k, x)[1..] == LittleEndian(k - 1, x / 256);
    }
  }

  /** `k` bytes, the highest first. */
  function BigEndian(k: nat, x: nat): (r: seq<Byte>)
    ensures |r| == k
  {
    if k == 0 then [] else BigEndian(k - 1, x / 256) + [x % 256]
  }

  function FromBigEndian(b: seq<Byte>): (r: nat)
    ensures r < Pow256(|b|)
  {
    if b == [] then 0 else 256 * FromBigEndian(b[..|b| - 1]) + b[|b| - 1]
  }

  lemma {:induction false} BigEndianBack(k: nat, x: nat)
    requires x < Pow256(k)
    ensures FromBigEndian(BigEndian(k, x)) == x
  {
    if k > 0 {
      BigEndianBack(k - 1, x / 256);
      assert BigEndian(k, x)[..k - 1] == BigEndian(k - 1, x / 256);
    }
  }

  // ---- zero-terminated strings ----

  type Chars = seq<Byte>

  predicate NulFree(s: Chars) {
    0 !in s
  }

  function CString(b: seq<Byte>): Option<(Chars, seq<Byte>)> {
    if b == [] then None
    else if b[0] == 0 then Some(([], b[1..]))
    else match CString(b[1..])
      case None => None
      case Some(p) => Some(([b[0]] + p.0, p.1))
  }

  lemma {:induction false} CStringAt(k: Chars, rest: seq<Byte>)
    requires NulFree(k)
    ensures CString(k + [0] + rest) == Some((k, rest))
  {
    var b := k + [0] + rest;
    if k == [] {
      assert b[1..] == rest;
    } else {
      CStringAt(k[1..], rest);
      assert b[1..] == k[1..] + [0] + rest;
      assert [k[0]] + k[1..] == k;
    }
  }

  lemma {:induction false} NoCString(b: seq<Byte>)
    requires 0 !in b
    ensures CString(b) == None
  {
    if b != [] { NoCString(b[1..]); }
  }

  method TakeCString(b: seq<Byte>) returns (r: Option<(Chars, seq<Byte>)>)
    ensures r == CString(b)
    ensures r.Some? ==> b == r.value.0 + [0] + r.value.1 && NulFree(r.value.0)
  {
    for i := 0 to |b|
      invariant NulFree(b[..i])
    {
      if b[i] == 0 {
        assert b == b[..i] + [0] + b[i + 1..];
        CStringAt(b[..i], b[i + 1..]);
        return Some((b[..i], b[i + 1..]));
      }
    }
    assert b[..|b|] == b;
    NoCString(b);
    r := None;
  }

  lemma {:induction false} CStringSplits(b: seq<Byte>)
    ensures CString(b).Some? ==> b == CString(b).value.0 + [0] + CString(b).value.1 && NulFree(CString(b).value.0)
  {
    if b != [] && b[0] != 0 {
      CStringSplits(b[1..]);
      assert b == [b[0]] + b[1..];
    }
  }

  lemma {:induction false} CStringShrinks(b: seq<Byte>)
    ensures CString(b).Some? ==> |CString(b).value.1| < |b|
  {
    if b != [] && b[0] != 0 { CStringShrinks(b[1..]); }
  }
}
