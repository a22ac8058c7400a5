/** The standard base64 encoding of section 4 of RFC 4648, decoded as leniently as Go does:
    line breaks are skipped, and the unused bits of the last group are not looked at. */
module Base64 {
  import opened Names
  import opened Bits

  function Symbol(v: nat): char
    requires v < 64
  {
    if v < 26 then ('A' as int + v) as char
    else if v < 52 then ('a' as int + (v - 26)) as char
    else if v < 62 then ('0' as int + (v - 52)) as char
    else if v == 62 then '+' else '/'
  }

  function ValueOf(c: char): (v: Option<nat>)
    ensures v.Some? ==> v.value < 64
  {
    if 'A' <= c <= 'Z' then Some(c as int - 'A' as int)
    else if 'a' <= c <= 'z' then Some(c as int - 'a' as int + 26)
    else if '0' <= c <= '9' then Some(c as int - '0' as int + 52)
    else if c == '+' then Some(62)
    else if c == '/' then Some(63)
    else None
  }

  lemma SymbolBack(v: nat)
    requires v < 64
    ensures ValueOf(Symbol(v)) == Some(v)
    ensures Symbol(v) !in {',', '=', '\r', '\n'}
  {
  }

  function Encode(b: seq<Byte>): string
  {
    if |b| == 0 then ""
    else if |b| == 1 then [Symbol(b[0] / 4), Symbol(b[0] % 4 * 16), '=', '=']
    else if |b| == 2 then [Symbol(b[0] / 4), Symbol(b[0] % 4 * 16 + b[1] / 16), Symbol(b[1] % 16 * 4), '=']
    else [Symbol(b[0] / 4), Symbol(b[0] % 4 * 16 + b[1] / 16), Symbol(b[1] % 16 * 4 + b[2] / 64),
          Symbol(b[2] % 64)] + Encode(b[3..])
  }

  function Quads(s: string): Option<seq<Byte>> {
    if s == "" then Some([])
    else if |s| < 4 || ValueOf(s[0]).None? || ValueOf(s[1]).None? then None
    else
      var v0, v1 := ValueOf(s[0]).value, ValueOf(s[1]).value;
      if s[2] == '=' then
        if s[3] == '=' && |s| == 4 then Some([v0 * 4 + v1 / 16]) else None
      else if ValueOf(s[2]).None? then None
      else
        var v2 := ValueOf(s[2]).value;
        if s[3] == '=' then
          if |s| == 4 then Some([v0 * 4 + v1 / 16, v1 % 16 * 16 + v2 / 4]) else None
        else if ValueOf(s[3]).None? then None
        else
          var rest := Quads(s[4..]);
          if rest.None? then None
          else Some([v0 * 4 + v1 / 16, v1 % 16 * 16 + v2 / 4, v2 % 4 * 64 + ValueOf(s[3]).value] + rest.value)
  }

  function WithoutBreaks(s: string): string {
    if s == "" then ""
    else if s[0] == '\r' || s[0] == '\n' then WithoutBreaks(s[1..])
    else [s[0]] + WithoutBreaks(s[1..])
  }

  function Decode(s: string): Option<seq<Byte>> {
    Quads(WithoutBreaks(s))
  }

  lemma {:induction false} NothingToSkip(s: string)
    requires '\r' !in s && '\n' !in s
    ensures WithoutBreaks(s) == s
  {
    if s != "" { NothingToSkip(s[1..]); }
  }

  /** Line breaks do not count, wherever they are. */
  lemma {:induction false} BreaksSkipped(a: string, c: char, b: string)
    requires c == '\r' || c == '\n'
    ensures WithoutBreaks(a + [c] + b) == WithoutBreaks(a + b) && Decode(a + [c] + b) == Decode(a + b)
  {
    if a == "" {
      assert a + [c] + b == [c] + b && ([c] + b)[1..] == b && a + b == b;
    } else {
      BreaksSkipped(a[1..], c, b);
      assert (a + [c] + b)[1..] == a[1..] + [c] + b && (a + b)[1..] == a[1..] + b;
    }
  }

  /** The four sextets of three bytes hold all of their bits. */
  lemma Sextets(a: Byte, b: Byte, c: Byte)
    ensures a / 4 < 64 && a % 4 * 16 + b / 16 < 64 && b % 16 * 4 + c / 64 < 64 && c % 64 < 64
    ensures a / 4 * 4 + (a % 4 * 16 + b / 16) / 16 == a
    ensures (a % 4 * 16 + b / 16) % 16 * 16 + (b % 16 * 4 + c / 64) / 4 == b
    ensures (b % 16 * 4 + c / 64) % 4 * 64 + c % 64 == c
  {
  }

  /** A group of four symbols, by its sextets and the bytes they make up. */
  lemma GroupRead(w: nat, x: nat, y: nat, z: nat, a: Byte, b: Byte, c: Byte, rest: string)
    requires w < 64 && x < 64 && y < 64 && z < 64 && Quads(rest).Some?
    requires w * 4 + x / 16 == a && x % 16 * 16 + y / 4 == b && y % 4 * 64 + z == c
    ensures Quads([Symbol(w), Symbol(x), Symbol(y), Symbol(z)] + rest) == Some([a, b, c] + Quads(rest).value)
  {
    hide Symbol, ValueOf;
    SymbolBack(w);
    SymbolBack(x);
    SymbolBack(y);
    SymbolBack(z);
    assert ([Symbol(w), Symbol(x), Symbol(y), Symbol(z)] + rest)[4..] == rest;
  }

  lemma FullGroup(a: Byte, b: Byte, c: Byte, rest: string)
    requires Quads(rest).Some?
    ensures var g := [Symbol(a / 4), Symbol(a % 4 * 16 + b / 16), Symbol(b % 16 * 4 + c / 64), Symbol(c % 64)];
            Quads(g + rest) == Some([a, b, c] + Quads(rest).value)
  {
    hide Symbol, ValueOf, Quads;
    Sextets(a, b, c);
    GroupRead(a / 4, a % 4 * 16 + b / 16, b % 16 * 4 + c / 64, c % 64, a, b, c, rest);
  }

  lemma ShortGroups(a: Byte, b: Byte)
    ensures Quads(Encode([a])) == Some([a]) && Quads(Encode([a, b])) == Some([a, b])
  {
    hide Symbol, ValueOf;
    Sextets(a, 0, 0);
    Sextets(a, b, 0);
    SymbolBack(a / 4);
    SymbolBack(a % 4 * 16);
    SymbolBack(a % 4 * 16 + b / 16);
    SymbolBack(b % 16 * 4);
  }

  /** Decoding undoes encoding. */
  lemma {:induction false} EncodeBack(b: seq<Byte>)
    ensures Quads(Encode(b)) == Some(b)
  {
    hide Symbol, ValueOf, Quads;
    if |b| == 0 {
      assert Encode(b) == "" && Quads("") == Some([]) by { QuadsOfNothing(); }
    } else if |b| == 1 {
      assert b == [b[0]];
      ShortGroups(b[0], 0);
    } else if |b| == 2 {
      assert b == [b[0], b[1]];
      ShortGroups(b[0], b[1]);
    } else {
      EncodeBack(b[3..]);
      FullGroup(b[0], b[1], b[2], Encode(b[3..]));
      assert b == [b[0], b[1], b[2]] + b[3..];
    }
  }

  lemma QuadsOfNothing()
    ensures Quads("") == Some([])
  {
  }

  predicate Plain(s: string) {
    ',' !in s && '\r' !in s && '\n' !in s
  }

  /** The encoded text has no comma and no line break. */
  lemma {:induction false} EncodeIsPlain(b: seq<Byte>)
    ensures Plain(Encode(b))
  {
    hide Symbol;
    if |b| > 0 {
      SymbolBack(b[0] / 4);
      SymbolBack(b[0] % 4 * 16 + if |b| > 1 then b[1] / 16 else 0);
      if |b| > 1 { SymbolBack(b[1] % 16 * 4 + if |b| > 2 then b[2] / 64 else 0); }
      if |b| > 2 {
        SymbolBack(b[2] % 64);
        EncodeIsPlain(b[3..]);
      }
    }
  }

  lemma DecodeBack(b: seq<Byte>)
    ensures Decode(Encode(b)) == Some(b)
  {
    EncodeBack(b);
    EncodeIsPlain(b);
    NothingToSkip(Encode(b));
  }

  lemma {:induction false} EncodeIsLong(b: seq<Byte>)
    requires b != []
    ensures Encode(b) != ""
  {
  }
}
