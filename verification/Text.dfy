/** The string functions the SCRAM messages are taken apart with. */
module Text {
  import opened Names
  import opened Bits

  function Bytes(s: string): (b: seq<Byte>)
    ensures |b| == |s|
  {
    seq(|s|, i requires 0 <= i < |s| => s[i] as int % 256)
  }

  /** Received bytes as text. */
  function FromBytes(b: seq<Byte>): (s: string)
    ensures |s| == |b|
  {
    seq(|b|, i requires 0 <= i < |b| => b[i] as char)
  }

  lemma BytesBack(b: seq<Byte>, s: string)
    ensures Bytes(FromBytes(b)) == b
    ensures (forall i :: 0 <= i < |s| ==> s[i] as int < 256) ==> FromBytes(Bytes(s)) == s
  {
  }

  /** strings.Split for a one-character separator. */
  function Split(s: string, sep: char): (parts: seq<string>)
    ensures |parts| >= 1
  {
    if s == "" then [""]
    else
      var rest := Split(s[1..], sep);
      if s[0] == sep then [""] + rest else [[s[0]] + rest[0]] + rest[1..]
  }

  lemma {:induction false} SplitOff(a: string, sep: char, b: string)
    requires sep !in a
    ensures Split(a + [sep] + b, sep) == [a] + Split(b, sep)
  {
    var s := a + [sep] + b;
    if a == "" {
      assert s[1..] == b;
    } else {
      SplitOff(a[1..], sep, b);
      assert s[1..] == a[1..] + [sep] + b;
      assert [a[0]] + a[1..] == a;
    }
  }

  lemma {:induction false} SplitWhole(a: string, sep: char)
    requires sep !in a
    ensures Split(a, sep) == [a]
  {
    if a != "" {
      SplitWhole(a[1..], sep);
      assert [a[0]] + a[1..] == a;
    }
  }

  lemma SplitTwo(a: string, b: string, sep: char)
    requires sep !in a && sep !in b
    ensures Split(a + [sep] + b, sep) == [a, b]
  {
    SplitOff(a, sep, b);
    SplitWhole(b, sep);
  }

  lemma SplitThree(a: string, b: string, c: string, sep: char)
    requires sep !in a && sep !in b && sep !in c
    ensures Split(a + [sep] + b + [sep] + c, sep) == [a, b, c]
  {
    assert a + [sep] + b + [sep] + c == a + [sep] + (b + [sep] + c);
    SplitOff(a, sep, b + [sep] + c);
    SplitTwo(b, c, sep);
  }

  /** Around the first separator. */
  function Cut<T(==)>(s: seq<T>, sep: T): Option<(seq<T>, seq<T>)> {
    if s == [] then None
    else if s[0] == sep then Some(([], s[1..]))
    else match Cut(s[1..], sep)
      case None => None
      case Some(p) => Some(([s[0]] + p.0, p.1))
  }

  lemma {:induction false} CutAt<T>(a: seq<T>, sep: T, b: seq<T>)
    requires sep !in a
    ensures Cut(a + [sep] + b, sep) == Some((a, b))
  {
    var s := a + [sep] + b;
    if a == [] {
      assert s[1..] == b;
    } else {
      CutAt(a[1..], sep, b);
      assert s[1..] == a[1..] + [sep] + b;
      assert [a[0]] + a[1..] == a;
    }
  }

  lemma {:induction false} CutSplits<T>(s: seq<T>, sep: T)
    ensures var c := Cut(s, sep);
            if c.Some? then s == c.value.0 + [sep] + c.value.1 && sep !in c.value.0 else sep !in s
  {
    if s != [] && s[0] != sep {
      CutSplits(s[1..], sep);
      assert s == [s[0]] + s[1..];
    }
  }

  /** strings.SplitN for three parts: the rest may hold further separators. */
  function Opening(s: string, sep: char): Option<(string, string, string)> {
    match Cut(s, sep)
    case None => None
    case Some(outer) =>
      match Cut(outer.1, sep)
      case None => None
      case Some(inner) => Some((outer.0, inner.0, inner.1))
  }

  lemma OpeningIs(s: string, sep: char, a: string, b: string, rest: string)
    ensures Opening(s, sep) == Some((a, b, rest)) <==> s == a + [sep] + b + [sep] + rest && sep !in a && sep !in b
  {
    hide Cut;
    CutSplits(s, sep);
    if Cut(s, sep).Some? {
      CutSplits(Cut(s, sep).value.1, sep);
    }
    if s == a + [sep] + b + [sep] + rest && sep !in a && sep !in b {
      assert s == a + [sep] + (b + [sep] + rest);
      CutAt(a, sep, b + [sep] + rest);
      CutAt(b, sep, rest);
    }
  }

  /** What follows the prefix in the last part that has it. */
  function LastField(parts: seq<string>, prefix: string): string {
    if parts == [] then ""
    else
      var last := parts[|parts| - 1];
      if prefix <= last then last[|prefix|..] else LastField(parts[..|parts| - 1], prefix)
  }

  /** The text before the first occurrence of `word`, or all of it. */
  function Before(s: string, word: string): string {
    if word <= s || s == "" then "" else [s[0]] + Before(s[1..], word)
  }

  /** No comma of `x` starts an occurrence of ",p=", not even together with what follows. */
  lemma {:induction false} BeforeProof(x: string, y: string)
    requires forall i :: 0 <= i < |x| && x[i] == ',' ==> i + 1 < |x| && x[i + 1] != 'p'
    ensures Before(x + ",p=" + y, ",p=") == x
  {
    var s := x + ",p=" + y;
    if x == "" {
      assert ",p=" <= s;
    } else {
      assert !(",p=" <= s) by { if s[0] == ',' { assert s[1] == x[1]; } }
      assert s[1..] == x[1..] + ",p=" + y;
      BeforeProof(x[1..], y);
    }
  }

  predicate Digit(c: char) {
    '0' <= c <= '9'
  }

  function Decimal(s: string): nat
    requires forall i :: 0 <= i < |s| ==> Digit(s[i])
  {
    if s == "" then 0
    else
      assert Digit(s[|s| - 1]);
      10 * Decimal(s[..|s| - 1]) + (s[|s| - 1] as int - '0' as int)
  }

  /** strconv.Atoi: an optional sign, digits, and 64 bits to hold the value. */
  function Atoi(s: string): Option<int> {
    var negative := s != "" && s[0] == '-';
    var digits := if s != "" && (s[0] == '-' || s[0] == '+') then s[1..] else s;
    if digits == "" || exists i :: 0 <= i < |digits| && !Digit(digits[i]) then None
    else
      var n: int := (if negative then -1 else 1) * Decimal(digits);
      if -0x8000_0000_0000_0000 <= n < 0x8000_0000_0000_0000 then Some(n) else None
  }

  /** The number as it is written. */
  function Written(n: nat): string {
    (if n < 10 then "" else Written(n / 10)) + [('0' as int + n % 10) as char]
  }

  lemma {:induction false} DecimalBack(n: nat)
    ensures Written(n) != "" && (forall i :: 0 <= i < |Written(n)| ==> Digit(Written(n)[i])) && Decimal(Written(n)) == n
  {
    var s := Written(n);
    if n >= 10 { DecimalBack(n / 10); }
    assert s[..|s| - 1] == if n < 10 then "" else Written(n / 10);
    assert s[|s| - 1] as int - '0' as int == n % 10;
  }

  /** What is written with or without a sign is read back, exactly as long as 64 bits hold it. */
  lemma AtoiBack(n: int)
    requires n >= 0
    ensures Atoi(Written(n)) == Atoi("+" + Written(n)) == if n <= 0x7FFF_FFFF_FFFF_FFFF then Some(n) else None
    ensures Atoi("-" + Written(n)) == if n <= 0x8000_0000_0000_0000 then Some(-n) else None
  {
    hide Written, Decimal;
    DecimalBack(n);
    assert ("+" + Written(n))[1..] == Written(n) && ("-" + Written(n))[1..] == Written(n);
    assert Digit(Written(n)[0]);
  }
}
