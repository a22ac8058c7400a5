/** The per-source backoff of the proxies: failed logins delay the next answers from the same address. */
module Limiter {
  import opened Bits

  // ---- 64-bit arithmetic ----

  const TWO63 := 0x8000_0000_0000_0000
  const TWO64 := 0x1_0000_0000_0000_0000

  /** The two's complement value of the low 64 bits. */
  function Wrap(x: int): (r: int)
    ensures -TWO63 <= r < TWO63
    ensures -TWO63 <= x < TWO63 ==> r == x
  {
    (x + TWO63) % TWO64 - TWO63
  }

  function ShiftLeft(x: int, k: nat): int {
    if k >= 64 then 0 else Wrap(x * Pow2(k))
  }

  lemma WrapDiffers(x: int) returns (q: int)
    ensures Wrap(x) == x - TWO64 * q
  {
    q := (x + TWO63) / TWO64;
  }

  lemma WrapAgain(x: int, y: int)
    ensures Wrap(Wrap(x) + y) == Wrap(x + y)
  {
    var q := WrapDiffers(x);
    Periodic(x + y + TWO63, -q);
  }

  lemma Periodic(x: int, q: int)
    ensures (x + TWO64 * q) % TWO64 == x % TWO64
  {
    var a, b := x / TWO64, (x + TWO64 * q) / TWO64;
    assert x == TWO64 * a + x % TWO64;
    assert x + TWO64 * q == TWO64 * b + (x + TWO64 * q) % TWO64;
    assert (x + TWO64 * q) % TWO64 - x % TWO64 == TWO64 * (a + q - b);
  }

  // ---- the delay ----

  const SECOND := 1_000_000_000

  datatype Params = Params(maxInFly: nat, threshold: int, base: int, max: int, window: int)

  const DEFAULTS := Params(8, 5, SECOND, 8 * SECOND, 600 * SECOND)

  function DelayFor(p: Params, count: int): int {
    var over := Wrap(count - p.threshold);
    if over <= 0 then 0
    else
      var d := ShiftLeft(p.base, over - 1);
      if d > p.max || d <= 0 then p.max else d
  }

  /** Nothing for the first five failures, then 1, 2, 4 and from there on 8 seconds. */
  function Intended(count: int): int {
    if count <= 5 then 0
    else if count == 6 then SECOND
    else if count == 7 then 2 * SECOND
    else if count == 8 then 4 * SECOND
    else 8 * SECOND
  }

  lemma IntendedIsCappedDoubling(count: int)
    requires count > 5
    ensures Intended(count) == if SECOND * Pow2(count - 6) < 8 * SECOND then SECOND * Pow2(count - 6) else 8 * SECOND
  {
    if count > 9 {
      PowSum(3, count - 9);
      assert Pow2(3) == 8;
    }
  }

  lemma {:induction false} PowGrows(a: nat, b: nat)
    requires a <= b
    ensures Pow2(a) <= Pow2(b)
  {
    if a < b { PowGrows(a, b - 1); }
  }

  lemma PowFrom24(k: nat)
    requires 24 <= k
    ensures Pow2(k) == Pow2(24) * Pow2(k - 24)
  {
    PowSum(24, k - 24);
  }

  lemma PowersBelow24()
    ensures Pow2(4) == 16 && Pow2(23) == 0x80_0000 && Pow2(24) == 0x100_0000
  {
    assert Pow2(6) == 64;
    assert Pow2(12) == 4096 by { PowSum(6, 6); }
    assert Pow2(11) == 2048;
    assert Pow2(23) == 4096 * 2048 by { PowSum(12, 11); }
  }

  lemma ShortShift(k: nat)
    requires 4 <= k < 24
    ensures 16 * SECOND <= SECOND * Pow2(k) < TWO63
  {
    hide Pow2;
    PowersBelow24();
    PowGrows(4, k);
    PowGrows(k, 23);
  }

  lemma LongShift(k: nat) returns (m: nat)
    requires 24 <= k
    ensures SECOND * Pow2(k) == 0x2_0000_0000 * m
  {
    hide Pow2;
    PowersBelow24();
    PowFrom24(k);
    m := 1953125 * Pow2(k - 24);
  }

  /** A multiple of 2^33 wraps to one. */
  lemma MultipleWraps(x: int, m: int) returns (j: int)
    requires x == 0x2_0000_0000 * m
    ensures Wrap(x) == 0x2_0000_0000 * j
  {
    hide Wrap;
    var q := WrapDiffers(x);
    j := m - 0x8000_0000 * q;
  }

  /** From 24 places on a shifted second is a multiple of 2^33 ns, so it never falls between 0 and 8 s again. */
  lemma ShiftedOverflows(k: nat)
    requires 4 <= k
    ensures var d := ShiftLeft(SECOND, k); d > 8 * SECOND || d <= 0
  {
    hide Pow2, Wrap;
    if k < 24 {
      ShortShift(k);
    } else if k < 64 {
      var m := LongShift(k);
      var j := MultipleWraps(SECOND * Pow2(k), m);
    }
  }

  /** The delay is the intended one for every 64-bit count except the five lowest, where the subtraction of the
      threshold wraps; no count of failures gets there. */
  lemma DelayIsIntendedIff(count: int)
    requires -TWO63 <= count < TWO63
    ensures DelayFor(DEFAULTS, count) == Intended(count) <==> -TWO63 + 5 <= count
  {
    var over := Wrap(count - 5);
    if count < -TWO63 + 5 {
      Periodic(count - 5 + TWO63, 1);
      assert over == count - 5 + TWO64;
      ShiftedOverflows(over - 1);
    } else if over >= 5 {
      ShiftedOverflows(over - 1);
    } else if over > 0 {
      assert Pow2(0) == 1 && Pow2(1) == 2 && Pow2(2) == 4 && Pow2(3) == 8;
    }
  }

  lemma DelayIsMonotone(a: int, b: int)
    requires -TWO63 + 5 <= a <= b < TWO63
    ensures DelayFor(DEFAULTS, a) <= DelayFor(DEFAULTS, b) <= DEFAULTS.max
  {
    DelayIsIntendedIff(a);
    DelayIsIntendedIff(b);
  }

  // ---- the reference: an unbounded history of failures ----

  /** The length of the latest run of failures no further apart than the window. */
  function RunLength(h: seq<int>, window: int): nat {
    if h == [] then 0
    else if |h| == 1 || h[|h| - 1] - h[|h| - 2] > window then 1
    else 1 + RunLength(h[..|h| - 1], window)
  }

  /** It is that: the last `RunLength` failures, and no longer run of them. */
  lemma {:induction false} RunIsLatest(h: seq<int>, window: int)
    requires h != []
    ensures var r := RunLength(h, window);
            && 1 <= r <= |h|
            && (forall i :: |h| - r < i < |h| ==> h[i] - h[i - 1] <= window)
            && (r < |h| ==> h[|h| - r] - h[|h| - r - 1] > window)
  {
    if |h| > 1 && h[|h| - 1] - h[|h| - 2] <= window {
      var g := h[..|h| - 1];
      RunIsLatest(g, window);
    }
  }

  /** `h`: all failures of one source since its last success. */
  function PenaltyOf(p: Params, h: seq<int>, now: int): int {
    if h == [] || now - h[|h| - 1] > p.window then 0 else DelayFor(p, Wrap(RunLength(h, p.window)))
  }

  lemma RunGrows(h: seq<int>, now: int, window: int)
    ensures RunLength(h + [now], window) ==
            if h != [] && now - h[|h| - 1] <= window then RunLength(h, window) + 1 else 1
  {
    assert (h + [now])[..|h|] == h;
  }

  /** By the numbers: ten minutes after the latest failure nothing is left of it; until then the delay is the one for as
      many failures as there were without a gap of ten minutes. */
  lemma PenaltyByNumbers(h: seq<int>, now: int)
    requires h != [] && |h| < TWO63
    ensures PenaltyOf(DEFAULTS, h, now) ==
              if now - h[|h| - 1] > 600_000_000_000 then 0 else Intended(RunLength(h, 600_000_000_000))
    ensures DEFAULTS.maxInFly == 8
  {
    hide RunLength, Intended;
    RunIsLatest(h, 600_000_000_000);
    DelayIsIntendedIff(RunLength(h, 600_000_000_000));
  }

  // ---- the limiter ----

  datatype Entry = Entry(count: int, last: int)

  const SWEEP_AT := 1024

  function Of(history: map<string, seq<int>>, key: string): seq<int> {
    if key in history then history[key] else []
  }

  /** What is remembered is the end of the run; what is forgotten is out of the window for good. */
  predicate Remembers(p: Params, fails: map<string, Entry>, history: map<string, seq<int>>, latest: int, key: string) {
    var h := Of(history, key);
    if key in fails then
      h != [] && fails[key] == Entry(Wrap(RunLength(h, p.window)), h[|h| - 1]) && h[|h| - 1] <= latest
    else
      h == [] || latest - h[|h| - 1] > p.window
  }

  ghost predicate Faithful(p: Params, fails: map<string, Entry>, history: map<string, seq<int>>, latest: int) {
    forall key :: Remembers(p, fails, history, latest, key)
  }

  lemma FailRemembers(p: Params, fails: map<string, Entry>, history: map<string, seq<int>>, latest: int, key: string,
                      now: int)
    requires Faithful(p, fails, history, latest) && latest <= now
    ensures var count := if key in fails && now - fails[key].last <= p.window then fails[key].count else 0;
            && Wrap(count + 1) == Wrap(RunLength(Of(history, key) + [now], p.window))
            && Faithful(p, fails[key := Entry(Wrap(count + 1), now)], history[key := Of(history, key) + [now]], now)
  {
    hide Wrap;
    var h := Of(history, key);
    assert Remembers(p, fails, history, latest, key);
    RunGrows(h, now, p.window);
    WrapAgain(RunLength(h, p.window), 1);
    var fails', history' := fails[key := Entry(Wrap(RunLength(h + [now], p.window)), now)], history[key := h + [now]];
    forall k ensures Remembers(p, fails', history', now, k) {
      assert Remembers(p, fails, history, latest, k);
    }
  }

  lemma ForgetRemembers(p: Params, fails: map<string, Entry>, history: map<string, seq<int>>, latest: int, key: string)
    requires Faithful(p, fails, history, latest) && key in fails && latest - fails[key].last > p.window
    ensures Faithful(p, fails - {key}, history, latest)
  {
    hide Wrap;
    assert Remembers(p, fails, history, latest, key);
    forall k ensures Remembers(p, fails - {key}, history, latest, k) {
      assert Remembers(p, fails, history, latest, k);
    }
  }

  lemma ResetRemembers(p: Params, fails: map<string, Entry>, history: map<string, seq<int>>, latest: int, key: string)
    requires Faithful(p, fails, history, latest)
    ensures Faithful(p, fails - {key}, history - {key}, latest)
  {
    hide Wrap;
    forall k ensures Remembers(p, fails - {key}, history - {key}, latest, k) {
      assert Remembers(p, fails, history, latest, k);
    }
  }

  class Limiter {
    const p: Params
    var fails: map<string, Entry>
    var inflight: map<string, nat>
    /** Everything the limiter would know if it never forgot. */
    ghost var history: map<string, seq<int>>
    /** The latest time it has been told. */
    ghost var latest: int

    constructor (p: Params, now: int)
      requires p.maxInFly > 0 && p.window >= 0
      ensures Valid() && this.p == p && fails == map[] && inflight == map[] && history == map[] && latest == now
    {
      this.p, fails, inflight, history, latest := p, map[], map[], map[], now;
    }

    ghost predicate Valid()
      reads this
    {
      && p.window >= 0 && Faithful(p, fails, history, latest)
      && (forall key :: key in inflight ==> 1 <= inflight[key] <= p.maxInFly)
    }

    function InFlight(key: string): nat
      reads this
    {
      if key in inflight then inflight[key] else 0
    }

    /** One of at most maxInFly slots of the source; connections without an address are not limited. */
    method Acquire(key: string) returns (ok: bool)
      requires Valid()
      modifies this`inflight
      ensures Valid()
      ensures ok <==> key == "" || old(InFlight(key)) < p.maxInFly
      ensures forall k :: InFlight(k) == old(InFlight(k)) + (if ok && k == key && key != "" then 1 else 0)
      ensures forall k :: InFlight(k) <= p.maxInFly || k !in inflight
    {
      if key == "" { return true; }
      if InFlight(key) >= p.maxInFly { return false; }
      inflight := inflight[key := InFlight(key) + 1];
      ok := true;
    }

    method Release(key: string)
      requires Valid()
      modifies this`inflight
      ensures Valid()
      ensures forall k ::
                InFlight(k) == old(InFlight(k)) - (if k == key && key != "" && old(InFlight(k)) > 0 then 1 else 0)
    {
      if key == "" { return; }
      if InFlight(key) <= 1 {
        inflight := inflight - {key};
      } else {
        inflight := inflight[key := inflight[key] - 1];
      }
    }

    /** Whatever sweeps there have been: what the whole history calls for. */
    method Penalty(key: string, now: int) returns (d: int)
      requires Valid() && now >= latest
      ensures d == if key == "" then 0 else PenaltyOf(p, Of(history, key), now)
    {
      hide Wrap;
      if key == "" { return 0; }
      assert Remembers(p, fails, history, latest, key);
      if key !in fails || now - fails[key].last > p.window { return 0; }
      d := DelayFor(p, fails[key].count);
    }

    method Fail(key: string, now: int) returns (d: int)
      requires Valid() && now >= latest
      modifies this`fails, this`history, this`latest
      ensures Valid()
      ensures key != "" ==> latest == now && history == old(history)[key := Of(old(history), key) + [now]]
      ensures key == "" ==> fails == old(fails) && history == old(history) && latest == old(latest)
      ensures d == if key == "" then 0 else PenaltyOf(p, Of(history, key), now)
    {
      hide Wrap, Faithful;
      if key == "" { return 0; }
      FailRemembers(p, fails, history, latest, key, now);
      var e := if key in fails && now - fails[key].last <= p.window then fails[key] else Entry(0, 0);
      e := Entry(Wrap(e.count + 1), now);
      fails, history, latest := fails[key := e], history[key := Of(history, key) + [now]], now;
      Sweep(now);
      d := DelayFor(p, e.count);
    }

    /** Drops what is out of the window, once the map has grown. */
    method Sweep(now: int)
      requires Valid() && now == latest
      modifies this`fails
      ensures Valid()
      ensures fails == if |old(fails)| < 1024 then old(fails)
                       else map k | k in old(fails) && now - old(fails)[k].last <= p.window :: old(fails)[k]
    {
      hide Wrap, Faithful;
      if |fails| < SWEEP_AT { return; }
      var left := fails.Keys;
      while left != {}
        invariant Valid() && left <= old(fails).Keys
        invariant fails == map k | k in old(fails)
                  && (k in left || now - old(fails)[k].last <= p.window) :: old(fails)[k]
      {
        var k :| k in left;
        left := left - {k};
        if now - fails[k].last > p.window {
          ForgetRemembers(p, fails, history, latest, k);
          fails := fails - {k};
        }
      }
    }

    /** A success wipes the history of its source. */
    method Reset(key: string)
      requires Valid()
      modifies this`fails, this`history
      ensures Valid()
      ensures key != "" ==> key !in fails && history == old(history) - {key}
      ensures key == "" ==> fails == old(fails) && history == old(history)
    {
      hide Wrap, Faithful;
      if key == "" { return; }
      ResetRemembers(p, fails, history, latest, key);
      fails, history := fails - {key}, history - {key};
    }
  }
}
