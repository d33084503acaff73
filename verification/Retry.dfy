/**
 The worker's retry delay: five seconds doubled with every retry, capped at an hour, computed in
 64-bit arithmetic.
 */
module Retry {
  const SECOND: nat := 1_000_000_000
  const HOUR: nat := 3600 * SECOND

  const TWO_63: nat := 0x8000_0000_0000_0000
  const TWO_64: nat := 0x1_0000_0000_0000_0000

  function Pow2(n: nat): nat {
    if n == 0 then 1 else 2 * Pow2(n - 1)
  }

  /** What a 64-bit signed integer keeps of a value. */
  function Wrap(x: int): int {
    var low := x % TWO_64;
    if low >= TWO_63 then low - TWO_64 else low
  }

  /** The delay before retry number n, every intermediate result wrapped. */
  function Delay(n: nat): int {
    var delay := Wrap(Wrap(Wrap(Pow2(n)) * 5) * SECOND);
    if delay > HOUR then HOUR else delay
  }

  /** The delay the code's comment promises. */
  function Promised(n: nat): int {
    var delay := 5 * SECOND * Pow2(n);
    if delay > HOUR then HOUR else delay
  }

  /** The retries for which the product keeps its sign and its size. */
  predicate KeepsSize(n: nat) {
    n <= 30 || n in {32, 33, 35, 37, 39, 40, 41, 42, 43, 44, 46, 52, 53}
  }

  lemma WrapShift(x: int, k: int)
    ensures Wrap(x + k * TWO_64) == Wrap(x)
  {
    assert (x + k * TWO_64) % TWO_64 == x % TWO_64;
  }

  // Wrapping early or late makes no difference.
  lemma WrapInside(x: int, c: int)
    ensures Wrap(Wrap(x) * c) == Wrap(x * c)
  {
    var q := x / TWO_64;
    var k := if x % TWO_64 >= TWO_63 then q + 1 else q;
    assert x == Wrap(x) + k * TWO_64;
    assert x * c == Wrap(x) * c + (k * c) * TWO_64;
    WrapShift(Wrap(x) * c, k * c);
  }

  lemma DelayWrapsOnce(n: nat)
    ensures Delay(n) == var delay := Wrap(5 * SECOND * Pow2(n)); if delay > HOUR then HOUR else delay
  {
    var p := Pow2(n);
    WrapInside(p, 5);
    WrapInside(p * 5, SECOND);
    WrapInside(Wrap(p) * 5, SECOND);
    assert p * 5 * SECOND == 5 * SECOND * p;
  }

  lemma {:induction false} Pow2Sum(a: nat, b: nat)
    ensures Pow2(a + b) == Pow2(a) * Pow2(b)
  {
    if a == 0 {
    } else {
      Pow2Sum(a - 1, b);
    }
  }

  lemma {:induction false} Pow2Positive(n: nat)
    ensures Pow2(n) >= 1
  {
    if n == 0 {
    } else {
      Pow2Positive(n - 1);
    }
  }

  lemma Pow2Monotone(a: nat, b: nat)
    requires a <= b
    ensures Pow2(a) <= Pow2(b)
  {
    Pow2Sum(a, b - a);
    Pow2Positive(a);
    Pow2Positive(b - a);
    assert Pow2(a) * 1 <= Pow2(a) * Pow2(b - a);
  }

  lemma PowersOfTwo()
    ensures Pow2(10) == 0x400 && Pow2(30) == 0x4000_0000 && Pow2(31) == 0x8000_0000
    ensures Pow2(55) == 0x80_0000_0000_0000
  {
    assert Pow2(5) == 32;
    Pow2Sum(5, 5);
    Pow2Sum(10, 10);
    Pow2Sum(20, 10);
    Pow2Sum(30, 1);
    Pow2Sum(30, 20);
    Pow2Sum(50, 5);
  }

  // From retry 31 on an hour is promised; from 55 on the product is a multiple of 2^64.
  lemma LateRetries(n: nat)
    requires n >= 31
    ensures Promised(n) == HOUR
    ensures n >= 55 ==> Delay(n) == 0
  {
    Pow2Monotone(31, n);
    PowersOfTwo();
    if n >= 55 {
      Pow2Sum(55, n - 55);
      var k := 9_765_625 * Pow2(n - 55);
      assert 5 * SECOND * Pow2(n) == 0 + k * TWO_64;
      WrapShift(0, k);
      DelayWrapsOnce(n);
    }
  }

  lemma NoOverflow(p: int)
    requires 0 <= p <= 0x4000_0000
    ensures Wrap(5 * SECOND * p) == 5 * SECOND * p
  {
  }

  lemma EarlyRetries(n: nat)
    requires n <= 30
    ensures Delay(n) == Promised(n)
  {
    DelayWrapsOnce(n);
    assert Pow2(n) <= 0x4000_0000 by {
      Pow2Monotone(n, 30);
      PowersOfTwo();
    }
    NoOverflow(Pow2(n));
  }

  // The wrapped product between the first overflow and the first multiple of 2^63.
  function Overflowed(n: nat): int
    requires 31 <= n <= 54
  {
    match n
    case 31 => -7709325833709551616
    case 32 => 3028092406290448384
    case 33 => 6056184812580896768
    case 34 => -6334374448547758080
    case 35 => 5777995176614035456
    case 36 => -6890753720481480704
    case 37 => 4665236632746590208
    case 38 => -9116270808216371200
    case 39 => 214202457276809216
    case 40 => 428404914553618432
    case 41 => 856809829107236864
    case 42 => 1713619658214473728
    case 43 => 3427239316428947456
    case 44 => 6854478632857894912
    case 45 => -4737786807993761792
    case 46 => 8971170457722028032
    case 47 => -504403158265495552
    case 48 => -1008806316530991104
    case 49 => -2017612633061982208
    case 50 => -4035225266123964416
    case 51 => -8070450532247928832
    case 52 => 2305843009213693952
    case 53 => 4611686018427387904
    case _ => -9223372036854775808
  }

  lemma OverflowedKeeps(n: nat)
    requires 31 <= n <= 54
    ensures Overflowed(n) >= HOUR <==> KeepsSize(n)
  {
  }

  lemma OverflowedDoubles(n: nat)
    requires 31 <= n < 54
    ensures Overflowed(n + 1) == Wrap(Overflowed(n) * 2)
  {
  }

  lemma {:induction false} MiddleRetries(n: nat)
    requires 31 <= n <= 54
    ensures Wrap(5 * SECOND * Pow2(n)) == Overflowed(n)
  {
    if n == 31 {
      PowersOfTwo();
    } else {
      MiddleRetries(n - 1);
      OverflowedDoubles(n - 1);
      WrapInside(5 * SECOND * Pow2(n - 1), 2);
      assert 5 * SECOND * Pow2(n) == 5 * SECOND * Pow2(n - 1) * 2;
    }
  }

  /** The delay in nanoseconds while nothing overflows: five seconds, then twice as much each time, then an hour. */
  lemma DelayInNanoseconds(n: nat)
    ensures Delay(0) == 5_000_000_000
    ensures n < 9 ==> Delay(n + 1) == 2 * Delay(n)
    ensures 10 <= n <= 30 ==> Delay(n) == 3_600_000_000_000
  {
    EarlyRetries(0);
    if n < 9 {
      EarlyRetries(n);
      EarlyRetries(n + 1);
      Pow2Monotone(n + 1, 9);
      assert Pow2(9) == 512 by { Pow2Sum(5, 4); }
    }
    if 10 <= n <= 30 {
      EarlyRetries(n);
      Pow2Monotone(10, n);
      PowersOfTwo();
    }
  }

  /** The first retry that overflows: a negative delay where an hour is promised. */
  lemma RetryThirtyOneOverflows()
    ensures Delay(31) == -7_709_325_833_709_551_616 && Promised(31) == 3_600_000_000_000
  {
    LateRetries(31);
    MiddleRetries(31);
    DelayWrapsOnce(31);
  }

  /**
   The comment is wrong for retry 31, the first that overflows, and the delay is what it promises
   exactly for the retries listed: all up to 30, a few up to 53, none from 54 on.
   */
  lemma DelayAsPromisedIff(n: nat)
    ensures Delay(n) == Promised(n) <==> KeepsSize(n)
  {
    if n <= 30 {
      EarlyRetries(n);
    } else {
      LateRetries(n);
      if n <= 54 {
        MiddleRetries(n);
        OverflowedKeeps(n);
        DelayWrapsOnce(n);
      }
    }
  }
}
