/**
 The token bucket behind every visitor of the per-IP limiter.

 A bucket holds credit in nanoseconds instead of fractional tokens: one token is worth `interval`
 nanoseconds, one nanosecond of waiting earns one unit of credit, and the credit never exceeds what
 `burst` tokens are worth. The bucket starts full and a refused request leaves it as it was.
 */
module TokenBucket {
  // Nanoseconds on the process's monotonic clock.
  type Time = int

  const MINUTE: nat := 60_000_000_000

  datatype Limit = Limit(interval: nat, burst: nat) {
    function Capacity(): nat {
      interval * burst
    }
  }

  /** The limit for a budget of requests per minute; integer division makes the interval round down. */
  function PerMinute(rpm: nat): Limit
    requires rpm > 0
  {
    Limit(MINUTE / rpm, rpm)
  }

  datatype Bucket = Bucket(credit: int, last: Time)

  function Min(a: int, b: int): int {
    if a <= b then a else b
  }

  function Fresh(limit: Limit): Bucket {
    Bucket(limit.Capacity(), 0)
  }

  /** The credit available at time `t`; a clock reading before the last update earns nothing. */
  function Level(limit: Limit, b: Bucket, t: Time): int {
    var elapsed := if t < b.last then 0 else t - b.last;
    Min(limit.Capacity(), b.credit + elapsed)
  }

  /** Asks for one token at time `t`. */
  function Take(limit: Limit, b: Bucket, t: Time): (Bucket, bool) {
    var level := Level(limit, b, t);
    if level >= limit.interval then (Bucket(level - limit.interval, t), true) else (b, false)
  }

  datatype Decision = Decision(at: Time, admitted: bool)

  /** The bucket after requests at the given times. */
  function After(limit: Limit, times: seq<Time>): Bucket {
    if times == [] then Fresh(limit)
    else Take(limit, After(limit, times[..|times| - 1]), times[|times| - 1]).0
  }

  /** What one bucket decides on requests at the given times. */
  function Decide(limit: Limit, times: seq<Time>): (ds: seq<Decision>)
    ensures |ds| == |times|
    ensures forall k :: 0 <= k < |ds| ==> ds[k].at == times[k]
  {
    if times == [] then []
    else
      var earlier := times[..|times| - 1];
      var t := times[|times| - 1];
      Decide(limit, earlier) + [Decision(t, Take(limit, After(limit, earlier), t).1)]
  }

  ghost predicate Monotone(times: seq<Time>) {
    forall i, j :: 0 <= i <= j < |times| ==> times[i] <= times[j]
  }

  function Admitted(ds: seq<Decision>): nat {
    if ds == [] then 0
    else Admitted(ds[..|ds| - 1]) + (if ds[|ds| - 1].admitted then 1 else 0)
  }

  /** Admitted requests in the closed window [from, to]. */
  function AdmittedWithin(ds: seq<Decision>, from: Time, to: Time): nat {
    if ds == [] then 0
    else
      var d := ds[|ds| - 1];
      AdmittedWithin(ds[..|ds| - 1], from, to) + (if d.admitted && from <= d.at <= to then 1 else 0)
  }

  // The arithmetic of the constructor ------------------------------------------------------------

  lemma MulMonotone(a: int, b: int, c: nat)
    requires a <= b
    ensures a * c <= b * c
    ensures c * a <= c * b
  {
  }

  /**
   The interval is the longest whole number of nanoseconds of which the budget's number fits in a minute,
   and the burst is the budget.
   */
  lemma IntervalExact(rpm: nat)
    requires rpm > 0
    ensures
      var limit := PerMinute(rpm);
      limit.interval * rpm <= 60_000_000_000 < (limit.interval + 1) * rpm && limit.burst == rpm
  {
    assert 60_000_000_000 == MINUTE / rpm * rpm + MINUTE % rpm;
  }

  /** A full refill never takes longer than a minute, and one more interval never more than two. */
  lemma RefillFitsInAMinute(rpm: nat)
    requires rpm > 0
    ensures PerMinute(rpm).Capacity() <= MINUTE
    ensures PerMinute(rpm).interval <= MINUTE
    ensures PerMinute(rpm).interval == 0 <==> rpm > MINUTE
  {
    var q, r := MINUTE / rpm, MINUTE % rpm;
    assert q * rpm + r == MINUTE;
    MulMonotone(1, rpm, q);
    if q >= 1 {
      MulMonotone(1, q, rpm);
    }
  }

  /**
   Rounding twice is harmless exactly when the first remainder is below the interval: then a minute
   holds `rpm` refill intervals, no more.
   */
  lemma IntervalsPerMinute(n: nat, k: nat)
    requires 0 < k <= n
    ensures n / k > 0
    ensures k <= n / (n / k)
    ensures n / (n / k) == k <==> n % k < n / k
    ensures k * k <= n ==> n / (n / k) == k
  {
    var q, r := n / k, n % k;
    assert n == q * k + r;
    var q', r' := n / q, n % q;
    assert n == q' * q + r';
    assert (q' - k) * q == r - r';
    if q' < k { MulMonotone(q' - k, -1, q); }
    if q' > k { MulMonotone(1, q' - k, q); }
    if q < k {
      MulMonotone(q + 1, k, k);
    }
  }
}
