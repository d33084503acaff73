/**
 Forgetting idle visitors changes no answer, and isolates no address from its own past: the proofs
 that the evicting limiter behaves like one private bucket per address.
 */
module Eviction {
  import opened TokenBucket
  import opened AdmissionLaw
  import opened LimiterRuns

  /** The largest gap between the two clock readings for which forgetting goes unnoticed. */
  function Tolerance(limit: Limit): int {
    IDLE + 1 - limit.interval
  }

  ghost predicate Tolerated(limit: Limit, gap: int) {
    limit.interval == 0 || gap <= Tolerance(limit)
  }

  // A limit whose bucket, and one interval more, refill within the idle time.
  ghost predicate Refills(limit: Limit) {
    limit.burst > 0 && limit.Capacity() + limit.interval <= IDLE + 1
  }

  lemma PerMinuteRefills(rpm: nat)
    requires rpm > 0
    ensures Refills(PerMinute(rpm))
  {
    RefillFitsInAMinute(rpm);
  }

  // The bucket is full from time `t` on.
  ghost predicate FullFrom(limit: Limit, b: Bucket, t: Time) {
    limit.Capacity() <= b.credit || limit.Capacity() <= b.credit + t - b.last
  }

  // What holds of every entry that was never forgotten.
  ghost predicate Settled(limit: Limit, e: Entry, now: Time) {
    && 0 <= e.bucket.credit <= limit.Capacity()
    && e.bucket.last <= now
    && e.lastSeen <= now
    && FullFrom(limit, e.bucket, e.lastSeen + IDLE + 1)
  }

  lemma VisitSettles(limit: Limit, b: Bucket, now: Time, seen: Time, decided: Time)
    requires Refills(limit) && now <= seen <= decided
    requires Tolerated(limit, decided - seen)
    requires 0 <= b.credit <= limit.Capacity()
    requires b.last <= now || b == Fresh(limit)
    ensures Settled(limit, Entry(Take(limit, b, decided).0, seen), decided)
  {
    OneTokenFits(limit);
  }

  lemma {:induction false} NeverForgottenSettled(limit: Limit, run: seq<Event>, gap: int)
    requires Refills(limit) && WellTimed(run) && GapsWithin(run, gap) && Tolerated(limit, gap)
    ensures forall ip :: ip in TableAfter(limit, run, false) ==>
      Settled(limit, TableAfter(limit, run, false)[ip], Clock(run))
  {
    if run == [] {
    } else {
      var earlier, e := run[..|run| - 1], run[|run| - 1];
      NeverForgottenSettled(limit, earlier, gap);
      if e.Request? {
        var table := TableAfter(limit, earlier, false);
        OneTokenFits(limit);
        VisitSettles(limit, BucketOf(limit, table, e.ip), Clock(earlier), e.seen, e.decided);
      }
    }
  }

  /** A full bucket and a new one answer alike and are alike afterwards. */
  lemma FullActsFresh(limit: Limit, b: Bucket, t: Time)
    requires limit.burst > 0 && b.credit <= limit.Capacity() && b.last <= t && FullFrom(limit, b, t)
    ensures Take(limit, b, t) == Take(limit, Fresh(limit), t)
  {
    OneTokenFits(limit);
  }

  // The forgetting table is part of the other, and what is missing from it is full again.
  ghost predicate Agrees(limit: Limit, forgetting: Table, full: Table, now: Time) {
    && (forall ip :: ip in forgetting ==> ip in full && forgetting[ip] == full[ip])
    && (forall ip :: ip in full && ip !in forgetting ==> FullFrom(limit, full[ip].bucket, now))
  }

  lemma VisitAlike(limit: Limit, run: seq<Event>, gap: int, ip: IP, seen: Time, decided: Time)
    requires Refills(limit) && WellTimed(run) && GapsWithin(run, gap) && Tolerated(limit, gap)
    requires Clock(run) <= seen <= decided
    requires Agrees(limit, TableAfter(limit, run, true), TableAfter(limit, run, false), Clock(run))
    ensures
      Take(limit, BucketOf(limit, TableAfter(limit, run, true), ip), decided) ==
      Take(limit, BucketOf(limit, TableAfter(limit, run, false), ip), decided)
  {
    var forgetting, full := TableAfter(limit, run, true), TableAfter(limit, run, false);
    NeverForgottenSettled(limit, run, gap);
    if ip in full && ip !in forgetting {
      FullActsFresh(limit, full[ip].bucket, decided);
    }
  }

  lemma {:induction false} TablesAgree(limit: Limit, run: seq<Event>, gap: int)
    requires Refills(limit) && WellTimed(run) && GapsWithin(run, gap) && Tolerated(limit, gap)
    ensures Agrees(limit, TableAfter(limit, run, true), TableAfter(limit, run, false), Clock(run))
  {
    if run == [] {
    } else {
      var earlier, e := run[..|run| - 1], run[|run| - 1];
      TablesAgree(limit, earlier, gap);
      NeverForgottenSettled(limit, earlier, gap);
      if e.Request? {
        VisitAlike(limit, earlier, gap, e.ip, e.seen, e.decided);
      }
    }
  }

  /** Eviction is invisible: on every run the forgetting limiter answers as the one that never forgets. */
  lemma {:induction false} EvictionInvisible(limit: Limit, run: seq<Event>, gap: int)
    requires Refills(limit) && WellTimed(run) && GapsWithin(run, gap) && Tolerated(limit, gap)
    ensures Verdicts(limit, run, true) == Verdicts(limit, run, false)
  {
    if run == [] {
    } else {
      var earlier, e := run[..|run| - 1], run[|run| - 1];
      EvictionInvisible(limit, earlier, gap);
      if e.Request? {
        TablesAgree(limit, earlier, gap);
        VisitAlike(limit, earlier, gap, e.ip, e.seen, e.decided);
      }
    }
  }

  // Where it stops being invisible -----------------------------------------------------------------

  /**
   One slow request, a sweep as soon as the entry may go, then a burst of `n` at that same moment.
   */
  function SlowThenBurst(limit: Limit, ip: IP, n: nat): seq<Event> {
    [Request(ip, 0, Tolerance(limit) + 1), Sweep(IDLE + 1)] + seq(n, _ => Request(ip, IDLE + 1, IDLE + 1))
  }

  lemma {:induction false} SlowThenBurstTimed(limit: Limit, ip: IP, n: nat)
    requires 0 < limit.interval <= IDLE + 1
    ensures WellTimed(SlowThenBurst(limit, ip, n)) && Clock(SlowThenBurst(limit, ip, n)) == IDLE + 1
    ensures GapsWithin(SlowThenBurst(limit, ip, n), Tolerance(limit) + 1)
  {
    var run := SlowThenBurst(limit, ip, n);
    if n == 0 {
      assert run[..1] == [Request(ip, 0, Tolerance(limit) + 1)];
      assert run[..1][..0] == [];
    } else {
      SlowThenBurstTimed(limit, ip, n - 1);
      assert run[..|run| - 1] == SlowThenBurst(limit, ip, n - 1);
    }
  }

  lemma SlowThenBurstLast(limit: Limit, ip: IP, n: nat)
    ensures SlowThenBurst(limit, ip, n + 1) == SlowThenBurst(limit, ip, n) + [Request(ip, IDLE + 1, IDLE + 1)]
  {
  }

  // Both buckets when the burst starts: the forgotten one is new, the other one nanosecond short of full.
  lemma BurstStarts(limit: Limit, ip: IP)
    requires Refills(limit) && 0 < limit.interval
    ensures ip !in TableAfter(limit, SlowThenBurst(limit, ip, 0), true)
    ensures
      var full := TableAfter(limit, SlowThenBurst(limit, ip, 0), false);
      ip in full && full[ip].bucket == Bucket(limit.Capacity() - limit.interval, Tolerance(limit) + 1)
  {
    OneTokenFits(limit);
    var run := SlowThenBurst(limit, ip, 0);
    var slow := [Request(ip, 0, Tolerance(limit) + 1)];
    assert run[..1] == slow && slow[..0] == [];
    forall forgets: bool
      ensures TableAfter(limit, slow, forgets) == Visit(limit, map[], ip, 0, Tolerance(limit) + 1).0
    {
    }
  }

  // n requests into the burst, given a bucket that held `credit` at its start.
  ghost predicate Drained(limit: Limit, b: Bucket, credit: int, n: nat) {
    Level(limit, b, IDLE + 1) == credit - n * limit.interval && b.last <= IDLE + 1
  }

  lemma DrainStep(limit: Limit, b: Bucket, credit: int, n: nat)
    requires Drained(limit, b, credit, n) && credit <= limit.Capacity()
    requires (n + 1) * limit.interval <= credit
    ensures Take(limit, b, IDLE + 1).1
    ensures Drained(limit, Take(limit, b, IDLE + 1).0, credit, n + 1)
  {
    assert (n + 1) * limit.interval == n * limit.interval + limit.interval;
    MulMonotone(0, n, limit.interval);
  }

  lemma BurstCost(limit: Limit, n: nat)
    requires 0 < limit.interval && n < limit.burst
    ensures n * limit.interval < limit.Capacity()
  {
    MulMonotone(n + 1, limit.burst, limit.interval);
  }

  lemma {:induction false} SlowThenBurstDrains(limit: Limit, ip: IP, n: nat)
    requires Refills(limit) && 0 < limit.interval && n < limit.burst
    ensures
      var run := SlowThenBurst(limit, ip, n);
      && Drained(limit, BucketOf(limit, TableAfter(limit, run, true), ip), limit.Capacity(), n)
      && Drained(limit, BucketOf(limit, TableAfter(limit, run, false), ip), limit.Capacity() - 1, n)
  {
    OneTokenFits(limit);
    if n == 0 {
      BurstStarts(limit, ip);
    } else {
      var earlier := SlowThenBurst(limit, ip, n - 1);
      SlowThenBurstDrains(limit, ip, n - 1);
      SlowThenBurstLast(limit, ip, n - 1);
      assert SlowThenBurst(limit, ip, n)[..|earlier|] == earlier;
      BurstCost(limit, n);
      DrainStep(limit, BucketOf(limit, TableAfter(limit, earlier, true), ip), limit.Capacity(), n - 1);
      DrainStep(limit, BucketOf(limit, TableAfter(limit, earlier, false), ip), limit.Capacity() - 1, n - 1);
    }
  }

  lemma LastOfBurst(limit: Limit, ip: IP, n: nat, forgets: bool)
    ensures
      var earlier, run := SlowThenBurst(limit, ip, n), SlowThenBurst(limit, ip, n + 1);
      var bucket := BucketOf(limit, TableAfter(limit, earlier, forgets), ip);
      Verdicts(limit, run, forgets) ==
        Verdicts(limit, earlier, forgets) + [Verdict(ip, IDLE + 1, Take(limit, bucket, IDLE + 1).1)]
  {
    var run := SlowThenBurst(limit, ip, n + 1);
    SlowThenBurstLast(limit, ip, n);
    assert run[..|run| - 1] == SlowThenBurst(limit, ip, n);
  }

  lemma LastTokenOnlyIfFull(limit: Limit, b: Bucket, credit: int)
    requires limit.burst > 0 && Drained(limit, b, credit, limit.burst - 1)
    ensures Take(limit, b, IDLE + 1).1 <==> limit.Capacity() <= credit
  {
    assert (limit.burst - 1) * limit.interval == limit.Capacity() - limit.interval;
  }

  /** One nanosecond beyond the tolerance, the last request of a burst gives the eviction away. */
  lemma EvictionVisible(limit: Limit, ip: IP)
    requires Refills(limit) && 0 < limit.interval
    ensures
      var run := SlowThenBurst(limit, ip, limit.burst);
      Verdicts(limit, run, true) != Verdicts(limit, run, false)
  {
    var n := limit.burst - 1;
    var earlier := SlowThenBurst(limit, ip, n);
    SlowThenBurstDrains(limit, ip, n);
    LastTokenOnlyIfFull(limit, BucketOf(limit, TableAfter(limit, earlier, true), ip), limit.Capacity());
    LastTokenOnlyIfFull(limit, BucketOf(limit, TableAfter(limit, earlier, false), ip), limit.Capacity() - 1);
    LastOfBurst(limit, ip, n, true);
    LastOfBurst(limit, ip, n, false);
    var run := SlowThenBurst(limit, ip, limit.burst);
    var yes, no := Verdicts(limit, run, true), Verdicts(limit, run, false);
    assert yes[|yes| - 1].admitted != no[|no| - 1].admitted;
  }

  /**
   Eviction is invisible on every run whose requests keep their two clock readings within `gap` if
   and only if the limit is unlimited or the gap leaves one refill interval of the idle time.
   */
  lemma EvictionInvisibleIff(rpm: nat, gap: int)
    requires rpm > 0
    ensures
      var limit := PerMinute(rpm);
      rpm > 60_000_000_000 || gap <= 180_000_000_001 - 60_000_000_000 / rpm <==>
      forall run | WellTimed(run) && GapsWithin(run, gap) :: Verdicts(limit, run, true) == Verdicts(limit, run, false)
  {
    var limit := PerMinute(rpm);
    PerMinuteRefills(rpm);
    RefillFitsInAMinute(rpm);
    if Tolerated(limit, gap) {
      forall run | WellTimed(run) && GapsWithin(run, gap)
        ensures Verdicts(limit, run, true) == Verdicts(limit, run, false)
      {
        EvictionInvisible(limit, run, gap);
      }
    } else {
      var run := SlowThenBurst(limit, "", limit.burst);
      SlowThenBurstTimed(limit, "", limit.burst);
      EvictionVisible(limit, "");
      assert WellTimed(run) && GapsWithin(run, gap);
    }
  }

  /** Two minutes between the readings are tolerated whatever the budget. */
  lemma TwoMinutesTolerated(rpm: nat)
    requires rpm > 0
    ensures Tolerated(PerMinute(rpm), 120_000_000_000)
  {
    RefillFitsInAMinute(rpm);
  }
}
