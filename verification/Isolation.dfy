/**
 What the evicting limiter promises each address, on every run: the answers of one private bucket,
 whatever other addresses and the cleanup do. The laws of a single bucket follow for the limiter.
 */
module Isolation {
  import opened TokenBucket
  import opened AdmissionLaw
  import opened LimiterRuns
  import opened Eviction

  /** A run the limiter can see in service: sane clock readings, with the gap between two tolerated. */
  ghost predicate InService(rpm: nat, run: seq<Event>) {
    && rpm > 0
    && WellTimed(run)
    && (rpm <= MINUTE ==> GapsWithin(run, Tolerance(PerMinute(rpm))))
  }

  lemma {:induction false} TimesMonotone(run: seq<Event>, ip: IP)
    requires WellTimed(run)
    ensures Monotone(TimesOf(run, ip)) && 0 <= Clock(run)
    ensures forall i :: 0 <= i < |TimesOf(run, ip)| ==> TimesOf(run, ip)[i] <= Clock(run)
  {
    if run == [] {
    } else {
      TimesMonotone(run[..|run| - 1], ip);
    }
  }

  lemma {:induction false} NeverForgettingIsolates(limit: Limit, run: seq<Event>, ip: IP)
    ensures BucketOf(limit, TableAfter(limit, run, false), ip) == After(limit, TimesOf(run, ip))
    ensures AnswersTo(Verdicts(limit, run, false), ip) == Decide(limit, TimesOf(run, ip))
  {
    if run == [] {
    } else {
      var earlier, e := run[..|run| - 1], run[|run| - 1];
      NeverForgettingIsolates(limit, earlier, ip);
      if e.Request? {
        var before, answers := Verdicts(limit, earlier, false), Verdicts(limit, run, false);
        assert answers[..|answers| - 1] == before;
        if e.ip == ip {
          var times := TimesOf(run, ip);
          assert times[..|times| - 1] == TimesOf(earlier, ip);
        }
      }
    }
  }

  // A bound on the gaps of a finite run.
  ghost function LargestGap(run: seq<Event>): (gap: int)
    ensures GapsWithin(run, gap)
  {
    if run == [] then 0
    else
      var e, gap := run[0], LargestGap(run[1..]);
      assert forall i :: 1 <= i < |run| ==> run[i] == run[1..][i - 1];
      if e.Request? && gap < e.decided - e.seen then e.decided - e.seen else gap
  }

  lemma InServiceEvictionInvisible(rpm: nat, run: seq<Event>)
    requires InService(rpm, run)
    ensures Verdicts(PerMinute(rpm), run, true) == Verdicts(PerMinute(rpm), run, false)
    ensures
      var limit := PerMinute(rpm);
      Agrees(limit, TableAfter(limit, run, true), TableAfter(limit, run, false), Clock(run))
  {
    var limit := PerMinute(rpm);
    PerMinuteRefills(rpm);
    RefillFitsInAMinute(rpm);
    var gap := if limit.interval == 0 then LargestGap(run) else Tolerance(limit);
    EvictionInvisible(limit, run, gap);
    TablesAgree(limit, run, gap);
  }

  /** Each address is answered as by a bucket of its own, asked at its own times only. */
  lemma AnswersAreOneBuckets(rpm: nat, run: seq<Event>, ip: IP)
    requires InService(rpm, run)
    ensures AnswersTo(Verdicts(PerMinute(rpm), run, true), ip) == Decide(PerMinute(rpm), TimesOf(run, ip))
    ensures Monotone(TimesOf(run, ip))
  {
    InServiceEvictionInvisible(rpm, run);
    NeverForgettingIsolates(PerMinute(rpm), run, ip);
    TimesMonotone(run, ip);
  }

  /** The exact admission law of the limiter, evictions included. */
  lemma LimiterAdmitsIff(rpm: nat, run: seq<Event>, ip: IP, k: nat)
    requires InService(rpm, run) && rpm <= MINUTE
    requires k < |AnswersTo(Verdicts(PerMinute(rpm), run, true), ip)|
    ensures PerMinute(rpm).interval > 0
    ensures
      var answers := AnswersTo(Verdicts(PerMinute(rpm), run, true), ip);
      answers[k].admitted <==> WithinRate(PerMinute(rpm), answers[..k], answers[k].at)
  {
    RefillFitsInAMinute(rpm);
    AnswersAreOneBuckets(rpm, run, ip);
    AdmittedIff(PerMinute(rpm), TimesOf(run, ip), k);
  }

  /** A budget above one request per nanosecond limits nothing. */
  lemma UnlimitedAdmitsAll(rpm: nat, run: seq<Event>, ip: IP, k: nat)
    requires InService(rpm, run) && rpm > MINUTE
    requires k < |AnswersTo(Verdicts(PerMinute(rpm), run, true), ip)|
    ensures AnswersTo(Verdicts(PerMinute(rpm), run, true), ip)[k].admitted
  {
    RefillFitsInAMinute(rpm);
    AnswersAreOneBuckets(rpm, run, ip);
    PatientRequestAdmitted(PerMinute(rpm), TimesOf(run, ip), k);
  }

  /** A request one interval after the address's previous one is admitted, whatever came before. */
  lemma NoStarvation(rpm: nat, run: seq<Event>, ip: IP, k: nat)
    requires InService(rpm, run)
    requires k < |AnswersTo(Verdicts(PerMinute(rpm), run, true), ip)|
    requires
      var answers := AnswersTo(Verdicts(PerMinute(rpm), run, true), ip);
      k > 0 ==> answers[k].at - answers[k - 1].at >= PerMinute(rpm).interval
    ensures AnswersTo(Verdicts(PerMinute(rpm), run, true), ip)[k].admitted
  {
    AnswersAreOneBuckets(rpm, run, ip);
    PatientRequestAdmitted(PerMinute(rpm), TimesOf(run, ip), k);
  }

  /** Any closed window, across evictions. */
  lemma LimiterWindowBound(rpm: nat, run: seq<Event>, ip: IP, from: Time, to: Time)
    requires InService(rpm, run) && rpm <= MINUTE && from <= to
    ensures PerMinute(rpm).interval > 0
    ensures
      AdmittedWithin(AnswersTo(Verdicts(PerMinute(rpm), run, true), ip), from, to)
      <= rpm + (to - from) / PerMinute(rpm).interval
  {
    RefillFitsInAMinute(rpm);
    AnswersAreOneBuckets(rpm, run, ip);
    WindowBound(PerMinute(rpm), TimesOf(run, ip), from, to);
  }

  /** The run that asks for one address at the given times, both readings alike. */
  function AskAt(ip: IP, times: seq<Time>): seq<Event> {
    seq(|times|, i requires 0 <= i < |times| => Request(ip, times[i], times[i]))
  }

  lemma {:induction false} AskAtTimes(ip: IP, times: seq<Time>)
    requires Monotone(times) && (times != [] ==> 0 <= times[0])
    ensures WellTimed(AskAt(ip, times)) && GapsWithin(AskAt(ip, times), 0)
    ensures Clock(AskAt(ip, times)) == if times == [] then 0 else times[|times| - 1]
    ensures TimesOf(AskAt(ip, times), ip) == times
  {
    if times == [] {
    } else {
      var n := |times| - 1;
      AskAtTimes(ip, times[..n]);
      assert AskAt(ip, times)[..n] == AskAt(ip, times[..n]);
    }
  }

  /** Admitted requests of `ip` in the closed minute that starts at `from`. */
  function AdmittedInMinute(rpm: nat, run: seq<Event>, ip: IP, from: Time): nat
    requires rpm > 0
  {
    AdmittedWithin(AnswersTo(Verdicts(PerMinute(rpm), run, true), ip), from, from + MINUTE)
  }

  ghost predicate AtMostTwiceAMinute(rpm: nat)
    requires rpm > 0
  {
    forall run, ip, from :: InService(rpm, run) ==> AdmittedInMinute(rpm, run, ip, from) <= 2 * rpm
  }

  lemma BusiestMinute(rpm: nat) returns (run: seq<Event>)
    requires 0 < rpm <= MINUTE
    ensures PerMinute(rpm).interval > 0 && InService(rpm, run)
    ensures AdmittedInMinute(rpm, run, "", 0) == rpm + MINUTE / PerMinute(rpm).interval
  {
    RefillFitsInAMinute(rpm);
    var times := WindowBoundReached(PerMinute(rpm), 0, MINUTE);
    AskAtTimes("", times);
    run := AskAt("", times);
    AnswersAreOneBuckets(rpm, run, "");
  }

  lemma MoreThanTwice(rpm: nat)
    requires 0 < rpm <= MINUTE && MINUTE / rpm <= MINUTE % rpm
    ensures !AtMostTwiceAMinute(rpm)
  {
    IntervalsPerMinute(MINUTE, rpm);
    var run := BusiestMinute(rpm);
    assert AdmittedInMinute(rpm, run, "", 0) > 2 * rpm;
  }

  /**
   No minute admits more than twice the budget, on any run, if and only if the division of the minute
   leaves a remainder below the interval; a budget whose square fits in a minute always does.
   */
  lemma TwiceTheBudgetIff(rpm: nat)
    requires 0 < rpm <= MINUTE
    ensures AtMostTwiceAMinute(rpm) <==> 60_000_000_000 % rpm < 60_000_000_000 / rpm
    ensures rpm * rpm <= MINUTE ==> AtMostTwiceAMinute(rpm)
  {
    IntervalsPerMinute(MINUTE, rpm);
    if MINUTE % rpm < MINUTE / rpm {
      forall run, ip, from | InService(rpm, run)
        ensures AdmittedInMinute(rpm, run, ip, from) <= 2 * rpm
      {
        LimiterWindowBound(rpm, run, ip, from, from + MINUTE);
      }
    } else {
      MoreThanTwice(rpm);
    }
  }

  // The table --------------------------------------------------------------------------------------

  /** Request k is the latest of `ip`, and no sweep since had a cutoff past its recorded time. */
  ghost predicate RememberedSince(run: seq<Event>, ip: IP, k: int) {
    && 0 <= k < |run| && run[k].Request? && run[k].ip == ip
    && forall m :: k < m < |run| ==>
      match run[m]
      case Request(other, _, _) => other != ip
      case Sweep(read) => read - 180_000_000_000 <= run[k].seen
  }

  /**
   The visitors in any reachable table, exactly: an address has an entry if and only if no sweep since
   its latest request had to drop it, and the entry records that request's time, admitted or refused.
   */
  lemma {:induction false} TableContents(limit: Limit, run: seq<Event>, ip: IP)
    ensures ip in TableAfter(limit, run, true) <==> exists k :: RememberedSince(run, ip, k)
    ensures forall k :: RememberedSince(run, ip, k) ==>
      ip in TableAfter(limit, run, true) && TableAfter(limit, run, true)[ip].lastSeen == run[k].seen
  {
    if run == [] {
    } else {
      var n := |run| - 1;
      var earlier, e := run[..n], run[n];
      TableContents(limit, earlier, ip);
      if e.Request? && e.ip == ip {
        assert RememberedSince(run, ip, n);
      } else {
        forall k
          ensures RememberedSince(run, ip, k) <==>
            RememberedSince(earlier, ip, k) && (e.Sweep? ==> e.read - IDLE <= earlier[k].seen)
        {
        }
        if k :| RememberedSince(earlier, ip, k) {
          assert ip in TableAfter(limit, run, true) ==> RememberedSince(run, ip, k);
        }
      }
    }
  }

  /** Every stored credit is between empty and full, in every reachable table. */
  lemma {:induction false} CreditsBounded(limit: Limit, run: seq<Event>, forgets: bool)
    ensures forall ip :: ip in TableAfter(limit, run, forgets) ==>
      0 <= TableAfter(limit, run, forgets)[ip].bucket.credit <= limit.Capacity()
  {
    if run == [] {
    } else {
      CreditsBounded(limit, run[..|run| - 1], forgets);
    }
  }

  /** In service, a remembered bucket is the one its own requests made. */
  lemma RememberedBucket(rpm: nat, run: seq<Event>, ip: IP)
    requires InService(rpm, run) && ip in TableAfter(PerMinute(rpm), run, true)
    ensures TableAfter(PerMinute(rpm), run, true)[ip].bucket == After(PerMinute(rpm), TimesOf(run, ip))
  {
    InServiceEvictionInvisible(rpm, run);
    NeverForgettingIsolates(PerMinute(rpm), run, ip);
  }

  lemma {:induction false} SweepBoundsLater(run: seq<Event>, m: nat)
    requires WellTimed(run) && m < |run| && run[m].Sweep?
    ensures run[m].read <= Clock(run)
    ensures forall k :: m < k < |run| && run[k].Request? ==> run[m].read <= run[k].seen
  {
    var n := |run| - 1;
    if m == n {
    } else {
      SweepBoundsLater(run[..n], m);
      assert forall k :: 0 <= k < n ==> run[..n][k] == run[k];
    }
  }

  /**
   The table is bounded in time: while the latest tick's reading is no more than a tick behind the
   clock, no entry was last seen longer ago than the idle time and a tick, four minutes in all.
   */
  lemma EntriesExpire(limit: Limit, run: seq<Event>, m: nat, ip: IP)
    requires WellTimed(run) && m < |run| && run[m].Sweep? && Clock(run) - run[m].read <= 60_000_000_000
    requires ip in TableAfter(limit, run, true)
    ensures Clock(run) - TableAfter(limit, run, true)[ip].lastSeen <= 240_000_000_000
  {
    TableContents(limit, run, ip);
    SweepBoundsLater(run, m);
    var k :| RememberedSince(run, ip, k);
  }
}
