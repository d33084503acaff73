/**
 What one bucket promises about its own history: which requests it admits, how many fit in a
 window of time, and who is never refused.
 */
module AdmissionLaw {
  import opened TokenBucket

  /**
   The stateless admission rule: counted from any earlier admitted request up to and including one
   more at time `t`, the admitted requests are paid for by a full bucket plus the time between.
   */
  ghost predicate Fits(limit: Limit, history: seq<Decision>, t: Time) {
    forall j :: 0 <= j < |history| && history[j].admitted ==>
      (Admitted(history[j..]) + 1) * limit.interval <= limit.Capacity() + t - history[j].at
  }

  /** The same run decided from history alone: no credit, no last update. */
  ghost function DecideFromHistory(limit: Limit, times: seq<Time>): seq<Decision> {
    if times == [] then []
    else
      var history := DecideFromHistory(limit, times[..|times| - 1]);
      var t := times[|times| - 1];
      history + [Decision(t, Fits(limit, history, t))]
  }

  // How many nanoseconds of credit are left at time 0 once the requests from j on are paid.
  ghost function Slack(limit: Limit, history: seq<Decision>, j: nat): int
    requires j < |history|
  {
    limit.Capacity() - history[j].at - Admitted(history[j..]) * limit.interval
  }

  ghost predicate Untouched(history: seq<Decision>) {
    forall j :: 0 <= j < |history| ==> !history[j].admitted
  }

  // The bucket is the tightest of the constraints its history imposes.
  ghost predicate Anchored(limit: Limit, history: seq<Decision>, b: Bucket) {
    if Untouched(history) then b == Fresh(limit)
    else
      && (forall j :: 0 <= j < |history| && history[j].admitted ==> b.credit - b.last <= Slack(limit, history, j))
      && (exists j :: 0 <= j < |history| && history[j].admitted && b.credit - b.last == Slack(limit, history, j))
  }

  lemma AdmittedSuffix(ds: seq<Decision>, d: Decision, j: nat)
    requires j <= |ds|
    ensures Admitted((ds + [d])[j..]) == Admitted(ds[j..]) + (if d.admitted then 1 else 0)
  {
    assert (ds + [d])[j..] == ds[j..] + [d];
    assert (ds[j..] + [d])[..|ds| - j] == ds[j..];
  }

  lemma SlackAfter(limit: Limit, ds: seq<Decision>, d: Decision, j: nat)
    requires j < |ds|
    ensures Slack(limit, ds + [d], j) == Slack(limit, ds, j) - (if d.admitted then limit.interval else 0)
  {
    AdmittedSuffix(ds, d, j);
    assert (Admitted(ds[j..]) + 1) * limit.interval == Admitted(ds[j..]) * limit.interval + limit.interval;
  }

  lemma SlackOfLast(limit: Limit, ds: seq<Decision>, t: Time)
    ensures Slack(limit, ds + [Decision(t, true)], |ds|) == limit.Capacity() - t - limit.interval
  {
    var h := ds + [Decision(t, true)];
    assert h[|ds|..] == [Decision(t, true)];
    assert Admitted([Decision(t, true)]) == 1;
  }

  lemma OneTokenFits(limit: Limit)
    requires limit.burst > 0
    ensures limit.interval <= limit.Capacity()
  {
    MulMonotone(1, limit.burst, limit.interval);
  }

  /** Some admission admits: an anchored bucket has a token at time `t` exactly when history lets it. */
  lemma AnchoredDecision(limit: Limit, history: seq<Decision>, b: Bucket, t: Time)
    requires limit.burst > 0 && Anchored(limit, history, b)
    requires b.last <= t || Untouched(history)
    ensures Take(limit, b, t).1 <==> Fits(limit, history, t)
  {
    OneTokenFits(limit);
    forall j | 0 <= j < |history| && history[j].admitted
      ensures (Admitted(history[j..]) + 1) * limit.interval <= limit.Capacity() + t - history[j].at
              <==> limit.interval <= Slack(limit, history, j) + t
    {
      var n := Admitted(history[j..]);
      assert (n + 1) * limit.interval == n * limit.interval + limit.interval;
    }
  }

  lemma AnchoredStep(limit: Limit, history: seq<Decision>, b: Bucket, t: Time)
    requires limit.burst > 0 && Anchored(limit, history, b)
    requires b.last <= t || Untouched(history)
    ensures var (b', ok) := Take(limit, b, t); Anchored(limit, history + [Decision(t, ok)], b')
  {
    OneTokenFits(limit);
    var (b', ok) := Take(limit, b, t);
    var d := Decision(t, ok);
    var history' := history + [d];
    forall j: nat | j < |history|
      ensures Slack(limit, history', j) == Slack(limit, history, j) - (if ok then limit.interval else 0)
      ensures history'[j] == history[j]
    {
      SlackAfter(limit, history, d, j);
    }
    if ok {
      SlackOfLast(limit, history, t);
      assert history'[|history|].admitted;
    }
  }

  /** Credit stays within the bucket and only an admission moves the last update, never ahead of the clock. */
  lemma {:induction false} BucketBounds(limit: Limit, times: seq<Time>)
    requires limit.burst > 0 && Monotone(times)
    ensures 0 <= After(limit, times).credit <= limit.Capacity()
    ensures Untouched(Decide(limit, times)) || (times != [] && After(limit, times).last <= times[|times| - 1])
  {
    OneTokenFits(limit);
    if times == [] {
    } else {
      var earlier := times[..|times| - 1];
      BucketBounds(limit, earlier);
      assert Decide(limit, times)[..|earlier|] == Decide(limit, earlier);
    }
  }

  lemma {:induction false} BucketAnchored(limit: Limit, times: seq<Time>)
    requires limit.burst > 0 && Monotone(times)
    ensures Anchored(limit, Decide(limit, times), After(limit, times))
  {
    if times == [] {
    } else {
      var earlier := times[..|times| - 1];
      BucketAnchored(limit, earlier);
      BucketBounds(limit, earlier);
      AnchoredStep(limit, Decide(limit, earlier), After(limit, earlier), times[|times| - 1]);
    }
  }

  lemma NextDecision(limit: Limit, times: seq<Time>)
    requires limit.burst > 0 && Monotone(times) && times != []
    ensures
      var earlier, t := times[..|times| - 1], times[|times| - 1];
      Take(limit, After(limit, earlier), t).1 <==> Fits(limit, Decide(limit, earlier), t)
  {
    var earlier := times[..|times| - 1];
    BucketAnchored(limit, earlier);
    BucketBounds(limit, earlier);
    AnchoredDecision(limit, Decide(limit, earlier), After(limit, earlier), times[|times| - 1]);
  }

  /** The saturating bucket computes the stateless rule, on every run. */
  lemma {:induction false} BucketIsStatelessRule(limit: Limit, times: seq<Time>)
    requires limit.burst > 0 && Monotone(times)
    ensures Decide(limit, times) == DecideFromHistory(limit, times)
  {
    if times == [] {
    } else {
      BucketIsStatelessRule(limit, times[..|times| - 1]);
      NextDecision(limit, times);
    }
  }

  lemma {:induction false} DecidePrefix(limit: Limit, times: seq<Time>, k: nat)
    requires k <= |times|
    ensures Decide(limit, times)[..k] == Decide(limit, times[..k])
  {
    if k == |times| {
      assert times[..k] == times;
    } else {
      var earlier := times[..|times| - 1];
      DecidePrefix(limit, earlier, k);
      assert earlier[..k] == times[..k];
      assert Decide(limit, times)[..k] == Decide(limit, earlier)[..k];
    }
  }

  lemma RateForm(limit: Limit, n: int, elapsed: int)
    requires limit.interval > 0
    ensures n * limit.interval <= limit.Capacity() + elapsed <==> n <= limit.burst + elapsed / limit.interval
  {
    var q, r := elapsed / limit.interval, elapsed % limit.interval;
    assert elapsed == q * limit.interval + r;
    var m := n - limit.burst - q;
    assert n * limit.interval - limit.Capacity() - elapsed == m * limit.interval - r;
    if m <= 0 { MulMonotone(m, 0, limit.interval); } else { MulMonotone(1, m, limit.interval); }
  }

  /**
   The rule in requests rather than nanoseconds: for every earlier admitted request at time s, the
   admitted requests from that one up to and including one more at time t number at most
   burst + floor((t - s) / interval).
   */
  ghost predicate WithinRate(limit: Limit, history: seq<Decision>, t: Time)
    requires limit.interval > 0
  {
    forall j :: 0 <= j < |history| && history[j].admitted ==>
      Admitted(history[j..]) + 1 <= limit.burst + (t - history[j].at) / limit.interval
  }

  lemma FitsIsWithinRate(limit: Limit, history: seq<Decision>, t: Time)
    requires limit.interval > 0
    ensures Fits(limit, history, t) <==> WithinRate(limit, history, t)
  {
    forall j | 0 <= j < |history|
      ensures (Admitted(history[j..]) + 1) * limit.interval <= limit.Capacity() + t - history[j].at
              <==> Admitted(history[j..]) + 1 <= limit.burst + (t - history[j].at) / limit.interval
    {
      RateForm(limit, Admitted(history[j..]) + 1, t - history[j].at);
    }
  }

  /** The exact admission law, request by request. */
  lemma AdmittedIff(limit: Limit, times: seq<Time>, k: nat)
    requires limit.burst > 0 && limit.interval > 0 && Monotone(times) && k < |times|
    ensures
      var ds := Decide(limit, times);
      ds[k].admitted <==> WithinRate(limit, ds[..k], times[k])
  {
    var ds, upTo := Decide(limit, times), times[..k + 1];
    DecidePrefix(limit, times, k);
    DecidePrefix(limit, times, k + 1);
    assert upTo[..k] == times[..k];
    assert ds[k] == ds[..k + 1][k];
    NextDecision(limit, upTo);
    FitsIsWithinRate(limit, ds[..k], times[k]);
  }

  // Windows ----------------------------------------------------------------------------------------

  lemma {:induction false} FirstInWindow(ds: seq<Decision>, from: Time, to: Time) returns (j: nat)
    requires AdmittedWithin(ds, from, to) > 0
    ensures j < |ds| && ds[j].admitted && from <= ds[j].at <= to
    ensures AdmittedWithin(ds, from, to) <= Admitted(ds[j..])
  {
    var earlier, d := ds[..|ds| - 1], ds[|ds| - 1];
    assert earlier + [d] == ds;
    if AdmittedWithin(earlier, from, to) > 0 {
      j := FirstInWindow(earlier, from, to);
    } else {
      j := |earlier|;
    }
    AdmittedSuffix(earlier, d, j);
  }

  lemma OneMoreInWindow(limit: Limit, ds: seq<Decision>, t: Time, from: Time, to: Time)
    requires limit.burst > 0 && Fits(limit, ds, t) && from <= t <= to
    ensures (AdmittedWithin(ds, from, to) + 1) * limit.interval <= limit.Capacity() + to - from
  {
    var n := AdmittedWithin(ds, from, to);
    if n > 0 {
      var j := FirstInWindow(ds, from, to);
      MulMonotone(n + 1, Admitted(ds[j..]) + 1, limit.interval);
    } else {
      OneTokenFits(limit);
    }
  }

  /** No closed window of time admits more than a full bucket plus what the window refills. */
  lemma {:induction false} WindowCredit(limit: Limit, times: seq<Time>, from: Time, to: Time)
    requires limit.burst > 0 && Monotone(times) && from <= to
    ensures AdmittedWithin(Decide(limit, times), from, to) * limit.interval <= limit.Capacity() + to - from
  {
    if times == [] {
    } else {
      var earlier, t := times[..|times| - 1], times[|times| - 1];
      var ds := Decide(limit, earlier);
      assert Decide(limit, times)[..|earlier|] == ds;
      WindowCredit(limit, earlier, from, to);
      if Decide(limit, times)[|earlier|].admitted && from <= t <= to {
        NextDecision(limit, times);
        OneMoreInWindow(limit, ds, t, from, to);
      }
    }
  }

  lemma WindowBound(limit: Limit, times: seq<Time>, from: Time, to: Time)
    requires limit.burst > 0 && limit.interval > 0 && Monotone(times) && from <= to
    ensures AdmittedWithin(Decide(limit, times), from, to) <= limit.burst + (to - from) / limit.interval
  {
    WindowCredit(limit, times, from, to);
    RateForm(limit, AdmittedWithin(Decide(limit, times), from, to), to - from);
  }

  /** A full burst at `from`, then one request each interval. */
  function BurstThenPace(limit: Limit, from: Time, n: nat): seq<Time> {
    seq(n, i => if i < limit.burst then from else from + (i + 1 - limit.burst) * limit.interval)
  }

  lemma BurstThenPaceMonotone(limit: Limit, from: Time, n: nat)
    ensures Monotone(BurstThenPace(limit, from, n))
  {
    var times := BurstThenPace(limit, from, n);
    forall i, j | 0 <= i <= j < |times| ensures times[i] <= times[j] {
      if limit.burst <= j {
        MulMonotone(0, j + 1 - limit.burst, limit.interval);
        MulMonotone(i + 1 - limit.burst, j + 1 - limit.burst, limit.interval);
      }
    }
  }

  // What remains of the bucket after n > 0 requests of the pattern.
  ghost function Remaining(limit: Limit, from: Time, n: nat): Bucket {
    if n <= limit.burst then Bucket((limit.burst - n) * limit.interval, from)
    else Bucket(0, from + (n - limit.burst) * limit.interval)
  }

  lemma PaceStep(limit: Limit, from: Time, n: nat, b: Bucket)
    requires limit.burst > 0
    requires b == if n == 0 then Fresh(limit) else Remaining(limit, from, n)
    ensures Take(limit, b, BurstThenPace(limit, from, n + 1)[n]) == (Remaining(limit, from, n + 1), true)
  {
    OneTokenFits(limit);
    if n < limit.burst {
      var left := limit.burst - n;
      assert (left - 1) * limit.interval == left * limit.interval - limit.interval;
      MulMonotone(1, left, limit.interval);
      MulMonotone(left, limit.burst, limit.interval);
    } else {
      var paced := n - limit.burst;
      assert (paced + 1) * limit.interval == paced * limit.interval + limit.interval;
    }
  }

  lemma {:induction false} BurstThenPaceAdmitted(limit: Limit, from: Time, n: nat)
    requires limit.burst > 0
    ensures
      var times := BurstThenPace(limit, from, n);
      && After(limit, times) == (if n == 0 then Fresh(limit) else Remaining(limit, from, n))
      && forall k :: 0 <= k < n ==> Decide(limit, times)[k].admitted
  {
    if n == 0 {
    } else {
      var times, earlier := BurstThenPace(limit, from, n), BurstThenPace(limit, from, n - 1);
      assert times[..n - 1] == earlier;
      BurstThenPaceAdmitted(limit, from, n - 1);
      PaceStep(limit, from, n - 1, After(limit, earlier));
    }
  }

  lemma {:induction false} AllWithin(ds: seq<Decision>, from: Time, to: Time)
    requires forall k :: 0 <= k < |ds| ==> ds[k].admitted && from <= ds[k].at <= to
    ensures AdmittedWithin(ds, from, to) == |ds|
  {
    if ds == [] {
    } else {
      AllWithin(ds[..|ds| - 1], from, to);
    }
  }

  lemma PaceWithin(limit: Limit, from: Time, to: Time, n: nat, k: nat)
    requires (n - limit.burst) * limit.interval <= to - from && from <= to && k < n
    ensures from <= BurstThenPace(limit, from, n)[k] <= to
  {
    if limit.burst <= k {
      MulMonotone(0, k + 1 - limit.burst, limit.interval);
      MulMonotone(k + 1 - limit.burst, n - limit.burst, limit.interval);
    }
  }

  /** The window bound is the exact maximum: some run reaches it. */
  lemma WindowBoundReached(limit: Limit, from: Time, to: Time) returns (times: seq<Time>)
    requires limit.burst > 0 && limit.interval > 0 && from <= to
    ensures Monotone(times) && forall k :: 0 <= k < |times| ==> from <= times[k]
    ensures AdmittedWithin(Decide(limit, times), from, to) == limit.burst + (to - from) / limit.interval
  {
    var paced := (to - from) / limit.interval;
    var n := limit.burst + paced;
    times := BurstThenPace(limit, from, n);
    BurstThenPaceMonotone(limit, from, n);
    BurstThenPaceAdmitted(limit, from, n);
    assert paced * limit.interval <= to - from;
    forall k: nat | k < n ensures from <= times[k] <= to {
      PaceWithin(limit, from, to, n, k);
    }
    AllWithin(Decide(limit, times), from, to);
  }

  // Starvation -------------------------------------------------------------------------------------

  /** Whatever came before, a request one interval after the previous request is admitted. */
  lemma PatientRequestAdmitted(limit: Limit, times: seq<Time>, k: nat)
    requires limit.burst > 0 && Monotone(times) && k < |times|
    requires k > 0 ==> times[k] - times[k - 1] >= limit.interval
    ensures Decide(limit, times)[k].admitted
  {
    var earlier, upTo := times[..k], times[..k + 1];
    DecidePrefix(limit, times, k + 1);
    assert upTo[..k] == earlier;
    assert Decide(limit, times)[k] == Decide(limit, times)[..k + 1][k];
    OneTokenFits(limit);
    BucketBounds(limit, earlier);
    BucketAnchored(limit, earlier);
  }
}
