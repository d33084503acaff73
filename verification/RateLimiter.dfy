/**
 The per-IP limiter as the middleware runs it: visitors in a map, updated in place under a lock.
 Clock readings are parameters. Every method is tied to one step of LimiterRuns, and `run` records
 the steps taken so far.
 */
module RateLimiter {
  import opened TokenBucket
  import opened LimiterRuns
  import opened Isolation

  lemma RunExtended(limit: Limit, run: seq<Event>, e: Event)
    ensures TableAfter(limit, run + [e], true) == Step(limit, TableAfter(limit, run, true), e, true)
    ensures e.Request? ==>
      Verdicts(limit, run + [e], true) == Verdicts(limit, run, true)
        + [Verdict(e.ip, e.decided, Visit(limit, TableAfter(limit, run, true), e.ip, e.seen, e.decided).1)]
  {
    assert (run + [e])[..|run|] == run;
  }

  lemma OneMoreAnswer(rpm: nat, run: seq<Event>, ip: IP, seen: Time, decided: Time)
    requires InService(rpm, run + [Request(ip, seen, decided)])
    ensures
      var limit := PerMinute(rpm);
      Visit(limit, TableAfter(limit, run, true), ip, seen, decided).1 ==
        Take(limit, After(limit, TimesOf(run, ip)), decided).1
  {
    var limit, longer := PerMinute(rpm), run + [Request(ip, seen, decided)];
    assert longer[..|run|] == run;
    AnswersAreOneBuckets(rpm, longer, ip);
    var times, verdicts := TimesOf(longer, ip), Verdicts(limit, longer, true);
    assert times[..|times| - 1] == TimesOf(run, ip);
    assert verdicts[..|verdicts| - 1] == Verdicts(limit, run, true);
    var answers := AnswersTo(verdicts, ip);
    assert answers[|answers| - 1] == Decide(limit, times)[|times| - 1];
  }

  lemma RequestTaken(limit: Limit, run: seq<Event>, ip: IP, seen: Time, decided: Time)
    requires limit.burst > 0 && limit == PerMinute(limit.burst)
    ensures
      var table, longer := TableAfter(limit, run, true), run + [Request(ip, seen, decided)];
      var (table', ok) := Visit(limit, table, ip, seen, decided);
      && TableAfter(limit, longer, true) == table'
      && Verdicts(limit, longer, true) == Verdicts(limit, run, true) + [Verdict(ip, decided, ok)]
      && (InService(limit.burst, longer) ==> ok == Take(limit, After(limit, TimesOf(run, ip)), decided).1)
  {
    RunExtended(limit, run, Request(ip, seen, decided));
    if InService(limit.burst, run + [Request(ip, seen, decided)]) {
      OneMoreAnswer(limit.burst, run, ip, seen, decided);
    }
  }

  /**
   One address's record: when it was last seen and its token bucket. The library's limiter stands
   here by its assumed contract: it starts full and takes one token or refuses.
   */
  class Visitor {
    const limit: Limit
    var bucket: Bucket
    var lastSeen: Time
    // The address this record belongs to; no two addresses share one.
    ghost const owner: IP

    constructor (limit: Limit, ghost owner: IP)
      ensures this.limit == limit && this.owner == owner && bucket == Fresh(limit)
    {
      this.limit := limit;
      this.owner := owner;
      bucket := Fresh(limit);
      lastSeen := 0;
    }

    method Allow(now: Time) returns (ok: bool)
      modifies this`bucket
      ensures (bucket, ok) == Take(limit, old(bucket), now)
    {
      var (next, taken) := Take(limit, bucket, now);
      bucket := next;
      ok := taken;
    }
  }

  /** A channel that is only ever closed; closing it twice would panic. */
  class StopChannel {
    var closed: bool
    ghost var closes: nat

    ghost predicate Valid()
      reads this
    {
      closes == if closed then 1 else 0
    }

    constructor ()
      ensures !closed && Valid()
    {
      closed := false;
      closes := 0;
    }

    method Close()
      requires Valid() && !closed
      modifies this
      ensures Valid() && closed
    {
      closed := true;
      closes := closes + 1;
    }
  }

  /** What wakes the background loop: a tick, with the clock read then, or the closed stop channel. */
  datatype Wake =
    | Ticked(read: Time)
    | Stopped

  class IPRateLimiter {
    const limit: Limit
    const stop: StopChannel
    // Whether the background loop is running.
    var sweeping: bool
    var visitors: map<IP, Visitor>
    ghost var run: seq<Event>

    // Every visitor sits under its own address.
    ghost predicate Owned()
      reads this
    {
      forall ip :: ip in visitors ==> visitors[ip].owner == ip && visitors[ip].limit == limit
    }

    /** The visitor table as a value. */
    ghost function Contents(): Table
      reads this, visitors.Values
    {
      map ip | ip in visitors :: Entry(visitors[ip].bucket, visitors[ip].lastSeen)
    }

    ghost predicate Valid()
      reads this, visitors.Values
    {
      && limit.burst > 0 && limit == PerMinute(limit.burst)
      && Owned()
      && Contents() == TableAfter(limit, run, true)
    }

    constructor (rpm: nat)
      requires rpm > 0
      ensures Valid() && limit == PerMinute(rpm) && run == [] && visitors == map[]
      ensures fresh(stop) && stop.Valid() && !stop.closed && !sweeping
    {
      limit := PerMinute(rpm);
      stop := new StopChannel();
      sweeping := false;
      visitors := map[];
      run := [];
    }

    /** No limiter at all for a budget that is not positive, otherwise one whose loop is running. */
    static method NewPerMinute(requestsPerMinute: int) returns (l: IPRateLimiter?)
      ensures l == null <==> requestsPerMinute <= 0
      ensures l != null ==>
        && fresh(l) && l.Valid() && l.limit == PerMinute(requestsPerMinute) && l.run == [] && l.sweeping
        && fresh(l.stop) && l.stop.Valid() && !l.stop.closed
      ensures l != null ==>
        var interval := l.limit.interval;
        && interval * requestsPerMinute <= 60_000_000_000 < (interval + 1) * requestsPerMinute
        && l.limit.burst == requestsPerMinute && l.visitors == map[]
    {
      if requestsPerMinute <= 0 {
        return null;
      }
      l := new IPRateLimiter(requestsPerMinute);
      l.sweeping := true;
      IntervalExact(requestsPerMinute);
    }

    // The visitor of `ip`, entered with a new bucket when there is none.
    method VisitorOf(ip: IP) returns (v: Visitor)
      requires Owned()
      modifies this`visitors
      ensures Owned() && ip in visitors && visitors[ip] == v
      ensures visitors == old(visitors)[ip := v]
      ensures ip in old(visitors) ==> visitors == old(visitors)
      ensures ip !in old(visitors) ==> fresh(v) && v.bucket == Fresh(limit)
    {
      if ip in visitors {
        v := visitors[ip];
      } else {
        v := new Visitor(limit, ip);
        visitors := visitors[ip := v];
      }
    }

    method Serve(ip: IP, seen: Time, decided: Time) returns (ok: bool)
      requires Owned()
      modifies this`visitors, visitors.Values
      ensures Owned()
      ensures Contents() == Visit(limit, old(Contents()), ip, seen, decided).0
      ensures ok == Visit(limit, old(Contents()), ip, seen, decided).1
      ensures forall other :: other in visitors ==> fresh(visitors[other]) || visitors[other] in old(visitors.Values)
    {
      var v := VisitorOf(ip);
      v.lastSeen := seen;
      ok := v.Allow(decided);
    }

    /**
     Answers a request that reads the clock as `seen` for the record and as `decided` in the bucket.
     In service, the answer is that of a bucket private to the address.
     */
    method Allow(ip: IP, seen: Time, decided: Time) returns (ok: bool)
      requires Valid()
      modifies this`visitors, this`run, visitors.Values
      ensures Valid()
      ensures run == old(run) + [Request(ip, seen, decided)]
      ensures Verdicts(limit, run, true) == Verdicts(limit, old(run), true) + [Verdict(ip, decided, ok)]
      ensures InService(limit.burst, run) ==> ok == Take(limit, After(limit, TimesOf(old(run), ip)), decided).1
      ensures forall other :: other in visitors ==> fresh(visitors[other]) || visitors[other] in old(visitors.Values)
    {
      ok := Serve(ip, seen, decided);
      run := run + [Request(ip, seen, decided)];
      RequestTaken(limit, old(run), ip, seen, decided);
    }

    // In place and one by one, in whatever order the map yields its keys.
    method DropIdle(cutoff: Time)
      requires Owned()
      modifies this`visitors
      ensures Owned()
      ensures Contents() == Evict(old(Contents()), cutoff)
      ensures forall ip :: ip in visitors ==> visitors[ip] in old(visitors.Values)
    {
      var todo := visitors.Keys;
      while todo != {}
        invariant todo <= visitors.Keys <= old(visitors.Keys)
        invariant forall ip :: ip in visitors ==> visitors[ip] == old(visitors)[ip]
        invariant forall ip :: ip in old(visitors) && ip !in todo ==>
          (ip in visitors <==> !(old(visitors)[ip].lastSeen < cutoff))
        decreases todo
      {
        var ip :| ip in todo;
        if visitors[ip].lastSeen < cutoff {
          visitors := visitors - {ip};
        }
        todo := todo - {ip};
      }
    }

    /** Drops the visitors last seen before the cutoff. */
    method Cleanup(cutoff: Time)
      requires Valid()
      modifies this`visitors, this`run
      ensures Valid()
      ensures run == old(run) + [Sweep(cutoff + IDLE)]
      ensures Contents() == Evict(old(Contents()), cutoff)
      ensures forall ip :: ip in visitors ==> visitors[ip] in old(visitors.Values)
    {
      DropIdle(cutoff);
      run := run + [Sweep(cutoff + IDLE)];
      RunExtended(limit, old(run), Sweep(cutoff + IDLE));
    }

    /**
     One round of the background loop: a tick sweeps with the cutoff three minutes before the reading,
     taken before the lock; the closed stop channel ends the loop and touches nothing else.
     */
    method CleanupRound(wake: Wake)
      requires Valid() && sweeping
      requires wake.Stopped? ==> stop.closed
      modifies this
      ensures Valid()
      ensures sweeping == wake.Ticked?
      ensures run == if wake.Ticked? then old(run) + [Sweep(wake.read)] else old(run)
      ensures wake.Stopped? ==> Contents() == old(Contents())
      ensures wake.Ticked? ==>
        forall ip ::
          && (ip in Contents() <==>
               ip in old(Contents()) && old(Contents())[ip].lastSeen >= wake.read - 180_000_000_000)
          && (ip in Contents() ==> Contents()[ip] == old(Contents())[ip])
    {
      match wake {
        case Ticked(read) => Cleanup(read - IDLE);
        case Stopped => sweeping := false;
      }
    }

    /** The middleware's decision: without a limiter every request passes. */
    static method Passes(l: IPRateLimiter?, ip: IP, seen: Time, decided: Time) returns (ok: bool)
      requires l != null ==> l.Valid()
      modifies if l == null then {} else {l} + l.visitors.Values
      ensures l == null ==> ok
      ensures l != null ==> l.Valid() && l.run == old(l.run) + [Request(ip, seen, decided)]
      ensures l != null ==>
        Verdicts(l.limit, l.run, true) == Verdicts(l.limit, old(l.run), true) + [Verdict(ip, decided, ok)]
    {
      if l == null {
        return true;
      }
      ok := l.Allow(ip, seen, decided);
    }

    /** Closes the stop channel unless it is closed already. */
    static method Stop(l: IPRateLimiter?)
      requires l != null ==> l.stop.Valid()
      modifies if l == null then {} else {l.stop}
      ensures l != null ==> l.stop.Valid() && l.stop.closed && l.stop.closes == 1
    {
      if l == null {
        return;
      }
      if !l.stop.closed {
        l.stop.Close();
      }
    }
  }
}
