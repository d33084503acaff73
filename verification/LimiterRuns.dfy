/**
 Whole runs of the per-IP limiter: the visitor table as a value, the steps that change it, and the
 limiter that never forgets as the reference for the one that does.
 */
module LimiterRuns {
  import opened TokenBucket

  type IP = string

  // How long an entry must be idle before the cleanup may drop it.
  const IDLE: nat := 3 * MINUTE

  datatype Entry = Entry(bucket: Bucket, lastSeen: Time)
  type Table = map<IP, Entry>

  /**
   A step taken under the limiter's lock. A request reads the clock twice, for `lastSeen` and again
   inside the bucket. A sweep drops what was last seen before `read - IDLE`, where the clock was read
   before the lock was taken and may be arbitrarily stale by then.
   */
  datatype Event =
    | Request(ip: IP, seen: Time, decided: Time)
    | Sweep(read: Time)

  datatype Verdict = Verdict(ip: IP, at: Time, admitted: bool)

  function BucketOf(limit: Limit, table: Table, ip: IP): Bucket {
    if ip in table then table[ip].bucket else Fresh(limit)
  }

  function Visit(limit: Limit, table: Table, ip: IP, seen: Time, decided: Time): (Table, bool) {
    var (bucket, ok) := Take(limit, BucketOf(limit, table, ip), decided);
    (table[ip := Entry(bucket, seen)], ok)
  }

  function Evict(table: Table, cutoff: Time): Table {
    map ip | ip in table && !(table[ip].lastSeen < cutoff) :: table[ip]
  }

  function Step(limit: Limit, table: Table, e: Event, forgets: bool): Table {
    match e
    case Request(ip, seen, decided) => Visit(limit, table, ip, seen, decided).0
    case Sweep(read) => if forgets then Evict(table, read - IDLE) else table
  }

  /** The table after a run; `forgets` tells the real limiter from the reference. */
  function TableAfter(limit: Limit, run: seq<Event>, forgets: bool): Table {
    if run == [] then map[]
    else Step(limit, TableAfter(limit, run[..|run| - 1], forgets), run[|run| - 1], forgets)
  }

  /** What the limiter answered, request by request. */
  function Verdicts(limit: Limit, run: seq<Event>, forgets: bool): seq<Verdict> {
    if run == [] then []
    else
      var earlier := run[..|run| - 1];
      var answers := Verdicts(limit, earlier, forgets);
      match run[|run| - 1]
      case Sweep(_) => answers
      case Request(ip, seen, decided) =>
        answers + [Verdict(ip, decided, Visit(limit, TableAfter(limit, earlier, forgets), ip, seen, decided).1)]
  }

  // One address seen alone -------------------------------------------------------------------------

  /** When the bucket of `ip` was asked. */
  function TimesOf(run: seq<Event>, ip: IP): seq<Time> {
    if run == [] then []
    else
      var e, times := run[|run| - 1], TimesOf(run[..|run| - 1], ip);
      if e.Request? && e.ip == ip then times + [e.decided] else times
  }

  /** What `ip` was answered. */
  function AnswersTo(verdicts: seq<Verdict>, ip: IP): seq<Decision> {
    if verdicts == [] then []
    else
      var v, answers := verdicts[|verdicts| - 1], AnswersTo(verdicts[..|verdicts| - 1], ip);
      if v.ip == ip then answers + [Decision(v.at, v.admitted)] else answers
  }

  // The clock --------------------------------------------------------------------------------------

  /** The latest clock reading known to have happened; the process starts at 0. */
  function Clock(run: seq<Event>): Time {
    if run == [] then 0
    else
      var before := Clock(run[..|run| - 1]);
      match run[|run| - 1]
      case Request(_, _, decided) => decided
      case Sweep(read) => if before < read then read else before
  }

  /** Readings under the lock never go back; a sweep's reading may lag behind. */
  ghost predicate WellTimed(run: seq<Event>) {
    run != [] ==>
      && WellTimed(run[..|run| - 1])
      && var e := run[|run| - 1];
         e.Request? ==> Clock(run[..|run| - 1]) <= e.seen <= e.decided
  }

  /** No request lets more than `gap` pass between its two clock readings. */
  ghost predicate GapsWithin(run: seq<Event>, gap: int) {
    forall i :: 0 <= i < |run| && run[i].Request? ==> run[i].decided - run[i].seen <= gap
  }
}
