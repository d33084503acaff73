/**
 What joining without a savepoint costs: InTx compared with one that would roll an inner callback's
 own writes back when it fails.
 */
module Savepoints {
  import opened Options
  import opened Context
  import opened Tables
  import opened Transactions
  import opened History
  import opened Atomicity
  import opened Fates

  /** Undoes what happened in one transaction since an earlier store. */
  function Restore(after: Store, before: Store, via: Handle): Store {
    if via.Tx? && via.id in before.open && via.id in after.open
    then after.(open := after.open[via.id := before.open[via.id]])
    else after
  }

  /** The same program if an inner InTx rolled its own writes back on error. */
  function ExecWithSavepoints(p: Prog, ctx: Ctx, s: Store, log: Log): (r: Outcome)
    requires Live(s)
    ensures Live(r.store) && r.store.open.Keys == s.open.Keys
    ensures s.nextTx <= r.store.nextTx
    decreases p
  {
    match p
    case Seq(first, second) =>
      var r := ExecWithSavepoints(first, ctx, s, log);
      if r.err.Some? then r else ExecWithSavepoints(second, ctx, r.store, r.log)
    case Branch(test, yes, no) =>
      if test(log) then ExecWithSavepoints(yes, ctx, s, log) else ExecWithSavepoints(no, ctx, s, log)
    case Try(body) =>
      var r := ExecWithSavepoints(body, ctx, s, log);
      if Swallows(r.err) then Outcome(None, r.store, r.log + [Swallowed(r.err.value)]) else r
    case WithTrace(id, body) => ExecWithSavepoints(body, WithTraceID(ctx, id), s, log)
    case Under(pick, body) => ExecWithSavepoints(body, pick(log), s, log)
    case InTx(hasDB, Some(fn)) =>
      if TxFromContext(ctx).Some? then
        var r := ExecWithSavepoints(fn, Normalize(ctx), s, log);
        if r.err.Some? then r.(store := Restore(r.store, s, TxFromContext(ctx).value)) else r
      else if !hasDB then Outcome(Some(NilDB), s, log)
      else Finish(s.nextTx, ExecWithSavepoints(fn, TxContext(ctx, s), Begin(s), log + [Began(s.nextTx)]))
    case _ => Exec(p, ctx, s, log)
  }

  ghost predicate NoCreatesVia(calls: Log, via: Handle) {
    forall i :: 0 <= i < |calls| && calls[i].Created? ==> calls[i].via != via
  }

  // The handle of an open transaction, in which a savepoint can be set.
  predicate IsOpen(s: Store, via: Handle) {
    via.Tx? && via.id in s.open
  }

  /** On this run, every InTx that joined an open transaction and failed had created no row in it. */
  ghost predicate FailuresWroteNothing(p: Prog, ctx: Ctx, s: Store, log: Log)
    requires Live(s)
    decreases p
  {
    match p
    case Seq(first, second) =>
      var r := Exec(first, ctx, s, log);
      FailuresWroteNothing(first, ctx, s, log) && (r.err.None? ==> FailuresWroteNothing(second, ctx, r.store, r.log))
    case Branch(test, yes, no) =>
      if test(log) then FailuresWroteNothing(yes, ctx, s, log) else FailuresWroteNothing(no, ctx, s, log)
    case Try(body) => FailuresWroteNothing(body, ctx, s, log)
    case WithTrace(id, body) => FailuresWroteNothing(body, WithTraceID(ctx, id), s, log)
    case Under(pick, body) => FailuresWroteNothing(body, pick(log), s, log)
    case InTx(hasDB, Some(fn)) =>
      if TxFromContext(ctx).Some? then
        && FailuresWroteNothing(fn, Normalize(ctx), s, log)
        && (Exec(fn, Normalize(ctx), s, log).err.Some? && IsOpen(s, TxFromContext(ctx).value) ==>
             NoCreatesVia(NewCalls(fn, Normalize(ctx), s, log), TxFromContext(ctx).value))
      else
        hasDB ==> FailuresWroteNothing(fn, TxContext(ctx, s), Begin(s), log + [Began(s.nextTx)])
    case _ => true
  }

  lemma {:induction false} NoRowsVia(calls: Log, via: Handle)
    requires NoCreatesVia(calls, via)
    ensures RowsVia(calls, via) == map[]
  {
    if calls != [] { NoRowsVia(calls[..|calls| - 1], via); }
  }

  lemma OnlyOwnMarkers(p: Prog, ctx: Ctx, s: Store, log: Log)
    requires Live(s)
    ensures OwnMarkers(s.nextTx, NewCalls(p, ctx, s, log), 0)
  {
    EndsOnlyItsOwn(p, ctx, s, log, s.nextTx, |log|);
  }

  lemma RowsUntouched(start: View, calls: Log, lo: nat, via: Handle)
    requires via.Tx? && via.id in start.open && via.id < lo
    requires OwnMarkers(lo, calls, 0) && NoCreatesVia(calls, via)
    ensures var v := Replay(start, calls); via.id in v.open && v.open[via.id] == start.open[via.id]
  {
    PendingRows(start, calls, via.id);
    NoRowsVia(calls, via);
  }

  lemma NoCreatesNoChange(p: Prog, ctx: Ctx, s: Store, log: Log, via: Handle)
    requires Sound(s) && IsOpen(s, via) && NoCreatesVia(NewCalls(p, ctx, s, log), via)
    ensures Exec(p, ctx, s, log).store.open[via.id] == s.open[via.id]
  {
    OnlyOwnMarkers(p, ctx, s, log);
    RowsUntouched(ViewOf(s), NewCalls(p, ctx, s, log), s.nextTx, via);
    NewCallsConsistent(p, ctx, s, log);
  }

  /** In step for as long as no failure loses a row. */
  lemma {:induction false} InStep(p: Prog, ctx: Ctx, s: Store, log: Log)
    requires Sound(s) && FailuresWroteNothing(p, ctx, s, log)
    ensures ExecWithSavepoints(p, ctx, s, log) == Exec(p, ctx, s, log)
    decreases p
  {
    match p
    case Seq(first, second) =>
      InStep(first, ctx, s, log);
      RowsStay(first, ctx, s, log);
      var r := Exec(first, ctx, s, log);
      if r.err.None? { InStep(second, ctx, r.store, r.log); }
    case Branch(test, yes, no) => InStep(if test(log) then yes else no, ctx, s, log);
    case Try(body) => InStep(body, ctx, s, log);
    case WithTrace(trace, body) => InStep(body, WithTraceID(ctx, trace), s, log);
    case Under(pick, body) => InStep(body, pick(log), s, log);
    case InTx(hasDB, Some(fn)) =>
      if TxFromContext(ctx).Some? {
        InStep(fn, Normalize(ctx), s, log);
        if Exec(fn, Normalize(ctx), s, log).err.Some? && IsOpen(s, TxFromContext(ctx).value) {
          NoCreatesNoChange(fn, Normalize(ctx), s, log, TxFromContext(ctx).value);
        }
      } else if hasDB {
        BeginKeeps(s);
        InStep(fn, TxContext(ctx, s), Begin(s), log + [Began(s.nextTx)]);
      }
    case _ =>
  }

  // A lost row stays lost --------------------------------------------------------------------------

  /** An id that was handed out and whose row is nowhere. */
  ghost predicate Missing(s: Store, row: nat) {
    row < s.nextId && row !in s.committed && forall id :: id in s.open ==> row !in s.open[id]
  }

  lemma FinishStaysMissing(id: nat, body: Outcome, row: nat)
    requires id in body.store.open && Missing(body.store, row)
    ensures Missing(Finish(id, body).store, row)
  {
  }

  lemma {:induction false} StaysMissing(p: Prog, ctx: Ctx, s: Store, log: Log, row: nat)
    requires Live(s) && Missing(s, row)
    ensures Missing(ExecWithSavepoints(p, ctx, s, log).store, row)
    decreases p
  {
    match p
    case Seq(first, second) =>
      StaysMissing(first, ctx, s, log, row);
      var r := ExecWithSavepoints(first, ctx, s, log);
      if r.err.None? { StaysMissing(second, ctx, r.store, r.log, row); }
    case Branch(test, yes, no) => StaysMissing(if test(log) then yes else no, ctx, s, log, row);
    case Try(body) => StaysMissing(body, ctx, s, log, row);
    case WithTrace(trace, body) => StaysMissing(body, WithTraceID(ctx, trace), s, log, row);
    case Under(pick, body) => StaysMissing(body, pick(log), s, log, row);
    case InTx(hasDB, Some(fn)) =>
      if TxFromContext(ctx).Some? {
        StaysMissing(fn, Normalize(ctx), s, log, row);
      } else if hasDB {
        StaysMissing(fn, TxContext(ctx, s), Begin(s), log + [Began(s.nextTx)], row);
        FinishStaysMissing(s.nextTx,
          ExecWithSavepoints(fn, TxContext(ctx, s), Begin(s), log + [Began(s.nextTx)]), row);
      }
    case _ =>
  }

  // A row that these calls created, under an id new to the store before them.
  ghost predicate CreatedRow(s: Store, calls: Log, row: nat) {
    s.nextId <= row && exists i :: 0 <= i < |calls| && calls[i].Created? && calls[i].row.id == row
  }

  /** A row created in an open transaction is in it, under a new id. */
  lemma CreatedIsPending(p: Prog, ctx: Ctx, s: Store, log: Log, i: nat)
    requires Sound(s) && i < |NewCalls(p, ctx, s, log)|
    requires var call := NewCalls(p, ctx, s, log)[i]; call.Created? && IsOpen(s, call.via)
    ensures
      var call := NewCalls(p, ctx, s, log)[i];
      && CreatedRow(s, NewCalls(p, ctx, s, log), call.row.id)
      && call.row.id in Exec(p, ctx, s, log).store.open[call.via.id]
  {
    assert log[|log|..] == [];
    IdsConsecutive(p, ctx, s, log, s.nextId, |log|);
    FateOfRows(p, ctx, s, log, i);
  }

  lemma RestoreLoses(after: Store, before: Store, via: Handle, row: nat)
    requires Sound(before) && before.nextId <= row
    requires
      || Missing(after, row)
      || (IsOpen(before, via) && IsOpen(after, via) && Sound(after) && row in after.open[via.id])
    ensures Missing(Restore(after, before, via), row)
  {
  }

  // The joined run created a row that the other one lost.
  ghost predicate Apart(s: Store, joined: Log, nested: Store, row: nat) {
    CreatedRow(s, joined, row) && Missing(nested, row)
  }

  /** As soon as a failure loses a row, it is lost for good. */
  lemma {:induction false} FallApart(p: Prog, ctx: Ctx, s: Store, log: Log) returns (row: nat)
    requires Sound(s) && !FailuresWroteNothing(p, ctx, s, log)
    ensures Apart(s, NewCalls(p, ctx, s, log), ExecWithSavepoints(p, ctx, s, log).store, row)
    decreases p, 1
  {
    match p
    case Seq(_, _) => row := SeqFallsApart(p, ctx, s, log);
    case Branch(test, yes, no) => row := FallApart(if test(log) then yes else no, ctx, s, log);
    case Try(body) => row := TryFallsApart(body, ctx, s, log);
    case WithTrace(trace, body) => row := FallApart(body, WithTraceID(ctx, trace), s, log);
    case Under(pick, body) => row := FallApart(body, pick(log), s, log);
    case InTx(_, Some(fn)) =>
      if TxFromContext(ctx).Some? {
        row := FailureFallsApart(fn, ctx, s, log);
      } else {
        row := BeginFallsApart(fn, ctx, s, log);
      }
  }

  // Calls made later do not undo that a row was created.
  lemma StaysCreated(s: Store, s': Store, log: Log, from: nat, from': nat, longer: Log, row: nat)
    requires from <= from' <= |log| && log <= longer && s.nextId <= s'.nextId && CreatedRow(s', log[from'..], row)
    ensures CreatedRow(s, longer[from..], row)
  {
    var i :| 0 <= i < |log[from'..]| && log[from'..][i].Created? && log[from'..][i].row.id == row;
    assert longer[from..][from' - from + i] == log[from'..][i];
  }

  lemma {:induction false} SeqFallsApart(p: Prog, ctx: Ctx, s: Store, log: Log) returns (row: nat)
    requires Sound(s) && p.Seq? && !FailuresWroteNothing(p, ctx, s, log)
    ensures Apart(s, NewCalls(p, ctx, s, log), ExecWithSavepoints(p, ctx, s, log).store, row)
    decreases p, 0
  {
    var joined, nested := Exec(p.first, ctx, s, log), ExecWithSavepoints(p.first, ctx, s, log);
    var longer := Exec(p, ctx, s, log).log;
    RowsStay(p.first, ctx, s, log);
    if FailuresWroteNothing(p.first, ctx, s, log) {
      InStep(p.first, ctx, s, log);
      row := FallApart(p.second, ctx, joined.store, joined.log);
      StaysCreated(s, joined.store, longer, |log|, |joined.log|, longer, row);
    } else {
      row := FallApart(p.first, ctx, s, log);
      StaysCreated(s, s, joined.log, |log|, |log|, longer, row);
      if nested.err.None? { StaysMissing(p.second, ctx, nested.store, nested.log, row); }
    }
  }

  lemma {:induction false} TryFallsApart(body: Prog, ctx: Ctx, s: Store, log: Log) returns (row: nat)
    requires Sound(s) && !FailuresWroteNothing(body, ctx, s, log)
    ensures Apart(s, NewCalls(Try(body), ctx, s, log), ExecWithSavepoints(Try(body), ctx, s, log).store, row)
    decreases body, 2
  {
    row := FallApart(body, ctx, s, log);
    StaysCreated(s, s, Exec(body, ctx, s, log).log, |log|, |log|, Exec(Try(body), ctx, s, log).log, row);
  }

  lemma {:induction false} FailureFallsApart(fn: Prog, ctx: Ctx, s: Store, log: Log) returns (row: nat)
    requires Sound(s) && TxFromContext(ctx).Some? && !FailuresWroteNothing(InTx(true, Some(fn)), ctx, s, log)
    ensures
      var p := InTx(true, Some(fn));
      Apart(s, NewCalls(p, ctx, s, log), ExecWithSavepoints(p, ctx, s, log).store, row)
    decreases fn, 2
  {
    var via, calls := TxFromContext(ctx).value, NewCalls(fn, Normalize(ctx), s, log);
    var nested := ExecWithSavepoints(fn, Normalize(ctx), s, log);
    if FailuresWroteNothing(fn, Normalize(ctx), s, log) {
      InStep(fn, Normalize(ctx), s, log);
      RowsStay(fn, Normalize(ctx), s, log);
      var i :| 0 <= i < |calls| && calls[i].Created? && calls[i].via == via;
      CreatedIsPending(fn, Normalize(ctx), s, log, i);
      row := calls[i].row.id;
    } else {
      row := FallApart(fn, Normalize(ctx), s, log);
    }
    if nested.err.Some? { RestoreLoses(nested.store, s, via, row); }
  }

  lemma {:induction false} BeginFallsApart(fn: Prog, ctx: Ctx, s: Store, log: Log) returns (row: nat)
    requires Sound(s) && TxFromContext(ctx).None? && !FailuresWroteNothing(InTx(true, Some(fn)), ctx, s, log)
    ensures
      var p := InTx(true, Some(fn));
      Apart(s, NewCalls(p, ctx, s, log), ExecWithSavepoints(p, ctx, s, log).store, row)
    decreases fn, 2
  {
    var txCtx, begun := TxContext(ctx, s), log + [Began(s.nextTx)];
    BeginKeeps(s);
    row := FallApart(fn, txCtx, Begin(s), begun);
    InTxBegins(fn, ctx, s, log);
    StaysCreated(s, Begin(s), Body(fn, ctx, s, log).log, |log|, |begun|,
      Exec(InTx(true, Some(fn)), ctx, s, log).log, row);
    FinishStaysMissing(s.nextTx, ExecWithSavepoints(fn, txCtx, Begin(s), begun), row);
  }

  /**
   Exactly when joining shows, for every program under every context: a run whose failed InTx calls had
   created nothing in the transactions they joined is the same with savepoints, call by call. If a run
   published every row it created, that is also the only case: otherwise a row that savepoints would
   have taken back is among the published ones.
   */
  lemma JoiningShowsIff(p: Prog, ctx: Ctx, s: Store, log: Log)
    requires Sound(s)
    ensures FailuresWroteNothing(p, ctx, s, log) ==> ExecWithSavepoints(p, ctx, s, log) == Exec(p, ctx, s, log)
    ensures
      var joined, nested := Exec(p, ctx, s, log), ExecWithSavepoints(p, ctx, s, log);
      AllPublished(joined.store, NewCalls(p, ctx, s, log)) ==>
        (joined.store.committed == nested.store.committed <==> FailuresWroteNothing(p, ctx, s, log))
  {
    if FailuresWroteNothing(p, ctx, s, log) {
      InStep(p, ctx, s, log);
    } else {
      var row := FallApart(p, ctx, s, log);
    }
  }

  lemma CommitPublishesAll(p: Prog, ctx: Ctx, s: Store, log: Log)
    requires Sound(s) && TxFromContext(ctx).None? && KeepsContext(p)
    requires Exec(InTx(true, Some(p)), ctx, s, log).err.None?
    ensures
      var q := InTx(true, Some(p));
      AllPublished(Exec(q, ctx, s, log).store, NewCalls(q, ctx, s, log))
  {
    var q, body := InTx(true, Some(p)), BodyCalls(p, ctx, s, log);
    BodyInTx(p, ctx, s, log);
    assert AllPublished(Exec(q, ctx, s, log).store, body) by { AllOrNothingAtEndIff(p, ctx, s, log); }
    InTxBegins(p, ctx, s, log);
    assert NewCalls(q, ctx, s, log) == [Began(s.nextTx)] + body + [Committed(s.nextTx)];
  }

  /**
   In particular for an InTx that commits and whose callback passes its context on: what failed inside
   was swallowed, and its rows are published all the same.
   */
  lemma JoiningShowsInCommitIff(p: Prog, ctx: Ctx, s: Store, log: Log)
    requires Sound(s) && TxFromContext(ctx).None? && KeepsContext(p)
    requires Exec(InTx(true, Some(p)), ctx, s, log).err.None?
    ensures
      var joined := Exec(InTx(true, Some(p)), ctx, s, log);
      var nested := ExecWithSavepoints(InTx(true, Some(p)), ctx, s, log);
      joined.store.committed == nested.store.committed <==> FailuresWroteNothing(InTx(true, Some(p)), ctx, s, log)
  {
    var q := InTx(true, Some(p));
    assert AllPublished(Exec(q, ctx, s, log).store, NewCalls(q, ctx, s, log)) by { CommitPublishesAll(p, ctx, s, log); }
    JoiningShowsIff(q, ctx, s, log);
  }

  /** A callback that writes one row in a nested InTx, fails there, and swallows the error. */
  function WriteFailSwallow(name: string, err: Error): Prog {
    Try(InTx(true, Some(Seq(Create(_ => name), Fail(_ => err)))))
  }

  lemma SwallowedJoined(ctx: Ctx, s: Store, log: Log, id: nat, name: string, err: Error)
    requires Live(s) && TxFromContext(ctx) == Some(Tx(id)) && id in s.open && !err.Panicked?
    ensures
      var joined := Exec(WriteFailSwallow(name, err), ctx, s, log);
      joined.err == None && joined.store == Insert(s, Tx(id), Row(s.nextId, name))
  {
    var inner := Seq(Create(_ => name), Fail(_ => err));
    assert Exec(inner, ctx, s, log).store == DoCreate(ctx, s, log, name).store;
  }

  lemma SwallowedNested(ctx: Ctx, s: Store, log: Log, id: nat, name: string, err: Error)
    requires Live(s) && TxFromContext(ctx) == Some(Tx(id)) && id in s.open && !err.Panicked?
    ensures
      var nested := ExecWithSavepoints(WriteFailSwallow(name, err), ctx, s, log);
      nested.err == None && nested.store == s.(nextId := s.nextId + 1)
  {
    var inner := Seq(Create(_ => name), Fail(_ => err));
    var created := DoCreate(ctx, s, log, name);
    assert ExecWithSavepoints(inner, ctx, s, log) == Outcome(Some(err), created.store, created.log);
    assert Restore(created.store, s, Tx(id)) == s.(nextId := s.nextId + 1);
  }

  lemma SwallowedWrote(ctx: Ctx, s: Store, log: Log, id: nat, name: string, err: Error)
    requires Live(s) && TxFromContext(ctx) == Some(Tx(id)) && id in s.open
    ensures !FailuresWroteNothing(WriteFailSwallow(name, err), ctx, s, log)
  {
    var inner, calls := Seq(Create(_ => name), Fail(_ => err)), log + [Created(Tx(id), Row(s.nextId, name))];
    assert Exec(inner, Normalize(ctx), s, log) == Outcome(Some(err), Insert(s, Tx(id), Row(s.nextId, name)), calls);
    assert NewCalls(inner, Normalize(ctx), s, log)[0].via == Tx(id);
  }

  lemma OneRowPublished(p: Prog, ctx: Ctx, s: Store, log: Log, name: string)
    requires Live(s) && TxFromContext(ctx).None? && Body(p, ctx, s, log).err.None?
    requires Body(p, ctx, s, log).store == Insert(Begin(s), Tx(s.nextTx), Row(s.nextId, name))
    ensures
      var r := Exec(InTx(true, Some(p)), ctx, s, log);
      r.err == None && r.store.committed == s.committed[s.nextId := name]
  {
    InTxBegins(p, ctx, s, log);
    assert Body(p, ctx, s, log).store.open[s.nextTx] == map[s.nextId := name];
  }

  lemma NestedBegins(p: Prog, ctx: Ctx, s: Store, log: Log)
    requires Live(s) && TxFromContext(ctx).None?
    ensures
      var body := ExecWithSavepoints(p, TxContext(ctx, s), Begin(s), log + [Began(s.nextTx)]);
      ExecWithSavepoints(InTx(true, Some(p)), ctx, s, log) == Finish(s.nextTx, body)
  {
  }

  lemma NothingPublished(p: Prog, ctx: Ctx, s: Store, log: Log)
    requires Live(s) && TxFromContext(ctx).None?
    requires
      var body := ExecWithSavepoints(p, TxContext(ctx, s), Begin(s), log + [Began(s.nextTx)]);
      body.err.None? && body.store == Begin(s).(nextId := s.nextId + 1)
    ensures ExecWithSavepoints(InTx(true, Some(p)), ctx, s, log).store.committed == s.committed
  {
    NestedBegins(p, ctx, s, log);
  }

  /** The smallest such run: the failed callback's row is published although its error said otherwise. */
  lemma SwallowedInnerWritesPublished(ctx: Ctx, s: Store, log: Log, name: string, err: Error)
    requires Live(s) && TxFromContext(ctx).None? && !err.Panicked?
    ensures
      var r := Exec(InTx(true, Some(WriteFailSwallow(name, err))), ctx, s, log);
      r.err == None && r.store.committed == s.committed[s.nextId := name]
    ensures
      var nested := ExecWithSavepoints(InTx(true, Some(WriteFailSwallow(name, err))), ctx, s, log);
      nested.store.committed == s.committed
  {
    var p, txCtx, begun := WriteFailSwallow(name, err), TxContext(ctx, s), log + [Began(s.nextTx)];
    SwallowedJoined(txCtx, Begin(s), begun, s.nextTx, name, err);
    SwallowedNested(txCtx, Begin(s), begun, s.nextTx, name, err);
    OneRowPublished(p, ctx, s, log, name);
    NothingPublished(p, ctx, s, log);
  }

  function FailAfter(p: Prog, err: Error): Prog {
    Seq(p, Fail(_ => err))
  }

  lemma OuterFailureJoined(ctx: Ctx, s: Store, log: Log, name: string, err: Error)
    requires Live(s) && TxFromContext(ctx).None? && !err.Panicked?
    ensures
      var p := InTx(true, Some(FailAfter(WriteFailSwallow(name, err), err)));
      Exec(p, ctx, s, log).store.committed == s.committed
  {
    SwallowedJoined(TxContext(ctx, s), Begin(s), log + [Began(s.nextTx)], s.nextTx, name, err);
    InTxBegins(FailAfter(WriteFailSwallow(name, err), err), ctx, s, log);
  }

  lemma OuterFailureNested(ctx: Ctx, s: Store, log: Log, name: string, err: Error)
    requires Live(s) && TxFromContext(ctx).None? && !err.Panicked?
    ensures
      var p := InTx(true, Some(FailAfter(WriteFailSwallow(name, err), err)));
      ExecWithSavepoints(p, ctx, s, log).store.committed == s.committed
  {
    var p, txCtx, begun := WriteFailSwallow(name, err), TxContext(ctx, s), log + [Began(s.nextTx)];
    var body := ExecWithSavepoints(FailAfter(p, err), txCtx, Begin(s), begun);
    assert body.err.Some? && body.store.committed == s.committed by {
      SwallowedNested(txCtx, Begin(s), begun, s.nextTx, name, err);
    }
    NestedBegins(FailAfter(p, err), ctx, s, log);
  }

  /**
   A run that does not publish what it created need not tell the difference: when the outermost callback
   then fails as well, the tables agree although an inner one that failed had created a row.
   */
  lemma OuterFailureHidesIt(ctx: Ctx, s: Store, log: Log, name: string, err: Error)
    requires Live(s) && TxFromContext(ctx).None? && !err.Panicked?
    ensures
      var p := InTx(true, Some(FailAfter(WriteFailSwallow(name, err), err)));
      && Exec(p, ctx, s, log).store.committed == ExecWithSavepoints(p, ctx, s, log).store.committed
      && !FailuresWroteNothing(p, ctx, s, log)
  {
    OuterFailureJoined(ctx, s, log, name, err);
    OuterFailureNested(ctx, s, log, name, err);
    SwallowedWrote(TxContext(ctx, s), Begin(s), log + [Began(s.nextTx)], s.nextTx, name, err);
  }
}
