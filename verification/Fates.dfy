/**
 What becomes of each row a program creates, read off the calls alone, and from it exactly when an InTx
 ends with everything its callback created published, and exactly when with nothing of it left.
 */
module Fates {
  import opened Options
  import opened Context
  import opened Tables
  import opened Transactions
  import opened History
  import opened Atomicity

  // Transactions are numbered as they begin --------------------------------------------------------

  /** The transactions that begin from call `from` on have rising numbers, from `lo` to below `hi`. */
  ghost predicate NumbersRise(lo: nat, hi: nat, log: Log, from: nat) {
    && (forall i :: from <= i < |log| && log[i].Began? ==> lo <= log[i].id < hi)
    && (forall i, j :: from <= i < j < |log| && log[i].Began? && log[j].Began? ==> log[i].id < log[j].id)
  }

  lemma NumbersRiseOneMore(lo: nat, hi: nat, log: Log, call: Call, from: nat)
    requires NumbersRise(lo, hi, log, from)
    ensures !call.Began? ==> NumbersRise(lo, hi, log + [call], from)
    ensures call == Began(hi) && lo <= hi ==> NumbersRise(lo, hi + 1, log + [call], from)
  {
  }

  /** No program hands out the number of a transaction twice. */
  lemma {:induction false} TxNumbersRise(p: Prog, ctx: Ctx, s: Store, log: Log, lo: nat, from: nat)
    requires Live(s) && lo <= s.nextTx && NumbersRise(lo, s.nextTx, log, from)
    ensures var r := Exec(p, ctx, s, log); NumbersRise(lo, r.store.nextTx, r.log, from)
    decreases p, 0
  {
    match p
    case Skip =>
    case Fail(_) =>
    case Create(name) => NumbersRiseOneMore(lo, s.nextTx, log, DoCreate(ctx, s, log, name(log)).log[|log|], from);
    case List(limit, offset) =>
      NumbersRiseOneMore(lo, s.nextTx, log, DoList(ctx, s, log, limit(log), offset(log)).log[|log|], from);
    case Seq(first, second) =>
      TxNumbersRise(first, ctx, s, log, lo, from);
      var r := Exec(first, ctx, s, log);
      if r.err.None? { TxNumbersRise(second, ctx, r.store, r.log, lo, from); }
    case Branch(test, yes, no) => TxNumbersRise(if test(log) then yes else no, ctx, s, log, lo, from);
    case Try(body) =>
      TxNumbersRise(body, ctx, s, log, lo, from);
      var r := Exec(body, ctx, s, log);
      if Swallows(r.err) { NumbersRiseOneMore(lo, r.store.nextTx, r.log, Swallowed(r.err.value), from); }
    case WithTrace(id, body) => TxNumbersRise(body, WithTraceID(ctx, id), s, log, lo, from);
    case Under(pick, body) => TxNumbersRise(body, pick(log), s, log, lo, from);
    case InTx(hasDB, fn) =>
      if fn.Some? {
        if TxFromContext(ctx).Some? {
          TxNumbersRise(fn.value, Normalize(ctx), s, log, lo, from);
        } else if hasDB {
          TxNumbersRiseAround(fn.value, ctx, s, log, lo, from);
        }
      }
  }

  lemma {:induction false} TxNumbersRiseAround(p: Prog, ctx: Ctx, s: Store, log: Log, lo: nat, from: nat)
    requires Live(s) && lo <= s.nextTx && NumbersRise(lo, s.nextTx, log, from)
    ensures var r := Finish(s.nextTx, Body(p, ctx, s, log)); NumbersRise(lo, r.store.nextTx, r.log, from)
    decreases p, 1
  {
    NumbersRiseOneMore(lo, s.nextTx, log, Began(s.nextTx), from);
    TxNumbersRise(p, TxContext(ctx, s), Begin(s), log + [Began(s.nextTx)], lo, from);
    var b := Body(p, ctx, s, log);
    NumbersRiseOneMore(lo, b.store.nextTx, b.log, Finish(s.nextTx, b).log[|b.log|], from);
  }

  // The fate of a row ------------------------------------------------------------------------------

  ghost predicate CommittedAfter(calls: Log, i: nat, id: nat) {
    exists m :: i < m < |calls| && calls[m] == Committed(id)
  }

  /** The row created by call i went straight to the table, or its transaction committed later. */
  ghost predicate PublishedBy(calls: Log, i: nat)
    requires i < |calls| && calls[i].Created?
  {
    calls[i].via == Base || CommittedAfter(calls, i, calls[i].via.id)
  }

  // The row is published when the calls say so, and until then in its own transaction and no other.
  ghost predicate HasItsFate(v: View, calls: Log, i: nat)
    requires i < |calls| && calls[i].Created?
  {
    && (calls[i].row.id in v.committed <==> PublishedBy(calls, i))
    && (forall id :: id in v.open ==> (calls[i].row.id in v.open[id] <==> calls[i].via == Tx(id)))
  }

  /** What every history that starts from this view satisfies. */
  ghost predicate Consistent(start: View, calls: Log, lo: nat, hi: nat) {
    && Truthful(start, calls)
    && NumbersRise(lo, hi, calls, 0)
    && (forall id :: id in start.open ==> id < lo)
    && (forall i, j :: 0 <= i < j < |calls| && calls[i].Created? && calls[j].Created? ==>
         calls[i].row.id != calls[j].row.id)
  }

  lemma ConsistentPrefix(start: View, calls: Log, lo: nat, hi: nat, n: nat)
    requires Consistent(start, calls, lo, hi) && n <= |calls|
    ensures Consistent(start, calls[..n], lo, hi)
  {
    TruthfulPrefix(start, calls, n);
    assert forall k :: 0 <= k < n ==> calls[..n][k] == calls[k];
  }

  lemma {:induction false} OpenWasBegun(start: View, calls: Log, id: nat)
    requires id in Replay(start, calls).open && id !in start.open
    ensures exists b :: 0 <= b < |calls| && calls[b] == Began(id)
  {
    if calls == [] {
    } else {
      var n := |calls| - 1;
      if calls[n] != Began(id) {
        OpenWasBegun(start, calls[..n], id);
        var b :| 0 <= b < n && calls[..n][b] == Began(id);
        assert calls[b] == Began(id);
      }
    }
  }

  /** A transaction that was in use never begins again. */
  lemma NotBegunAgain(start: View, calls: Log, lo: nat, hi: nat, i: nat)
    requires Consistent(start, calls, lo, hi) && i < |calls| && calls[i].Created? && calls[i].via.Tx?
    ensures forall m :: i < m < |calls| ==> calls[m] != Began(calls[i].via.id)
  {
    var id := calls[i].via.id;
    assert Legal(Replay(start, calls[..i]), calls[i]);
    if id !in start.open {
      OpenWasBegun(start, calls[..i], id);
      var b :| 0 <= b < i && calls[..i][b] == Began(id);
      assert calls[b] == Began(id);
    }
  }

  lemma FateStep(v: View, calls: Log, i: nat)
    requires i < |calls| - 1 && calls[i].Created? && HasItsFate(v, calls[..|calls| - 1], i)
    requires
      var last := calls[|calls| - 1];
      && Legal(v, last)
      && (last.Created? ==> last.row.id != calls[i].row.id)
      && (calls[i].via.Tx? ==> last != Began(calls[i].via.id))
    ensures HasItsFate(ReplayCall(v, calls[|calls| - 1]), calls, i)
  {
    var n := |calls| - 1;
    assert forall m :: 0 <= m < n ==> calls[..n][m] == calls[m];
    if calls[i].via.Tx? {
      var id := calls[i].via.id;
      assert CommittedAfter(calls, i, id) <==> CommittedAfter(calls[..n], i, id) || calls[n] == Committed(id);
    }
  }

  lemma FateBegins(start: View, calls: Log)
    requires calls != [] && calls[|calls| - 1].Created? && Truthful(start, calls)
    ensures HasItsFate(Replay(start, calls), calls, |calls| - 1)
  {
    var n := |calls| - 1;
    assert Legal(Replay(start, calls[..n]), calls[n]);
    assert !Stored(Replay(start, calls[..n]), calls[n].row.id);
  }

  lemma LastCallIsOther(start: View, calls: Log, lo: nat, hi: nat, i: nat)
    requires Consistent(start, calls, lo, hi) && i < |calls| - 1 && calls[i].Created?
    ensures
      var last := calls[|calls| - 1];
      && Legal(Replay(start, calls[..|calls| - 1]), last)
      && (last.Created? ==> last.row.id != calls[i].row.id)
      && (calls[i].via.Tx? ==> last != Began(calls[i].via.id))
  {
    if calls[i].via.Tx? { NotBegunAgain(start, calls, lo, hi, i); }
  }

  lemma FateGoesOn(start: View, calls: Log, v: View, lo: nat, hi: nat, i: nat)
    requires Consistent(start, calls, lo, hi) && i < |calls| - 1 && calls[i].Created?
    requires v == Replay(start, calls[..|calls| - 1]) && HasItsFate(v, calls[..|calls| - 1], i)
    ensures HasItsFate(ReplayCall(v, calls[|calls| - 1]), calls, i)
  {
    LastCallIsOther(start, calls, lo, hi, i);
    FateStep(v, calls, i);
  }

  /** In a consistent history every created row has the fate the calls give it. */
  lemma {:induction false} HistoryDecidesFate(start: View, calls: Log, v: View, lo: nat, hi: nat, i: nat)
    requires Consistent(start, calls, lo, hi) && i < |calls| && calls[i].Created?
    requires v == Replay(start, calls)
    ensures HasItsFate(v, calls, i)
    decreases |calls|
  {
    var n := |calls| - 1;
    if i == n {
      FateBegins(start, calls);
    } else {
      var before := Replay(start, calls[..n]);
      assert v == ReplayCall(before, calls[n]) && calls[..n][i] == calls[i];
      ConsistentPrefix(start, calls, lo, hi, n);
      HistoryDecidesFate(start, calls[..n], before, lo, hi, i);
      FateGoesOn(start, calls, before, lo, hi, i);
    }
  }

  /** The calls a program adds to the log. */
  function NewCalls(p: Prog, ctx: Ctx, s: Store, log: Log): Log
    requires Live(s)
  {
    Exec(p, ctx, s, log).log[|log|..]
  }

  lemma {:induction false} CreatesGrow(calls: Log, i: nat, j: nat)
    requires i <= j <= |calls|
    ensures Creates(calls[..i]) <= Creates(calls[..j])
  {
    if i < j {
      CreatesGrow(calls, i, j - 1);
      assert calls[..j][..j - 1] == calls[..j - 1];
    }
  }

  lemma NumberedAreDistinct(lo: nat, calls: Log, i: nat, j: nat)
    requires Numbered(lo, calls) && i < j < |calls| && calls[i].Created? && calls[j].Created?
    ensures calls[i].row.id < calls[j].row.id
  {
    CreatesGrow(calls, i + 1, j);
    assert calls[..i + 1][..i] == calls[..i];
  }

  lemma NewCallsConsistent(p: Prog, ctx: Ctx, s: Store, log: Log)
    requires Sound(s)
    ensures
      var r, calls := Exec(p, ctx, s, log), NewCalls(p, ctx, s, log);
      && Consistent(ViewOf(s), calls, s.nextTx, r.store.nextTx)
      && Replay(ViewOf(s), calls) == ViewOf(r.store)
  {
    var r, calls := Exec(p, ctx, s, log), NewCalls(p, ctx, s, log);
    assert log[|log|..] == [];
    HistoryExplainsTables(p, ctx, s, log, ViewOf(s), |log|);
    TxNumbersRise(p, ctx, s, log, s.nextTx, |log|);
    IdsConsecutive(p, ctx, s, log, s.nextId, |log|);
    assert forall k :: 0 <= k < |calls| ==> calls[k] == r.log[|log| + k];
    forall i, j | 0 <= i < j < |calls| && calls[i].Created? && calls[j].Created?
      ensures calls[i].row.id != calls[j].row.id
    {
      NumberedAreDistinct(s.nextId, calls, i, j);
    }
  }

  /**
   The fate of every row of every program: it is published if and only if it was created outside
   transactions or its transaction committed later, and it is pending if and only if its transaction
   was begun by someone else and is open.
   */
  lemma FateOfRows(p: Prog, ctx: Ctx, s: Store, log: Log, i: nat)
    requires Sound(s) && i < |NewCalls(p, ctx, s, log)| && NewCalls(p, ctx, s, log)[i].Created?
    ensures
      var r, calls := Exec(p, ctx, s, log), NewCalls(p, ctx, s, log);
      var via, row := calls[i].via, calls[i].row.id;
      && (row in r.store.committed <==> via == Base || CommittedAfter(calls, i, via.id))
      && (forall id :: id in s.open ==> (row in r.store.open[id] <==> via == Tx(id)))
      && r.store.open.Keys == s.open.Keys
  {
    NewCallsConsistent(p, ctx, s, log);
    var r := Exec(p, ctx, s, log);
    HistoryDecidesFate(ViewOf(s), NewCalls(p, ctx, s, log), ViewOf(r.store), s.nextTx, r.store.nextTx, i);
  }

  // What a list shows -------------------------------------------------------------------------------

  /** The row was published from the start, or one of these calls created it. */
  ghost predicate Known(start: View, calls: Log, row: nat, name: string) {
    || (row in start.committed && start.committed[row] == name)
    || (exists i :: 0 <= i < |calls| && calls[i].Created? && calls[i].row == Row(row, name))
  }

  ghost predicate AllKnown(start: View, calls: Log, v: View) {
    && (forall row :: row in v.committed ==> Known(start, calls, row, v.committed[row]))
    && (forall id, row :: id in v.open && id !in start.open && row in v.open[id] ==>
         Known(start, calls, row, v.open[id][row]))
  }

  lemma KnownStays(start: View, calls: Log, row: nat, name: string)
    requires calls != [] && Known(start, calls[..|calls| - 1], row, name)
    ensures Known(start, calls, row, name)
  {
    var earlier := calls[..|calls| - 1];
    if i :| 0 <= i < |earlier| && earlier[i].Created? && earlier[i].row == Row(row, name) {
      assert calls[i] == earlier[i];
    }
  }

  lemma KnownStep(start: View, calls: Log, v: View)
    requires calls != [] && AllKnown(start, calls[..|calls| - 1], v)
    requires forall id :: calls[|calls| - 1] == Committed(id) ==> id !in start.open
    ensures AllKnown(start, calls, ReplayCall(v, calls[|calls| - 1]))
  {
    forall row, name | Known(start, calls[..|calls| - 1], row, name) ensures Known(start, calls, row, name) {
      KnownStays(start, calls, row, name);
    }
    var last := calls[|calls| - 1];
    assert last.Created? ==> Known(start, calls, last.row.id, last.row.name);
  }

  lemma {:induction false} NothingFromNowhere(start: View, calls: Log, lo: nat)
    requires OwnMarkers(lo, calls, 0) && forall id :: id in start.open ==> id < lo
    ensures AllKnown(start, calls, Replay(start, calls))
  {
    if calls == [] {
    } else {
      var n := |calls| - 1;
      assert forall i :: 0 <= i < n ==> calls[..n][i] == calls[i];
      NothingFromNowhere(start, calls[..n], lo);
      assert MarkerOf(calls[n]).Some? ==> lo <= MarkerOf(calls[n]).value;
      KnownStep(start, calls, Replay(start, calls[..n]));
    }
  }

  /** A row of the table: there from the start, or created since and published. */
  ghost predicate Shown(s: Store, calls: Log, row: Row) {
    || (row.id in s.committed && s.committed[row.id] == row.name)
    || (exists i :: 0 <= i < |calls| && calls[i].Created? && calls[i].row == row && PublishedBy(calls, i))
  }

  lemma CreatedIsNew(p: Prog, ctx: Ctx, s: Store, log: Log, i: nat)
    requires Sound(s) && i < |NewCalls(p, ctx, s, log)| && NewCalls(p, ctx, s, log)[i].Created?
    ensures NewCalls(p, ctx, s, log)[i].row.id >= s.nextId
  {
    assert log[|log|..] == [];
    IdsConsecutive(p, ctx, s, log, s.nextId, |log|);
  }

  lemma PublishedIsShown(p: Prog, ctx: Ctx, s: Store, log: Log, row: Row)
    requires Sound(s)
    ensures
      var committed := Exec(p, ctx, s, log).store.committed;
      row.id in committed && committed[row.id] == row.name ==> Shown(s, NewCalls(p, ctx, s, log), row)
  {
    var r, calls := Exec(p, ctx, s, log), NewCalls(p, ctx, s, log);
    assert AllKnown(ViewOf(s), calls, ViewOf(r.store)) by {
      NewCallsConsistent(p, ctx, s, log);
      EndsOnlyItsOwn(p, ctx, s, log, s.nextTx, |log|);
      assert forall k :: 0 <= k < |calls| ==> calls[k] == r.log[|log| + k];
      NothingFromNowhere(ViewOf(s), calls, s.nextTx);
    }
    var before, after := s.committed, r.store.committed;
    if row.id in after && after[row.id] == row.name && !(row.id in before && before[row.id] == row.name) {
      assert Known(ViewOf(s), calls, row.id, row.name);
      var i :| 0 <= i < |calls| && calls[i].Created? && calls[i].row == row;
      FateOfRows(p, ctx, s, log, i);
      assert PublishedBy(calls, i);
    }
  }

  lemma ShownIsPublished(p: Prog, ctx: Ctx, s: Store, log: Log, row: Row)
    requires Sound(s) && Shown(s, NewCalls(p, ctx, s, log), row)
    ensures
      var committed := Exec(p, ctx, s, log).store.committed;
      row.id in committed && committed[row.id] == row.name
  {
    var committed, calls := Exec(p, ctx, s, log).store.committed, NewCalls(p, ctx, s, log);
    RowsStay(p, ctx, s, log);
    if !(row.id in s.committed && s.committed[row.id] == row.name) {
      var i :| 0 <= i < |calls| && calls[i].Created? && calls[i].row == row && PublishedBy(calls, i);
      FateOfRows(p, ctx, s, log, i);
      CreatedIsNew(p, ctx, s, log, i);
      PublishedIsShown(p, ctx, s, log, Row(row.id, committed[row.id]));
      var j :| 0 <= j < |calls| && calls[j].Created? && calls[j].row == Row(row.id, committed[row.id]);
      assert i == j by { NewCallsConsistent(p, ctx, s, log); }
    }
  }

  /**
   What a list outside transactions shows after any program: the rows that were published before it,
   and of those it created exactly the ones its calls published, each once, as many as the total.
   */
  lemma ListAfterProgram(p: Prog, ctx: Ctx, s: Store, log: Log, reader: Ctx)
    requires Sound(s) && TxFromContext(reader).None?
    ensures
      var r, calls := Exec(p, ctx, s, log), NewCalls(p, ctx, s, log);
      var listed := DoList(reader, r.store, r.log, -1, 0);
      && listed.err.None? && |listed.log| == |r.log| + 1 && listed.log[|r.log|].Listed?
      && var rows := listed.log[|r.log|].rows;
         && Descending(rows) && listed.log[|r.log|].total == |rows|
         && forall row :: row in rows <==> Shown(s, calls, row)
  {
    var r := Exec(p, ctx, s, log);
    NewestFirstExact(r.store.committed);
    forall row: Row
      ensures
        row.id in r.store.committed && r.store.committed[row.id] == row.name <==>
          Shown(s, NewCalls(p, ctx, s, log), row)
    {
      PublishedIsShown(p, ctx, s, log, row);
      if Shown(s, NewCalls(p, ctx, s, log), row) { ShownIsPublished(p, ctx, s, log, row); }
    }
  }

  // How an InTx ends -------------------------------------------------------------------------------

  /** Every row these calls created is published. */
  ghost predicate AllPublished(s: Store, calls: Log) {
    forall i :: 0 <= i < |calls| && calls[i].Created? ==> calls[i].row.id in s.committed
  }

  /** No row these calls created is left, published or pending. */
  ghost predicate NoneLeft(s: Store, calls: Log) {
    forall i :: 0 <= i < |calls| && calls[i].Created? ==> !Stored(ViewOf(s), calls[i].row.id)
  }

  /** Every create went through the transaction, straight to the table, or through one that committed. */
  ghost predicate NoneLost(calls: Log, id: nat) {
    forall i :: 0 <= i < |calls| && calls[i].Created? ==> calls[i].via == Tx(id) || PublishedBy(calls, i)
  }

  /** Every create went through a transaction that is neither one of the `others` nor committed. */
  ghost predicate AllUndone(calls: Log, others: set<nat>) {
    forall i :: 0 <= i < |calls| && calls[i].Created? ==>
      calls[i].via.Tx? && calls[i].via.id !in others && !CommittedAfter(calls, i, calls[i].via.id)
  }

  lemma BodyDecidesFate(p: Prog, ctx: Ctx, s: Store, log: Log, i: nat)
    requires Sound(s) && i < |BodyCalls(p, ctx, s, log)| && BodyCalls(p, ctx, s, log)[i].Created?
    ensures HasItsFate(ViewOf(Body(p, ctx, s, log).store), BodyCalls(p, ctx, s, log), i)
  {
    var begun, txCtx := log + [Began(s.nextTx)], TxContext(ctx, s);
    BeginKeeps(s);
    NewCallsConsistent(p, txCtx, Begin(s), begun);
    var calls := NewCalls(p, txCtx, Begin(s), begun);
    var after := Body(p, ctx, s, log).store;
    assert calls == BodyCalls(p, ctx, s, log);
    HistoryDecidesFate(ViewOf(Begin(s)), calls, ViewOf(after), Begin(s).nextTx, after.nextTx, i);
  }

  lemma FateAtFinish(s: Store, body: Outcome, calls: Log, i: nat)
    requires body.store.open.Keys == s.open.Keys + {s.nextTx} && Live(s)
    requires i < |calls| && calls[i].Created? && HasItsFate(ViewOf(body.store), calls, i)
    ensures
      var r, via, row := Finish(s.nextTx, body), calls[i].via, calls[i].row.id;
      && (r.err.None? ==> (row in r.store.committed <==> via == Tx(s.nextTx) || PublishedBy(calls, i)))
      && (r.err.Some? ==>
           (Stored(ViewOf(r.store), row) <==> PublishedBy(calls, i) || (via.Tx? && via.id in s.open)))
  {
    var r, row := Finish(s.nextTx, body), calls[i].row.id;
    if calls[i].via.Tx? && calls[i].via.id in s.open && r.err.Some? {
      assert calls[i].via.id in r.store.open && row in r.store.open[calls[i].via.id];
    }
  }

  /**
   All or nothing at the end, exactly. An InTx that succeeds has published every row its callback
   created, through whatever handle, if and only if each went through the transaction, straight to the
   table or through another transaction that committed. One that fails has left none of them anywhere
   if and only if each went through a transaction begun since, its own included, that did not commit.
   */
  lemma AllOrNothingAtEndIff(p: Prog, ctx: Ctx, s: Store, log: Log)
    requires Sound(s) && TxFromContext(ctx).None?
    ensures
      var r, body := Exec(InTx(true, Some(p)), ctx, s, log), BodyCalls(p, ctx, s, log);
      && (r.err.None? ==> (AllPublished(r.store, body) <==> NoneLost(body, s.nextTx)))
      && (r.err.Some? ==> (NoneLeft(r.store, body) <==> AllUndone(body, s.open.Keys)))
  {
    var body, calls := Body(p, ctx, s, log), BodyCalls(p, ctx, s, log);
    InTxBegins(p, ctx, s, log);
    forall i | 0 <= i < |calls| && calls[i].Created?
      ensures
        var r, via, row := Finish(s.nextTx, body), calls[i].via, calls[i].row.id;
        && (r.err.None? ==> (row in r.store.committed <==> via == Tx(s.nextTx) || PublishedBy(calls, i)))
        && (r.err.Some? ==>
             (Stored(ViewOf(r.store), row) <==> PublishedBy(calls, i) || (via.Tx? && via.id in s.open)))
    {
      BodyDecidesFate(p, ctx, s, log, i);
      FateAtFinish(s, body, calls, i);
    }
  }

  /**
   A callback that creates a row under the background context and then fails: InTx returns the error
   and the row is published all the same.
   */
  lemma EscapedRowSurvivesFailure(s: Store, log: Log, name: string, err: Error)
    requires Live(s)
    ensures
      var p := Seq(Under(_ => Background, Create(_ => name)), Fail(_ => err));
      var r := Exec(InTx(true, Some(p)), Background, s, log);
      r.err == Some(err) && r.store.committed == s.committed[s.nextId := name]
  {
    var create := Under(_ => Background, Create(_ => name));
    var p, txCtx, begun := Seq(create, Fail(_ => err)), TxContext(Background, s), log + [Began(s.nextTx)];
    assert Exec(create, txCtx, Begin(s), begun) == DoCreate(Background, Begin(s), begun, name);
    InTxBegins(p, Background, s, log);
  }
}
