/**
 What whole programs keep: rows that are never lost or overwritten, ids that are never reused, and a
 history of calls that explains every table and every page.
 */
module History {
  import opened Options
  import opened Context
  import opened Tables
  import opened Transactions

  // Rows -------------------------------------------------------------------------------------------

  /** Every row is in one place, under an id the sequence has passed. */
  ghost predicate Sound(s: Store) {
    && Live(s)
    && (forall row :: row in s.committed ==> row < s.nextId)
    && (forall id, row :: id in s.open && row in s.open[id] ==> row < s.nextId && row !in s.committed)
    && (forall id, other, row :: id in s.open && other in s.open && id != other && row in s.open[id] ==>
         row !in s.open[other])
  }

  ghost predicate Grows(before: Table, after: Table) {
    forall row :: row in before ==> row in after && after[row] == before[row]
  }

  /** Published rows stay, and so do those of the transactions that are open. */
  ghost predicate Keeps(before: Store, after: Store) {
    && Grows(before.committed, after.committed)
    && (forall id :: id in before.open ==> id in after.open && Grows(before.open[id], after.open[id]))
    && before.nextId <= after.nextId
  }

  lemma InsertKeeps(s: Store, via: Handle, name: string)
    requires Sound(s) && Usable(s.open, via)
    ensures var s' := Insert(s, via, Row(s.nextId, name)); Sound(s') && Keeps(s, s')
  {
  }

  lemma KeepsTransitive(a: Store, b: Store, c: Store)
    requires Keeps(a, b) && Keeps(b, c)
    ensures Keeps(a, c)
  {
  }

  lemma CreateKeeps(ctx: Ctx, s: Store, log: Log, name: string)
    requires Sound(s)
    ensures var r := DoCreate(ctx, s, log, name); Sound(r.store) && Keeps(s, r.store)
  {
    if Usable(s.open, DbFromContext(ctx, Base)) {
      InsertKeeps(s, DbFromContext(ctx, Base), name);
    }
  }

  lemma BeginKeeps(s: Store)
    requires Sound(s)
    ensures Sound(Begin(s)) && Keeps(s, Begin(s))
  {
    assert forall id :: id in s.open ==> id in Begin(s).open && Begin(s).open[id] == s.open[id];
    assert Begin(s).open[s.nextTx] == map[];
  }

  lemma FinishSound(id: nat, body: Outcome)
    requires id in body.store.open && Sound(body.store)
    ensures Sound(Finish(id, body).store)
  {
  }

  lemma FinishKeeps(s: Store, body: Outcome)
    requires Sound(s) && Sound(body.store) && Keeps(Begin(s), body.store) && s.nextTx < body.store.nextTx
    ensures
      var r := Finish(s.nextTx, body);
      Sound(r.store) && Keeps(s, r.store)
  {
    FinishSound(s.nextTx, body);
    assert forall id :: id in s.open ==> id in Begin(s).open && Begin(s).open[id] == s.open[id] && id != s.nextTx;
  }

  /** No program loses or overwrites a row that is published or belongs to an open transaction. */
  lemma {:induction false} RowsStay(p: Prog, ctx: Ctx, s: Store, log: Log)
    requires Sound(s)
    ensures var r := Exec(p, ctx, s, log); Sound(r.store) && Keeps(s, r.store)
    decreases p, 1
  {
    match p
    case Skip =>
    case Fail(_) =>
    case List(_, _) =>
    case Create(name) => CreateKeeps(ctx, s, log, name(log));
    case Seq(_, _) => RowsStayInSeq(p, ctx, s, log);
    case Branch(test, yes, no) => RowsStay(if test(log) then yes else no, ctx, s, log);
    case Try(body) => RowsStay(body, ctx, s, log);
    case WithTrace(id, body) => RowsStay(body, WithTraceID(ctx, id), s, log);
    case Under(pick, body) => RowsStay(body, pick(log), s, log);
    case InTx(hasDB, fn) =>
      if fn.Some? {
        if TxFromContext(ctx).Some? {
          RowsStay(fn.value, Normalize(ctx), s, log);
        } else if hasDB {
          RowsStayAround(fn.value, ctx, s, log);
        }
      }
  }

  lemma {:induction false} RowsStayInSeq(p: Prog, ctx: Ctx, s: Store, log: Log)
    requires Sound(s) && p.Seq?
    ensures var r := Exec(p, ctx, s, log); Sound(r.store) && Keeps(s, r.store)
    decreases p, 0
  {
    RowsStay(p.first, ctx, s, log);
    var r := Exec(p.first, ctx, s, log);
    if r.err.None? {
      RowsStay(p.second, ctx, r.store, r.log);
      KeepsTransitive(s, r.store, Exec(p, ctx, s, log).store);
    }
  }

  lemma {:induction false} RowsStayAround(p: Prog, ctx: Ctx, s: Store, log: Log)
    requires Sound(s)
    ensures var r := Finish(s.nextTx, Body(p, ctx, s, log)); Sound(r.store) && Keeps(s, r.store)
    decreases p, 2
  {
    BeginKeeps(s);
    RowsStay(p, TxContext(ctx, s), Begin(s), log + [Began(s.nextTx)]);
    FinishKeeps(s, Body(p, ctx, s, log));
  }

  // Ids --------------------------------------------------------------------------------------------

  function Creates(calls: Log): nat {
    if calls == [] then 0
    else Creates(calls[..|calls| - 1]) + (if calls[|calls| - 1].Created? then 1 else 0)
  }

  /** The created rows are numbered one after the other from `lo` on. */
  ghost predicate Numbered(lo: nat, calls: Log) {
    forall i :: 0 <= i < |calls| && calls[i].Created? ==> calls[i].row.id == lo + Creates(calls[..i])
  }

  // The ids handed out by the calls from `from` on, and the next one.
  ghost predicate InOrder(lo: nat, s: Store, log: Log, from: nat) {
    from <= |log| && Numbered(lo, log[from..]) && s.nextId == lo + Creates(log[from..])
  }

  lemma InOrderOneMore(lo: nat, s: Store, s': Store, log: Log, call: Call, from: nat)
    requires InOrder(lo, s, log, from)
    requires call.Created? ==> call.row.id == s.nextId
    requires s'.nextId == s.nextId + (if call.Created? then 1 else 0)
    ensures InOrder(lo, s', log + [call], from)
  {
    var calls, more := log[from..], (log + [call])[from..];
    assert more == calls + [call] && more[..|calls|] == calls;
    assert Creates(more) == Creates(calls) + (if call.Created? then 1 else 0);
    forall i | 0 <= i < |more| && more[i].Created? ensures more[i].row.id == lo + Creates(more[..i]) {
      assert more[..i] == calls[..i];
      if i == |calls| { assert calls[..i] == calls && more[i] == call; }
    }
  }

  lemma CallInOrder(lo: nat, ctx: Ctx, s: Store, log: Log, name: string, limit: int, offset: int, from: nat)
    requires InOrder(lo, s, log, from)
    ensures var r := DoCreate(ctx, s, log, name); InOrder(lo, r.store, r.log, from)
    ensures var r := DoList(ctx, s, log, limit, offset); InOrder(lo, r.store, r.log, from)
  {
    var via, row := DbFromContext(ctx, Base), Row(s.nextId, name);
    if Usable(s.open, via) {
      InOrderOneMore(lo, s, Insert(s, via, row), log, Created(via, row), from);
      InOrderOneMore(lo, s, s, log, DoList(ctx, s, log, limit, offset).log[|log|], from);
    } else {
      InOrderOneMore(lo, s, s, log, Refused(via), from);
    }
  }

  lemma FinishInOrder(lo: nat, id: nat, body: Outcome, from: nat)
    requires id in body.store.open && InOrder(lo, body.store, body.log, from)
    ensures InOrder(lo, Finish(id, body).store, Finish(id, body).log, from)
  {
    var end := if body.err.None? then Committed(id) else RolledBack(id);
    InOrderOneMore(lo, body.store, Finish(id, body).store, body.log, end, from);
  }

  /**
   Every create takes the next id, through whichever handle and whatever becomes of it: ids are
   consecutive in the order of the calls and none is handed out twice.
   */
  lemma {:induction false} IdsConsecutive(p: Prog, ctx: Ctx, s: Store, log: Log, lo: nat, from: nat)
    requires Live(s) && InOrder(lo, s, log, from)
    ensures var r := Exec(p, ctx, s, log); InOrder(lo, r.store, r.log, from)
    decreases p, 0
  {
    match p
    case Skip =>
    case Fail(_) =>
    case Create(name) => CallInOrder(lo, ctx, s, log, name(log), 0, 0, from);
    case List(limit, offset) => CallInOrder(lo, ctx, s, log, "", limit(log), offset(log), from);
    case Seq(first, second) =>
      IdsConsecutive(first, ctx, s, log, lo, from);
      var r := Exec(first, ctx, s, log);
      if r.err.None? { IdsConsecutive(second, ctx, r.store, r.log, lo, from); }
    case Branch(test, yes, no) => IdsConsecutive(if test(log) then yes else no, ctx, s, log, lo, from);
    case Try(body) =>
      IdsConsecutive(body, ctx, s, log, lo, from);
      var r := Exec(body, ctx, s, log);
      if Swallows(r.err) { InOrderOneMore(lo, r.store, r.store, r.log, Swallowed(r.err.value), from); }
    case WithTrace(id, body) => IdsConsecutive(body, WithTraceID(ctx, id), s, log, lo, from);
    case Under(pick, body) => IdsConsecutive(body, pick(log), s, log, lo, from);
    case InTx(hasDB, fn) =>
      if fn.Some? {
        if TxFromContext(ctx).Some? {
          IdsConsecutive(fn.value, Normalize(ctx), s, log, lo, from);
        } else if hasDB {
          IdsConsecutiveAround(fn.value, ctx, s, log, lo, from);
        }
      }
  }

  lemma {:induction false} IdsConsecutiveAround(p: Prog, ctx: Ctx, s: Store, log: Log, lo: nat, from: nat)
    requires Live(s) && InOrder(lo, s, log, from)
    ensures var r := Finish(s.nextTx, Body(p, ctx, s, log)); InOrder(lo, r.store, r.log, from)
    decreases p, 1
  {
    InOrderOneMore(lo, s, Begin(s), log, Began(s.nextTx), from);
    IdsConsecutive(p, TxContext(ctx, s), Begin(s), log + [Began(s.nextTx)], lo, from);
    FinishInOrder(lo, s.nextTx, Body(p, ctx, s, log), from);
  }

  // Transactions begin and end in order ------------------------------------------------------------

  // The number of the transaction a call begins or ends, if it does.
  function MarkerOf(call: Call): Option<nat> {
    match call
    case Began(id) => Some(id)
    case Committed(id) => Some(id)
    case RolledBack(id) => Some(id)
    case _ => None
  }

  /** Every transaction that begins or ends from call `from` on is numbered `lo` or higher. */
  ghost predicate OwnMarkers(lo: nat, log: Log, from: nat) {
    forall i :: from <= i < |log| && MarkerOf(log[i]).Some? ==> lo <= MarkerOf(log[i]).value
  }

  /** A program ends only the transactions it began itself. */
  lemma {:induction false} EndsOnlyItsOwn(p: Prog, ctx: Ctx, s: Store, log: Log, lo: nat, from: nat)
    requires Live(s) && lo <= s.nextTx && OwnMarkers(lo, log, from)
    ensures OwnMarkers(lo, Exec(p, ctx, s, log).log, from)
    decreases p
  {
    match p
    case Skip =>
    case Fail(_) =>
    case Create(_) =>
    case List(_, _) =>
    case Seq(first, second) =>
      EndsOnlyItsOwn(first, ctx, s, log, lo, from);
      var r := Exec(first, ctx, s, log);
      if r.err.None? { EndsOnlyItsOwn(second, ctx, r.store, r.log, lo, from); }
    case Branch(test, yes, no) => EndsOnlyItsOwn(if test(log) then yes else no, ctx, s, log, lo, from);
    case Try(body) => EndsOnlyItsOwn(body, ctx, s, log, lo, from);
    case WithTrace(id, body) => EndsOnlyItsOwn(body, WithTraceID(ctx, id), s, log, lo, from);
    case Under(pick, body) => EndsOnlyItsOwn(body, pick(log), s, log, lo, from);
    case InTx(hasDB, fn) =>
      if fn.Some? {
        if TxFromContext(ctx).Some? {
          EndsOnlyItsOwn(fn.value, Normalize(ctx), s, log, lo, from);
        } else if hasDB {
          EndsOnlyItsOwn(fn.value, TxContext(ctx, s), Begin(s), log + [Began(s.nextTx)], lo, from);
        }
      }
  }

  /** From call `from` on, whatever was swallowed was an error and not a panic. */
  ghost predicate PanicsPass(log: Log, from: nat) {
    forall i :: from <= i < |log| && log[i].Swallowed? ==> !log[i].err.Panicked?
  }

  /** No program swallows a panic: it ends every callback around it, which InTx then rolls back. */
  lemma {:induction false} NoPanicIsSwallowed(p: Prog, ctx: Ctx, s: Store, log: Log, from: nat)
    requires Live(s) && PanicsPass(log, from)
    ensures PanicsPass(Exec(p, ctx, s, log).log, from)
    decreases p
  {
    match p
    case Skip =>
    case Fail(_) =>
    case Create(_) =>
    case List(_, _) =>
    case Seq(first, second) =>
      NoPanicIsSwallowed(first, ctx, s, log, from);
      var r := Exec(first, ctx, s, log);
      if r.err.None? { NoPanicIsSwallowed(second, ctx, r.store, r.log, from); }
    case Branch(test, yes, no) => NoPanicIsSwallowed(if test(log) then yes else no, ctx, s, log, from);
    case Try(body) => NoPanicIsSwallowed(body, ctx, s, log, from);
    case WithTrace(id, body) => NoPanicIsSwallowed(body, WithTraceID(ctx, id), s, log, from);
    case Under(pick, body) => NoPanicIsSwallowed(body, pick(log), s, log, from);
    case InTx(hasDB, fn) =>
      if fn.Some? {
        if TxFromContext(ctx).Some? {
          NoPanicIsSwallowed(fn.value, Normalize(ctx), s, log, from);
        } else if hasDB {
          NoPanicIsSwallowed(fn.value, TxContext(ctx, s), Begin(s), log + [Began(s.nextTx)], from);
        }
      }
  }

  // The history explains the tables ----------------------------------------------------------------

  datatype View = View(committed: Table, open: map<nat, Table>)

  function ViewOf(s: Store): View {
    View(s.committed, s.open)
  }

  function ReplayCall(v: View, call: Call): View {
    match call
    case Began(id) => v.(open := v.open[id := map[]])
    case Committed(id) =>
      if id in v.open then View(v.committed + v.open[id], v.open - {id}) else v
    case RolledBack(id) => v.(open := v.open - {id})
    case Created(Base, row) => v.(committed := v.committed[row.id := row.name])
    case Created(Tx(id), row) =>
      if id in v.open then
        var table: Table := v.open[id];
        v.(open := v.open[id := table[row.id := row.name]])
      else v
    case _ => v
  }

  /** The tables as the calls alone tell them. */
  function Replay(start: View, calls: Log): View {
    if calls == [] then start
    else ReplayCall(Replay(start, calls[..|calls| - 1]), calls[|calls| - 1])
  }

  ghost predicate Stored(v: View, row: nat) {
    row in v.committed || exists id :: id in v.open && row in v.open[id]
  }

  /**
   A call that makes sense where it happens: a list shows what its handle sees, a create adds a new
   row through a handle that still works, only a finished transaction refuses, and only an open one ends.
   */
  ghost predicate Legal(v: View, call: Call) {
    match call
    case Created(via, row) => (via.Tx? ==> via.id in v.open) && !Stored(v, row.id)
    case Listed(Base, limit, offset, rows, total) =>
      rows == Page(v.committed, limit, offset) && total == |v.committed|
    case Listed(Tx(id), limit, offset, rows, total) =>
      && id in v.open
      && rows == Page(v.committed + v.open[id], limit, offset) && total == |v.committed + v.open[id]|
    case Refused(via) => via.Tx? && via.id !in v.open
    case Began(id) => id !in v.open
    case Committed(id) => id in v.open
    case RolledBack(id) => id in v.open
    case Swallowed(_) => true
  }

  ghost predicate Truthful(start: View, calls: Log) {
    forall i {:trigger Legal(Replay(start, calls[..i]), calls[i])} ::
      0 <= i < |calls| ==> Legal(Replay(start, calls[..i]), calls[i])
  }

  /** The calls from `from` on account for the store, starting from the view before them. */
  ghost predicate Explained(start: View, s: Store, log: Log, from: nat) {
    from <= |log| && Replay(start, log[from..]) == ViewOf(s) && Truthful(start, log[from..])
  }

  lemma ExplainedOneMore(start: View, s: Store, s': Store, log: Log, call: Call, from: nat)
    requires Explained(start, s, log, from)
    requires ReplayCall(ViewOf(s), call) == ViewOf(s') && Legal(ViewOf(s), call)
    ensures Explained(start, s', log + [call], from)
  {
    var calls, more := log[from..], (log + [call])[from..];
    assert more == calls + [call] && more[..|calls|] == calls;
    forall i | 0 <= i < |more| ensures Legal(Replay(start, more[..i]), more[i]) {
      assert more[..i] == calls[..i];
      if i < |calls| {
        assert Legal(Replay(start, calls[..i]), calls[i]);
      } else {
        assert calls[..i] == calls && more[i] == call;
      }
    }
  }

  lemma CreateExplained(ctx: Ctx, s: Store, log: Log, name: string, start: View, from: nat)
    requires Sound(s) && Explained(start, s, log, from)
    ensures var r := DoCreate(ctx, s, log, name); Explained(start, r.store, r.log, from)
  {
    var via, row := DbFromContext(ctx, Base), Row(s.nextId, name);
    if Usable(s.open, via) {
      ExplainedOneMore(start, s, Insert(s, via, row), log, Created(via, row), from);
    } else {
      ExplainedOneMore(start, s, s, log, Refused(via), from);
    }
  }

  lemma ListExplained(ctx: Ctx, s: Store, log: Log, limit: int, offset: int, start: View, from: nat)
    requires Explained(start, s, log, from)
    ensures var r := DoList(ctx, s, log, limit, offset); Explained(start, r.store, r.log, from)
  {
    var via := DbFromContext(ctx, Base);
    var table := Visible(s.committed, s.open, via);
    if Usable(s.open, via) {
      ExplainedOneMore(start, s, s, log, Listed(via, limit, offset, Page(table, limit, offset), |table|), from);
    } else {
      ExplainedOneMore(start, s, s, log, Refused(via), from);
    }
  }

  lemma FinishExplained(id: nat, body: Outcome, start: View, from: nat)
    requires id in body.store.open && Explained(start, body.store, body.log, from)
    ensures var r := Finish(id, body); Explained(start, r.store, r.log, from)
  {
    var end := if body.err.None? then Committed(id) else RolledBack(id);
    ExplainedOneMore(start, body.store, Finish(id, body).store, body.log, end, from);
  }

  /**
   The history explains the tables: after any program the published and the open rows are what
   replaying its calls gives, and every call made sense at its point of the history.
   */
  lemma {:induction false} HistoryExplainsTables(p: Prog, ctx: Ctx, s: Store, log: Log, start: View, from: nat)
    requires Sound(s) && Explained(start, s, log, from)
    ensures var r := Exec(p, ctx, s, log); Explained(start, r.store, r.log, from)
    decreases p, 0
  {
    match p
    case Skip =>
    case Fail(_) =>
    case Create(name) => CreateExplained(ctx, s, log, name(log), start, from);
    case List(limit, offset) => ListExplained(ctx, s, log, limit(log), offset(log), start, from);
    case Seq(first, second) =>
      HistoryExplainsTables(first, ctx, s, log, start, from);
      var r := Exec(first, ctx, s, log);
      if r.err.None? {
        RowsStay(first, ctx, s, log);
        HistoryExplainsTables(second, ctx, r.store, r.log, start, from);
      }
    case Branch(test, yes, no) => HistoryExplainsTables(if test(log) then yes else no, ctx, s, log, start, from);
    case Try(body) =>
      HistoryExplainsTables(body, ctx, s, log, start, from);
      var r := Exec(body, ctx, s, log);
      if Swallows(r.err) { ExplainedOneMore(start, r.store, r.store, r.log, Swallowed(r.err.value), from); }
    case WithTrace(id, body) => HistoryExplainsTables(body, WithTraceID(ctx, id), s, log, start, from);
    case Under(pick, body) => HistoryExplainsTables(body, pick(log), s, log, start, from);
    case InTx(hasDB, fn) =>
      if fn.Some? {
        if TxFromContext(ctx).Some? {
          HistoryExplainsTables(fn.value, Normalize(ctx), s, log, start, from);
        } else if hasDB {
          HistoryExplainsAround(fn.value, ctx, s, log, start, from);
        }
      }
  }

  lemma {:induction false} HistoryExplainsAround(p: Prog, ctx: Ctx, s: Store, log: Log, start: View, from: nat)
    requires Sound(s) && Explained(start, s, log, from)
    ensures var r := Finish(s.nextTx, Body(p, ctx, s, log)); Explained(start, r.store, r.log, from)
    decreases p, 1
  {
    BeginKeeps(s);
    ExplainedOneMore(start, s, Begin(s), log, Began(s.nextTx), from);
    HistoryExplainsTables(p, TxContext(ctx, s), Begin(s), log + [Began(s.nextTx)], start, from);
    FinishExplained(s.nextTx, Body(p, ctx, s, log), start, from);
  }
}
