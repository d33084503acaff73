/**
 Context-carried transactions: what a callback's repository calls and nested InTx calls do.

 A callback is a program over the repository whose names, page bounds, errors and branches may depend
 on everything it has seen so far, and which may at any point use any context it likes instead of the
 one it was given: an outer one, a nil one, one whose transaction has ended. The database follows
 GORM's assumed contract: a transaction's writes are its own until it commits, which a nil error does
 and any other error prevents; a transaction that has ended refuses every statement; ids come from a
 sequence that is never rolled back. A panic leaves a callback like an error that nobody swallows; the
 library rolls back and lets it pass.
 */
module Transactions {
  import opened Options
  import opened Context
  import opened Tables

  datatype Error =
    | NilDB
    | NilTxFn
    | TxDone
    | Callback(message: string)
    | Panicked(value: string)

  /** What has happened, in order: the repository's calls with the handle they went through. */
  datatype Call =
    | Created(via: Handle, row: Row)
    | Listed(via: Handle, limit: int, offset: int, rows: seq<Row>, total: nat)
    | Refused(via: Handle)
    | Swallowed(err: Error)
    | Began(id: nat)
    | Committed(id: nat)
    | RolledBack(id: nat)

  type Log = seq<Call>

  datatype Prog =
    | Skip
    | Create(name: Log -> string)
    | List(limit: Log -> int, offset: Log -> int)
    | Fail(err: Log -> Error)
    | Seq(first: Prog, second: Prog)
    | Branch(test: Log -> bool, yes: Prog, no: Prog)
    | Try(body: Prog)
    | InTx(hasDB: bool, fn: Option<Prog>)
    | WithTrace(id: string, body: Prog)
    | Under(pick: Log -> Ctx, body: Prog)

  /** Published rows, the rows of the open transactions, and the two sequences. */
  datatype Store = Store(committed: Table, open: map<nat, Table>, nextTx: nat, nextId: nat)

  datatype Outcome = Outcome(err: Option<Error>, store: Store, log: Log)

  /** Transactions are numbered as they begin. */
  ghost predicate Live(s: Store) {
    forall id :: id in s.open ==> id < s.nextTx
  }

  predicate Usable(open: map<nat, Table>, via: Handle) {
    via.Tx? ==> via.id in open
  }

  /** The rows a usable handle reads. */
  function Visible(committed: Table, open: map<nat, Table>, via: Handle): Table {
    if via.Tx? && via.id in open then committed + open[via.id] else committed
  }

  function Insert(s: Store, via: Handle, row: Row): Store
    requires Usable(s.open, via)
  {
    match via
    case Base => s.(committed := s.committed[row.id := row.name], nextId := s.nextId + 1)
    case Tx(id) =>
      var table: Table := s.open[id];
      s.(open := s.open[id := table[row.id := row.name]], nextId := s.nextId + 1)
  }

  function DoCreate(ctx: Ctx, s: Store, log: Log, name: string): Outcome {
    var via, row := DbFromContext(ctx, Base), Row(s.nextId, name);
    if Usable(s.open, via) then Outcome(None, Insert(s, via, row), log + [Created(via, row)])
    else Outcome(Some(TxDone), s, log + [Refused(via)])
  }

  function DoList(ctx: Ctx, s: Store, log: Log, limit: int, offset: int): Outcome {
    var via := DbFromContext(ctx, Base);
    var table := Visible(s.committed, s.open, via);
    if Usable(s.open, via)
    then Outcome(None, s, log + [Listed(via, limit, offset, Page(table, limit, offset), |table|)])
    else Outcome(Some(TxDone), s, log + [Refused(via)])
  }

  function Begin(s: Store): Store {
    s.(open := s.open[s.nextTx := map[]], nextTx := s.nextTx + 1)
  }

  /** How the library ends a transaction whose callback returned or panicked. */
  function Finish(id: nat, body: Outcome): Outcome
    requires id in body.store.open
  {
    var s := body.store;
    if body.err.None?
    then Outcome(None, s.(committed := s.committed + s.open[id], open := s.open - {id}), body.log + [Committed(id)])
    else Outcome(body.err, s.(open := s.open - {id}), body.log + [RolledBack(id)])
  }

  /** An error can be swallowed, a panic cannot. */
  predicate Swallows(err: Option<Error>) {
    err.Some? && !err.value.Panicked?
  }

  /** The context of the callback of a transaction that begins now. */
  function TxContext(ctx: Ctx, s: Store): Ctx {
    WithTx(Normalize(ctx), Some(Tx(s.nextTx)))
  }

  function Exec(p: Prog, ctx: Ctx, s: Store, log: Log): (r: Outcome)
    requires Live(s)
    ensures Live(r.store) && r.store.open.Keys == s.open.Keys
    ensures s.nextTx <= r.store.nextTx && log <= r.log
    decreases p
  {
    match p
    case Skip => Outcome(None, s, log)
    case Create(name) => DoCreate(ctx, s, log, name(log))
    case List(limit, offset) => DoList(ctx, s, log, limit(log), offset(log))
    case Fail(err) => Outcome(Some(err(log)), s, log)
    case Seq(first, second) =>
      var r := Exec(first, ctx, s, log);
      if r.err.Some? then r else Exec(second, ctx, r.store, r.log)
    case Branch(test, yes, no) => if test(log) then Exec(yes, ctx, s, log) else Exec(no, ctx, s, log)
    case Try(body) =>
      var r := Exec(body, ctx, s, log);
      if Swallows(r.err) then Outcome(None, r.store, r.log + [Swallowed(r.err.value)]) else r
    case WithTrace(id, body) => Exec(body, WithTraceID(ctx, id), s, log)
    case Under(pick, body) => Exec(body, pick(log), s, log)
    case InTx(hasDB, fn) =>
      if fn.None? then Outcome(Some(NilTxFn), s, log)
      else if TxFromContext(ctx).Some? then Exec(fn.value, Normalize(ctx), s, log)
      else if !hasDB then Outcome(Some(NilDB), s, log)
      else Finish(s.nextTx, Exec(fn.value, TxContext(ctx, s), Begin(s), log + [Began(s.nextTx)]))
  }

  /** The callback of a transaction that begins now, between Begin and Finish. */
  function Body(p: Prog, ctx: Ctx, s: Store, log: Log): (r: Outcome)
    requires Live(s)
    ensures Live(r.store) && r.store.open.Keys == s.open.Keys + {s.nextTx}
    ensures s.nextTx < r.store.nextTx && log + [Began(s.nextTx)] <= r.log
  {
    Exec(p, TxContext(ctx, s), Begin(s), log + [Began(s.nextTx)])
  }

  /** A callback's context carries its transaction and the caller's trace; so does the one a joining InTx passes on. */
  lemma CallbackContext(ctx: Ctx, s: Store)
    ensures TxFromContext(TxContext(ctx, s)) == Some(Tx(s.nextTx))
    ensures TraceIDFrom(TxContext(ctx, s)) == TraceIDFrom(ctx) == TraceIDFrom(Normalize(ctx))
    ensures TxFromContext(Normalize(ctx)) == TxFromContext(ctx)
  {
    NearestValueWins(ctx, "", Some(Tx(s.nextTx)));
  }

  /** An InTx that begins a transaction. */
  lemma InTxBegins(p: Prog, ctx: Ctx, s: Store, log: Log)
    requires Live(s) && TxFromContext(ctx).None?
    ensures Exec(InTx(true, Some(p)), ctx, s, log) == Finish(s.nextTx, Body(p, ctx, s, log))
  {
  }

  // Nested transactions collapse -------------------------------------------------------------------

  /**
   The program with every InTx that is known to join replaced by its callback. `joins` tells whether
   the context carries a transaction; under a context of the program's own choice nothing is known.
   */
  function Erase(p: Prog, joins: bool): Prog {
    match p
    case Seq(first, second) => Seq(Erase(first, joins), Erase(second, joins))
    case Branch(test, yes, no) => Branch(test, Erase(yes, joins), Erase(no, joins))
    case Try(body) => Try(Erase(body, joins))
    case WithTrace(id, body) => WithTrace(id, Erase(body, joins))
    case Under(pick, body) => Under(pick, Erase(body, false))
    case InTx(_, None) => Fail(_ => NilTxFn)
    case InTx(hasDB, Some(body)) => if joins then Erase(body, true) else InTx(hasDB, Some(Erase(body, true)))
    case _ => p
  }

  /** No InTx within another, unless under a context of the program's own choice. */
  predicate Collapsed(p: Prog, inside: bool) {
    match p
    case Seq(first, second) => Collapsed(first, inside) && Collapsed(second, inside)
    case Branch(_, yes, no) => Collapsed(yes, inside) && Collapsed(no, inside)
    case Try(body) => Collapsed(body, inside)
    case WithTrace(_, body) => Collapsed(body, inside)
    case Under(_, body) => Collapsed(body, false)
    case InTx(_, None) => false
    case InTx(_, Some(body)) => !inside && Collapsed(body, true)
    case _ => true
  }

  lemma {:induction false} EraseCollapses(p: Prog, joins: bool)
    ensures Collapsed(Erase(p, joins), joins)
    decreases p
  {
    match p
    case Seq(first, second) => EraseCollapses(first, joins); EraseCollapses(second, joins);
    case Branch(_, yes, no) => EraseCollapses(yes, joins); EraseCollapses(no, joins);
    case Try(body) => EraseCollapses(body, joins);
    case WithTrace(_, body) => EraseCollapses(body, joins);
    case Under(_, body) => EraseCollapses(body, false);
    case InTx(_, Some(body)) => EraseCollapses(body, true);
    case _ =>
  }

  lemma {:induction false} EraseSame(p: Prog, joins: bool, ctx: Ctx, s: Store, log: Log)
    requires Live(s) && (joins ==> TxFromContext(ctx).Some?)
    ensures Exec(Erase(p, joins), ctx, s, log) == Exec(p, ctx, s, log)
    decreases p
  {
    match p
    case Seq(first, second) =>
      EraseSame(first, joins, ctx, s, log);
      var r := Exec(first, ctx, s, log);
      if r.err.None? { EraseSame(second, joins, ctx, r.store, r.log); }
    case Branch(test, yes, no) => EraseSame(if test(log) then yes else no, joins, ctx, s, log);
    case Try(body) => EraseSame(body, joins, ctx, s, log);
    case WithTrace(id, body) =>
      NearestValueWins(ctx, id, None);
      EraseSame(body, joins, WithTraceID(ctx, id), s, log);
    case Under(pick, body) => EraseSame(body, false, pick(log), s, log);
    case InTx(hasDB, Some(body)) =>
      if TxFromContext(ctx).Some? {
        EraseSame(body, true, Normalize(ctx), s, log);
      } else if hasDB {
        EraseSame(body, true, TxContext(ctx, s), Begin(s), log + [Began(s.nextTx)]);
      }
    case _ =>
  }

  /**
   Nested transactions collapse: every program, under every context and on every store, gives the same
   error, the same calls through the same handles and the same tables as with each InTx that is nested
   in another replaced by its callback.
   */
  lemma NestedInTxCollapse(p: Prog, ctx: Ctx, s: Store, log: Log)
    requires Live(s)
    ensures Exec(Erase(p, false), ctx, s, log) == Exec(p, ctx, s, log)
    ensures Collapsed(Erase(p, false), false)
  {
    EraseSame(p, false, ctx, s, log);
    EraseCollapses(p, false);
  }
}
