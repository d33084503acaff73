/**
 The repository as the program runs it: calls that change the database in place, routed by what the
 context carries, and InTx around a callback. Every method is tied to its meaning in Transactions.
 */
module Repository {
  import opened Options
  import opened Context
  import opened Tables
  import opened Transactions

  class Database {
    var committed: Table
    var open: map<nat, Table>
    var nextTx: nat
    var nextId: nat
    var log: Log

    ghost function State(): Store
      reads this
    {
      Store(committed, open, nextTx, nextId)
    }

    constructor ()
      ensures State() == Store(map[], map[], 0, 1) && log == []
    {
      committed := map[];
      open := map[];
      nextTx := 0;
      nextId := 1;
      log := [];
    }

    /** Stores an example through the context's transaction, or directly. */
    method Create(ctx: Ctx, name: string) returns (row: Row, err: Option<Error>)
      modifies this
      ensures Outcome(err, State(), log) == DoCreate(ctx, old(State()), old(log), name)
      ensures err.None? ==> row == Row(old(nextId), name)
      ensures err.Some? ==> State() == old(State())
      ensures
        match TxFromContext(ctx)
        case Some(Tx(id)) =>
          if id in old(open) then
            var table: Table := old(open)[id];
            err.None? && committed == old(committed) && open == old(open)[id := table[row.id := name]]
          else
            err == Some(TxDone)
        case _ => err.None? && committed == old(committed)[row.id := name] && open == old(open)
    {
      var via := DbFromContext(ctx, Base);
      row := Row(nextId, name);
      if !Usable(open, via) {
        log := log + [Refused(via)];
        return row, Some(TxDone);
      }
      nextId := nextId + 1;
      match via {
        case Base => committed := committed[row.id := name];
        case Tx(id) =>
          var table: Table := open[id];
          open := open[id := table[row.id := name]];
      }
      log := log + [Created(via, row)];
      err := None;
    }

    /** Counts, then reads one page, newest first. */
    method List(ctx: Ctx, limit: int, offset: int) returns (examples: seq<Row>, total: nat, err: Option<Error>)
      modifies this`log
      ensures Outcome(err, State(), log) == DoList(ctx, old(State()), old(log), limit, offset)
      ensures err.Some? ==> examples == [] && total == 0
      ensures
        match TxFromContext(ctx)
        case Some(Tx(id)) =>
          if id in open then
            err.None? && examples == Page(committed + open[id], limit, offset) && total == |committed + open[id]|
          else
            err == Some(TxDone)
        case _ => err.None? && examples == Page(committed, limit, offset) && total == |committed|
      ensures Descending(examples)
      ensures limit >= 0 ==> |examples| <= limit
    {
      var via := DbFromContext(ctx, Base);
      if !Usable(open, via) {
        log := log + [Refused(via)];
        return [], 0, Some(TxDone);
      }
      var table := Visible(committed, open, via);
      total := |table|;
      examples := Page(table, limit, offset);
      err := None;
      log := log + [Listed(via, limit, offset, examples, total)];
      PageDescending(table, limit, offset);
    }

    // The library's side of a transaction: begin, and commit or rollback.
    method BeginTx() returns (id: nat)
      modifies this
      ensures id == old(nextTx) && State() == Begin(old(State())) && log == old(log) + [Began(id)]
    {
      id := nextTx;
      open := open[id := map[]];
      nextTx := nextTx + 1;
      log := log + [Began(id)];
    }

    method EndTx(id: nat, err: Option<Error>)
      requires id in open
      modifies this
      ensures Outcome(err, State(), log) == Finish(id, Outcome(err, old(State()), old(log)))
    {
      if err.None? {
        committed := committed + open[id];
        log := log + [Committed(id)];
      } else {
        log := log + [RolledBack(id)];
      }
      open := open - {id};
    }

    /** Begins, runs the callback under a context carrying the transaction, then commits or rolls back. */
    method Transaction(ctx: Ctx, fn: Prog) returns (err: Option<Error>)
      requires Live(State())
      modifies this
      ensures Outcome(err, State(), log) == Finish(old(nextTx), Body(fn, ctx, old(State()), old(log)))
      decreases fn, 1
    {
      var id := BeginTx();
      err := Run(fn, WithTx(Normalize(ctx), Some(Tx(id))));
      EndTx(id, err);
    }

    /** Joins the context's transaction, or opens one. */
    method InTx(ctx: Ctx, hasDB: bool, fn: Option<Prog>) returns (err: Option<Error>)
      requires Live(State())
      modifies this
      ensures Outcome(err, State(), log) == Exec(Prog.InTx(hasDB, fn), ctx, old(State()), old(log))
      ensures fn.None? ==> err == Some(NilTxFn) && State() == old(State())
      ensures fn.Some? && TxFromContext(ctx).None? && !hasDB ==> err == Some(NilDB) && State() == old(State())
      decreases fn, 2
    {
      if fn.None? {
        return Some(NilTxFn);
      }
      if TxFromContext(ctx).Some? {
        err := Run(fn.value, Normalize(ctx));
        return;
      }
      if !hasDB {
        return Some(NilDB);
      }
      err := Transaction(ctx, fn.value);
    }

    /** A callback at work. */
    method Run(p: Prog, ctx: Ctx) returns (err: Option<Error>)
      requires Live(State())
      modifies this
      ensures Outcome(err, State(), log) == Exec(p, ctx, old(State()), old(log))
      decreases p, 0
    {
      match p {
        case Skip => err := None;
        case Create(name) => var _, e := Create(ctx, name(log)); err := e;
        case List(limit, offset) => var _, _, e := List(ctx, limit(log), offset(log)); err := e;
        case Fail(error) => err := Some(error(log));
        case Seq(first, second) =>
          err := Run(first, ctx);
          if err.None? {
            err := Run(second, ctx);
          }
        case Branch(test, yes, no) =>
          if test(log) {
            err := Run(yes, ctx);
          } else {
            err := Run(no, ctx);
          }
        case Try(body) =>
          err := Run(body, ctx);
          if Swallows(err) {
            log := log + [Swallowed(err.value)];
            err := None;
          }
        case WithTrace(id, body) => err := Run(body, WithTraceID(ctx, id));
        case Under(pick, body) => err := Run(body, pick(log));
        case InTx(hasDB, fn) => err := InTx(ctx, hasDB, fn);
      }
    }
  }

  class ListExamplesReq {
    var limit: int
    var offset: int

    constructor (limit: int, offset: int)
      ensures this.limit == limit && this.offset == offset
    {
      this.limit := limit;
      this.offset := offset;
    }
  }

  /** The service's list: a request without a limit gets twenty rows a page. */
  method ListExamples(db: Database, ctx: Ctx, req: ListExamplesReq)
    returns (examples: seq<Row>, total: nat, err: Option<Error>)
    modifies req`limit, db`log
    ensures req.limit == if old(req.limit) == 0 then 20 else old(req.limit)
    ensures Outcome(err, db.State(), db.log) == DoList(ctx, old(db.State()), old(db.log), req.limit, req.offset)
    ensures
      var limit := if old(req.limit) == 0 then 20 else old(req.limit);
      match TxFromContext(ctx)
      case Some(Tx(id)) =>
        if id in db.open then
          && err.None? && examples == Page(db.committed + db.open[id], limit, req.offset)
          && total == |db.committed + db.open[id]|
        else
          err == Some(TxDone)
      case _ => err.None? && examples == Page(db.committed, limit, req.offset) && total == |db.committed|
  {
    if req.limit == 0 {
      req.limit := 20;
    }
    examples, total, err := db.List(ctx, req.limit, req.offset);
  }
}
