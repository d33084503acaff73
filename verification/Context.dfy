/**
 The immutable request context: a chain of values in which the nearest value of a key wins. It
 carries the trace identifier and the active transaction, each under a key of its own.
 */
module Context {
  import opened Options

  /** A database handle: the pool itself, or one of the transactions begun on it. */
  datatype Handle =
    | Base
    | Tx(id: nat)

  datatype Value =
    | TraceValue(id: string)
    | TxValue(tx: Option<Handle>)

  datatype Ctx =
    | NilCtx
    | Background
    | WithValue(parent: Ctx, value: Value)

  function Normalize(ctx: Ctx): Ctx {
    if ctx.NilCtx? then Background else ctx
  }

  function WithTraceID(ctx: Ctx, id: string): Ctx {
    WithValue(Normalize(ctx), TraceValue(id))
  }

  function TraceIDFrom(ctx: Ctx): string {
    match ctx
    case NilCtx => ""
    case Background => ""
    case WithValue(_, TraceValue(id)) => id
    case WithValue(parent, TxValue(_)) => TraceIDFrom(parent)
  }

  function WithTx(ctx: Ctx, tx: Option<Handle>): Ctx {
    WithValue(Normalize(ctx), TxValue(tx))
  }

  /** A nil handle stored in the context counts as none, and hides any outer one. */
  function TxFromContext(ctx: Ctx): Option<Handle> {
    match ctx
    case NilCtx => None
    case Background => None
    case WithValue(parent, TraceValue(_)) => TxFromContext(parent)
    case WithValue(_, TxValue(tx)) => tx
  }

  function DbFromContext(ctx: Ctx, db: Handle): Handle {
    match TxFromContext(ctx)
    case Some(tx) => tx
    case None => db
  }

  /** The nearest value of a key is read back, a nil handle included, and neither key disturbs the other. */
  lemma NearestValueWins(ctx: Ctx, id: string, tx: Option<Handle>)
    ensures TxFromContext(WithTx(ctx, tx)) == tx && TraceIDFrom(WithTraceID(ctx, id)) == id
    ensures TraceIDFrom(WithTx(ctx, tx)) == TraceIDFrom(ctx)
    ensures TxFromContext(WithTraceID(ctx, id)) == TxFromContext(ctx)
  {
  }
}
