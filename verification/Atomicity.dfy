/**
 What an InTx that begins a transaction promises: for every callback as to the rows it creates through
 the transaction, and exactly for which runs as to everything it creates.
 */
module Atomicity {
  import opened Options
  import opened Context
  import opened Tables
  import opened Transactions
  import opened History

  /** The rows that calls created through one handle. */
  function RowsVia(calls: Log, via: Handle): Table {
    if calls == [] then map[]
    else
      var earlier, last := RowsVia(calls[..|calls| - 1], via), calls[|calls| - 1];
      if last.Created? && last.via == via then earlier[last.row.id := last.row.name] else earlier
  }

  /** Every create went through the transaction. */
  ghost predicate CreatesOnlyVia(calls: Log, id: nat) {
    forall i :: 0 <= i < |calls| && calls[i].Created? ==> calls[i].via == Tx(id)
  }

  /** The calls a transaction's callback made, between its beginning and its end. */
  function BodyCalls(p: Prog, ctx: Ctx, s: Store, log: Log): (body: Log)
    requires Live(s)
    ensures Body(p, ctx, s, log).log == log + [Began(s.nextTx)] + body
  {
    Body(p, ctx, s, log).log[|log| + 1..]
  }

  // What was there when the callback started.
  function StartOf(s: Store): View {
    ViewOf(Begin(s))
  }

  lemma BodyExplained(p: Prog, ctx: Ctx, s: Store, log: Log)
    requires Sound(s)
    ensures
      var b, body := Body(p, ctx, s, log), BodyCalls(p, ctx, s, log);
      && Replay(StartOf(s), body) == ViewOf(b.store) && Truthful(StartOf(s), body)
      && Sound(b.store)
      && OwnMarkers(s.nextTx + 1, body, 0)
  {
    var begun, txCtx := log + [Began(s.nextTx)], TxContext(ctx, s);
    var b := Body(p, ctx, s, log);
    BeginKeeps(s);
    assert Sound(b.store) by { RowsStay(p, txCtx, Begin(s), begun); }
    assert Explained(StartOf(s), b.store, b.log, |begun|) by {
      assert begun[|begun|..] == [];
      HistoryExplainsTables(p, txCtx, Begin(s), begun, StartOf(s), |begun|);
    }
    EndsOnlyItsOwn(p, txCtx, Begin(s), begun, s.nextTx + 1, |begun|);
    assert forall i :: 0 <= i < |BodyCalls(p, ctx, s, log)| ==> BodyCalls(p, ctx, s, log)[i] == b.log[|begun| + i];
  }

  // What histories say -----------------------------------------------------------------------------

  /** A transaction that nobody here begins or ends holds what it held and the rows created through it. */
  lemma {:induction false} PendingRows(start: View, calls: Log, id: nat)
    requires id in start.open && OwnMarkers(id + 1, calls, 0)
    ensures
      var v := Replay(start, calls);
      id in v.open && v.open[id] == start.open[id] + RowsVia(calls, Tx(id))
  {
    if calls == [] {
    } else {
      PendingRows(start, calls[..|calls| - 1], id);
      assert MarkerOf(calls[|calls| - 1]) != Some(id);
    }
  }

  lemma OwnRowsPending(start: View, calls: Log, id: nat)
    requires id in start.open && start.open[id] == map[] && OwnMarkers(id + 1, calls, 0)
    ensures
      var v := Replay(start, calls);
      id in v.open && v.open[id] == RowsVia(calls, Tx(id))
  {
    PendingRows(start, calls, id);
  }

  lemma {:induction false} PublishedGrows(start: View, calls: Log, i: nat)
    requires i <= |calls|
    ensures Replay(start, calls[..i]).committed.Keys <= Replay(start, calls).committed.Keys
  {
    if i == |calls| {
      assert calls[..i] == calls;
    } else {
      var earlier := calls[..|calls| - 1];
      PublishedGrows(start, earlier, i);
      assert earlier[..i] == calls[..i];
    }
  }

  // Nothing changed outside the transaction but for other ones that are still empty.
  ghost predicate OnlyInside(start: View, v: View, id: nat) {
    && v.committed == start.committed
    && (forall k :: k in start.open && k != id ==> k in v.open && v.open[k] == start.open[k])
    && (forall k :: k in v.open && k != id && k !in start.open ==> v.open[k] == map[])
  }

  lemma OnlyInsideStep(start: View, v: View, call: Call, id: nat)
    requires forall k :: k in start.open ==> k <= id
    requires OnlyInside(start, v, id) && Legal(v, call)
    requires call.Created? ==> call.via == Tx(id)
    requires MarkerOf(call).Some? ==> id < MarkerOf(call).value
    ensures OnlyInside(start, ReplayCall(v, call), id)
  {
  }

  lemma TruthfulPrefix(start: View, calls: Log, n: nat)
    requires n <= |calls| && Truthful(start, calls)
    ensures Truthful(start, calls[..n])
  {
    forall i | 0 <= i < n ensures Legal(Replay(start, calls[..n][..i]), calls[..n][i]) {
      assert calls[..n][..i] == calls[..i];
    }
  }

  lemma {:induction false} StaysOnlyInside(start: View, calls: Log, id: nat)
    requires forall k :: k in start.open ==> k <= id
    requires OwnMarkers(id + 1, calls, 0) && CreatesOnlyVia(calls, id) && Truthful(start, calls)
    ensures OnlyInside(start, Replay(start, calls), id)
  {
    if calls == [] {
    } else {
      var n := |calls| - 1;
      TruthfulPrefix(start, calls, n);
      StaysOnlyInside(start, calls[..n], id);
      assert Legal(Replay(start, calls[..n]), calls[n]);
      OnlyInsideStep(start, Replay(start, calls[..n]), calls[n], id);
    }
  }

  // All or nothing ---------------------------------------------------------------------------------

  /** Every list through the transaction showed its own rows over what was published at that point. */
  ghost predicate ReadsOwnRows(start: View, body: Log, id: nat) {
    forall i :: 0 <= i < |body| && body[i].Listed? && body[i].via == Tx(id) ==>
      var table := Replay(start, body[..i]).committed + RowsVia(body[..i], Tx(id));
      body[i].rows == Page(table, body[i].limit, body[i].offset) && body[i].total == |table|
  }

  /** No row the callback creates through its transaction is published before the end. */
  ghost predicate Unpublished(start: View, body: Log, id: nat) {
    forall i, row :: 0 <= i <= |body| && row in RowsVia(body, Tx(id)) ==> row !in Replay(start, body[..i]).committed
  }

  lemma OwnRowsRead(start: View, body: Log, id: nat)
    requires id in start.open && start.open[id] == map[] && OwnMarkers(id + 1, body, 0) && Truthful(start, body)
    ensures ReadsOwnRows(start, body, id)
  {
    forall i | 0 <= i < |body| && body[i].Listed? && body[i].via == Tx(id)
      ensures
        var table := Replay(start, body[..i]).committed + RowsVia(body[..i], Tx(id));
        body[i].rows == Page(table, body[i].limit, body[i].offset) && body[i].total == |table|
    {
      assert Legal(Replay(start, body[..i]), body[i]);
      OwnRowsPending(start, body[..i], id);
    }
  }

  /**
   Atomicity, whatever the callback does: the rows it creates through the transaction are published
   together at the end if it succeeds and never otherwise, at no moment before, while its lists show
   them. What it does through other handles is as if the transaction's rows were not there.
   */
  lemma InTxAtomic(p: Prog, ctx: Ctx, s: Store, log: Log)
    requires Sound(s) && TxFromContext(ctx).None?
    ensures
      var r := Exec(InTx(true, Some(p)), ctx, s, log);
      var id, body := s.nextTx, BodyCalls(p, ctx, s, log);
      var end := Replay(StartOf(s), body);
      && r.log == log + [Began(id)] + body + [if r.err.None? then Committed(id) else RolledBack(id)]
      && r.err == Body(p, ctx, s, log).err
      && r.store.committed == (if r.err.None? then end.committed + RowsVia(body, Tx(id)) else end.committed)
      && r.store.open == end.open - {id}
    ensures Unpublished(StartOf(s), BodyCalls(p, ctx, s, log), s.nextTx)
    ensures ReadsOwnRows(StartOf(s), BodyCalls(p, ctx, s, log), s.nextTx)
  {
    var start, id, body := StartOf(s), s.nextTx, BodyCalls(p, ctx, s, log);
    InTxBegins(p, ctx, s, log);
    BodyExplained(p, ctx, s, log);
    OwnRowsPending(start, body, id);
    OwnRowsRead(start, body, id);
    forall i, row | 0 <= i <= |body| && row in RowsVia(body, Tx(id))
      ensures row !in Replay(start, body[..i]).committed
    {
      PublishedGrows(start, body, i);
      assert row in Body(p, ctx, s, log).store.open[id];
    }
  }

  /** The rows stored anywhere but in one transaction. */
  ghost function Elsewhere(v: View, id: nat): iset<nat> {
    iset row | row in v.committed || exists k :: k in v.open && k != id && row in v.open[k]
  }

  /** Until it ends, nothing the callback does can be seen or kept outside its transaction. */
  ghost predicate Sealed(s: Store, body: Log) {
    forall i :: 0 <= i <= |body| ==>
      Elsewhere(Replay(StartOf(s), body[..i]), s.nextTx) == Elsewhere(StartOf(s), s.nextTx)
  }

  lemma OnlyInsideIsSealed(start: View, v: View, id: nat)
    requires OnlyInside(start, v, id)
    ensures Elsewhere(v, id) == Elsewhere(start, id)
  {
    forall row ensures row in Elsewhere(v, id) <==> row in Elsewhere(start, id) {
      if k :| k in start.open && k != id && row in start.open[k] {
        assert k in v.open && row in v.open[k];
      }
      if k :| k in v.open && k != id && row in v.open[k] {
        assert k in start.open;
      }
    }
  }

  lemma CreateElsewhereShows(v: View, call: Call, id: nat)
    requires call.Created? && call.via != Tx(id) && Legal(v, call)
    ensures Elsewhere(ReplayCall(v, call), id) != Elsewhere(v, id)
  {
    var v' := ReplayCall(v, call);
    assert !Stored(v, call.row.id);
    assert call.row.id !in Elsewhere(v, id);
    match call.via
    case Base => assert call.row.id in v'.committed;
    case Tx(k) => assert k in v'.open && call.row.id in v'.open[k];
  }

  lemma BodyOnlyInside(p: Prog, ctx: Ctx, s: Store, log: Log, i: nat)
    requires Sound(s) && CreatesOnlyVia(BodyCalls(p, ctx, s, log), s.nextTx) && i <= |BodyCalls(p, ctx, s, log)|
    ensures OnlyInside(StartOf(s), Replay(StartOf(s), BodyCalls(p, ctx, s, log)[..i]), s.nextTx)
  {
    var start, id, body := StartOf(s), s.nextTx, BodyCalls(p, ctx, s, log);
    BodyExplained(p, ctx, s, log);
    TruthfulPrefix(start, body, i);
    StaysOnlyInside(start, body[..i], id);
  }

  lemma BodyCreateShows(p: Prog, ctx: Ctx, s: Store, log: Log, i: nat)
    requires Sound(s) && i < |BodyCalls(p, ctx, s, log)|
    requires var call := BodyCalls(p, ctx, s, log)[i]; call.Created? && call.via != Tx(s.nextTx)
    ensures
      var start, body := StartOf(s), BodyCalls(p, ctx, s, log);
      Elsewhere(Replay(start, body[..i + 1]), s.nextTx) != Elsewhere(Replay(start, body[..i]), s.nextTx)
  {
    var start, body := StartOf(s), BodyCalls(p, ctx, s, log);
    assert Legal(Replay(start, body[..i]), body[i]) by { BodyExplained(p, ctx, s, log); }
    CreateElsewhereShows(Replay(start, body[..i]), body[i], s.nextTx);
    assert body[..i + 1][..i] == body[..i];
  }

  lemma SealedIff(p: Prog, ctx: Ctx, s: Store, log: Log)
    requires Sound(s)
    ensures Sealed(s, BodyCalls(p, ctx, s, log)) <==> CreatesOnlyVia(BodyCalls(p, ctx, s, log), s.nextTx)
  {
    var start, id, body := StartOf(s), s.nextTx, BodyCalls(p, ctx, s, log);
    if CreatesOnlyVia(body, id) {
      forall i | 0 <= i <= |body| ensures Elsewhere(Replay(start, body[..i]), id) == Elsewhere(start, id) {
        BodyOnlyInside(p, ctx, s, log, i);
        OnlyInsideIsSealed(start, Replay(start, body[..i]), id);
      }
    } else {
      var i :| 0 <= i < |body| && body[i].Created? && body[i].via != Tx(id);
      BodyCreateShows(p, ctx, s, log, i);
    }
  }

  lemma NothingElseOpen(s: Store, v: View)
    requires Live(s) && OnlyInside(StartOf(s), v, s.nextTx) && v.open.Keys == s.open.Keys + {s.nextTx}
    ensures v.open - {s.nextTx} == s.open && v.committed == s.committed
  {
  }

  lemma EndsAllOrNothing(p: Prog, ctx: Ctx, s: Store, log: Log)
    requires Sound(s) && TxFromContext(ctx).None? && CreatesOnlyVia(BodyCalls(p, ctx, s, log), s.nextTx)
    ensures
      var r, body := Exec(InTx(true, Some(p)), ctx, s, log), BodyCalls(p, ctx, s, log);
      && r.store.committed == (if r.err.None? then s.committed + RowsVia(body, Tx(s.nextTx)) else s.committed)
      && r.store.open == s.open
  {
    var body := BodyCalls(p, ctx, s, log);
    var end := Replay(StartOf(s), body);
    assert end == ViewOf(Body(p, ctx, s, log).store) by { BodyExplained(p, ctx, s, log); }
    BodyOnlyInside(p, ctx, s, log, |body|);
    assert body[..|body|] == body;
    NothingElseOpen(s, end);
    InTxAtomic(p, ctx, s, log);
  }

  /**
   Isolation until the end, exactly: on any run of any callback, nothing leaves the transaction before
   it ends if and only if every create went through it. Then every row created at any depth is
   published at the end if the callback succeeded, and none is left anywhere if it did not; the exact
   condition for the end alone is Fates.AllOrNothingAtEndIff.
   */
  lemma AllOrNothingIff(p: Prog, ctx: Ctx, s: Store, log: Log)
    requires Sound(s) && TxFromContext(ctx).None?
    ensures Sealed(s, BodyCalls(p, ctx, s, log)) <==> CreatesOnlyVia(BodyCalls(p, ctx, s, log), s.nextTx)
    ensures
      var r, body := Exec(InTx(true, Some(p)), ctx, s, log), BodyCalls(p, ctx, s, log);
      CreatesOnlyVia(body, s.nextTx) ==>
        && r.store.committed == (if r.err.None? then s.committed + RowsVia(body, Tx(s.nextTx)) else s.committed)
        && r.store.open == s.open
  {
    SealedIff(p, ctx, s, log);
    if CreatesOnlyVia(BodyCalls(p, ctx, s, log), s.nextTx) {
      EndsAllOrNothing(p, ctx, s, log);
    }
  }

  // Callbacks that use the context they are given --------------------------------------------------

  /** The callback passes on the context it was given. */
  predicate KeepsContext(p: Prog) {
    match p
    case Seq(first, second) => KeepsContext(first) && KeepsContext(second)
    case Branch(_, yes, no) => KeepsContext(yes) && KeepsContext(no)
    case Try(body) => KeepsContext(body)
    case WithTrace(_, body) => KeepsContext(body)
    case Under(_, _) => false
    case InTx(_, Some(body)) => KeepsContext(body)
    case _ => true
  }

  /** Only creates and lists through the transaction, and swallowed errors. */
  ghost predicate TxOnly(log: Log, from: nat, id: nat) {
    forall i :: from <= i < |log| ==>
      match log[i]
      case Created(via, _) => via == Tx(id)
      case Listed(via, _, _, _, _) => via == Tx(id)
      case Swallowed(_) => true
      case _ => false
  }

  lemma {:induction false} StaysInTx(p: Prog, ctx: Ctx, s: Store, log: Log, from: nat, id: nat)
    requires Live(s) && KeepsContext(p) && TxFromContext(ctx) == Some(Tx(id)) && id in s.open
    requires TxOnly(log, from, id)
    ensures TxOnly(Exec(p, ctx, s, log).log, from, id)
    decreases p
  {
    match p
    case Skip =>
    case Fail(_) =>
    case Create(_) =>
    case List(_, _) =>
    case Seq(first, second) =>
      StaysInTx(first, ctx, s, log, from, id);
      var r := Exec(first, ctx, s, log);
      if r.err.None? { StaysInTx(second, ctx, r.store, r.log, from, id); }
    case Branch(test, yes, no) => StaysInTx(if test(log) then yes else no, ctx, s, log, from, id);
    case Try(body) => StaysInTx(body, ctx, s, log, from, id);
    case WithTrace(trace, body) =>
      NearestValueWins(ctx, trace, None);
      StaysInTx(body, WithTraceID(ctx, trace), s, log, from, id);
    case InTx(_, fn) =>
      if fn.Some? { StaysInTx(fn.value, Normalize(ctx), s, log, from, id); }
  }

  lemma BodyInTx(p: Prog, ctx: Ctx, s: Store, log: Log)
    requires Live(s) && KeepsContext(p)
    ensures TxOnly(BodyCalls(p, ctx, s, log), 0, s.nextTx)
  {
    var begun := log + [Began(s.nextTx)];
    StaysInTx(p, TxContext(ctx, s), Begin(s), begun, |begun|, s.nextTx);
    assert Body(p, ctx, s, log).log == begun + BodyCalls(p, ctx, s, log);
    var b, body := Body(p, ctx, s, log), BodyCalls(p, ctx, s, log);
    assert forall i :: 0 <= i < |body| ==> body[i] == b.log[|begun| + i];
  }

  /** Every list showed the published rows together with the callback's own before it. */
  ghost predicate ReadsOwnWrites(base: Table, body: Log, id: nat) {
    forall i :: 0 <= i < |body| && body[i].Listed? ==>
      var table := base + RowsVia(body[..i], Tx(id));
      body[i].rows == Page(table, body[i].limit, body[i].offset) && body[i].total == |table|
  }

  lemma BodyReadsOwnWrites(p: Prog, ctx: Ctx, s: Store, log: Log)
    requires Sound(s) && TxOnly(BodyCalls(p, ctx, s, log), 0, s.nextTx)
    ensures ReadsOwnWrites(s.committed, BodyCalls(p, ctx, s, log), s.nextTx)
  {
    var start, id, body := StartOf(s), s.nextTx, BodyCalls(p, ctx, s, log);
    assert ReadsOwnRows(start, body, id) by {
      BodyExplained(p, ctx, s, log);
      OwnRowsRead(start, body, id);
    }
    forall i | 0 <= i < |body| && body[i].Listed?
      ensures
        var table := s.committed + RowsVia(body[..i], Tx(id));
        body[i].rows == Page(table, body[i].limit, body[i].offset) && body[i].total == |table|
    {
      BodyOnlyInside(p, ctx, s, log, i);
    }
  }

  /**
   With the context passed on, every call between beginning and end goes through the transaction, at
   any depth of nesting, every list shows the published rows with the callback's own, and all rows are
   published together or none.
   */
  lemma FaithfulCallbackAtomic(p: Prog, ctx: Ctx, s: Store, log: Log)
    requires Sound(s) && TxFromContext(ctx).None? && KeepsContext(p)
    ensures
      var r, body := Exec(InTx(true, Some(p)), ctx, s, log), BodyCalls(p, ctx, s, log);
      && r.store.committed == (if r.err.None? then s.committed + RowsVia(body, Tx(s.nextTx)) else s.committed)
      && r.store.open == s.open
    ensures TxOnly(BodyCalls(p, ctx, s, log), 0, s.nextTx)
    ensures ReadsOwnWrites(s.committed, BodyCalls(p, ctx, s, log), s.nextTx)
  {
    BodyInTx(p, ctx, s, log);
    BodyReadsOwnWrites(p, ctx, s, log);
    EndsAllOrNothing(p, ctx, s, log);
  }

  // Counting ---------------------------------------------------------------------------------------

  lemma {:induction false} OwnRowsCounted(calls: Log, lo: nat, id: nat)
    requires Numbered(lo, calls) && CreatesOnlyVia(calls, id)
    ensures |RowsVia(calls, Tx(id))| == Creates(calls)
    ensures forall row :: row in RowsVia(calls, Tx(id)) <==> lo <= row < lo + Creates(calls)
  {
    if calls == [] {
    } else {
      var n := |calls| - 1;
      var earlier := calls[..n];
      assert forall i :: 0 <= i < n ==> earlier[i] == calls[i] && earlier[..i] == calls[..i];
      OwnRowsCounted(earlier, lo, id);
      var rows, rest := RowsVia(calls, Tx(id)), RowsVia(earlier, Tx(id));
      if calls[n].Created? {
        assert calls[..n] == earlier && calls[n].row.id !in rest;
        assert rows == rest[calls[n].row.id := calls[n].row.name];
      }
    }
  }

  lemma DisjointUnionSize(a: Table, b: Table)
    requires a.Keys !! b.Keys
    ensures |a + b| == |a| + |b|
  {
    assert (a + b).Keys == a.Keys + b.Keys;
    assert |(a + b).Keys| == |a.Keys| + |b.Keys|;
  }

  lemma BodyNumbered(p: Prog, ctx: Ctx, s: Store, log: Log)
    requires Live(s)
    ensures Numbered(s.nextId, BodyCalls(p, ctx, s, log))
    ensures Body(p, ctx, s, log).store.nextId == s.nextId + Creates(BodyCalls(p, ctx, s, log))
  {
    var begun := log + [Began(s.nextTx)];
    assert begun[|begun|..] == [];
    IdsConsecutive(p, TxContext(ctx, s), Begin(s), begun, s.nextId, |begun|);
  }

  /**
   A committed transaction whose creates all went through it adds exactly one row for each, a failed
   one none, and both use up the ids.
   */
  lemma CommitAddsItsCreates(p: Prog, ctx: Ctx, s: Store, log: Log)
    requires Sound(s) && TxFromContext(ctx).None? && CreatesOnlyVia(BodyCalls(p, ctx, s, log), s.nextTx)
    ensures
      var r, n := Exec(InTx(true, Some(p)), ctx, s, log), Creates(BodyCalls(p, ctx, s, log));
      && |r.store.committed| == |s.committed| + (if r.err.None? then n else 0)
      && r.store.nextId == s.nextId + n
  {
    var body := BodyCalls(p, ctx, s, log);
    BodyNumbered(p, ctx, s, log);
    OwnRowsCounted(body, s.nextId, s.nextTx);
    EndsAllOrNothing(p, ctx, s, log);
    InTxBegins(p, ctx, s, log);
    DisjointUnionSize(s.committed, RowsVia(body, Tx(s.nextTx)));
  }
}
