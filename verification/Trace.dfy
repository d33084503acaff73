/**
 The trace identifier's way from a request through the queue to the worker.
 */
module Trace {
  import opened Options
  import opened Context
  import opened Text

  /** The identifier of some trace parts: what is left of them, joined with colons. */
  function TraceID(parts: seq<string>): string {
    Join(Clean(parts), ':')
  }

  method NewTraceID(parts: seq<string>) returns (id: string)
    ensures id == TraceID(parts)
    ensures Trimmed(id)
    ensures id == "" <==> forall i :: 0 <= i < |parts| ==> Blank(parts[i])
  {
    var clean: seq<string> := [];
    for i := 0 to |parts|
      invariant clean + Clean(parts[i..]) == Clean(parts)
      invariant clean == [] <==> forall j :: 0 <= j < i ==> Blank(parts[j])
    {
      var part := TrimSpace(parts[i]);
      TrimSpaceEmptyIff(parts[i]);
      assert parts[i..][1..] == parts[i + 1..];
      if part != "" {
        clean := clean + [part];
      }
    }
    assert clean == Clean(parts) by {
      assert parts[|parts|..] == [] && clean + [] == clean;
    }
    id := Join(clean, ':');
    CleanIsSolid(parts);
    JoinIsSolid(clean, ':');
  }

  function EnsureTraceID(ctx: Ctx, traceID: string): Ctx {
    var base := Normalize(ctx);
    if TraceIDFrom(base) != "" then base
    else if TrimSpace(traceID) == "" then base
    else WithTraceID(base, TrimSpace(traceID))
  }

  // Composition ------------------------------------------------------------------------------------

  function Flatten(groups: seq<seq<string>>): seq<string> {
    if groups == [] then [] else groups[0] + Flatten(groups[1..])
  }

  function TraceIDs(groups: seq<seq<string>>): seq<string> {
    if groups == [] then [] else [TraceID(groups[0])] + TraceIDs(groups[1..])
  }

  /** Identifiers compose: the identifier of identifiers is that of all their parts. */
  lemma {:induction false} TraceIDsCompose(groups: seq<seq<string>>)
    ensures TraceID(TraceIDs(groups)) == TraceID(Flatten(groups))
    ensures Clean(TraceIDs(groups)) == [] <==> Clean(Flatten(groups)) == []
  {
    if groups == [] {
    } else {
      var first, rest := Clean(groups[0]), Clean(Flatten(groups[1..]));
      TraceIDsCompose(groups[1..]);
      CleanAppend(groups[0], Flatten(groups[1..]));
      CleanIsSolid(groups[0]);
      JoinIsSolid(first, ':');
      TrimmedStays(TraceID(groups[0]));
      var ids := Clean(TraceIDs(groups[1..]));
      assert TraceIDs(groups)[1..] == TraceIDs(groups[1..]);
      if first == [] {
        assert first + rest == rest;
      } else if rest == [] {
        assert first + rest == first;
      } else {
        JoinAppend(first, rest, ':');
        JoinAppend([TraceID(groups[0])], ids, ':');
      }
    }
  }

  lemma TraceIDOfTwo(xs: seq<string>, ys: seq<string>)
    ensures TraceID([TraceID(xs), TraceID(ys)]) == TraceID(xs + ys)
  {
    var groups := [xs, ys];
    TraceIDsCompose(groups);
    assert groups[1..] == [ys] && groups[1..][1..] == [];
    assert TraceIDs([ys]) == [TraceID(ys)] && Flatten([ys]) == ys;
  }

  /** One part is trimmed, and two groups of parts are joined with a colon where both say something. */
  lemma TraceIDOfGroups(part: string, xs: seq<string>, ys: seq<string>)
    ensures TraceID([]) == "" && TraceID([part]) == TrimSpace(part)
    ensures TraceID(xs) == "" ==> TraceID(xs + ys) == TraceID(ys)
    ensures TraceID(ys) == "" ==> TraceID(xs + ys) == TraceID(xs)
    ensures TraceID(xs) != "" && TraceID(ys) != "" ==> TraceID(xs + ys) == TraceID(xs) + ":" + TraceID(ys)
  {
    CleanOfOne(part);
    CleanAppend(xs, ys);
    CleanIsSolid(xs);
    CleanIsSolid(ys);
    JoinIsSolid(Clean(xs), ':');
    JoinIsSolid(Clean(ys), ':');
    if Clean(xs) == [] {
      assert Clean(xs) + Clean(ys) == Clean(ys);
    } else if Clean(ys) == [] {
      assert Clean(xs) + Clean(ys) == Clean(xs);
    } else {
      JoinAppend(Clean(xs), Clean(ys), ':');
    }
  }

  /** The parts can be read back exactly when there are any and none contains a colon. */
  lemma TraceIDReadableIff(parts: seq<string>)
    ensures Split(TraceID(parts), ':') == Clean(parts) <==> Clean(parts) != [] && AllWithout(Clean(parts), ':')
  {
    var clean := Clean(parts);
    SplitWithout(TraceID(parts), ':');
    if clean != [] && AllWithout(clean, ':') {
      SplitJoin(clean, ':');
    }
  }

  // The queue --------------------------------------------------------------------------------------

  /** A task's payload, already decoded: the JSON codec is assumed to round-trip. */
  datatype Payload =
    | Garbled
    | Example(name: string, traceID: string)

  datatype ErrCode = QueueUnavailable | QueueError

  /** The optional trace argument is trimmed; without it the payload carries none. */
  function NewExampleTask(name: string, traceID: seq<string>): Payload {
    Example(name, if traceID != [] then TrimSpace(traceID[0]) else "")
  }

  function TraceIDFromPayload(payload: Payload): string {
    match payload
    case Garbled => ""
    case Example(_, traceID) => traceID
  }

  /** What the service hands to the queue, if the queue is there and takes it. */
  function EnqueueTask(queue: Option<bool>, ctx: Ctx, name: string, accepted: bool): Result<Payload, ErrCode> {
    if queue.None? || !queue.value then Err(QueueUnavailable)
    else
      var task := NewExampleTask(name, [TraceIDFrom(ctx)]);
      if accepted then Ok(task) else Err(QueueError)
  }

  datatype Field = Str(key: string, text: string) | Num(key: string, number: int)

  datatype Metadata = Metadata(taskID: string, queue: string, retryCount: Option<int>)

  /** The trace a task gets on the worker when its context has none. */
  function TaskTrace(payload: Payload, taskID: string): string {
    var traceID := TraceIDFromPayload(payload);
    if traceID == "" then TraceID(["asynq", taskID]) else traceID
  }

  lemma AsynqTraceID(taskID: string)
    ensures TraceID(["asynq", taskID]) == if TrimSpace(taskID) == "" then "asynq" else "asynq:" + TrimSpace(taskID)
    ensures Trimmed(TraceID(["asynq", taskID])) && TraceID(["asynq", taskID]) != ""
  {
    var parts := ["asynq", taskID];
    TrimmedStays("asynq");
    TrimSpaceEmptyIff(taskID);
    assert parts[1..] == [taskID] && [taskID][1..] == [];
    assert Clean([taskID]) == if Blank(taskID) then [] else [TrimSpace(taskID)];
    CleanIsSolid(parts);
    JoinIsSolid(Clean(parts), ':');
    if !Blank(taskID) {
      assert Clean(parts) == ["asynq", TrimSpace(taskID)];
      assert Clean(parts)[1..] == [TrimSpace(taskID)];
    }
  }

  // The trace a task's context ends up with.
  lemma TaskTraceTaken(ctx: Ctx, payload: Payload, taskID: string)
    ensures
      var taskCtx := EnsureTraceID(ctx, TaskTrace(payload, taskID));
      var sent := if payload.Example? then payload.traceID else "";
      && TxFromContext(taskCtx) == TxFromContext(ctx)
      && TraceIDFrom(taskCtx) ==
           (if TraceIDFrom(ctx) != "" then TraceIDFrom(ctx) else if sent != "" then TrimSpace(sent)
            else if TrimSpace(taskID) == "" then "asynq" else "asynq:" + TrimSpace(taskID))
  {
    AsynqTraceID(taskID);
    TrimmedStays(TraceID(["asynq", taskID]));
  }

  /** The fields and the context of a task's log lines: these fields, in this order, and no others. */
  method TaskLogContext(ctx: Ctx, taskType: string, payload: Payload, meta: Metadata)
    returns (taskCtx: Ctx, fields: seq<Field>)
    ensures
      var sent := if payload.Example? then payload.traceID else "";
      && taskCtx == EnsureTraceID(ctx, TaskTrace(payload, meta.taskID))
      && TxFromContext(taskCtx) == TxFromContext(ctx)
      && TraceIDFrom(taskCtx) ==
           (if TraceIDFrom(ctx) != "" then TraceIDFrom(ctx) else if sent != "" then TrimSpace(sent)
            else if TrimSpace(meta.taskID) == "" then "asynq" else "asynq:" + TrimSpace(meta.taskID))
    ensures
      var sent := if payload.Example? then payload.traceID else "";
      fields ==
        [Str("task", taskType), Str("trace_source", if sent == "" then "asynq_task" else "request")]
        + (if TrimSpace(meta.taskID) == "" then [] else [Str("task_id", meta.taskID)])
        + (if TrimSpace(meta.queue) == "" then [] else [Str("queue", meta.queue)])
        + (if meta.retryCount.None? then [] else [Num("retry_count", meta.retryCount.value)])
  {
    var traceID := TraceIDFromPayload(payload);
    var traceSource := "request";
    if traceID == "" {
      traceID := NewTraceID(["asynq", meta.taskID]);
      traceSource := "asynq_task";
    }
    taskCtx := EnsureTraceID(ctx, traceID);
    TaskTraceTaken(ctx, payload, meta.taskID);

    fields := [Str("task", taskType), Str("trace_source", traceSource)];
    if TrimSpace(meta.taskID) != "" {
      fields := fields + [Str("task_id", meta.taskID)];
    }
    if TrimSpace(meta.queue) != "" {
      fields := fields + [Str("queue", meta.queue)];
    }
    if meta.retryCount.Some? {
      fields := fields + [Num("retry_count", meta.retryCount.value)];
    }
  }

  /**
   The hand-off end to end: what a request publishes reaches the worker under the request's name, and
   runs on any fresh worker context under the request's trace, trimmed, or under one of its own; never
   under none. It is handed over exactly when the queue is available and takes it, and each refusal has
   its own error.
   */
  lemma TraceSurvivesQueue(request: Ctx, queue: Option<bool>, name: string, accepted: bool, taskID: string)
    ensures
      var handed := EnqueueTask(queue, request, name, accepted);
      && (handed == Err(QueueUnavailable) <==> queue != Some(true))
      && (handed == Err(QueueError) <==> queue == Some(true) && !accepted)
      && (handed.Ok? ==> handed.value == Example(name, TrimSpace(TraceIDFrom(request))))
    ensures
      var handed := EnqueueTask(queue, request, name, accepted);
      var sent := TrimSpace(TraceIDFrom(request));
      handed.Ok? ==>
        var worker := EnsureTraceID(Background, TaskTrace(handed.value, taskID));
        && TraceIDFrom(worker) ==
             (if sent != "" then sent else if TrimSpace(taskID) == "" then "asynq" else "asynq:" + TrimSpace(taskID))
        && TraceIDFrom(worker) != ""
  {
    var sent := TrimSpace(TraceIDFrom(request));
    assert TrimSpace(sent) == sent by {
      var l, r := TrimSpaceParts(TraceIDFrom(request));
      TrimmedStays(sent);
    }
    TaskTraceTaken(Background, Example(name, sent), taskID);
  }

  /** With payloads from elsewhere, the worker is left without a trace exactly by a blank, non-empty one. */
  lemma WorkerTraceMissingIff(payload: Payload, taskID: string)
    ensures
      TraceIDFrom(EnsureTraceID(Background, TaskTrace(payload, taskID))) == "" <==>
      TraceIDFromPayload(payload) != "" && Blank(TraceIDFromPayload(payload))
  {
    TrimSpaceEmptyIff(TraceIDFromPayload(payload));
    AsynqTraceID(taskID);
    TrimmedStays(TraceID(["asynq", taskID]));
  }

  /** The first trace wins: a context that has one keeps it, and a blank one leaves the context alone. */
  lemma FirstTraceWins(ctx: Ctx, first: string, second: string)
    ensures TraceIDFrom(ctx) != "" || Blank(first) ==> EnsureTraceID(ctx, first) == Normalize(ctx)
    ensures TraceIDFrom(ctx) != "" || !Blank(first) ==>
      && EnsureTraceID(EnsureTraceID(ctx, first), second) == EnsureTraceID(ctx, first)
      && TraceIDFrom(EnsureTraceID(ctx, first)) ==
           (if TraceIDFrom(ctx) != "" then TraceIDFrom(ctx) else TrimSpace(first))
  {
    TrimSpaceEmptyIff(first);
  }
}
