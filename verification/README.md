# Verified model of ginblade

A Dafny model of the parts of the ginblade service that hold state, arithmetic or a protocol, with proofs about all of their inputs and runs. Check it with `dafny verify dfyconfig.toml`.

## What is modelled

**The per-IP rate limiter** (`TokenBucket`, `AdmissionLaw`, `LimiterRuns`, `Eviction`, `Isolation`, `RateLimiter`). `IPRateLimiter` is a class whose visitor map is updated in place; each method is tied to one step of a run (`LimiterRuns`), and a run is any sequence of requests and cleanups with a monotone clock. `allow` keeps both of its clock readings, and a cleanup's reading may be stale when the lock is taken. The results are:
- forgetting idle visitors changes no answer, on any run, exactly as long as the gap between the two clock readings of a request stays within `3min + 1ns - interval`; two minutes are always within it. One nanosecond more and a run exists that tells the difference;
- each address is answered as by one private bucket, whatever other addresses and the cleanup do;
- the saturating bucket computes a stateless rule over history (who is admitted, if and only if);
- the most any window of time admits, that this bound is reached, and exactly which budgets keep a minute to twice the budget;
- who is never refused, and exactly which visitors the table holds in every reachable state.

A bucket holds credit in nanoseconds: capacity `burst * interval`, one unit per nanosecond, `interval` per admitted request. With more than 60e9 requests per minute the interval is 0, and the model, like the library, then refuses nobody.

**Context-carried transactions** (`Context`, `Tables`, `Transactions`, `History`, `Atomicity`, `Fates`, `Savepoints`, `Repository`). A callback is an unbounded program tree over the repository (create, list, fail, panic, sequence, branch, nested `InTx`, swallowed errors, a trace put into the context) whose names, page bounds, errors and branches may depend on everything it has seen, and which may at any point use any other context: an outer one, a nil one, one whose transaction has ended. `Repository.Database` runs such programs in place; `Transactions.Exec` is its meaning. The results are:
- nested `InTx` collapse into the outermost one, for every program, context and store;
- the rows a callback creates through its transaction are published together at the end or never, whatever else it does, and nothing leaves the transaction before its end exactly on the runs in which every create goes through it;
- the fate of every row of every program follows from the calls: it is published exactly if it was created outside transactions or its transaction committed later. So an `InTx` that succeeds has published everything its callback created, and one that fails has left nothing of it, exactly on the runs these conditions describe. A callback that creates a row under the background context and then fails is outside them: the error is returned and the row stays;
- ids are never reused, rows are never lost, and the history of calls explains every table and every page. After any program a list shows exactly the rows published before it and those its calls published;
- joining without a savepoint, for every program: as long as no `InTx` that joined an open transaction fails after creating a row in it, savepoints would have changed nothing. For a run that published every row it created, such as a committed `InTx` whose callback passes its context on, they would have published the same rows in no other case. Where rows are rolled back anyway the difference need not show, as an example proves;
- the pages of a table are its rows, each exactly once; and exactly which rows a client sees that reads page after page while rows are created: none is skipped between two pages, and each page repeats as many rows, up to a whole page, as were created since the one before.

**Shutdown of the API process** (`Shutdown`, `Lifecycle`). The main goroutine, the server goroutine, the limiter's background loop, the timer and the one-slot channel as interleaved steps; proofs cover every interleaving, and a shutdown completes without help from the environment. `Lifecycle` is the same sequence as methods on the server object; every call corresponds to a run of the steps and every returning run to a call.

**Text settings and traces** (`Text`, `Config`, `Trace`). `parseCSV`, the CORS allow list, `NewTraceID` and the trace's way from a request through the queue to the worker. White space is the Unicode set that Go's `TrimSpace` removes; a string is a sequence of code points.

**The worker's retry delay** (`Retry`), in 64-bit arithmetic. The code's comment promises five seconds doubled per retry, capped at an hour. That is false: retry 31 overflows to a negative delay. `Retry.DelayAsPromisedIff` says for exactly which retry numbers the promise holds. The model follows the code. The repository's only task asks for at most five retries (`internal/task/example.go:33`), for which the promise holds; reaching retry 31 takes a task from another producer with a far larger retry budget.

## Assumptions about code outside the repository

- `golang.org/x/time/rate`: a bucket starts full, refills without exceeding its burst, and is left as it was by a refusal; exact integers stand for its floating point numbers.
- GORM and Postgres: `Transaction` commits on a nil error, rolls back on any other and on a panic, and lets the panic pass; a transaction's rows are visible to itself only until then; a handle whose transaction has ended refuses every statement with an error; ids come from a sequence that is never rolled back; a negative limit means no limit and an offset that is not positive means none. Other statements do not fail and a commit succeeds.
- `net/http`: `ListenAndServe` returns `ErrServerClosed` only after `Shutdown` or `Close`, and any other error at any time. Once `Shutdown` or `Close` was called it does return, and a drain that has started ends, with or without an error; the limiter's loop sees its closed channel. `Shutdown.ShutdownCompletes` rests on this.
- The JSON codec round-trips task payloads.

## Model

| member | source | states |
|---|---|---|
| TokenBucket.RefillFitsInAMinute | internal/middleware/rate_limit.go:35-36 | a full refill and one interval each take at most a minute, and the interval is zero exactly above 60e9 requests per minute |
| TokenBucket.IntervalExact | internal/middleware/rate_limit.go:35-36 | the interval is the largest whole number of nanoseconds of which the budget's number fits in 60e9, and the burst is the budget |
| TokenBucket.IntervalsPerMinute | internal/middleware/rate_limit.go:35-36 | rounding the interval down never loses a request per minute, and a minute holds exactly the budget's number of intervals if and only if the remainder is below the interval |
| AdmissionLaw.BucketBounds | internal/middleware/rate_limit.go:70-76 | after any monotone run of requests the credit lies between empty and full, and the last update is never ahead of the clock |
| AdmissionLaw.BucketIsStatelessRule | internal/middleware/rate_limit.go:70-76 | the saturating bucket decides every run as the rule over its admitted requests does, without any stored credit |
| AdmissionLaw.AdmittedIff | internal/middleware/rate_limit.go:33-37 | a request is admitted if and only if, from every earlier admitted one at time s, the admissions including this one number at most burst + floor((t-s)/interval) |
| AdmissionLaw.WindowBound | internal/middleware/rate_limit.go:33-37 | any closed window of length W admits at most burst + floor(W/interval) requests |
| AdmissionLaw.WindowBoundReached | internal/middleware/rate_limit.go:33-37 | for every window some run admits exactly that many |
| AdmissionLaw.PatientRequestAdmitted | internal/middleware/rate_limit.go:33-37 | a request at least one interval after the previous one is admitted, whatever came before |
| Eviction.EvictionInvisible | internal/middleware/rate_limit.go:66-101 | on every well-timed run with tolerated gaps, the evicting limiter gives the verdicts of one that never evicts, stale cutoffs included |
| Eviction.EvictionVisible | internal/middleware/rate_limit.go:75-76 | with a gap one nanosecond beyond the tolerance, a slow request, a cleanup and a burst give different verdicts |
| Eviction.EvictionInvisibleIff | internal/middleware/rate_limit.go:66-101 | for every budget and every bound on the gap: eviction is invisible on all runs if and only if the budget is unlimited or the bound is at most 3 min + 1 ns - interval |
| Eviction.TwoMinutesTolerated | internal/middleware/rate_limit.go:75-86 | two minutes between the two clock readings are tolerated for every budget |
| Isolation.NeverForgettingIsolates | internal/middleware/rate_limit.go:66-77 | without eviction, verdicts and bucket of one address are those of a single bucket on its own request times |
| Isolation.AnswersAreOneBuckets | internal/middleware/rate_limit.go:66-101 | the same for the evicting limiter, in any interleaving with other addresses and cleanups |
| Isolation.LimiterAdmitsIff | internal/middleware/rate_limit.go:66-101 | the exact admission law for every address, evictions included |
| Isolation.LimiterWindowBound | internal/middleware/rate_limit.go:66-101 | the window bound for every address, across evictions |
| Isolation.TwiceTheBudgetIff | internal/middleware/rate_limit.go:33-37 | no one-minute window ever admits more than twice the budget if and only if 60e9 mod rpm is below 60e9 div rpm, as it is when rpm squared is at most 60e9 |
| Isolation.NoStarvation | internal/middleware/rate_limit.go:66-101 | a request one interval after the address's previous request is admitted, with any evictions in between |
| Isolation.UnlimitedAdmitsAll | internal/middleware/rate_limit.go:33-37 | with more than 60e9 requests per minute nobody is refused |
| Isolation.TableContents | internal/middleware/rate_limit.go:70-101 | in every reachable table an address has an entry if and only if no cleanup since its latest request had a later cutoff, and lastSeen is that request's recorded time |
| Isolation.CreditsBounded | internal/middleware/rate_limit.go:70-101 | every stored credit in every reachable table is between empty and full |
| Isolation.RememberedBucket | internal/middleware/rate_limit.go:93-101 | a bucket that survived the cleanups is the one its own requests made |
| Isolation.EntriesExpire | internal/middleware/rate_limit.go:79-101 | while the latest tick's reading is at most a tick behind the clock, no entry was last seen more than four minutes ago |
| RateLimiter.IPRateLimiter.NewPerMinute | internal/middleware/rate_limit.go:29-41 | no limiter for a budget that is not positive, otherwise an empty one whose interval times the budget is at most 60e9 ns while one nanosecond more would exceed it, whose burst is the budget, with an open stop channel and its background loop running |
| RateLimiter.IPRateLimiter.Allow | internal/middleware/rate_limit.go:66-77 | takes exactly one request step of the run in place; in service the answer is the private bucket's |
| RateLimiter.IPRateLimiter.Cleanup | internal/middleware/rate_limit.go:93-101 | deletes in place exactly the visitors last seen before the cutoff |
| RateLimiter.IPRateLimiter.DropIdle | internal/middleware/rate_limit.go:96-100 | the deleting loop leaves exactly the visitors not last seen before the cutoff, unchanged, in whatever order the keys come |
| RateLimiter.IPRateLimiter.CleanupRound | internal/middleware/rate_limit.go:83-90 | a tick keeps, unchanged, exactly the visitors last seen no more than 180e9 ns before the clock reading; the closed stop channel ends the loop and changes nothing else |
| RateLimiter.IPRateLimiter.Passes | internal/middleware/rate_limit.go:44-52 | a nil limiter passes every request, otherwise the limiter's verdict decides |
| RateLimiter.IPRateLimiter.Stop | internal/middleware/rate_limit.go:55-64 | the stop channel ends closed, having been closed once, however often Stop is called; a nil limiter is left alone |
| Text.TrimSpaceExact | config/config.go:71 | trimming removes surrounding white space and nothing else |
| Text.TrimSpaceCharacters | config/config.go:71 | the 25 code points trimming removes from either end, listed, and that a text beginning and ending with none of them is left as it is |
| Text.SplitJoin | config/config.go:68 | splitting a join of separator-free parts gives the parts back |
| Text.JoinSplit | config/config.go:68 | joining what a split gave gives the text back |
| Config.ParseCSV | config/config.go:67-77 | the loop yields the trimmed non-empty fields in order, always a canonical list |
| Config.CSVOfOne | config/config.go:67-77 | a text without a comma parses to its trimmed self, or to nothing if that is empty; with CSVAtComma this determines every result |
| Config.CSVOfSpacedList | config/config.go:67-77 | `a, b` parses to `a` and `b` |
| Config.CSVRoundTripIff | config/config.go:67-77 | joining a list with commas and parsing it gives the list back if and only if its entries are non-empty, trimmed and comma-free |
| Config.CSVNormalForm | config/config.go:67-77 | parsing the joined result again is the identity |
| Config.CSVAtComma | config/config.go:67-77 | parsing distributes over a comma in the text |
| Config.AllowedOrigins | internal/middleware/cors.go:11-18 | the allow set holds an origin if and only if it is non-empty and some configured entry trims to it |
| Config.HandleCORS | internal/middleware/cors.go:20-35 | for a listed origin exactly the five headers, spelled out, with the trimmed origin; none otherwise; OPTIONS ends the chain |
| Config.CORSFromSetting | internal/server.go:138 | from the setting's text to the response: exactly the five headers, spelled out, if the trimmed origin is an entry of the parsed setting, and none otherwise |
| Config.CommaOriginNeverListed | internal/middleware/cors.go:21-22 | an origin containing a comma is allowed by no setting |
| Trace.NewTraceID | pkg/log/logger.go:140-149 | the result is the join of the cleaned parts, is trimmed, and is empty if and only if every part is blank |
| Trace.TraceIDOfGroups | pkg/log/logger.go:140-149 | one part gives its trimmed self, and two groups give their identifiers with a colon between, or the one that is not empty |
| Trace.TraceIDsCompose | pkg/log/logger.go:140-149 | the identifier of any list of identifiers is the identifier of all their parts |
| Trace.TraceIDOfTwo | pkg/log/logger.go:140-149 | in particular for two |
| Trace.TraceIDReadableIff | pkg/log/logger.go:140-149 | splitting an identifier at colons gives its cleaned parts if and only if there are any and none contains a colon |
| Trace.TaskLogContext | internal/worker/server.go:106-129 | a queued task runs under its context's own trace, else under the payload's, trimmed, else under `asynq` and the id, with its transaction untouched; the log fields are exactly these in this order, each optional one when and only when its value is present |
| Trace.TraceSurvivesQueue | internal/service/example.go:68-83 | the hand-off end to end: refused as unavailable exactly when there is no available queue and as a queue error exactly when an available one does not accept; otherwise the worker sees the request's name and runs under its trace, trimmed, or under `asynq` and the id when it is blank, never under none |
| Trace.WorkerTraceMissingIff | internal/worker/server.go:107-113 | for any payload, the worker has no trace if and only if the payload carries a blank non-empty one |
| Trace.FirstTraceWins | pkg/log/logger.go:125-137 | a trace once in the context stays, the first non-blank one gets in trimmed, and a blank one leaves the context as it is |
| Tables.NewestFirstExact | internal/repository/example.go:36 | the ordered table holds every row exactly once, ids strictly descending |
| Tables.PageExact | internal/repository/example.go:36 | for every limit and offset, negative ones included, how many rows a page has and which row of the ordered table is at each place |
| Tables.PagesPartition | internal/repository/example.go:27-41 | for every page size, the pages of an unchanged table put together are every row exactly once, newest first, as many as the total |
| Tables.CreateShiftsPages | internal/repository/example.go:36 | a row created between two reads pushes every page down by exactly one |
| Tables.NewRowsShiftPages | internal/repository/example.go:36 | any number of rows created between two reads push every page down by exactly as many |
| Tables.NextPageRepeats | internal/repository/example.go:27-41 | for up to a page of rows created between two reads, the next page repeats exactly that many rows from the end of the one before and then goes on where it ended |
| Tables.OldRowReadIff | internal/repository/example.go:27-41 | a client that reads page after page while rows are created sees an old row if and only if some number of pages reaches beyond its position and what was created by then, so none is skipped between two pages |
| Tables.PassingTheTotalMissesNothing | internal/repository/example.go:27-41 | a client that reads on until its pages cover the total it is shown last has seen every row that was there at the start |
| Transactions.NestedInTxCollapse | internal/repository/tx.go:23-38 | every program, under every context and on every store, gives the same error, calls, handles and tables as with each InTx nested in another replaced by its callback |
| Transactions.CallbackContext | internal/repository/tx.go:34-36 | the callback's context carries its transaction and the caller's trace, and a joining InTx changes neither |
| Atomicity.InTxAtomic | internal/repository/tx.go:34-37 | for every callback: InTx returns the callback's own error, and the rows created through the transaction are published together at the end if it succeeds and never otherwise, at no moment before, and its lists show them |
| Atomicity.AllOrNothingIff | internal/repository/tx.go:17-45 | on any run of any callback, nothing leaves the transaction before its end if and only if every create went through it; then, in one direction, all rows created at any depth are published at the end or none is left |
| Fates.TxNumbersRise | internal/repository/tx.go:35 | in any program the transactions it begins are numbered upwards and no number is used twice |
| Fates.FateOfRows | internal/repository/tx.go:17-45 | for any program: a row it created is published at the end if and only if it was created outside transactions or its transaction committed later, and pending if and only if in a transaction that was open before |
| Fates.ListAfterProgram | internal/repository/example.go:27-41 | after any program, a list outside transactions shows exactly the rows published before it and, of those it created, the ones its calls published, with their names, each once, as many as the total |
| Fates.AllOrNothingAtEndIff | internal/repository/tx.go:17-45 | for any callback: an InTx that succeeds has published all rows created if and only if each went through its transaction, straight to the table or through another transaction that committed; one that fails has left none anywhere if and only if each went through a transaction begun since that did not commit |
| Fates.EscapedRowSurvivesFailure | internal/repository/tx.go:40-45 | the concrete failing input: a row created under the background context is published although InTx returns the callback's error |
| Atomicity.FaithfulCallbackAtomic | internal/repository/tx.go:40-45 | with the context passed on, every call in between goes through the transaction and every list shows the published rows with the callback's own |
| Atomicity.CommitAddsItsCreates | internal/repository/tx.go:34-37 | a committed transaction adds exactly one row per create in it, a failed one none, and both use up the ids |
| History.RowsStay | internal/repository/tx.go:23-38 | no program loses or overwrites a row that is published or belongs to an open transaction |
| History.IdsConsecutive | internal/repository/example.go:22-24 | in any program ids are consecutive in call order and none is handed out twice, rollbacks included |
| History.EndsOnlyItsOwn | internal/repository/tx.go:27-37 | a program commits or rolls back only transactions it began itself, so a joining InTx never ends the one it joined |
| History.NoPanicIsSwallowed | internal/repository/tx.go:35-37 | whatever a program swallows is an error and never a panic, so a panic reaches every InTx around it |
| History.HistoryExplainsTables | internal/repository/tx.go:40-45 | after any program the tables are what replaying its calls gives, every list showed what was visible to its handle at that point, and only ended transactions refused |
| Savepoints.JoiningShowsIff | internal/repository/tx.go:27-29 | for any program under any context: if no InTx that failed had created a row in the open transaction it joined, the run is the same with savepoints; on a run that published every row it created, the same rows are published if and only if that is so |
| Savepoints.JoiningShowsInCommitIff | internal/repository/tx.go:27-29 | the if and only if for every InTx that commits and whose callback passes its context on |
| Savepoints.OuterFailureHidesIt | internal/repository/tx.go:27-37 | why a run must publish its rows: if the outermost callback fails as well, the tables agree although an inner one that failed had created a row |
| Savepoints.SwallowedInnerWritesPublished | internal/repository/tx.go:27-29 | the smallest run that differs: the row of a failed inner InTx whose error is swallowed is published |
| Repository.Database.Create | internal/repository/example.go:22-24 | outside transactions the table gains the row; in an open one that transaction's rows do and the table does not; an ended one refuses and nothing changes; the row has the next id |
| Repository.Database.List | internal/repository/example.go:27-41 | outside transactions total and page of the table, in an open one of the table with that transaction's rows, in an ended one an error; in descending order and within the limit |
| Repository.Database.Transaction | internal/repository/tx.go:35-37 | runs the callback under a context carrying the transaction and commits or rolls back in place |
| Repository.Database.InTx | internal/repository/tx.go:23-38 | the errors for a nil callback and a nil database in the code's order, joining, and otherwise a transaction with the meaning proved above |
| Repository.ListExamples | internal/service/example.go:98-109 | a zero limit is overwritten with twenty, then one list with the request's bounds shows what the context's handle sees, as spelled out for List |
| Shutdown.SendNeverBlocks | cmd/api/main.go:57-60 | in every interleaving the server goroutine's send finds room, also after the waiter timed out |
| Shutdown.ReceivedWhatWasSent | cmd/api/main.go:57-71 | at most one value is received, it is what the server returned, and none is lost |
| Shutdown.FirstSelectNeverQuiet | cmd/api/main.go:64-71 | the first select never takes the silent return |
| Shutdown.MainTakesItsPath | cmd/api/main.go:64-119 | in every interleaving the steps main took are the only ones that lead to where it stands |
| Shutdown.ForcedIffDrainFailed | cmd/api/main.go:82-89 | the forced flag is set exactly in the interleavings in which the graceful shutdown failed |
| Shutdown.ExitIsTheListeners | cmd/api/main.go:57-119 | in every interleaving that returns: a server error with a message if and only if main received and the listener failed with it, no error if and only if it received and the listener stopped, a timeout if and only if the timer ended the wait; a fatal message is the listener's too |
| Shutdown.ShutdownReport | cmd/api/main.go:78-119 | the report is forced exactly when the graceful shutdown failed; a timeout exactly when nothing was received; otherwise the server's own result |
| Shutdown.StopClosedOnce | internal/server.go:80-102 | the stop channel is closed exactly once from the first step of a shutdown on, forced ways included, never where none has begun, and it never reopens |
| Shutdown.RunsAreShort | cmd/api/main.go:57-119 | every interleaving ends after at most eleven steps |
| Shutdown.ShutdownCompletes | cmd/api/main.go:73-119 | once the signal was taken, the program rests only after main returned, the server goroutine sent its result and the limiter's loop stopped, with no further help from the environment |
| Shutdown.RestBeforeSignal | cmd/api/main.go:57-71 | without a signal it rests only while the server serves, or after the server's error ended main |
| Shutdown.FinishedMeansDone | cmd/api/main.go:57-119 | where not even the environment can act, main has ended and the result was sent |
| Shutdown.ReturnedRunIsCall | cmd/api/main.go:78-119 | every returning interleaving is, in main's steps, one call of shutdownWebServer with its report |
| Shutdown.CallIsReturnedRun | cmd/api/main.go:78-119 | for every outcome of the drain and of the wait there is an interleaving that ends as the call does |
| Lifecycle.Server.Shutdown | internal/server.go:80-88 | without an HTTP server an error and nothing else; otherwise the limiter is stopped and the drain's result returned |
| Lifecycle.Server.Close | internal/server.go:91-102 | the same for closing, where an already closed server is no error |
| Lifecycle.ShutdownWebServer | cmd/api/main.go:78-107 | forced exactly when Shutdown failed, and Close called exactly then; no error exactly when the server's own result was none, its message otherwise, or the timeout; the limiter stopped once even when both calls are made; with an HTTP server the same report and closes as a run of the protocol |
| Retry.RetryThirtyOneOverflows | internal/worker/server.go:38-44 | the delay before retry number 31 is negative, where the comment promises an hour |
| Retry.DelayInNanoseconds | internal/worker/server.go:38-44 | five seconds for retry number 0, doubled for each up to number 9, then 3600e9 ns for numbers 10 to 30 |
| Retry.DelayAsPromisedIff | internal/worker/server.go:38-56 | the delay is five seconds doubled per retry and capped at an hour if and only if the retry number is at most 30 or one of 13 listed ones up to 53 |

## Left out

- Repository.Database.InTx: a `db` that is itself a transaction handle, in which GORM would set a savepoint at `internal/repository/tx.go:35`, is not covered; the repository's own callers (`tests/integration/postgres_test.go:76-87`) pass the pool.
- Statements: one that fails for other reasons than an ended transaction, a failing commit, locks between transactions, and other sessions writing at the same time, are not modelled; nor is the consistency of a page with its total under such writers.
- RateLimiter.Visitor: holds the library's bucket as a value; that the two are separate objects is not captured.
- Clock, addresses and random identifiers are parameters; int64 overflow of clock readings and floating point rounding in the rate library are not modelled.
- Unsynchronised concurrent calls of Stop: its check and its close are not atomic; calls here follow one another.
- Middleware responses, handlers, router, request validation, recovery, timeout and health checks: thin plumbing.
- JWT, Redis, asynq, zap and dotenv: foreign calls and I/O. Invalid UTF-8 in strings and JSON is not modelled.
- The retry delay for a negative retry number, which asynq never passes, and the log line written with it.
- Worker.Run and the migration command: they depend on signal handling and schema changes inside libraries.
