# Temporal JDBC proxy: the multi-statement prepared statement

This project models the core of the temporal JDBC proxy. The core is the prepared-statement
spy, which stands between a client and a real JDBC driver. The client prepares one *logical* SQL
statement. The temporal rewriter turns it into an ordered list of *physical* SQL strings (one
string, its non-temporal translation, when the parser reports the statement as temporal). The spy prepares one real statement per physical
string. From then on, every call the client makes on the logical statement is fanned out over
those physical statements in list order. The spy also keeps a trace of the bound values, for
logging and for the diagnostic "dumped SQL".

The model is written in Dafny and all of it is verified. Its modules are:

- `JavaInt` — 32-bit Java `int` and its wrapping subtraction, used for `i - k` in the bind
  routing.
- `Driver` — the real driver, which is foreign code.
  - A physical statement is a `Handle` value. It holds what the spy can observe: bound
    parameters, queued batches, execution count and whether it is closed.
  - A `Script` says how the driver answers: the parameter count, which kinds of call throw
    `SQLException`, and the constant results of the execute forms.
  - `Apply` is one driver call.
- `Dispatch` — the fan-out. `Visit`/`FanOut` walk the statements in order with a plan of
  one call (or a skip) per statement, and stop at the first statement that throws. The lemmas
  state it in closed form: the statements before the failing one have taken their step, and that
  one and the ones after it are untouched.
- `Trace` — the argument trace. It is 0-based, grown with nulls on demand, and set at
  `i - 1`.
- `SqlDump` — `dumpedSql()`: each `?` is replaced, left to right, by its traced string, or
  left as `?` when the entry is missing or null.
- `Binding` — the parameter remapping of every `setX`. With more than one physical
  statement, the first one is bound at `i - k`, or skipped when that is not positive. Every
  other statement is bound at `i`. Here `k` is `numberOfNonTemporalParameters`.
- `Spy` — the class `PreparedStatementSpy`, whose fields are updated in place:
  - `argTrace`, `currentBatch` and `realSqls` are fields the methods reassign;
  - `sql`, `sqls` and `numberOfNonTemporalParameters` are set at construction.

  Each method is proved against the specification functions above.

Two behaviours of the source are reproduced as written:

- The five constructors that pass options to the driver reset
  `numberOfNonTemporalParameters` to `-1`. With several physical statements, a bind of `i`
  then lands on the first statement at `i + 1` (`Binding.ResetCountShiftsFirstBind`).
- Those constructors never assign the `sqls` list. `executeQuery()` and `executeUpdate()`
  dereference it before touching any statement, so on such a spy they fail with a null
  dereference (`NullSqls`) and change nothing.

## Model

All source paths are under `temporal_jdbcproxy/src/us/curino/temporalsql/`; the table cites them in full.

| member | source | states |
|---|---|---|
| Trace.TracedArg | temporal_jdbcproxy/src/us/curino/temporalsql/PreparedStatementSpy.java:81-96 | the traced string is the formatter's answer; when the formatter throws, it is `null` for a null value and the value's own text otherwise |
| JavaInt.Sub | temporal_jdbcproxy/src/us/curino/temporalsql/PreparedStatementSpy.java:718-720 | `parameterIndex - numberOfNonTemporalParameters` as Java computes it: the exact difference when it fits in 32 bits, otherwise that difference wrapped modulo 2^32 |
| Trace.TraceEntry | temporal_jdbcproxy/src/us/curino/temporalsql/PreparedStatementSpy.java:106-113 | the stored entry is the traced string itself unless type help is on and a helper is given; then it is the helper followed by the traced string |
| Trace.Padded | temporal_jdbcproxy/src/us/curino/temporalsql/PreparedStatementSpy.java:102-105 | growing the trace keeps every existing entry and adds null entries up to the requested length, never shrinking it |
| Trace.TraceSet | temporal_jdbcproxy/src/us/curino/temporalsql/PreparedStatementSpy.java:98-113 | setting 1-based position i: the new length is max(old length, i), entry i-1 holds the value, every other old entry is unchanged, and the gap is null |
| SqlDump.IndexOf | temporal_jdbcproxy/src/us/curino/temporalsql/PreparedStatementSpy.java:124 | `indexOf(c, from)`: -1 exactly when no c occurs at or after `from`, otherwise the first position at or after `from` holding c |
| SqlDump.RenderAppend | temporal_jdbcproxy/src/us/curino/temporalsql/PreparedStatementSpy.java:128-157 | the dump can be cut anywhere: the second part continues with the trace entry after the last placeholder of the first part |
| SqlDump.RenderUpToMark | temporal_jdbcproxy/src/us/curino/temporalsql/PreparedStatementSpy.java:147-152 | one loop step: the text up to the next `?` is copied verbatim, followed by that placeholder's display string, and the rest continues with the next entry |
| SqlDump.RenderTail | temporal_jdbcproxy/src/us/curino/temporalsql/PreparedStatementSpy.java:154-157 | the text after the last `?` is copied verbatim |
| SqlDump.DumpWithoutPlaceholders | temporal_jdbcproxy/src/us/curino/temporalsql/PreparedStatementSpy.java:120-160 | SQL without a `?` dumps to itself, whatever the trace |
| SqlDump.DumpPlaceholder | temporal_jdbcproxy/src/us/curino/temporalsql/PreparedStatementSpy.java:130-152 | the `?` after a prefix with n placeholders shows trace entry n (or `?` when it is missing or null), and the text around it is kept in order |
| SqlDump.RenderUnbound | temporal_jdbcproxy/src/us/curino/temporalsql/PreparedStatementSpy.java:133-145 | with no non-null trace entry, every placeholder shows `?`, so the SQL dumps to itself |
| SqlDump.DumpLeavesUnresolved | temporal_jdbcproxy/src/us/curino/temporalsql/PreparedStatementSpy.java:133-145 | when no traced string holds a `?`, the number of `?` left in the dump equals the number of placeholders with no non-null entry |
| SqlDump.TracedArgumentShown | temporal_jdbcproxy/src/us/curino/temporalsql/PreparedStatementSpy.java:133-145 | right after position i is traced, placeholder i-1 no longer falls back to `?` (139, 144) and shows the traced string, `null` for a null value whose formatting threw |
| SqlDump.DumpShowsTracedParameter | temporal_jdbcproxy/src/us/curino/temporalsql/PreparedStatementSpy.java:130-152 | right after the parameter of the `?` that follows prefix `a` is traced as s, the dump of `a ? b` is the dump of `a`, then s, then the rendering of `b` from the next entry |
| SqlDump.DumpTwoPlaceholders | temporal_jdbcproxy/src/us/curino/temporalsql/PreparedStatementSpy.java:120-160 | with two traced entries, the two placeholders are filled in order and the surrounding text is kept |
| SqlDump.DumpExample | temporal_jdbcproxy/src/us/curino/temporalsql/PreparedStatementSpy.java:120-160 | `UPDATE t SET x=? WHERE id=?` traced with 5 and 7 dumps to `UPDATE t SET x=5 WHERE id=7` |
| Dispatch.VisitStops | temporal_jdbcproxy/src/us/curino/temporalsql/PreparedStatementSpy.java:219-229 | once a statement has thrown, the rest of the walk changes nothing and the first failure is the one reported |
| Dispatch.VisitShape | temporal_jdbcproxy/src/us/curino/temporalsql/PreparedStatementSpy.java:219-229 | a walk fails exactly when some visited statement refuses its call. The failure reported is the first refusal; all statements before it have taken their step; it and all later ones are unchanged. Without a failure, every statement has taken its step |
| Dispatch.CloseInOrder | temporal_jdbcproxy/src/us/curino/temporalsql/PreparedStatementSpy.java:216-231 | close() closes the statements in order. When one throws, the earlier ones are closed and that one and the later ones are left as they were |
| Dispatch.ExecutionStopsAtFailure | temporal_jdbcproxy/src/us/curino/temporalsql/PreparedStatementSpy.java:694-697 | execute and executeUpdate run each statement once, in order; when statement s throws, no statement from s on has run |
| Dispatch.AddBatchQueuesParameters | temporal_jdbcproxy/src/us/curino/temporalsql/PreparedStatementSpy.java:1717-1733 | an addBatch fan-out that does not throw queues each statement's current parameter set once |
| Dispatch.ClearingEmpties | temporal_jdbcproxy/src/us/curino/temporalsql/PreparedStatementSpy.java:232-247 | clearBatch and clearParameters fan-outs that do not throw leave every statement with no batch or no parameters |
| Dispatch.ClosedStatementRefuses | temporal_jdbcproxy/src/us/curino/temporalsql/PreparedStatementSpy.java:216-231 | after the first statement is closed, every uniform fan-out except close (execute, executeUpdate, addBatch, clearBatch, clearParameters, a single-statement bind) throws on statement 0 and changes nothing; `Binding.BindSkipsClosedFirst` covers the bind that skips it |
| Binding.BindPlan | temporal_jdbcproxy/src/us/curino/temporalsql/PreparedStatementSpy.java:714-727 | the call made on each statement by `setX(i, v)`, one per physical statement |
| Binding.SingleStatementIdentity | temporal_jdbcproxy/src/us/curino/temporalsql/PreparedStatementSpy.java:714-727 | with one physical statement, v is bound at the logical index i whatever the leading count; when the driver refuses, the bind throws on statement 0 and nothing changes |
| Binding.MultiStatementRemap | temporal_jdbcproxy/src/us/curino/temporalsql/PreparedStatementSpy.java:714-727 | with several statements, the bind succeeds exactly when every statement it reaches accepts it. The first statement is bound at i-k when that is positive and untouched otherwise; every later one is bound at i |
| Binding.BindSkipsClosedFirst | temporal_jdbcproxy/src/us/curino/temporalsql/PreparedStatementSpy.java:717-720 | with several statements and a non-positive shifted index, the bind never reaches the first statement, so it leaves a closed first statement as it is and succeeds exactly when every later statement accepts it |
| Binding.ResetCountShiftsFirstBind | temporal_jdbcproxy/src/us/curino/temporalsql/PreparedStatementSpy.java:248-264 | with the count reset to -1, the first statement is bound at i+1 for 0 <= i < Integer.MAX_VALUE. It is skipped when i is negative or when i+1 wraps around |
| Spy.GetTypeHelp | temporal_jdbcproxy/src/us/curino/temporalsql/PreparedStatementSpy.java:1201-1211 | the type hint is the value's class name in parentheses, or `(null)` for null |
| Spy.PrepareAll | temporal_jdbcproxy/src/us/curino/temporalsql/PreparedStatementSpy.java:206-209 | preparing succeeds exactly when the connection accepts every physical string; then there is one fresh statement per string, in order. Otherwise the first refused string is the one reported |
| Spy.PreparedStatementSpy.Init | temporal_jdbcproxy/src/us/curino/temporalsql/PreparedStatementSpy.java:248-347 | the state after construction: empty trace and batch, one statement per physical string. The plain constructor keeps the rewriter's count and the `sqls` list; the others have count -1 and no `sqls` |
| Spy.PreparedStatementSpy.Prepare | temporal_jdbcproxy/src/us/curino/temporalsql/PreparedStatementSpy.java:198-215 | a parse error becomes the "cannot temporally-rewrite" exception; a physical string the connection refuses throws; otherwise the spy is valid with the state of `Init` |
| Spy.PreparedStatementSpy.ArgTraceSet | temporal_jdbcproxy/src/us/curino/temporalsql/PreparedStatementSpy.java:79-115 | a position below 1 throws IndexOutOfBounds and leaves the trace unchanged; otherwise the trace becomes `TraceSet` of the old trace at that position |
| Spy.PreparedStatementSpy.DumpedSql | temporal_jdbcproxy/src/us/curino/temporalsql/PreparedStatementSpy.java:120-160 | the loop's result is `Dump` of the logical SQL and the current trace |
| Spy.PreparedStatementSpy.Bind | temporal_jdbcproxy/src/us/curino/temporalsql/PreparedStatementSpy.java:708-735 | the trace is written before any bind, so it changes even when a bind throws; a position below 1 throws before anything is bound; the statements become the bind fan-out of the old statements |
| Spy.PreparedStatementSpy.BindPhysical | temporal_jdbcproxy/src/us/curino/temporalsql/PreparedStatementSpy.java:714-727 | the `first`-flag loop computes the fan-out of `BindPlan`, stopping at the first refusal |
| Spy.PreparedStatementSpy.FanOutAll | temporal_jdbcproxy/src/us/curino/temporalsql/PreparedStatementSpy.java:221-223 | one call on every statement in order, stopping at the first that throws |
| Spy.PreparedStatementSpy.Execute | temporal_jdbcproxy/src/us/curino/temporalsql/PreparedStatementSpy.java:686-706 | runs every statement in order. On success the answer is the last statement's flag (false when there is none); otherwise the first failure |
| Spy.PreparedStatementSpy.ExecuteUpdate | temporal_jdbcproxy/src/us/curino/temporalsql/PreparedStatementSpy.java:1594-1621 | with no `sqls` list it fails before any statement runs. Otherwise it runs every statement in order, and the answer is the last statement's count (-1 when there is none), not the sum |
| Spy.PreparedStatementSpy.ExecuteQuery | temporal_jdbcproxy/src/us/curino/temporalsql/PreparedStatementSpy.java:1179-1199 | with no `sqls` list it fails. With no statement it fails on `get(0)`. Otherwise only statement 0 runs, and its row set is the answer |
| Spy.PreparedStatementSpy.AddBatch | temporal_jdbcproxy/src/us/curino/temporalsql/PreparedStatementSpy.java:1717-1733 | the current dump is queued once, even when a statement then throws; then addBatch is fanned out |
| Spy.PreparedStatementSpy.ClearBatch | temporal_jdbcproxy/src/us/curino/temporalsql/PreparedStatementSpy.java:232-247 | clearBatch is fanned out; the spy's queue is emptied only when no statement throws |
| Spy.PreparedStatementSpy.ClearParameters | temporal_jdbcproxy/src/us/curino/temporalsql/PreparedStatementSpy.java:1672-1696 | the trace is emptied first, so the dump is the bare SQL even when a statement then throws; then clearParameters is fanned out |
| Spy.PreparedStatementSpy.Close | temporal_jdbcproxy/src/us/curino/temporalsql/PreparedStatementSpy.java:216-231 | close is fanned out in order, stopping at the first statement that throws |

## Left out

- Logging and timing are not modelled: `reportSql`, `reportReturn`, `reportException`, `reportSqlTiming` and the `System.currentTimeMillis()` reads. They change no state the model observes. The dump that `execute`, `executeUpdate` and `executeQuery` compute only for logging is dropped.
- The RDBMS-specific formatter is foreign code. Its result is the `formatted` parameter, and None stands for "it threw".
- The temporal rewriter (`Parser`, `rewriteSql`) is foreign code. Its answer is the `Rewrite` parameter of `Prepare`.
- The JDBC driver and the connection are foreign code. Each physical statement answers from a fixed `Script`, and its results are constants per statement.
- The driver options that constructors 2–6 pass to `prepareStatement` (generated keys, result-set type, concurrency, holdability, column indexes or names) are not modelled. Only their effect on the spy's own fields is.
- The `synchronized` blocks and all concurrency are not modelled; calls are sequential.
- The many `setX` overloads (setInt, setString, setObject, setDate, the streams, …) all share one routing loop. They are modelled once as `Bind` over a generic `Value` plus the type hint. The differences between Java value types, and the floating-point and date formatting, are not modelled.
- The result-set wrapper (`ResultSetSpy`) is not modelled: `executeQuery` answers the row set's id.
- `getMetaData`, `getParameterMetaData`, `unwrap`, `isWrapperFor`, `getRealPreparedStatements`, `getClassType` and `toString` are left out. They are trivial accessors (the statement list, a constant class name, its printed form) or forward to statement 0, answering three interfaces themselves.
- The inherited `StatementSpy` members are not part of this model, beyond the `currentBatch` list used by `addBatch` and `clearBatch`.
- ArgTraceSet: for `Integer.MIN_VALUE`, Java's `i--` wraps to `Integer.MAX_VALUE`, and the source would then try to grow the trace to 2^31 entries. The model treats that position as out of bounds, like every other position below 1.
