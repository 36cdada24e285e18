/**
 * The physical JDBC side of the proxy, which the proxy only calls: one prepared
 * statement per physical SQL string. The driver is foreign code, so a handle is an
 * abstract record of what the proxy can observe (its bound parameters, its queued
 * batches, how often it ran, whether it is closed) and a script saying how the
 * driver answers.
 */
module Driver {
  import opened Wrappers
  import opened JavaInt

  /** A bound value: SQL NULL, or an object with its runtime class name and its `toString()` text. */
  datatype Value = Null | Obj(className: string, text: string)

  datatype CallKind =
    | BindCall | ExecuteCall | UpdateCall | QueryCall
    | AddBatchCall | ClearBatchCall | ClearParametersCall | CloseCall

  /** One call of the proxy on one physical prepared statement. */
  datatype Call =
    | Bind(index: int32, value: Value)
    | Execute
    | ExecuteUpdate
    | ExecuteQuery
    | AddBatch
    | ClearBatch
    | ClearParameters
    | Close

  function KindOf(c: Call): CallKind
  {
    match c
    case Bind(_, _) => BindCall
    case Execute => ExecuteCall
    case ExecuteUpdate => UpdateCall
    case ExecuteQuery => QueryCall
    case AddBatch => AddBatchCall
    case ClearBatch => ClearBatchCall
    case ClearParameters => ClearParametersCall
    case Close => CloseCall
  }

  /**
   * How the driver answers on one physical statement: the number of `?` markers of its
   * SQL, the kinds of call on which it throws SQLException, and what its execute forms return
   * (a row set is known by an opaque id).
   */
  datatype Script = Script(
    paramCount: nat,
    failing: set<CallKind>,
    updateCount: int32,
    executeResult: bool,
    rows: nat)

  /** A physical prepared statement as seen through the proxy. */
  datatype Handle = Handle(
    physicalSql: string,
    script: Script,
    params: map<int32, Value>,
    batches: seq<map<int32, Value>>,
    executions: nat,
    closed: bool)

  /** Everything a call can throw out of the proxy. */
  datatype Failure =
    | RewriteFailed(sql: string)              // SQLException "Cannot temporally-rewrite correctly:" + sql
    | SqlException(statement: nat)            // the driver threw on physical statement number `statement`
    | TraceIndexOutOfBounds(index: int32)     // argTrace.set at a negative position
    | NullSqls                                // dereference of the unassigned `sqls` list
    | NoPhysicalStatement                     // realSqls.get(0) on an empty list

  /** A connection prepares the SQL strings it has a script for, and throws on the others. */
  datatype Connection = Connection(scripts: map<string, Script>)

  function FreshHandle(physicalSql: string, script: Script): Handle
  {
    Handle(physicalSql, script, map[], [], 0, false)
  }

  /**
   * The driver's answer to one call: the handle afterwards, or None when it throws.
   * A closed statement refuses everything but `close`, which it ignores; a bind outside
   * 1..paramCount is refused; `addBatch` queues the current parameter set.
   */
  function Apply(h: Handle, c: Call): (r: Option<Handle>)
    ensures r.Some? ==> r.value.physicalSql == h.physicalSql && r.value.script == h.script
    ensures h.closed && !c.Close? ==> r.None?
    ensures KindOf(c) in h.script.failing && !(c.Close? && h.closed) ==> r.None?
    ensures c.Close? ==> (r.Some? <==> h.closed || CloseCall !in h.script.failing) && (r.Some? ==> r.value.closed)
  {
    if c.Close? then
      if h.closed then Some(h)
      else if CloseCall in h.script.failing then None
      else Some(h.(closed := true))
    else if h.closed || KindOf(c) in h.script.failing then None
    else
      match c
      case Bind(p, v) =>
        if 1 <= p as int <= h.script.paramCount then Some(h.(params := h.params[p := v])) else None
      case Execute => Some(h.(executions := h.executions + 1))
      case ExecuteUpdate => Some(h.(executions := h.executions + 1))
      case ExecuteQuery => Some(h.(executions := h.executions + 1))
      case AddBatch => Some(h.(batches := h.batches + [h.params]))
      case ClearBatch => Some(h.(batches := []))
      case ClearParameters => Some(h.(params := map[]))
  }
}
