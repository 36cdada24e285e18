/**
 * The prepared-statement proxy: one logical SQL statement, rewritten by the temporal
 * rewriter into an ordered list of physical prepared statements, each logical call
 * fanned out over that list.
 */
module Spy {
  import opened Wrappers
  import opened JavaInt
  import opened Driver
  import opened Dispatch
  import opened Trace
  import opened SqlDump
  import opened Binding

  /** Type help is never prefixed to traced values. */
  const ShowTypeHelp: bool := false

  /**
   * The temporal rewriter's answer for a logical SQL string: the physical SQL strings in
   * order with the count of leading non-temporal parameters, or a parse error.
   */
  datatype Rewrite = Rewritten(physical: seq<string>, nonTemporalParameters: int32) | ParseError

  /**
   * The six constructors. Only Plain keeps the rewriter's parameter count and the
   * physical SQL list; the others pass options to the driver, reset the count to -1
   * and leave the list unassigned.
   */
  datatype Variant =
    | Plain
    | AutoGeneratedKeys
    | ResultSetTypeAndConcurrency
    | ResultSetHoldability
    | ColumnIndexes
    | ColumnNames

  /** The type hint of setObject: the value's class name in parentheses, "(null)" for null. */
  function GetTypeHelp(x: Value): (r: string)
    ensures |r| >= 2 && r[0] == '(' && r[|r| - 1] == ')'
    ensures r[1..|r| - 1] == if x.Null? then "null" else x.className
  {
    if x.Null? then "(null)" else "(" + x.className + ")"
  }

  /**
   * Prepares the physical statements in order; the first string the connection cannot
   * prepare throws, and no statement list is produced.
   */
  method PrepareAll(conn: Connection, physical: seq<string>) returns (r: Result<seq<Handle>, Failure>)
    ensures r.Success? <==> forall j :: 0 <= j < |physical| ==> physical[j] in conn.scripts
    ensures r.Success? ==>
      && |r.value| == |physical|
      && forall j :: 0 <= j < |physical| ==> r.value[j] == FreshHandle(physical[j], conn.scripts[physical[j]])
    ensures r.Failure? ==>
      && r.error.SqlException?
      && r.error.statement < |physical|
      && physical[r.error.statement] !in conn.scripts
      && forall j :: 0 <= j < r.error.statement ==> physical[j] in conn.scripts
  {
    var handles: seq<Handle> := [];
    for j := 0 to |physical|
      invariant |handles| == j
      invariant forall i :: 0 <= i < j ==>
        physical[i] in conn.scripts && handles[i] == FreshHandle(physical[i], conn.scripts[physical[i]])
    {
      if physical[j] !in conn.scripts {
        return Failure(SqlException(j));
      }
      handles := handles + [FreshHandle(physical[j], conn.scripts[physical[j]])];
    }
    return Success(handles);
  }

  class PreparedStatementSpy {
    /** The logical SQL as the client wrote it. */
    const sql: string
    /** The physical SQL list; null (None) unless built by the Plain constructor. */
    const sqls: Option<seq<string>>
    const numberOfNonTemporalParameters: int32
    /** The rewriter's physical SQL list, whichever constructor ran. */
    ghost const rewritten: seq<string>

    var argTrace: ArgTrace
    var currentBatch: seq<string>
    var realSqls: seq<Handle>

    /** The physical statements are the rewriter's list, in the same order. */
    ghost predicate Valid()
      reads this
    {
      && |realSqls| == |rewritten|
      && (forall j :: 0 <= j < |realSqls| ==> realSqls[j].physicalSql == rewritten[j])
      && (sqls.Some? ==> sqls.value == rewritten)
    }

    constructor Init(sql: string, variant: Variant, physical: seq<string>, count: int32, handles: seq<Handle>)
      requires |handles| == |physical|
      requires forall j :: 0 <= j < |handles| ==> handles[j].physicalSql == physical[j]
      ensures Valid()
      ensures this.sql == sql && rewritten == physical && realSqls == handles
      ensures numberOfNonTemporalParameters == if variant.Plain? then count else -1
      ensures sqls == if variant.Plain? then Some(physical) else None
      ensures argTrace == [] && currentBatch == []
    {
      this.sql := sql;
      this.sqls := if variant.Plain? then Some(physical) else None;
      this.numberOfNonTemporalParameters := if variant.Plain? then count else -1;
      this.rewritten := physical;
      argTrace := [];
      currentBatch := [];
      realSqls := handles;
    }

    /**
     * Construction: rewrite the logical SQL, then prepare each physical string on the
     * connection. A parse error becomes a "cannot rewrite" SQLException; a string the
     * connection refuses throws its SQLException.
     */
    static method Prepare(sql: string, variant: Variant, rewrite: Rewrite, conn: Connection)
      returns (r: Result<PreparedStatementSpy, Failure>)
      ensures rewrite.ParseError? ==> r == Failure(RewriteFailed(sql))
      ensures rewrite.Rewritten? ==>
        var physical := rewrite.physical;
        && (r.Success? <==> forall j :: 0 <= j < |physical| ==> physical[j] in conn.scripts)
        && (r.Failure? ==> r.error.SqlException? && r.error.statement < |physical|
                           && physical[r.error.statement] !in conn.scripts)
        && (r.Success? ==>
              var spy := r.value;
              && fresh(spy) && spy.Valid()
              && spy.sql == sql && spy.rewritten == physical
              && |spy.realSqls| == |physical|
              && (forall j :: 0 <= j < |physical| ==>
                    spy.realSqls[j] == FreshHandle(physical[j], conn.scripts[physical[j]]))
              && spy.numberOfNonTemporalParameters
                 == (if variant.Plain? then rewrite.nonTemporalParameters else -1)
              && spy.sqls == (if variant.Plain? then Some(physical) else None)
              && spy.argTrace == [] && spy.currentBatch == [])
    {
      if rewrite.ParseError? {
        return Failure(RewriteFailed(sql));
      }
      var prepared := PrepareAll(conn, rewrite.physical);
      if prepared.Failure? {
        return Failure(prepared.error);
      }
      var spy := new PreparedStatementSpy.Init(sql, variant, rewrite.physical,
                                               rewrite.nonTemporalParameters, prepared.value);
      return Success(spy);
    }

    /**
     * Records the display form of logical parameter i (1-based), growing the trace with
     * nulls as needed. A position below 1 throws IndexOutOfBounds and changes nothing.
     */
    method ArgTraceSet(i: int32, typeHelper: Option<string>, arg: Value, formatted: Option<string>)
      returns (r: Outcome<Failure>)
      modifies this`argTrace
      ensures i < 1 ==> r == Fail(TraceIndexOutOfBounds(i)) && argTrace == old(argTrace)
      ensures i >= 1 ==> r == Pass && argTrace == TraceSet(old(argTrace), i as int, TracedArg(arg, formatted))
    {
      var tracedArg := TracedArg(arg, formatted);
      var idx := i as int - 1;
      while idx >= |argTrace|
        invariant |old(argTrace)| <= |argTrace| <= Max(|old(argTrace)|, idx + 1)
        invariant argTrace[..|old(argTrace)|] == old(argTrace)
        invariant forall j :: |old(argTrace)| <= j < |argTrace| ==> argTrace[j] == None
        decreases idx - |argTrace|
      {
        argTrace := argTrace + [None];
      }
      if idx < 0 {
        return Fail(TraceIndexOutOfBounds(i));
      }
      assert argTrace == Padded(old(argTrace), i as int);
      argTrace := argTrace[idx := Some(TraceEntry(ShowTypeHelp, typeHelper, tracedArg))];
      r := Pass;
    }

    /** The logical SQL with each placeholder replaced by its traced value. */
    method DumpedSql() returns (d: string)
      ensures d == Dump(sql, argTrace)
    {
      d := "";
      var lastPos := 0;
      var qpos := IndexOf(sql, '?', lastPos);
      var argIdx := 0;
      while qpos != -1
        invariant 0 <= lastPos <= |sql|
        invariant qpos == IndexOf(sql, '?', lastPos)
        invariant d + Render(sql[lastPos..], argTrace, argIdx) == Dump(sql, argTrace)
        decreases |sql| - lastPos
      {
        var arg := if argIdx < |argTrace| then argTrace[argIdx] else None;
        var shown := if arg.None? then "?" else arg.value;
        assert shown == Placeholder(argTrace, argIdx);
        RenderUpToMark(sql, lastPos, qpos, argTrace, argIdx);
        ghost var rest := Render(sql[qpos + 1..], argTrace, argIdx + 1);
        Regroup(d, sql[lastPos..qpos], shown, rest);
        d := d + sql[lastPos..qpos] + shown;
        argIdx := argIdx + 1;
        lastPos := qpos + 1;
        qpos := IndexOf(sql, '?', lastPos);
      }
      RenderTail(sql, lastPos, argTrace, argIdx);
      if lastPos < |sql| {
        d := d + sql[lastPos..];
      }
    }

    /**
     * The generic setX(i, x): trace the value, then bind it on the physical statements.
     * The trace is written before any bind, so it changes even when a bind throws; a
     * position below 1 throws from the trace before anything is bound.
     */
    method Bind(i: int32, typeHelper: Option<string>, x: Value, formatted: Option<string>)
      returns (r: Outcome<Failure>)
      requires Valid()
      modifies this`argTrace, this`realSqls
      ensures Valid()
      ensures i < 1 ==> r == Fail(TraceIndexOutOfBounds(i)) && argTrace == old(argTrace) && realSqls == old(realSqls)
      ensures i >= 1 ==>
        && argTrace == TraceSet(old(argTrace), i as int, TracedArg(x, formatted))
        && var f := FanOut(old(realSqls), BindPlan(|old(realSqls)|, numberOfNonTemporalParameters, i, x));
           realSqls == f.handles && r == OutcomeOf(f.failure)
    {
      r := ArgTraceSet(i, typeHelper, x, formatted);
      if r.Pass? {
        r := BindPhysical(i, x);
      }
    }

    /**
     * The bind loop of every setX: walks the physical statements in order with a `first`
     * flag; with several statements the first is bound at i - k when that is positive and
     * skipped otherwise, every other one at i; the first bind the driver refuses throws.
     */
    method BindPhysical(i: int32, x: Value) returns (r: Outcome<Failure>)
      requires Valid()
      modifies this`realSqls
      ensures Valid()
      ensures var f := FanOut(old(realSqls), BindPlan(|old(realSqls)|, numberOfNonTemporalParameters, i, x));
        realSqls == f.handles && r == OutcomeOf(f.failure)
    {
      ghost var hs := realSqls;
      var handles := realSqls;
      ghost var plan := BindPlan(|handles|, numberOfNonTemporalParameters, i, x);
      var first := true;
      var failure: Option<Failure> := None;
      var j := 0;
      while j < |handles| && failure.None?
        invariant 0 <= j <= |hs| == |handles|
        invariant Visit(hs, plan, j) == Fan(handles, failure)
        invariant |hs| > 1 ==> (first <==> j == 0)
      {
        VisitStep(hs, plan, j);
        var h := handles[j];
        var next: Option<Handle>;
        if |handles| > 1 && first {
          var p := Sub(i, numberOfNonTemporalParameters);
          if p > 0 {
            assert plan[j] == Some(Call.Bind(p, x));
            next := Apply(h, Call.Bind(p, x));
          } else {
            assert plan[j] == None;
            next := Some(h);
          }
          first := false;
        } else {
          assert plan[j] == Some(Call.Bind(i, x));
          next := Apply(h, Call.Bind(i, x));
        }
        if next.None? {
          failure := Some(SqlException(j));
        } else {
          handles := handles[j := next.value];
        }
        j := j + 1;
      }
      if failure.Some? {
        VisitStops(hs, plan, j, |hs|);
      }
      VisitKeepsSql(hs, plan, |hs|);
      realSqls := handles;
      r := OutcomeOf(failure);
    }

    /** Makes call c on every physical statement in order, stopping at the first that throws. */
    method FanOutAll(c: Call) returns (r: Outcome<Failure>)
      requires Valid()
      modifies this`realSqls
      ensures Valid()
      ensures var f := FanOut(old(realSqls), Everywhere(|old(realSqls)|, c));
        realSqls == f.handles && r == OutcomeOf(f.failure)
    {
      ghost var hs := realSqls;
      var handles := realSqls;
      ghost var plan := Everywhere(|hs|, c);
      var failure: Option<Failure> := None;
      var j := 0;
      while j < |handles| && failure.None?
        invariant 0 <= j <= |hs| == |handles|
        invariant Visit(hs, plan, j) == Fan(handles, failure)
      {
        VisitStep(hs, plan, j);
        var next := Apply(handles[j], c);
        if next.None? {
          failure := Some(SqlException(j));
        } else {
          handles := handles[j := next.value];
        }
        j := j + 1;
      }
      if failure.Some? {
        VisitStops(hs, plan, j, |hs|);
      }
      VisitKeepsSql(hs, plan, |hs|);
      realSqls := handles;
      r := OutcomeOf(failure);
    }

    /** execute(): runs every statement in order; the last one's flag is the answer (false if none). */
    method Execute() returns (r: Result<bool, Failure>)
      requires Valid()
      modifies this`realSqls
      ensures Valid()
      ensures var hs := old(realSqls);
        var f := FanOut(hs, Everywhere(|hs|, Call.Execute));
        && realSqls == f.handles
        && r == if f.failure.Some? then Failure(f.failure.value)
                else Success(if hs == [] then false else hs[|hs| - 1].script.executeResult)
    {
      ghost var hs := realSqls;
      var handles := realSqls;
      ghost var plan := Everywhere(|hs|, Call.Execute);
      var result := false;
      var failure: Option<Failure> := None;
      var j := 0;
      while j < |handles| && failure.None?
        invariant 0 <= j <= |hs| == |handles|
        invariant Visit(hs, plan, j) == Fan(handles, failure)
        invariant failure.None? ==> result == if j == 0 then false else hs[j - 1].script.executeResult
      {
        VisitStep(hs, plan, j);
        var next := Apply(handles[j], Call.Execute);
        if next.None? {
          failure := Some(SqlException(j));
        } else {
          handles := handles[j := next.value];
          result := next.value.script.executeResult;
        }
        j := j + 1;
      }
      if failure.Some? {
        VisitStops(hs, plan, j, |hs|);
      }
      VisitKeepsSql(hs, plan, |hs|);
      realSqls := handles;
      r := if failure.Some? then Failure(failure.value) else Success(result);
    }

    /**
     * executeUpdate(): dereferences the physical SQL list first, then runs every statement
     * in order; the last one's count is the answer (-1 if there is none), not the sum.
     */
    method ExecuteUpdate() returns (r: Result<int32, Failure>)
      requires Valid()
      modifies this`realSqls
      ensures Valid()
      ensures sqls.None? ==> r == Failure(NullSqls) && realSqls == old(realSqls)
      ensures sqls.Some? ==>
        var hs := old(realSqls);
        var f := FanOut(hs, Everywhere(|hs|, Call.ExecuteUpdate));
        && realSqls == f.handles
        && r == if f.failure.Some? then Failure(f.failure.value)
                else Success(if hs == [] then -1 else hs[|hs| - 1].script.updateCount)
    {
      if sqls.None? {
        return Failure(NullSqls);
      }
      ghost var hs := realSqls;
      var handles := realSqls;
      ghost var plan := Everywhere(|hs|, Call.ExecuteUpdate);
      var result: int32 := -1;
      var failure: Option<Failure> := None;
      var j := 0;
      while j < |handles| && failure.None?
        invariant 0 <= j <= |hs| == |handles|
        invariant Visit(hs, plan, j) == Fan(handles, failure)
        invariant failure.None? ==> result == if j == 0 then -1 else hs[j - 1].script.updateCount
      {
        VisitStep(hs, plan, j);
        var next := Apply(handles[j], Call.ExecuteUpdate);
        if next.None? {
          failure := Some(SqlException(j));
        } else {
          handles := handles[j := next.value];
          result := next.value.script.updateCount;
        }
        j := j + 1;
      }
      if failure.Some? {
        VisitStops(hs, plan, j, |hs|);
      }
      VisitKeepsSql(hs, plan, |hs|);
      realSqls := handles;
      r := if failure.Some? then Failure(failure.value) else Success(result);
    }

    /**
     * executeQuery(): dereferences the physical SQL list, then runs the first physical
     * statement only and answers its row set; no other statement is touched.
     */
    method ExecuteQuery() returns (r: Result<nat, Failure>)
      requires Valid()
      modifies this`realSqls
      ensures Valid()
      ensures sqls.None? ==> r == Failure(NullSqls) && realSqls == old(realSqls)
      ensures sqls.Some? && old(realSqls) == [] ==> r == Failure(NoPhysicalStatement) && realSqls == old(realSqls)
      ensures sqls.Some? && old(realSqls) != [] ==>
        var ran := Apply(old(realSqls)[0], Call.ExecuteQuery);
        && (ran.None? ==> r == Failure(SqlException(0)) && realSqls == old(realSqls))
        && (ran.Some? ==> r == Success(old(realSqls)[0].script.rows) && realSqls == old(realSqls)[0 := ran.value])
    {
      if sqls.None? {
        return Failure(NullSqls);
      }
      if |realSqls| == 0 {
        return Failure(NoPhysicalStatement);
      }
      var ran := Apply(realSqls[0], Call.ExecuteQuery);
      if ran.None? {
        return Failure(SqlException(0));
      }
      realSqls := realSqls[0 := ran.value];
      r := Success(ran.value.script.rows);
    }

    /** addBatch(): queues the current dump once, then adds a batch on every statement in order. */
    method AddBatch() returns (r: Outcome<Failure>)
      requires Valid()
      modifies this`currentBatch, this`realSqls
      ensures Valid()
      ensures currentBatch == old(currentBatch) + [Dump(sql, argTrace)]
      ensures var f := FanOut(old(realSqls), Everywhere(|old(realSqls)|, Call.AddBatch));
        realSqls == f.handles && r == OutcomeOf(f.failure)
    {
      var dumped := DumpedSql();
      currentBatch := currentBatch + [dumped];
      r := FanOutAll(Call.AddBatch);
    }

    /** clearBatch(): clears every statement's batch in order; the queue is emptied only if none throws. */
    method ClearBatch() returns (r: Outcome<Failure>)
      requires Valid()
      modifies this`currentBatch, this`realSqls
      ensures Valid()
      ensures var f := FanOut(old(realSqls), Everywhere(|old(realSqls)|, Call.ClearBatch));
        && realSqls == f.handles && r == OutcomeOf(f.failure)
        && currentBatch == if f.failure.None? then [] else old(currentBatch)
    {
      r := FanOutAll(Call.ClearBatch);
      if r.Pass? {
        currentBatch := [];
      }
    }

    /**
     * clearParameters(): empties the trace first, so a later dump shows `?` everywhere
     * even when a statement then throws; then clears every statement's parameters in order.
     */
    method ClearParameters() returns (r: Outcome<Failure>)
      requires Valid()
      modifies this`argTrace, this`realSqls
      ensures Valid()
      ensures argTrace == [] && Dump(sql, argTrace) == sql
      ensures var f := FanOut(old(realSqls), Everywhere(|old(realSqls)|, Call.ClearParameters));
        realSqls == f.handles && r == OutcomeOf(f.failure)
    {
      argTrace := [];
      RenderUnbound(sql, argTrace, 0);
      r := FanOutAll(Call.ClearParameters);
    }

    /** close(): closes the statements in order; the first that throws stops the rest. */
    method Close() returns (r: Outcome<Failure>)
      requires Valid()
      modifies this`realSqls
      ensures Valid()
      ensures var f := FanOut(old(realSqls), Everywhere(|old(realSqls)|, Call.Close));
        realSqls == f.handles && r == OutcomeOf(f.failure)
    {
      r := FanOutAll(Call.Close);
    }
  }
}
