/**
 * The proxy's one iteration pattern: visit the physical statements in list order,
 * make one driver call on each (or skip it), and stop at the first call that throws.
 * Every fan-out of the proxy (binds, execute, executeUpdate, addBatch, clearBatch,
 * clearParameters, close) is this walk with its own plan.
 */
module Dispatch {
  import opened Wrappers
  import opened Driver

  /** The call to make on each physical statement, in order; None leaves it alone. */
  type Plan = seq<Option<Call>>

  /** The physical statements after a walk, and the exception that stopped it, if any. */
  datatype Fan = Fan(handles: seq<Handle>, failure: Option<Failure>)

  /** The same call on every one of `n` statements. */
  function Everywhere(n: nat, c: Call): (plan: Plan)
    ensures |plan| == n && forall j :: 0 <= j < n ==> plan[j] == Some(c)
  {
    seq(n, _ => Some(c))
  }

  /** The driver throws on this step. */
  predicate Refuses(h: Handle, p: Option<Call>)
  {
    p.Some? && Apply(h, p.value).None?
  }

  /** The statement after a step that did not throw. */
  function Stepped(h: Handle, p: Option<Call>): Handle
    requires !Refuses(h, p)
  {
    if p.None? then h else Apply(h, p.value).value
  }

  /** The state after the walk has visited statements 0 .. m-1. */
  function Visit(hs: seq<Handle>, plan: Plan, m: nat): (f: Fan)
    requires |plan| == |hs| && m <= |hs|
    ensures |f.handles| == |hs|
    ensures forall j :: m <= j < |hs| ==> f.handles[j] == hs[j]
    ensures f.failure.Some? ==> f.failure.value.SqlException? && f.failure.value.statement < m
    decreases m
  {
    if m == 0 then Fan(hs, None)
    else
      var f := Visit(hs, plan, m - 1);
      if f.failure.Some? then f
      else if Refuses(hs[m - 1], plan[m - 1]) then Fan(f.handles, Some(SqlException(m - 1)))
      else Fan(f.handles[m - 1 := Stepped(hs[m - 1], plan[m - 1])], None)
  }

  /** One more step of a walk that has not failed yet. */
  lemma VisitStep(hs: seq<Handle>, plan: Plan, m: nat)
    requires |plan| == |hs| && m < |hs|
    requires Visit(hs, plan, m).failure.None?
    ensures Visit(hs, plan, m + 1)
         == if Refuses(hs[m], plan[m]) then Fan(Visit(hs, plan, m).handles, Some(SqlException(m)))
            else Fan(Visit(hs, plan, m).handles[m := Stepped(hs[m], plan[m])], None)
  {
  }

  /** A walk never changes which physical SQL a statement runs. */
  lemma {:induction false} VisitKeepsSql(hs: seq<Handle>, plan: Plan, m: nat)
    requires |plan| == |hs| && m <= |hs|
    ensures forall j :: 0 <= j < |hs| ==> Visit(hs, plan, m).handles[j].physicalSql == hs[j].physicalSql
    decreases m
  {
    if m > 0 {
      VisitKeepsSql(hs, plan, m - 1);
    }
  }

  /** The whole walk. */
  function FanOut(hs: seq<Handle>, plan: Plan): Fan
    requires |plan| == |hs|
  {
    Visit(hs, plan, |hs|)
  }

  function OutcomeOf(failure: Option<Failure>): Outcome<Failure>
  {
    if failure.Some? then Fail(failure.value) else Pass
  }

  /** Once a call has thrown, the rest of the walk changes nothing. */
  lemma {:induction false} VisitStops(hs: seq<Handle>, plan: Plan, m: nat, m': nat)
    requires |plan| == |hs| && m <= m' <= |hs|
    requires Visit(hs, plan, m).failure.Some?
    ensures Visit(hs, plan, m') == Visit(hs, plan, m)
    decreases m'
  {
    if m' > m {
      VisitStops(hs, plan, m, m' - 1);
    }
  }

  /**
   * The walk in closed form: it fails exactly when some visited step throws; the first
   * such step is the one reported; every statement before it has taken its step, and it
   * and every statement after it are as they were.
   */
  lemma {:induction false} VisitShape(hs: seq<Handle>, plan: Plan, m: nat)
    requires |plan| == |hs| && m <= |hs|
    ensures var f := Visit(hs, plan, m);
      && (f.failure.None? <==> forall j :: 0 <= j < m ==> !Refuses(hs[j], plan[j]))
      && (f.failure.None? ==> forall j :: 0 <= j < m ==> f.handles[j] == Stepped(hs[j], plan[j]))
      && (f.failure.Some? ==>
            var s := f.failure.value.statement;
            && s < m
            && Refuses(hs[s], plan[s])
            && (forall j :: 0 <= j < s ==> !Refuses(hs[j], plan[j]) && f.handles[j] == Stepped(hs[j], plan[j]))
            && (forall j :: s <= j < |hs| ==> f.handles[j] == hs[j]))
    decreases m
  {
    if m > 0 {
      VisitShape(hs, plan, m - 1);
    }
  }

  /**
   * close() closes the statements in list order; when one throws, it is the one reported,
   * the ones before it are closed and it and the ones after it are left as they were.
   */
  lemma CloseInOrder(hs: seq<Handle>)
    ensures var f := FanOut(hs, Everywhere(|hs|, Close));
      && (f.failure.None? ==> forall j :: 0 <= j < |hs| ==> f.handles[j].closed)
      && (f.failure.Some? ==>
            var s := f.failure.value.statement;
            && s < |hs| && !hs[s].closed && CloseCall in hs[s].script.failing
            && (forall j :: 0 <= j < s ==> f.handles[j].closed)
            && (forall j :: s <= j < |hs| ==> f.handles[j] == hs[j]))
  {
    VisitShape(hs, Everywhere(|hs|, Close), |hs|);
  }

  /**
   * An execute form runs every statement once, in order; when statement s throws,
   * no statement from s on has run.
   */
  lemma ExecutionStopsAtFailure(hs: seq<Handle>, c: Call)
    requires c.Execute? || c.ExecuteUpdate?
    ensures var f := FanOut(hs, Everywhere(|hs|, c));
      && (f.failure.None? ==> forall j :: 0 <= j < |hs| ==> f.handles[j] == hs[j].(executions := hs[j].executions + 1))
      && (f.failure.Some? ==>
            var s := f.failure.value.statement;
            && (forall j :: 0 <= j < s ==> f.handles[j] == hs[j].(executions := hs[j].executions + 1))
            && (forall j :: s <= j < |hs| ==> f.handles[j].executions == hs[j].executions))
  {
    VisitShape(hs, Everywhere(|hs|, c), |hs|);
  }

  /** A fan-out of addBatch that does not throw queues each statement's current parameters once. */
  lemma AddBatchQueuesParameters(hs: seq<Handle>)
    ensures var f := FanOut(hs, Everywhere(|hs|, AddBatch));
      f.failure.None? ==> forall j :: 0 <= j < |hs| ==> f.handles[j].batches == hs[j].batches + [hs[j].params]
  {
    VisitShape(hs, Everywhere(|hs|, AddBatch), |hs|);
  }

  /** Fan-outs of clearBatch and clearParameters that do not throw leave every statement empty. */
  lemma ClearingEmpties(hs: seq<Handle>)
    ensures var f := FanOut(hs, Everywhere(|hs|, ClearBatch));
      f.failure.None? ==> forall j :: 0 <= j < |hs| ==> f.handles[j].batches == []
    ensures var f := FanOut(hs, Everywhere(|hs|, ClearParameters));
      f.failure.None? ==> forall j :: 0 <= j < |hs| ==> f.handles[j].params == map[]
  {
    VisitShape(hs, Everywhere(|hs|, ClearBatch), |hs|);
    VisitShape(hs, Everywhere(|hs|, ClearParameters), |hs|);
  }

  /**
   * Once the first statement is closed, every uniform fan-out but close (execute,
   * executeUpdate, addBatch, clearBatch, clearParameters, a single-statement bind) throws
   * on it and changes nothing. A bind over several statements may skip the first one.
   */
  lemma ClosedStatementRefuses(hs: seq<Handle>, c: Call)
    requires |hs| > 0 && hs[0].closed && !c.Close?
    ensures FanOut(hs, Everywhere(|hs|, c)) == Fan(hs, Some(SqlException(0)))
  {
    VisitShape(hs, Everywhere(|hs|, c), |hs|);
    var f := FanOut(hs, Everywhere(|hs|, c));
    assert f.handles == hs;
  }
}
