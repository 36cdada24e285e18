/**
 * Parameter remapping: where one logical bind lands on each physical statement.
 * With more than one physical statement, the first one has its parameters shifted
 * down by the number of leading non-temporal parameters and is skipped when the
 * shifted index is not positive; every other statement (and a lone one) gets the
 * logical index unchanged.
 */
module Binding {
  import opened Wrappers
  import opened JavaInt
  import opened Driver
  import opened Dispatch

  /** The bind call of `setX(i, v)` on statement j of n, with leading count k; None skips it. */
  function BindAt(n: nat, k: int32, i: int32, v: Value, j: nat): Option<Call>
  {
    if n > 1 && j == 0 then (if Sub(i, k) > 0 then Some(Bind(Sub(i, k), v)) else None)
    else Some(Bind(i, v))
  }

  /** The bind calls of `setX(i, v)` on n physical statements. */
  function BindPlan(n: nat, k: int32, i: int32, v: Value): (plan: Plan)
    ensures |plan| == n && forall j :: 0 <= j < n ==> plan[j] == BindAt(n, k, i, v, j)
  {
    seq(n, j requires 0 <= j => BindAt(n, k, i, v, j))
  }

  /** A statement with v bound at physical index p. */
  function Bound(h: Handle, p: int32, v: Value): Handle
  {
    h.(params := h.params[p := v])
  }

  /** The driver accepts a bind at p: the statement is open, binds do not fail, p is in range. */
  predicate Accepts(h: Handle, p: int32)
  {
    !h.closed && BindCall !in h.script.failing && 1 <= p as int <= h.script.paramCount
  }

  lemma ApplyBind(h: Handle, p: int32, v: Value)
    ensures Apply(h, Bind(p, v)) == if Accepts(h, p) then Some(Bound(h, p, v)) else None
  {
  }

  /** A lone physical statement is bound at the logical index, whatever the leading count. */
  lemma SingleStatementIdentity(h: Handle, k: int32, i: int32, v: Value)
    ensures FanOut([h], BindPlan(1, k, i, v))
         == if Accepts(h, i) then Fan([Bound(h, i, v)], None) else Fan([h], Some(SqlException(0)))
  {
    var plan := BindPlan(1, k, i, v);
    assert plan[0] == Some(Bind(i, v));
    ApplyBind(h, i, v);
    VisitShape([h], plan, 1);
    var f := FanOut([h], plan);
    if Accepts(h, i) {
      assert f.handles == [Bound(h, i, v)];
    } else {
      assert f.handles == [h];
    }
  }

  /**
   * With several physical statements: the bind succeeds exactly when every statement it
   * reaches accepts it; then the first statement is bound at i-k when that is positive
   * and untouched otherwise, every later one is bound at i, and nothing else changes.
   * The first statement is untouched by a non-positive i-k whatever the outcome.
   */
  lemma MultiStatementRemap(hs: seq<Handle>, k: int32, i: int32, v: Value)
    requires |hs| > 1
    ensures var f := FanOut(hs, BindPlan(|hs|, k, i, v));
      && (f.failure.None? <==>
            (Sub(i, k) > 0 ==> Accepts(hs[0], Sub(i, k))) && forall j :: 1 <= j < |hs| ==> Accepts(hs[j], i))
      && (f.failure.None? ==>
            && f.handles[0] == (if Sub(i, k) > 0 then Bound(hs[0], Sub(i, k), v) else hs[0])
            && forall j :: 1 <= j < |hs| ==> f.handles[j] == Bound(hs[j], i, v))
      && (Sub(i, k) <= 0 ==> f.handles[0] == hs[0])
  {
    var plan := BindPlan(|hs|, k, i, v);
    VisitShape(hs, plan, |hs|);
    forall j | 0 <= j < |hs|
      ensures Refuses(hs[j], plan[j]) <==> (if j == 0 then Sub(i, k) > 0 && !Accepts(hs[0], Sub(i, k)) else !Accepts(hs[j], i))
      ensures !Refuses(hs[j], plan[j]) ==>
        Stepped(hs[j], plan[j]) == if j > 0 then Bound(hs[j], i, v) else if Sub(i, k) > 0 then Bound(hs[0], Sub(i, k), v) else hs[0]
    {
      ApplyBind(hs[j], i, v);
      ApplyBind(hs[j], Sub(i, k), v);
    }
  }

  /**
   * A bind over several statements whose shifted index is not positive never reaches the
   * first statement, so it succeeds even when that one is closed, exactly when every later
   * statement accepts it.
   */
  lemma BindSkipsClosedFirst(hs: seq<Handle>, k: int32, i: int32, v: Value)
    requires |hs| > 1 && hs[0].closed && Sub(i, k) <= 0
    ensures var f := FanOut(hs, BindPlan(|hs|, k, i, v));
      && f.handles[0] == hs[0]
      && (f.failure.None? <==> forall j :: 1 <= j < |hs| ==> Accepts(hs[j], i))
  {
    MultiStatementRemap(hs, k, i, v);
  }

  /**
   * With the count reset to -1 by the non-default constructors, a multi-statement bind of
   * i lands on the first statement at i+1 (for 0 <= i < Integer.MAX_VALUE), and skips it when i+1 is not
   * positive, including when i+1 wraps around.
   */
  lemma ResetCountShiftsFirstBind(n: nat, i: int32, v: Value)
    requires n > 1
    ensures 0 <= i as int < MaxInt ==> BindPlan(n, -1, i, v)[0] == Some(Bind(i + 1, v))
    ensures i as int < 0 || i as int == MaxInt ==> BindPlan(n, -1, i, v)[0] == None
  {
    var d := Sub(i, -1);
    if i as int == MaxInt {
      assert d as int == MinInt;
    } else {
      assert d as int == i as int + 1;
    }
  }
}
