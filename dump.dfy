/**
 * The diagnostic dump: the logical SQL with its `?` placeholders replaced, left to
 * right, by the traced display strings.
 */
module SqlDump {
  import opened Wrappers
  import opened Trace
  import opened Driver

  /** Java's `s.indexOf(c, from)`: the first position at or after `from` holding c, or -1. */
  function IndexOf(s: string, c: char, from: nat): (r: int)
    ensures r == -1 || (from <= r < |s| && s[r] == c)
    ensures r == -1 ==> forall j :: from <= j < |s| ==> s[j] != c
    ensures r != -1 ==> forall j :: from <= j < r ==> s[j] != c
    decreases |s| - from
  {
    if from >= |s| then -1
    else if s[from] == c then from
    else IndexOf(s, c, from + 1)
  }

  /** The number of `?` characters in s. */
  function Count(s: string): nat
  {
    if s == [] then 0 else (if s[0] == '?' then 1 else 0) + Count(s[1..])
  }

  /** A placeholder that shows a traced string. */
  predicate Resolved(trace: ArgTrace, n: nat)
  {
    n < |trace| && trace[n].Some?
  }

  /** What the n-th placeholder (0-based) shows: its traced string, or `?` when missing or null. */
  function Placeholder(trace: ArgTrace, n: nat): string
  {
    if Resolved(trace, n) then trace[n].value else "?"
  }

  /** s with its placeholders replaced by trace entries n, n+1, ... */
  function Render(s: string, trace: ArgTrace, n: nat): string
  {
    if s == [] then []
    else if s[0] == '?' then Placeholder(trace, n) + Render(s[1..], trace, n + 1)
    else [s[0]] + Render(s[1..], trace, n)
  }

  /** The dumped SQL. */
  function Dump(sql: string, trace: ArgTrace): string
  {
    Render(sql, trace, 0)
  }

  /** The number of placeholders among n .. n+m-1 that show `?`. */
  function Unresolved(trace: ArgTrace, n: nat, m: nat): nat
    decreases m
  {
    if m == 0 then 0 else (if Resolved(trace, n) then 0 else 1) + Unresolved(trace, n + 1, m - 1)
  }

  lemma {:induction false} CountAppend(a: string, b: string)
    ensures Count(a + b) == Count(a) + Count(b)
  {
    if a == [] {
      assert a + b == b;
    } else {
      assert (a + b)[1..] == a[1..] + b;
      CountAppend(a[1..], b);
    }
  }

  /** A string has no placeholder exactly when it holds no `?`. */
  lemma {:induction false} CountZero(s: string)
    ensures Count(s) == 0 <==> '?' !in s
  {
    if s != [] {
      CountZero(s[1..]);
      assert s == [s[0]] + s[1..];
    }
  }

  /**
   * Rendering splits at any point: the text before it is rendered with the first entries,
   * the text after it continues with the entry after the last placeholder used.
   */
  lemma {:induction false} RenderAppend(a: string, b: string, trace: ArgTrace, n: nat)
    ensures Render(a + b, trace, n) == Render(a, trace, n) + Render(b, trace, n + Count(a))
  {
    if a == [] {
      assert a + b == b;
    } else {
      assert (a + b)[1..] == a[1..] + b;
      RenderAppend(a[1..], b, trace, if a[0] == '?' then n + 1 else n);
    }
  }

  /** Text without placeholders is copied unchanged. */
  lemma {:induction false} RenderVerbatim(s: string, trace: ArgTrace, n: nat)
    requires '?' !in s
    ensures Render(s, trace, n) == s
  {
    if s != [] {
      assert s == [s[0]] + s[1..];
      RenderVerbatim(s[1..], trace, n);
    }
  }

  /** Regrouping a four-part concatenation. */
  lemma Regroup(a: string, b: string, c: string, e: string)
    ensures a + b + c + e == a + (b + c + e)
  {
  }

  /** Rendering from `from` on: the text up to the next `?` is copied, then that placeholder is filled. */
  lemma RenderUpToMark(s: string, from: nat, mark: nat, trace: ArgTrace, n: nat)
    requires from <= mark < |s| && s[mark] == '?'
    requires forall j :: from <= j < mark ==> s[j] != '?'
    ensures Render(s[from..], trace, n) == s[from..mark] + Placeholder(trace, n) + Render(s[mark + 1..], trace, n + 1)
  {
    var plain := s[from..mark];
    var rest := s[mark..];
    assert s[from..] == plain + rest;
    assert '?' !in plain;
    RenderAppend(plain, rest, trace, n);
    CountZero(plain);
    RenderVerbatim(plain, trace, n);
    assert rest[0] == '?' && rest[1..] == s[mark + 1..];
  }

  /** Rendering from `from` on copies the text when no `?` follows. */
  lemma RenderTail(s: string, from: nat, trace: ArgTrace, n: nat)
    requires from <= |s|
    requires forall j :: from <= j < |s| ==> s[j] != '?'
    ensures Render(s[from..], trace, n) == s[from..]
  {
    assert '?' !in s[from..];
    RenderVerbatim(s[from..], trace, n);
  }

  /** SQL without a `?` dumps to itself. */
  lemma DumpWithoutPlaceholders(sql: string, trace: ArgTrace)
    requires '?' !in sql
    ensures Dump(sql, trace) == sql
  {
    RenderVerbatim(sql, trace, 0);
  }

  /**
   * The placeholder after prefix `a` shows trace entry Count(a) (the n-th `?` shows entry
   * n-1) and the text around it is kept in order.
   */
  lemma DumpPlaceholder(a: string, b: string, trace: ArgTrace)
    ensures Dump(a + "?" + b, trace)
         == Dump(a, trace) + Placeholder(trace, Count(a)) + Render(b, trace, Count(a) + 1)
  {
    assert a + "?" + b == a + ("?" + b);
    RenderAppend(a, "?" + b, trace, 0);
    assert ("?" + b)[0] == '?' && ("?" + b)[1..] == b;
  }

  /** Without any non-null trace entry every placeholder shows `?`, so the SQL dumps to itself. */
  lemma {:induction false} RenderUnbound(s: string, trace: ArgTrace, n: nat)
    requires forall j :: 0 <= j < |trace| ==> trace[j].None?
    ensures Render(s, trace, n) == s
  {
    if s != [] {
      RenderUnbound(s[1..], trace, if s[0] == '?' then n + 1 else n);
      assert s == [s[0]] + s[1..];
    }
  }

  /**
   * When no traced string holds a `?`, the `?`s left in the dump are exactly the
   * placeholders with no non-null trace entry.
   */
  lemma {:induction false} RenderLeavesUnresolved(s: string, trace: ArgTrace, n: nat)
    requires forall j :: 0 <= j < |trace| && trace[j].Some? ==> '?' !in trace[j].value
    ensures Count(Render(s, trace, n)) == Unresolved(trace, n, Count(s))
  {
    if s != [] {
      if s[0] == '?' {
        RenderLeavesUnresolved(s[1..], trace, n + 1);
        CountAppend(Placeholder(trace, n), Render(s[1..], trace, n + 1));
        if Resolved(trace, n) {
          CountZero(trace[n].value);
        } else {
          assert Count("?") == 1;
        }
      } else {
        RenderLeavesUnresolved(s[1..], trace, n);
        CountAppend([s[0]], Render(s[1..], trace, n));
      }
    }
  }

  lemma DumpLeavesUnresolved(sql: string, trace: ArgTrace)
    requires forall j :: 0 <= j < |trace| && trace[j].Some? ==> '?' !in trace[j].value
    ensures Count(Dump(sql, trace)) == Unresolved(trace, 0, Count(sql))
  {
    RenderLeavesUnresolved(sql, trace, 0);
  }

  /**
   * Right after position i is traced, placeholder i-1 no longer falls back to `?`: it
   * shows the traced string, which is "null" for a null value whose formatting threw.
   */
  lemma TracedArgumentShown(trace: ArgTrace, i: nat, arg: Value, formatted: Option<string>)
    requires i >= 1
    ensures var t := TraceSet(trace, i, TracedArg(arg, formatted));
      Resolved(t, i - 1) && Placeholder(t, i - 1) == TracedArg(arg, formatted)
    ensures formatted.None? && arg.Null? ==> Placeholder(TraceSet(trace, i, TracedArg(arg, formatted)), i - 1) == "null"
  {
  }

  /**
   * Right after the parameter of the `?` that follows prefix `a` is traced as s, the dump
   * shows s in that place, with the text on both sides rendered from the new trace.
   */
  lemma DumpShowsTracedParameter(a: string, b: string, trace: ArgTrace, s: string)
    ensures var t := TraceSet(trace, Count(a) + 1, s);
      Dump(a + "?" + b, t) == Dump(a, t) + s + Render(b, t, Count(a) + 1)
  {
    var t := TraceSet(trace, Count(a) + 1, s);
    DumpPlaceholder(a, b, t);
    assert Placeholder(t, Count(a)) == s;
  }

  /** Two placeholders, both traced, are filled in order and the text around them is kept. */
  lemma DumpTwoPlaceholders(a: string, b: string, x: string, y: string)
    requires '?' !in a && '?' !in b
    ensures Dump(a + "?" + b + "?", [Some(x), Some(y)]) == a + x + b + y
  {
    var trace: ArgTrace := [Some(x), Some(y)];
    var tail := b + "?";
    assert a + "?" + b + "?" == a + "?" + tail;
    DumpPlaceholder(a, tail, trace);
    CountZero(a);
    DumpWithoutPlaceholders(a, trace);
    assert Placeholder(trace, 0) == x;
    RenderAppend(b, "?", trace, 1);
    CountZero(b);
    RenderVerbatim(b, trace, 1);
    assert Render("?", trace, 1) == Placeholder(trace, 1) + Render([], trace, 2) == y;
    assert Render(tail, trace, 1) == b + y;
    assert a + x + (b + y) == a + x + b + y;
  }

  /** Entries "5" and "7" fill the two placeholders of an update, in order. */
  lemma DumpExample()
    ensures Dump("UPDATE t SET x=? WHERE id=?", [Some("5"), Some("7")])
         == "UPDATE t SET x=5 WHERE id=7"
  {
    var a, b := "UPDATE t SET x=", " WHERE id=";
    assert '?' !in a && '?' !in b;
    DumpTwoPlaceholders(a, b, "5", "7");
    assert a + "?" + b + "?" == "UPDATE t SET x=? WHERE id=?";
    assert a + "5" + b + "7" == "UPDATE t SET x=5 WHERE id=7";
  }
}
