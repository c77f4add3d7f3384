/** Properties of the LuduScript-head interpreter that relate several
    executions: which branch an `if` runs, which values a `for` visits, and
    where the scope stack loses its balance. */
module HeadInterpFacts {
  import opened Results
  import opened HeadValue
  import opened HeadAst
  import opened HeadEnv
  import opened HeadInterp

  /** A condition that evaluates without error to a false value. */
  predicate IsFalse(h: Host, env: Env, c: Expr) {
    Eval(h, env, c).Ok? && !ToBool(Eval(h, env, c).value)
  }

  predicate IsTrue(h: Host, env: Env, c: Expr) {
    Eval(h, env, c).Ok? && ToBool(Eval(h, env, c).value)
  }

  /** After a false `if` condition, the first `elif` whose condition holds
      runs its block, and no other branch runs. */
  lemma {:induction false} FirstTrueElifRuns(h: Host, env: Env, elifs: seq<Elif>, elseBody: seq<Stmt>, k: nat)
    requires k < |elifs|
    requires forall j :: 0 <= j < k ==> IsFalse(h, env, elifs[j].cond)
    requires IsTrue(h, env, elifs[k].cond)
    ensures ExecBranches(h, env, elifs, elseBody) == ExecBlock(h, env, elifs[k].body)
    decreases k
  {
    if k > 0 {
      assert IsFalse(h, env, elifs[0].cond);
      FirstTrueElifRuns(h, env, elifs[1..], elseBody, k - 1);
    }
  }

  /** When every `elif` condition is false, only the `else` block runs, and
      an empty `else` does nothing. */
  lemma {:induction false} NoTrueElifRunsElse(h: Host, env: Env, elifs: seq<Elif>, elseBody: seq<Stmt>)
    requires forall j :: 0 <= j < |elifs| ==> IsFalse(h, env, elifs[j].cond)
    ensures ExecBranches(h, env, elifs, elseBody) ==
              if |elseBody| > 0 then ExecBlock(h, env, elseBody) else Exec(env, Normal)
    decreases |elifs|
  {
    if |elifs| > 0 {
      assert IsFalse(h, env, elifs[0].cond);
      NoTrueElifRunsElse(h, env, elifs[1..], elseBody);
    }
  }

  /** An `if` whose condition evaluates runs the then-block when it holds
      and the `elif`/`else` chain otherwise. */
  lemma IfCondition(h: Host, env: Env, c: Expr, t: seq<Stmt>, elifs: seq<Elif>, e: seq<Stmt>, line: int)
    requires Eval(h, env, c).Ok?
    ensures ExecStmt(h, env, If(c, t, elifs, e, line)) ==
              if ToBool(Eval(h, env, c).value) then ExecBlock(h, env, t) else ExecBranches(h, env, elifs, e)
  {
  }

  /** The whole `if` statement: the then-block when the condition holds,
      else the first true `elif`, else the `else` block. */
  lemma IfRunsOneBranch(h: Host, env: Env, c: Expr, t: seq<Stmt>, elifs: seq<Elif>, e: seq<Stmt>, line: int)
    requires Eval(h, env, c).Ok?
    ensures IsTrue(h, env, c) ==> ExecStmt(h, env, If(c, t, elifs, e, line)) == ExecBlock(h, env, t)
    ensures forall k :: 0 <= k < |elifs| && IsFalse(h, env, c) && IsTrue(h, env, elifs[k].cond) &&
                        (forall j :: 0 <= j < k ==> IsFalse(h, env, elifs[j].cond)) ==>
              ExecStmt(h, env, If(c, t, elifs, e, line)) == ExecBlock(h, env, elifs[k].body)
    ensures IsFalse(h, env, c) && (forall j :: 0 <= j < |elifs| ==> IsFalse(h, env, elifs[j].cond)) ==>
              ExecStmt(h, env, If(c, t, elifs, e, line)) ==
                if |e| > 0 then ExecBlock(h, env, e) else Exec(env, Normal)
  {
    IfCondition(h, env, c, t, elifs, e, line);
    var run := ExecStmt(h, env, If(c, t, elifs, e, line));
    if IsFalse(h, env, c) {
      assert run == ExecBranches(h, env, elifs, e);
      forall k | 0 <= k < |elifs| && IsTrue(h, env, elifs[k].cond) &&
                 (forall j :: 0 <= j < k ==> IsFalse(h, env, elifs[j].cond))
        ensures run == ExecBlock(h, env, elifs[k].body)
      {
        FirstTrueElifRuns(h, env, elifs, e, k);
      }
      if forall j :: 0 <= j < |elifs| ==> IsFalse(h, env, elifs[j].cond) {
        NoTrueElifRunsElse(h, env, elifs, e);
      }
    }
  }

  /** How many times a `for` from `start` to `end` with a non-zero step runs
      its body. */
  function Count(start: int, end: int, step: int): (n: nat)
    requires step != 0
    ensures n == 0 <==> !InRange(start, end, step)
  {
    if step > 0 then (if start <= end then (end - start) / step + 1 else 0)
    else (if start >= end then (start - end) / (-step) + 1 else 0)
  }

  /** The iterator values of a `for`, in order: an arithmetic progression. */
  function Iterations(start: int, end: int, step: int): (vs: seq<int>)
    requires step != 0
    ensures |vs| == Count(start, end, step)
    ensures forall k :: 0 <= k < |vs| ==> vs[k] == start + k * step && InRange(vs[k], end, step)
  {
    var n := Count(start, end, step);
    var vs := seq(n, k => start + k * step);
    assert forall k :: 0 <= k < n ==> InRange(start + k * step, end, step) by {
      forall k | 0 <= k < n
        ensures InRange(start + k * step, end, step)
      {
        ProgressionInRange(start, end, step, k);
      }
    }
    vs
  }

  lemma MulMono(a: int, b: int, d: nat)
    requires a <= b
    ensures a * d <= b * d
  {
  }

  lemma DivBelow(x: nat, d: nat)
    requires d > 0
    ensures (x / d) * d <= x
  {
    assert x == d * (x / d) + x % d;
  }

  lemma ProgressionInRange(start: int, end: int, step: int, k: nat)
    requires step != 0 && k < Count(start, end, step)
    ensures InRange(start + k * step, end, step)
  {
    if step > 0 {
      var q := (end - start) / step;
      MulMono(k, q, step);
      DivBelow(end - start, step);
    } else {
      var d := -step;
      var q := (start - end) / d;
      MulMono(k, q, d);
      DivBelow(start - end, d);
      assert k * step == -(k * d);
    }
  }

  /** Dropping the first iteration leaves the iterations from the next
      value. */
  lemma IterationsStep(start: int, end: int, step: int)
    requires step != 0 && InRange(start, end, step)
    ensures Iterations(start, end, step) == [start] + Iterations(start + step, end, step)
  {
    CountStep(start, end, step);
    var a := Iterations(start, end, step);
    var b := [start] + Iterations(start + step, end, step);
    assert |a| == |b|;
    forall k | 0 <= k < |a|
      ensures a[k] == b[k]
    {
      if k > 0 {
        assert b[k] == start + step + (k - 1) * step;
        assert (k - 1) * step + step == k * step;
      }
    }
  }

  lemma CountStep(start: int, end: int, step: int)
    requires step != 0 && InRange(start, end, step)
    ensures Count(start + step, end, step) == Count(start, end, step) - 1
  {
    if step > 0 {
      assert end - (start + step) == (end - start) - step;
      CountFromNext(end - start, step);
    } else {
      assert (start + step) - end == (start - end) - (-step);
      CountFromNext(start - end, -step);
    }
  }

  /** One step of `d` along a distance `x` leaves one value fewer. */
  lemma CountFromNext(x: int, d: int)
    requires d > 0 && x >= 0
    ensures (if x - d >= 0 then (x - d) / d + 1 else 0) == x / d
  {
    if x >= d {
      DivDown(x, d);
    } else {
      assert x / d == 0;
    }
  }

  lemma DivDown(x: int, d: int)
    requires d > 0 && x >= d
    ensures (x - d) / d == x / d - 1
  {
    var q, r := x / d, x % d;
    assert x == d * q + r;
    assert x - d == d * (q - 1) + r;
    DivUnique(x - d, d, q - 1, r);
  }

  /** Euclidean division has one quotient. */
  lemma DivUnique(y: int, d: int, q: int, r: int)
    requires d > 0 && 0 <= r < d && y == d * q + r
    ensures y / d == q
  {
    var q', r' := y / d, y % d;
    assert y == d * q' + r';
    assert d * (q - q') == r' - r;
    if q > q' {
      MulMono(1, q - q', d);
    } else if q < q' {
      MulMono(1, q' - q, d);
    }
  }

  /** A `for` loop over an explicit list of iterator values. */
  function ForOver(h: Host, env: Env, iter: string, vs: seq<int>, body: seq<Stmt>): Exec
    decreases |vs|
  {
    if |vs| == 0 then Exec(env, Normal)
    else
      var o := ExecStmts(h, SetVar(env, iter, MakeInt(vs[0])), body);
      match o.sig
      case Normal => ForOver(h, o.env, iter, vs[1..], body)
      case Continue => ForOver(h, o.env, iter, vs[1..], body)
      case Break => Exec(o.env, Normal)
      case Error(_) => Exec(PopScope(o.env), o.sig)
  }

  /** The loop visits exactly the values `start, start + step, ...` that do
      not pass `end`, in that order. */
  lemma {:induction false} ForLoopVisits(h: Host, env: Env, iter: string, start: int, end: int, step: int, body: seq<Stmt>)
    requires step != 0
    ensures ForLoop(h, env, iter, start, end, step, body) == ForOver(h, env, iter, Iterations(start, end, step), body)
    decreases Remaining(start, end, step)
  {
    if InRange(start, end, step) {
      IterationsStep(start, end, step);
      var o := ExecStmts(h, SetVar(env, iter, MakeInt(start)), body);
      if o.sig.Normal? || o.sig.Continue? {
        ForLoopVisits(h, o.env, iter, start + step, end, step, body);
        assert Iterations(start, end, step)[1..] == Iterations(start + step, end, step);
      }
    } else {
      assert Iterations(start, end, step) == [];
    }
  }

  /** A `for` statement: bounds from its arguments, a zero step read as 1,
      the iterations of `ForOver` in one pushed scope, popped at the end. */
  lemma ForStatement(h: Host, env: Env, iter: string, args: seq<Expr>, body: seq<Stmt>, line: int)
    requires ForBounds(h, env, args).Ok?
    ensures var b := ForBounds(h, env, args).value;
            var step := if b.2 == 0 then 1 else b.2;
            var o := ForOver(h, PushScope(env), iter, Iterations(b.0, b.1, step), body);
            ExecStmt(h, env, For(iter, args, body, line)) == if o.sig.Normal? then Exec(PopScope(o.env), Normal) else o
  {
    var b := ForBounds(h, env, args).value;
    var step := if b.2 == 0 then 1 else b.2;
    ForLoopVisits(h, PushScope(env), iter, b.0, b.1, step, body);
  }

  /** `for (i, n)` visits 1, 2, ..., n. */
  lemma OneArgumentCountsFromOne(n: int)
    ensures Iterations(1, n, 1) == seq(if n >= 1 then n else 0, k => k + 1)
  {
  }

  /** `break` inside an `if` inside a `for` leaves one scope on the stack:
      the `if` block's scope is never popped, and the loop pops only one. */
  lemma BreakInsideIfLeaksScope(h: Host)
    ensures var env := Env([map[]], None, {}, []);
            var s := For("i", [Lit(IntLit(1), 1)], [If(Lit(BoolLit(true), 1), [Stmt.Break([], 1)], [], [], 1)], 1);
            var r := ExecStmt(h, env, s);
            r.sig.Normal? && |r.env.scopes| == 2 && !DepthKept(env, r.env)
  {
    var env := Env([map[]], None, {}, []);
    var brk := Stmt.Break([], 1);
    var ifs := If(Lit(BoolLit(true), 1), [brk], [], [], 1);
    var s := For("i", [Lit(IntLit(1), 1)], [ifs], 1);
    TruncWhole(1);
    assert ForBounds(h, env, [Lit(IntLit(1), 1)]) == Ok((1, 1, 1));
    var e1 := PushScope(env);
    var e2 := SetVar(e1, "i", MakeInt(1));
    assert |e2.scopes| == 2;
    var e3 := PushScope(e2);
    assert ExecStmts(h, e3, []) == Exec(e3, Normal);
    assert ExecStmt(h, e3, brk) == Exec(e3, Signal.Break);
    assert ExecStmts(h, e3, [brk]) == Exec(e3, Signal.Break);
    assert ExecBlock(h, e2, [brk]) == Exec(e3, Signal.Break);
    assert ExecStmt(h, e2, ifs) == Exec(e3, Signal.Break);
    assert ExecStmts(h, e2, [ifs]) == Exec(e3, Signal.Break);
    assert ForLoop(h, e1, "i", 1, 1, 1, [ifs]) == Exec(e3, Normal);
    assert ExecStmt(h, env, s) == Exec(PopScope(e3), Normal);
  }

  /** The same loop with the `break` directly in its body keeps the stack
      balanced. */
  lemma DirectBreakKeepsBalance(h: Host)
    ensures var env := Env([map[]], None, {}, []);
            var s := For("i", [Lit(IntLit(1), 1)], [Stmt.Break([], 1)], 1);
            var r := ExecStmt(h, env, s);
            r.sig.Normal? && DepthKept(env, r.env)
  {
    var env := Env([map[]], None, {}, []);
    var s := For("i", [Lit(IntLit(1), 1)], [Stmt.Break([], 1)], 1);
    assert Balanced(s, true);
  }

  /** Both operands of a binary operator are evaluated before it is
      applied, so `&&` and `||` do not short-circuit: an error on the right
      is an error of the whole expression. */
  lemma NoShortCircuit(h: Host, env: Env, l: Expr, op: string, r: Expr, line: int)
    ensures Eval(h, env, r).Err? && Eval(h, env, l).Ok? ==> Eval(h, env, Binary(l, op, r, line)) == Err(Eval(h, env, r).msg)
    ensures Eval(h, env, Binary(l, op, r, line)).Ok? ==>
              Eval(h, env, l).Ok? && Eval(h, env, r).Ok? &&
              Eval(h, env, Binary(l, op, r, line)) == ApplyBinary(h, op, Eval(h, env, l).value, Eval(h, env, r).value)
  {
  }

  /** `break` and `continue` run their bodies first and raise their signal
      only when the body finishes normally. */
  lemma SignalsAfterBody(h: Host, env: Env, body: seq<Stmt>, line: int)
    ensures var o := ExecStmts(h, env, body);
            ExecStmt(h, env, Stmt.Break(body, line)) == (if o.sig.Normal? then Exec(o.env, Signal.Break) else o)
    ensures var o := ExecStmts(h, env, body);
            ExecStmt(h, env, Stmt.Continue(body, line)) == (if o.sig.Normal? then Exec(o.env, Signal.Continue) else o)
  {
  }

  // ------------------------------------------------------ Block initialisers

  /** The statements of a block initialiser run as non-final ones: an
      expression statement gives the value, every other statement runs
      normally and an inner declaration is remembered. */
  function InitPrefix(h: Host, env: Env, ss: seq<Stmt>, last: Option<Value>, lastVar: string): InitState
    decreases |ss|
  {
    if |ss| == 0 then InitState(env, Normal, last, lastVar)
    else
      var s := ss[0];
      if s.ExprStmt? then
        match Eval(h, env, s.expr)
        case Err(m) => InitState(env, Error(m), last, lastVar)
        case Ok(v) => InitPrefix(h, env, ss[1..], Some(v), lastVar)
      else
        var o := ExecStmt(h, env, s);
        if !o.sig.Normal? then InitState(o.env, o.sig, last, lastVar)
        else InitPrefix(h, o.env, ss[1..], last, if s.Decl? then s.name else lastVar)
  }

  /** A block initialiser runs its leading statements one after another and
      stops at the first that does not complete normally; only the last
      statement of the block is treated as final. */
  lemma {:induction false} InitBlockSplit(h: Host, env: Env, pre: seq<Stmt>, post: seq<Stmt>, last: Option<Value>, lastVar: string)
    requires |post| > 0
    ensures var a := InitPrefix(h, env, pre, last, lastVar);
            InitBlock(h, env, pre + post, last, lastVar)
            == if a.sig.Normal? then InitBlock(h, a.env, post, a.last, a.lastVar) else a
    decreases |pre|
  {
    if |pre| == 0 {
      assert pre + post == post;
    } else {
      var s := pre[0];
      assert (pre + post)[0] == s && (pre + post)[1..] == pre[1..] + post;
      if s.ExprStmt? {
        if Eval(h, env, s.expr).Ok? {
          InitBlockSplit(h, env, pre[1..], post, Some(Eval(h, env, s.expr).value), lastVar);
        }
      } else {
        var o := ExecStmt(h, env, s);
        if o.sig.Normal? {
          InitBlockSplit(h, o.env, pre[1..], post, last, if s.Decl? then s.name else lastVar);
        }
      }
    }
  }

  /** A block initialiser ending in an expression statement gives that
      expression's value, evaluated in the environment the statements
      before it leave, and leaves that environment. */
  lemma BlockEndsInExpression(h: Host, env: Env, pre: seq<Stmt>, x: Expr, line: int, last: Option<Value>, lastVar: string)
    ensures var a := InitPrefix(h, env, pre, last, lastVar);
            var r := InitBlock(h, env, pre + [ExprStmt(x, line)], last, lastVar);
            a.sig.Normal? ==>
              (Eval(h, a.env, x).Ok? ==> r == InitState(a.env, Normal, Some(Eval(h, a.env, x).value), a.lastVar))
              && (Eval(h, a.env, x).Err? ==> r.sig == Error(Eval(h, a.env, x).msg) && r.env == a.env)
  {
    InitBlockSplit(h, env, pre, [ExprStmt(x, line)], last, lastVar);
  }

  /** A declaration whose initialiser block ends in an expression statement
      declares that expression's value, evaluated after the statements
      before it in the block's own scope, and the block's scope is gone
      afterwards. */
  lemma DeclaresBlockExpression(h: Host, env: Env, typ: DeclType, name: string, pre: seq<Stmt>, x: Expr, xline: int, line: int)
    ensures var a := InitPrefix(h, PushScope(env), pre, None, "");
            var r := ExecDecl(h, env, Decl(typ, name, None, pre + [ExprStmt(x, xline)], line));
            a.sig.Normal? && Eval(h, a.env, x).Ok? ==>
              r == Exec(Declare(PopScope(a.env), name, Eval(h, a.env, x).value), Normal)
  {
    BlockEndsInExpression(h, PushScope(env), pre, x, xline, None, "");
  }

  /** A statement of a block initialiser that is neither an expression
      statement nor a final `if` runs as an ordinary statement. */
  lemma InitBlockRuns(h: Host, env: Env, ss: seq<Stmt>, last: Option<Value>, lastVar: string)
    requires |ss| > 0 && !ss[0].ExprStmt? && !(|ss| == 1 && ss[0].If?)
    ensures var o := ExecStmt(h, env, ss[0]);
            InitBlock(h, env, ss, last, lastVar)
            == if o.sig.Normal? then InitBlock(h, o.env, ss[1..], last, if ss[0].Decl? then ss[0].name else lastVar)
               else InitState(o.env, o.sig, last, lastVar)
  {
  }

  /** A block initialiser of declarations only produces no value and
      remembers the last declared name. */
  lemma {:induction false} DeclarationsOnly(h: Host, env: Env, ss: seq<Stmt>, lastVar: string)
    requires forall k :: 0 <= k < |ss| ==> ss[k].Decl?
    ensures var r := InitBlock(h, env, ss, None, lastVar);
            r.sig.Normal? ==> r.last.None? && r.lastVar == (if |ss| == 0 then lastVar else ss[|ss| - 1].name)
    decreases |ss|
  {
    var r := InitBlock(h, env, ss, None, lastVar);
    if |ss| == 0 {
      assert r == InitState(env, Normal, None, lastVar);
    } else {
      var s := ss[0];
      InitBlockRuns(h, env, ss, None, lastVar);
      var o := ExecStmt(h, env, s);
      if o.sig.Normal? {
        var rest := ss[1..];
        assert r == InitBlock(h, o.env, rest, None, s.name);
        DeclarationsOnly(h, o.env, rest, s.name);
        if |rest| > 0 {
          assert rest[|rest| - 1] == ss[|ss| - 1];
        }
      } else {
        assert r.sig == o.sig;
      }
    }
  }

  /** A declaration whose initialiser block holds declarations only
      declares the value of the block's last declared variable as the block
      leaves it, or the type's default when that name is not bound. */
  lemma DeclaresLastDeclared(h: Host, env: Env, typ: DeclType, name: string, block: seq<Stmt>, line: int)
    requires |block| > 0 && forall k :: 0 <= k < |block| ==> block[k].Decl?
    ensures var st := InitBlock(h, PushScope(env), block, None, "");
            var inner := block[|block| - 1].name;
            var r := ExecDecl(h, env, Decl(typ, name, None, block, line));
            st.sig.Normal? ==>
              r == Exec(Declare(PopScope(st.env), name,
                                if |inner| > 0 && GetVar(st.env, inner).Some? then GetVar(st.env, inner).value
                                else Default(typ)), Normal)
  {
    DeclarationsOnly(h, PushScope(env), block, "");
  }
}
