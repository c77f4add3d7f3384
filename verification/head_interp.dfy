/** The tree-walking interpreter of LuduScript-head.  Expressions evaluate
    to a `Result<Value>`; statements are executed by state-passing functions
    that return the new environment together with a `Signal`: the exceptions
    of the source (`BreakException`, `ContinueException`, runtime errors)
    become the non-`Normal` signals, and each function stops at the first
    non-`Normal` signal exactly where the source unwinds. */
module HeadInterp {
  import opened Results
  import opened NumText
  import opened HeadValue
  import opened HeadAst
  import opened HeadEnv

  datatype Signal = Normal | Break | Continue | Error(msg: string)

  /** The environment after a statement and how control leaves it. */
  datatype Exec = Exec(env: Env, sig: Signal)

  /** The same, for the value-returning block helpers. */
  datatype ValExec = ValExec(env: Env, sig: Signal, value: Value)

  /** State of the loop over a declaration's initialiser block: the value of
      the last value-producing statement and the name of the last inner
      declaration. */
  datatype InitState = InitState(env: Env, sig: Signal, last: Option<Value>, lastVar: string)

  /** Every value bound on the scope stack keeps the integer-flag invariant. */
  predicate EnvOk(e: Env) {
    forall i, k :: 0 <= i < |e.scopes| && k in e.scopes[i] ==> ValueOk(e.scopes[i][k])
  }

  function LitValue(l: Literal): (v: Value)
    ensures ValueOk(v)
    ensures l.IntLit? ==> v == MakeInt(l.i)
    ensures l.FloatLit? ==> v == MakeNum(l.r)
    ensures l.StrLit? ==> v == Str(l.s)
    ensures l.BoolLit? ==> v == Bool(l.b)
  {
    match l
    case IntLit(i) => MakeInt(i)
    case FloatLit(r) => MakeNum(r)
    case StrLit(s) => Str(s)
    case BoolLit(b) => Bool(b)
  }

  /** `evalIdent`: a variable on the stack first, then a declared field of
      the current record, then (inside an object) the name itself as text. */
  function EvalIdent(e: Env, name: string): (r: Result<Value>)
    ensures GetVar(e, name).Some? ==> r == Ok(GetVar(e, name).value)
    ensures GetVar(e, name).None? && e.current.Some? && name in e.declared && name in e.current.value ==>
              r == Ok(FieldValue(e.current.value[name]))
    ensures GetVar(e, name).None? && e.current.Some? && name !in e.declared ==> r == Ok(Str(name))
    ensures r.Err? <==> GetVar(e, name).None? && (e.current.None? || (name in e.declared && name !in e.current.value))
    ensures r.Err? ==> r.msg == "Undefined variable: " + name
  {
    match GetVar(e, name)
    case Some(v) => Ok(v)
    case None =>
      if e.current.Some? && name in e.declared && name in e.current.value then
        Ok(FieldValue(e.current.value[name]))
      else if e.current.Some? && name !in e.declared then Ok(Str(name))
      else Err("Undefined variable: " + name)
  }

  /** `evalExpr`.  Both operands of a binary operator are evaluated, left
      first, before the operator is applied; calls and member accesses
      always fail. */
  function Eval(h: Host, e: Env, x: Expr): (r: Result<Value>)
    ensures EnvOk(e) && r.Ok? ==> ValueOk(r.value)
    ensures x.Call? ==> r == Err("Function calls not supported")
    ensures x.Access? ==> r == Err("Member access not supported")
    decreases x
  {
    match x
    case Lit(l, _) => Ok(LitValue(l))
    case Ident(name, _) => EvalIdent(e, name)
    case Unary(op, rhs, _) =>
      var v :- Eval(h, e, rhs);
      OperatorsKeepValueOk(h, op, v, v);
      ApplyUnary(h, op, v)
    case Binary(lhs, op, rhs, _) =>
      var l :- Eval(h, e, lhs);
      var r :- Eval(h, e, rhs);
      OperatorsKeepValueOk(h, op, l, r);
      ApplyBinary(h, op, l, r)
    case Call(_, _, _) => Err("Function calls not supported")
    case Access(_, _, _) => Err("Member access not supported")
  }

  /** The depth of the scope stack is unchanged, except that a binding made
      on an empty stack leaves one scope. */
  predicate DepthKept(a: Env, b: Env) {
    |b.scopes| == |a.scopes| || (|a.scopes| == 0 && |b.scopes| == 1)
  }

  /** Statements whose `break` and `continue` sit only directly in a loop
      body (possibly inside another `break`/`continue` body), never inside
      a block that pushes a scope.  `inLoop` says whether a signal raised
      here is caught by a `for` without crossing such a block. */
  predicate Balanced(s: Stmt, inLoop: bool)
    decreases s, 0
  {
    match s
    case ExprStmt(_, _) => true
    case Assign(_, _, _) => true
    case Decl(_, _, _, block, _) => AllBalanced(block, false)
    case If(_, t, elifs, e, _) =>
      AllBalanced(t, false) && AllBalanced(e, false)
      && forall k :: 0 <= k < |elifs| ==> AllBalanced(elifs[k].body, false)
    case For(_, _, body, _) => AllBalanced(body, true)
    case Obj(_, _, body, _) => AllBalanced(body, false)
    case Break(body, _) => inLoop && AllBalanced(body, inLoop)
    case Continue(body, _) => inLoop && AllBalanced(body, inLoop)
  }

  predicate AllBalanced(ss: seq<Stmt>, inLoop: bool)
    decreases ss, 1
  {
    forall k :: 0 <= k < |ss| ==> Balanced(ss[k], inLoop)
  }

  /** Statements that contain no `obj`, so they never start or emit a
      record. */
  predicate ObjFree(s: Stmt)
    decreases s, 0
  {
    match s
    case ExprStmt(_, _) => true
    case Assign(_, _, _) => true
    case Decl(_, _, _, block, _) => AllObjFree(block)
    case If(_, t, elifs, e, _) =>
      AllObjFree(t) && AllObjFree(e) && forall k :: 0 <= k < |elifs| ==> AllObjFree(elifs[k].body)
    case For(_, _, body, _) => AllObjFree(body)
    case Obj(_, _, _, _) => false
    case Break(body, _) => AllObjFree(body)
    case Continue(body, _) => AllObjFree(body)
  }

  predicate AllObjFree(ss: seq<Stmt>)
    decreases ss, 1
  {
    forall k :: 0 <= k < |ss| ==> ObjFree(ss[k])
  }

  /** Inside an object, a statement keeps the record open, may only add
      fields to it, and emits nothing. */
  predicate RecordKept(a: Env, b: Env)
    requires a.current.Some?
  {
    b.current.Some? && a.current.value.Keys <= b.current.value.Keys && b.output == a.output
  }

  /** Binding a well-formed value, and pushing or popping a scope, keep
      every bound value well-formed. */
  lemma WritesKeepEnvOk(e: Env, k: string, v: Value)
    ensures EnvOk(e) && ValueOk(v) ==>
              EnvOk(SetVar(e, k, v)) && EnvOk(HeadEnv.Assign(e, k, v)) && EnvOk(Declare(e, k, v))
    ensures EnvOk(e) ==> EnvOk(PushScope(e)) && EnvOk(PopScope(e))
  {
  }

  /** What every statement guarantees: a balanced statement keeps the
      scope depth unless it fails, and raises no loop signal where no loop
      catches it; an `obj`-free statement inside an object keeps the record
      open; bound values stay well-formed; output only grows. */
  predicate StmtContract(s: Stmt, env: Env, r: Exec) {
    && ((Balanced(s, true) || Balanced(s, false)) && !r.sig.Error? ==> DepthKept(env, r.env))
    && (Balanced(s, false) ==> r.sig.Normal? || r.sig.Error?)
    && (ObjFree(s) && env.current.Some? ==> RecordKept(env, r.env))
    && (EnvOk(env) ==> EnvOk(r.env))
    && env.output <= r.env.output
  }

  /** `execStmt`. */
  function ExecStmt(h: Host, env: Env, s: Stmt): (r: Exec)
    ensures StmtContract(s, env, r)
    ensures s.Break? ==> !r.sig.Normal?
    ensures s.Obj? && r.sig.Normal? ==> |r.env.output| > |env.output| && r.env.current.None? && r.env.declared == {}
    ensures s.Obj? && AllObjFree(s.body) && r.sig.Normal? ==>
              |r.env.output| == |env.output| + 1 && "class" in r.env.output[|env.output|] && "id" in r.env.output[|env.output|]
    decreases StmtSize(s), 0, 1
  {
    match s
    case ExprStmt(x, line) =>
      (match Eval(h, env, x)
       case Ok(_) => Exec(env, Normal)
       case Err(m) => Exec(env, Error("Runtime error (line " + IntText(line) + "): " + m)))
    case Assign(name, x, _) =>
      (match Eval(h, env, x)
       case Err(m) => Exec(env, Error(m))
       case Ok(v) =>
         WritesKeepEnvOk(env, name, v);
         Exec(HeadEnv.Assign(env, name, v), Normal))
    case Decl(_, _, _, _, _) => ExecDecl(h, env, s)
    case If(c, t, elifs, e, _) =>
      (match Eval(h, env, c)
       case Err(m) => Exec(env, Error(m))
       case Ok(v) => if ToBool(v) then ExecBlock(h, env, t) else ExecBranches(h, env, elifs, e))
    case For(_, _, _, _) => ExecFor(h, env, s)
    case Obj(_, _, _, _) => ExecObj(h, env, s)
    case Break(body, _) =>
      var o := ExecStmts(h, env, body);
      if o.sig.Normal? then Exec(o.env, Signal.Break) else o
    case Continue(body, _) =>
      var o := ExecStmts(h, env, body);
      if o.sig.Normal? then Exec(o.env, Signal.Continue) else o
  }

  /** A declaration: the value comes from the initialiser block (run in its
      own scope, popped before the write), the initialiser expression, or
      the type's default; then it is written with `Declare`. */
  function ExecDecl(h: Host, env: Env, s: Stmt): (r: Exec)
    requires s.Decl?
    ensures StmtContract(s, env, r)
    ensures |s.initBlock| == 0 && s.init.None? ==> r == Exec(Declare(env, s.name, Default(s.typ)), Normal)
    ensures |s.initBlock| == 0 && s.init.Some? && Eval(h, env, s.init.value).Ok? ==>
              r == Exec(Declare(env, s.name, Eval(h, env, s.init.value).value), Normal)
    ensures |s.initBlock| == 0 && s.init.Some? && Eval(h, env, s.init.value).Err? ==>
              r == Exec(env, Error(Eval(h, env, s.init.value).msg))
    ensures |s.initBlock| > 0 ==>
              var st := InitBlock(h, PushScope(env), s.initBlock, None, "");
              (st.sig.Normal? ==>
                 r == Exec(Declare(PopScope(st.env), s.name, BlockResult(s.typ, st.last, st.lastVar, st.env)), Normal))
              && (!st.sig.Normal? ==> r == Exec(st.env, st.sig))
    decreases StmtSize(s), 0, 0
  {
    var Decl(typ, name, init, block, _) := s;
    if |block| > 0 then
      WritesKeepEnvOk(env, name, Default(typ));
      var st := InitBlock(h, PushScope(env), block, None, "");
      if !st.sig.Normal? then Exec(st.env, st.sig)
      else
        var v := BlockResult(typ, st.last, st.lastVar, st.env);
        WritesKeepEnvOk(st.env, name, v);
        WritesKeepEnvOk(PopScope(st.env), name, v);
        Exec(Declare(PopScope(st.env), name, v), Normal)
    else if init.Some? then
      (match Eval(h, env, init.value)
       case Err(m) => Exec(env, Error(m))
       case Ok(v) =>
         WritesKeepEnvOk(env, name, v);
         Exec(Declare(env, name, v), Normal))
    else Exec(Declare(env, name, Default(typ)), Normal)
  }

  /** A `for` statement: one scope is pushed for the whole loop and popped
      when it ends normally; a zero step is read as 1. */
  function ExecFor(h: Host, env: Env, s: Stmt): (r: Exec)
    requires s.For?
    ensures StmtContract(s, env, r)
    decreases StmtSize(s), 0, 0
  {
    match ForBounds(h, env, s.args)
    case Err(m) => Exec(env, Error(m))
    case Ok(b) =>
      var step := if b.2 == 0 then 1 else b.2;
      WritesKeepEnvOk(env, s.iter, MakeInt(b.0));
      var o := ForLoop(h, PushScope(env), s.iter, b.0, b.1, step, s.body);
      WritesKeepEnvOk(o.env, s.iter, MakeInt(b.0));
      if o.sig.Normal? then Exec(PopScope(o.env), Normal) else o
  }

  /** An `obj` statement: starts a record holding `class` and `id`, runs the
      body in a new scope, and on normal completion appends the record to
      the output and leaves the object context. */
  function ExecObj(h: Host, env: Env, s: Stmt): (r: Exec)
    requires s.Obj?
    ensures StmtContract(s, env, r)
    ensures r.sig.Normal? ==> |r.env.output| > |env.output| && r.env.current.None? && r.env.declared == {}
    ensures AllObjFree(s.body) && r.sig.Normal? ==>
              |r.env.output| == |env.output| + 1 && "class" in r.env.output[|env.output|] && "id" in r.env.output[|env.output|]
    decreases StmtSize(s), 0, 0
  {
    var e1 := env.(current := Some(map["class" := JStr(s.className)]), declared := {});
    match Eval(h, e1, s.id)
    case Err(m) => Exec(e1, Error(m))
    case Ok(idv) =>
      var e2 := e1.(current := Some(e1.current.value["id" := IdField(h, idv)]));
      WritesKeepEnvOk(e2, "id", idv);
      var o := ExecStmts(h, PushScope(e2), s.body);
      if !o.sig.Normal? then o
      else
        WritesKeepEnvOk(o.env, "id", idv);
        var e3 := PopScope(o.env);
        if e3.current.None? then Exec(e3, Error(LostRecord))
        else Exec(e3.(output := e3.output + [e3.current.value], current := None, declared := {}), Normal)
  }

  /** Runs statements in order, stopping at the first non-`Normal` signal. */
  function ExecStmts(h: Host, env: Env, ss: seq<Stmt>): (r: Exec)
    ensures (AllBalanced(ss, true) || AllBalanced(ss, false)) && !r.sig.Error? ==> DepthKept(env, r.env)
    ensures AllBalanced(ss, false) ==> r.sig.Normal? || r.sig.Error?
    ensures AllObjFree(ss) && env.current.Some? ==> RecordKept(env, r.env)
    ensures EnvOk(env) ==> EnvOk(r.env)
    ensures env.output <= r.env.output
    decreases StmtsSize(ss), 1, 0
  {
    if |ss| == 0 then Exec(env, Normal)
    else
      var o := ExecStmt(h, env, ss[0]);
      if !o.sig.Normal? then o else ExecStmts(h, o.env, ss[1..])
  }

  /** `execBlock`: runs a body in a new scope, which is popped only when the
      body finishes normally. */
  function ExecBlock(h: Host, env: Env, body: seq<Stmt>): (r: Exec)
    ensures AllBalanced(body, false) ==> r.sig.Normal? || r.sig.Error?
    ensures AllBalanced(body, false) && !r.sig.Error? ==> DepthKept(env, r.env)
    ensures AllObjFree(body) && env.current.Some? ==> RecordKept(env, r.env)
    ensures EnvOk(env) ==> EnvOk(r.env)
    ensures env.output <= r.env.output
    decreases StmtsSize(body), 2, 0
  {
    WritesKeepEnvOk(env, "", MakeInt(0));
    var o := ExecStmts(h, PushScope(env), body);
    WritesKeepEnvOk(o.env, "", MakeInt(0));
    if o.sig.Normal? then Exec(PopScope(o.env), Normal) else o
  }

  /** The `elif` chain and the `else` of an `if` whose condition was false. */
  function ExecBranches(h: Host, env: Env, elifs: seq<Elif>, elseBody: seq<Stmt>): (r: Exec)
    ensures AllBalanced(elseBody, false) && (forall k :: 0 <= k < |elifs| ==> AllBalanced(elifs[k].body, false)) ==>
              (r.sig.Normal? || r.sig.Error?) && (r.sig.Normal? ==> DepthKept(env, r.env))
    ensures AllObjFree(elseBody) && (forall k :: 0 <= k < |elifs| ==> AllObjFree(elifs[k].body)) && env.current.Some? ==> RecordKept(env, r.env)
    ensures EnvOk(env) ==> EnvOk(r.env)
    ensures env.output <= r.env.output
    decreases ElifsSize(elifs) + StmtsSize(elseBody), 3, 0
  {
    if |elifs| == 0 then
      if |elseBody| > 0 then ExecBlock(h, env, elseBody) else Exec(env, Normal)
    else
      match Eval(h, env, elifs[0].cond)
      case Err(m) => Exec(env, Error(m))
      case Ok(v) =>
        if ToBool(v) then ExecBlock(h, env, elifs[0].body)
        else ExecBranches(h, env, elifs[1..], elseBody)
  }

  /** The loop bounds of a `for`: one argument is the end (from 1), two are
      start and end, three add the step; each is converted with `toInt`. */
  function ForBounds(h: Host, env: Env, args: seq<Expr>): (r: Result<(int, int, int)>)
    ensures |args| == 1 && r.Ok? ==> r.value.0 == 1 && r.value.2 == 1
    ensures |args| == 2 && r.Ok? ==> r.value.2 == 1
    ensures (|args| == 0 || |args| > 3) ==> r == Ok((1, 1, 1))
    ensures r.Err? <==> |args| <= 3 && exists k :: 0 <= k < |args| && Eval(h, env, args[k]).Err?
  {
    if |args| == 1 then
      var e :- Eval(h, env, args[0]);
      Ok((1, ToInt(e), 1))
    else if |args| == 2 then
      var s :- Eval(h, env, args[0]);
      var e :- Eval(h, env, args[1]);
      Ok((ToInt(s), ToInt(e), 1))
    else if |args| == 3 then
      var s :- Eval(h, env, args[0]);
      var e :- Eval(h, env, args[1]);
      var st :- Eval(h, env, args[2]);
      Ok((ToInt(s), ToInt(e), ToInt(st)))
    else Ok((1, 1, 1))
  }

  /** Whether iteration `it` of a loop to `end` with this step runs. */
  predicate InRange(it: int, end: int, step: int) {
    if step > 0 then it <= end else it >= end
  }

  function Remaining(it: int, end: int, step: int): nat {
    if !InRange(it, end, step) then 0
    else if step > 0 then end - it + 1 else it - end + 1
  }

  /** The iterations of a `for`: binds the iterator to each value as an
      integer and runs the body in the loop's scope; `break` ends the loop
      normally, `continue` goes on to the next value, and an error pops the
      loop's scope once and propagates. */
  function ForLoop(h: Host, env: Env, iter: string, it: int, end: int, step: int, body: seq<Stmt>): (r: Exec)
    requires step != 0
    ensures AllBalanced(body, true) ==> r.sig.Normal? || r.sig.Error?
    ensures AllBalanced(body, true) && r.sig.Normal? ==> DepthKept(env, r.env)
    ensures AllObjFree(body) && env.current.Some? ==> RecordKept(env, r.env)
    ensures EnvOk(env) ==> EnvOk(r.env)
    ensures env.output <= r.env.output
    decreases StmtsSize(body), 2, Remaining(it, end, step)
  {
    if InRange(it, end, step) then
      WritesKeepEnvOk(env, iter, MakeInt(it));
      var o := ExecStmts(h, SetVar(env, iter, MakeInt(it)), body);
      WritesKeepEnvOk(o.env, iter, MakeInt(it));
      match o.sig
      case Normal => ForLoop(h, o.env, iter, it + step, end, step, body)
      case Continue => ForLoop(h, o.env, iter, it + step, end, step, body)
      case Break => Exec(o.env, Normal)
      case Error(_) => Exec(PopScope(o.env), o.sig)
    else Exec(env, Normal)
  }

  /** The value a declaration without initialiser takes. */
  function Default(t: DeclType): (v: Value)
    ensures t.NumType? ==> v == MakeNum(0.0)
    ensures t.StrType? ==> v == Str("")
    ensures t.BoolType? ==> v == Bool(false)
  {
    match t
    case NumType => MakeNum(0.0)
    case StrType => Str("")
    case BoolType => Bool(false)
  }

  /** The value of a block initialiser: the last value-producing statement,
      else the last inner declaration's variable if it is bound, else the
      type's default. */
  function BlockResult(t: DeclType, last: Option<Value>, lastVar: string, env: Env): (v: Value)
    ensures EnvOk(env) && (last.Some? ==> ValueOk(last.value)) ==> ValueOk(v)
    ensures last.Some? ==> v == last.value
    ensures last.None? && |lastVar| > 0 && GetVar(env, lastVar).Some? ==> v == GetVar(env, lastVar).value
    ensures last.None? && (|lastVar| == 0 || GetVar(env, lastVar).None?) ==> v == Default(t)
  {
    if last.Some? then last.value
    else if |lastVar| > 0 && GetVar(env, lastVar).Some? then GetVar(env, lastVar).value
    else Default(t)
  }

  /** The statements of a block initialiser.  Expression statements are
      evaluated directly (errors are not wrapped with the line) and give the
      value; a trailing `if` gives its value through `ExecIfWithReturn`;
      other statements run normally and an inner declaration is remembered. */
  function InitBlock(h: Host, env: Env, ss: seq<Stmt>, last: Option<Value>, lastVar: string): (r: InitState)
    ensures AllBalanced(ss, false) ==> r.sig.Normal? || r.sig.Error?
    ensures AllBalanced(ss, false) && r.sig.Normal? ==> DepthKept(env, r.env)
    ensures AllObjFree(ss) && env.current.Some? ==> RecordKept(env, r.env)
    ensures EnvOk(env) && (last.Some? ==> ValueOk(last.value)) ==> EnvOk(r.env) && (r.last.Some? ==> ValueOk(r.last.value))
    ensures env.output <= r.env.output
    ensures r.sig.Normal? && |ss| > 0 && (ss[|ss| - 1].ExprStmt? || ss[|ss| - 1].If?) ==> r.last.Some?
    ensures r.sig.Normal? && last.None? && (forall k :: 0 <= k < |ss| ==> !ss[k].ExprStmt?) && (|ss| == 0 || !ss[|ss| - 1].If?)
            ==> r.last.None?
    decreases StmtsSize(ss), 2, 0
  {
    if |ss| == 0 then InitState(env, Normal, last, lastVar)
    else
      var s := ss[0];
      if s.ExprStmt? then
        match Eval(h, env, s.expr)
        case Err(m) => InitState(env, Error(m), last, lastVar)
        case Ok(v) => InitBlock(h, env, ss[1..], Some(v), lastVar)
      else if |ss| == 1 && s.If? then
        var o := ExecIfWithReturn(h, env, s);
        InitState(o.env, o.sig, if o.sig.Normal? then Some(o.value) else last, lastVar)
      else
        var o := ExecStmt(h, env, s);
        if !o.sig.Normal? then InitState(o.env, o.sig, last, lastVar)
        else InitBlock(h, o.env, ss[1..], last, if s.Decl? then s.name else lastVar)
  }

  /** `execIfWithReturn`: runs the chosen branch as a value-returning block;
      with no branch taken the value is the float 0. */
  function ExecIfWithReturn(h: Host, env: Env, s: Stmt): (r: ValExec)
    requires s.If?
    ensures Balanced(s, false) ==> r.sig.Normal? || r.sig.Error?
    ensures Balanced(s, false) && r.sig.Normal? ==> DepthKept(env, r.env)
    ensures ObjFree(s) && env.current.Some? ==> RecordKept(env, r.env)
    ensures EnvOk(env) ==> EnvOk(r.env) && ValueOk(r.value)
    ensures env.output <= r.env.output
    decreases StmtSize(s), 1, 0
  {
    match Eval(h, env, s.cond)
    case Err(m) => ValExec(env, Error(m), MakeNum(0.0))
    case Ok(v) =>
      if ToBool(v) then BlockWithReturn(h, env, s.thenBody)
      else BranchesWithReturn(h, env, s.elifs, s.elseBody)
  }

  function BranchesWithReturn(h: Host, env: Env, elifs: seq<Elif>, elseBody: seq<Stmt>): (r: ValExec)
    ensures AllBalanced(elseBody, false) && (forall k :: 0 <= k < |elifs| ==> AllBalanced(elifs[k].body, false)) ==>
              (r.sig.Normal? || r.sig.Error?) && (r.sig.Normal? ==> DepthKept(env, r.env))
    ensures AllObjFree(elseBody) && (forall k :: 0 <= k < |elifs| ==> AllObjFree(elifs[k].body)) && env.current.Some? ==> RecordKept(env, r.env)
    ensures EnvOk(env) ==> EnvOk(r.env) && ValueOk(r.value)
    ensures env.output <= r.env.output
    decreases ElifsSize(elifs) + StmtsSize(elseBody), 4, 0
  {
    if |elifs| == 0 then
      if |elseBody| > 0 then BlockWithReturn(h, env, elseBody) else ValExec(env, Normal, MakeNum(0.0))
    else
      match Eval(h, env, elifs[0].cond)
      case Err(m) => ValExec(env, Error(m), MakeNum(0.0))
      case Ok(v) =>
        if ToBool(v) then BlockWithReturn(h, env, elifs[0].body)
        else BranchesWithReturn(h, env, elifs[1..], elseBody)
  }

  /** `execBlockWithReturn`: like `ExecBlock`, but a trailing expression
      statement is evaluated directly and its value returned. */
  function BlockWithReturn(h: Host, env: Env, body: seq<Stmt>): (r: ValExec)
    ensures AllBalanced(body, false) ==> r.sig.Normal? || r.sig.Error?
    ensures AllBalanced(body, false) && r.sig.Normal? ==> DepthKept(env, r.env)
    ensures AllObjFree(body) && env.current.Some? ==> RecordKept(env, r.env)
    ensures EnvOk(env) ==> EnvOk(r.env) && ValueOk(r.value)
    ensures env.output <= r.env.output
    decreases StmtsSize(body), 3, 0
  {
    WritesKeepEnvOk(env, "", MakeInt(0));
    var o := ReturnLoop(h, PushScope(env), body);
    WritesKeepEnvOk(o.env, "", MakeInt(0));
    if o.sig.Normal? then ValExec(PopScope(o.env), Normal, o.value) else o
  }

  function ReturnLoop(h: Host, env: Env, ss: seq<Stmt>): (r: ValExec)
    ensures AllBalanced(ss, false) ==> r.sig.Normal? || r.sig.Error?
    ensures AllBalanced(ss, false) && r.sig.Normal? ==> DepthKept(env, r.env)
    ensures AllObjFree(ss) && env.current.Some? ==> RecordKept(env, r.env)
    ensures EnvOk(env) ==> EnvOk(r.env) && ValueOk(r.value)
    ensures env.output <= r.env.output
    ensures r.sig.Normal? && (|ss| == 0 || !ss[|ss| - 1].ExprStmt?) ==> r.value == MakeNum(0.0)
    decreases StmtsSize(ss), 2, 0
  {
    if |ss| == 0 then ValExec(env, Normal, MakeNum(0.0))
    else if |ss| == 1 && ss[0].ExprStmt? then
      match Eval(h, env, ss[0].expr)
      case Err(m) => ValExec(env, Error(m), MakeNum(0.0))
      case Ok(v) => ValExec(env, Normal, v)
    else
      var o := ExecStmt(h, env, ss[0]);
      if !o.sig.Normal? then ValExec(o.env, o.sig, MakeNum(0.0))
      else ReturnLoop(h, o.env, ss[1..])
  }

  /** The message for an `obj` whose record was cleared by a nested `obj`. */
  const LostRecord: string := "obj: record cleared by a nested obj"

  /** `Interpreter::execute` followed by reading the output: the records in
      emission order, or the message of the exception that escaped.  A
      `break`/`continue` outside any loop escapes as a bare
      `std::exception`. */
  function Execute(h: Host, prog: Program): (r: Result<seq<Record>>)
    ensures r.Ok? <==> ExecStmts(h, EmptyEnv(), prog.stmts).sig.Normal?
    ensures r.Ok? ==> r.value == ExecStmts(h, EmptyEnv(), prog.stmts).env.output
  {
    var o := ExecStmts(h, EmptyEnv(), prog.stmts);
    match o.sig
    case Normal => Ok(o.env.output)
    case Error(m) => Err(m)
    case Break => Err("std::exception")
    case Continue => Err("std::exception")
  }
}
