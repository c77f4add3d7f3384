/** The syntax tree of the LuduScript interpreter (LuduScript-head).
    Every node carries the source line it came from.  Operators are kept as
    their token text, as the interpreter compares them by text. */
module HeadAst {
  import opened Results

  /** A literal is exactly one of an integer, a float, a string or a boolean. */
  datatype Literal = IntLit(i: int) | FloatLit(r: real) | StrLit(s: string) | BoolLit(b: bool)

  datatype Expr =
    | Lit(lit: Literal, line: int)
    | Ident(name: string, line: int)
    | Unary(op: string, rhs: Expr, line: int)
    | Binary(lhs: Expr, op: string, rhs: Expr, line: int)
    | Call(callee: Expr, args: seq<Expr>, line: int)
    | Access(target: Expr, member: string, line: int)

  /** The declared type of a `num`, `str` or `bool` declaration. */
  datatype DeclType = NumType | StrType | BoolType

  datatype Stmt =
    | ExprStmt(expr: Expr, line: int)
    | Assign(name: string, expr: Expr, line: int)
      /** A declaration has an optional initialiser expression or an
          initialiser block; the parser never fills both. */
    | Decl(typ: DeclType, name: string, init: Option<Expr>, initBlock: seq<Stmt>, line: int)
    | If(cond: Expr, thenBody: seq<Stmt>, elifs: seq<Elif>, elseBody: seq<Stmt>, line: int)
    | For(iter: string, args: seq<Expr>, body: seq<Stmt>, line: int)
    | Obj(className: string, id: Expr, body: seq<Stmt>, line: int)
    | Break(body: seq<Stmt>, line: int)
    | Continue(body: seq<Stmt>, line: int)

  /** One `elif (cond) { body }` clause. */
  datatype Elif = Elif(cond: Expr, body: seq<Stmt>)

  datatype Program = Program(stmts: seq<Stmt>)

  const UnaryOps: set<string> := {"!", "-"}
  const BinaryOps: set<string> := {"||", "&&", "==", "!=", "<", ">", "<=", ">=", "+", "-", "*", "/", "%"}

  /** The shapes the parser produces: known operators, one to three `for`
      arguments, never both an initialiser and an initialiser block. */
  predicate WfExpr(e: Expr) {
    match e
    case Lit(_, _) => true
    case Ident(_, _) => true
    case Unary(op, rhs, _) => op in UnaryOps && WfExpr(rhs)
    case Binary(lhs, op, rhs, _) => op in BinaryOps && WfExpr(lhs) && WfExpr(rhs)
    case Call(callee, args, _) => WfExpr(callee) && forall a :: a in args ==> WfExpr(a)
    case Access(target, _, _) => WfExpr(target)
  }

  predicate WfStmt(s: Stmt) {
    match s
    case ExprStmt(e, _) => WfExpr(e)
    case Assign(_, e, _) => WfExpr(e)
    case Decl(_, _, init, block, _) =>
      (init.Some? ==> |block| == 0 && WfExpr(init.value)) && WfStmts(block)
    case If(c, t, elifs, e, _) =>
      WfExpr(c) && WfStmts(t) && WfStmts(e)
      && forall k :: 0 <= k < |elifs| ==> WfExpr(elifs[k].cond) && WfStmts(elifs[k].body)
    case For(_, args, body, _) =>
      1 <= |args| <= 3 && (forall a :: a in args ==> WfExpr(a)) && WfStmts(body)
    case Obj(_, id, body, _) => WfExpr(id) && WfStmts(body)
    case Break(body, _) => WfStmts(body)
    case Continue(body, _) => WfStmts(body)
  }

  predicate WfStmts(ss: seq<Stmt>) {
    forall k :: 0 <= k < |ss| ==> WfStmt(ss[k])
  }

  /** Size measures used to show that execution terminates. */
  function StmtSize(s: Stmt): (n: nat)
    ensures n >= 1
  {
    match s
    case ExprStmt(_, _) => 1
    case Assign(_, _, _) => 1
    case Decl(_, _, _, block, _) => 1 + StmtsSize(block)
    case If(_, t, elifs, e, _) => 1 + StmtsSize(t) + ElifsSize(elifs) + StmtsSize(e)
    case For(_, _, body, _) => 1 + StmtsSize(body)
    case Obj(_, _, body, _) => 1 + StmtsSize(body)
    case Break(body, _) => 1 + StmtsSize(body)
    case Continue(body, _) => 1 + StmtsSize(body)
  }

  function StmtsSize(ss: seq<Stmt>): nat {
    if |ss| == 0 then 0 else StmtSize(ss[0]) + StmtsSize(ss[1..])
  }

  function ElifsSize(elifs: seq<Elif>): nat {
    if |elifs| == 0 then 0 else 1 + StmtsSize(elifs[0].body) + ElifsSize(elifs[1..])
  }
}
