/** The recursive-descent parser of the LuduScript interpreter
    (LuduScript-head), over the token stream of `HeadLexer.Tokenize`.
    A parse function takes the position of the current token and returns the
    node it built and the position after it, or the error the source throws:
    `Parse error (line L): <what was expected> but got '<token text>'`. */
module HeadParser {
  import opened Results
  import opened NumText
  import opened Scanning
  import opened HeadLexer
  import opened HeadAst

  /** The current token; past the end the stream keeps answering `End`, as
      the lexer does once it has reached the end of the text. */
  function Cur(toks: seq<Token>, pos: nat): Token {
    if pos < |toks| then toks[pos]
    else Token(End, "", if |toks| > 0 then toks[|toks| - 1].line else 1)
  }

  /** The message `error` throws at the current token. */
  function ErrorText(toks: seq<Token>, pos: nat, msg: string): string {
    "Parse error (line " + IntText(Cur(toks, pos).line) + "): " + msg
    + " but got '" + Cur(toks, pos).text + "'"
  }

  function Fail<T>(toks: seq<Token>, pos: nat, msg: string): (r: Result<T>)
    ensures r == Err(ErrorText(toks, pos, msg))
  {
    Err(ErrorText(toks, pos, msg))
  }

  /** `expect`: consumes exactly the current token when it has kind `k`,
      and otherwise fails with `msg` at that token. */
  function Expect(toks: seq<Token>, pos: nat, k: Kind, msg: string): (r: Result<nat>)
    requires k != End
    ensures r.Ok? <==> Cur(toks, pos).kind == k
    ensures r.Ok? ==> pos < |toks| && r.value == pos + 1
    ensures r.Err? ==> r.msg == ErrorText(toks, pos, msg)
  {
    if Cur(toks, pos).kind == k then Ok(pos + 1) else Fail(toks, pos, msg)
  }

  /** `match(SEMI)`: an optional semicolon. */
  function OptSemi(toks: seq<Token>, pos: nat): (p: nat)
    requires pos <= |toks|
    ensures p <= |toks|
    ensures p == (if Cur(toks, pos).kind == Semi then pos + 1 else pos)
  {
    if Cur(toks, pos).kind == Semi then pos + 1 else pos
  }

  /** The binary operator kinds of each precedence level, lowest first:
      `||`, `&&`, `== !=`, `< > <= >=`, `+ -`, `* / %`.  Level 6 is unary. */
  function LevelOps(level: nat): set<Kind> {
    if level == 0 then {Or}
    else if level == 1 then {And}
    else if level == 2 then {Eq, Neq}
    else if level == 3 then {Lt, Gt, Le, Ge}
    else if level == 4 then {Plus, Minus}
    else if level == 5 then {Mul, Div, Mod}
    else {}
  }

  const UnaryLevel: nat := 6

  /** The precedence level of a binary operator's spelling, as `LevelOps`
      places its token kind; anything else sits at the unary level. */
  function OpLevel(op: string): (k: nat)
    ensures k <= UnaryLevel
    ensures k < UnaryLevel <==> op in BinaryOps
  {
    if op == "||" then 0
    else if op == "&&" then 1
    else if op == "==" || op == "!=" then 2
    else if op == "<" || op == ">" || op == "<=" || op == ">=" then 3
    else if op == "+" || op == "-" then 4
    else if op == "*" || op == "/" || op == "%" then 5
    else UnaryLevel
  }

  /** The shape precedence climbing gives an expression read at `level`:
      a binary node's operator binds no looser than `level`, its left
      operand is read at the operator's own level (operators associate to
      the left) and its right operand one level tighter; the operand of a
      prefix operator, a callee and an accessed target hold no binary node
      at their top. */
  predicate Layered(e: Expr, level: nat) {
    match e
    case Binary(lhs, op, rhs, _) =>
      level <= OpLevel(op) < UnaryLevel && Layered(lhs, OpLevel(op)) && Layered(rhs, OpLevel(op) + 1)
    case Unary(_, rhs, _) => Layered(rhs, UnaryLevel)
    case Call(callee, _, _) => Layered(callee, UnaryLevel)
    case Access(target, _, _) => Layered(target, UnaryLevel)
    case _ => true
  }

  /** No `(` from `pos` on: no parenthesised sub-expression can lift a
      looser operator into a tighter position. */
  predicate NoParens(toks: seq<Token>, pos: nat) {
    forall k :: pos <= k < |toks| ==> toks[k].kind != LParen
  }

  lemma NoParensLater(toks: seq<Token>, pos: nat, q: nat)
    requires pos <= q
    ensures NoParens(toks, pos) ==> NoParens(toks, q)
  {}

  /** An operator of this level over a left operand of the same level and a
      right operand one level tighter is layered at this level. */
  lemma BinaryLayered(lhs: Expr, op: string, rhs: Expr, line: int, level: nat)
    ensures level < UnaryLevel && OpLevel(op) == level && Layered(lhs, level) && Layered(rhs, level + 1)
            ==> Layered(Binary(lhs, op, rhs, line), level)
  {}

  /** `e` under the prefix operators `ops`, the first one outermost. */
  function Prefixed(ops: seq<Token>, e: Expr): (r: Expr)
    ensures |ops| > 0 ==> r.Unary? && r.op == ops[0].text
  {
    if |ops| == 0 then e else Unary(ops[0].text, Prefixed(ops[1..], e), ops[0].line)
  }

  /** The literal of a NUMBER token: a float when the text has a `.`, read
      as the exact value of its digits; otherwise `std::stoll` of the text,
      whose `out_of_range` exception ends the parse with the library's
      message `stoll`. */
  function NumberLiteral(text: string): (r: Result<Literal>)
    ensures r.Ok? ==> ('.' in text <==> r.value.FloatLit?)
    ensures '.' in text ==> r.Ok?
    ensures '.' !in text ==> (r.Ok? <==> Stoll(text).Some?)
    ensures r.Ok? && r.value.IntLit? ==> MinLong <= r.value.i <= MaxLong && r.value.i == Atoi(text)
    ensures r.Err? ==> r.msg == "stoll"
  {
    if '.' in text then
      var w := text[..DigitRun(text, 0)];
      var rest := text[|w|..];
      var f := if |rest| > 0 && rest[0] == '.' then rest[1..][..DigitRun(rest[1..], 0)] else "";
      Ok(FloatLit(DecimalValue(w, f)))
    else
      match Stoll(text)
      case Some(v) => Ok(IntLit(v))
      case None => Err("stoll")
  }

  /** A digit run without a point, as the lexer produces it, is an integer
      literal of its value exactly when that value fits 64 bits. */
  lemma NumberDigits(text: string)
    requires |text| > 0 && AllDigits(text)
    ensures NumberLiteral(text).Ok? <==> DigitsValue(text) <= MaxLong
    ensures NumberLiteral(text).Ok? ==> NumberLiteral(text).value == IntLit(DigitsValue(text))
  {
    assert forall k :: 0 <= k < |text| ==> text[k] != '.';
    StollDigits(text);
  }

  /** The decimal text of any number, as a NUMBER token spells it, reads
      back as that number when it fits 64 bits; beyond 2^63 - 1 (as in
      `num x {99999999999999999999}`) `stoll` throws. */
  lemma IntegerLiteralRoundTrip(n: nat)
    ensures n <= MaxLong ==> NumberLiteral(NatText(n)) == Ok(IntLit(n))
    ensures n > MaxLong ==> NumberLiteral(NatText(n)) == Err("stoll")
  {
    NatTextValue(n);
    NumberDigits(NatText(n));
  }

  /** Every token carries the spelling of its kind, as the lexer's tokens
      do. */
  predicate AllCanonical(toks: seq<Token>) {
    forall k :: 0 <= k < |toks| ==> Canonical(toks[k])
  }

  /** The operator text the parser copies from a canonical token is one the
      interpreter knows. */
  lemma OperatorSpelled(toks: seq<Token>, pos: nat, level: nat)
    ensures AllCanonical(toks) && Cur(toks, pos).kind in LevelOps(level) ==> Cur(toks, pos).text in BinaryOps
    ensures AllCanonical(toks) && (Cur(toks, pos).kind == Not || Cur(toks, pos).kind == Minus) ==>
              Cur(toks, pos).text in UnaryOps
    ensures AllCanonical(toks) && Cur(toks, pos).kind in LevelOps(level) ==> OpLevel(Cur(toks, pos).text) == level
  {
    if AllCanonical(toks) && pos < |toks| {
      assert Canonical(toks[pos]);
    }
  }

  /** `parseExpr`, that is `parseLogicalOr`. */
  function ParseExpr(toks: seq<Token>, pos: nat): (r: Result<Parsed<Expr>>)
    requires pos <= |toks|
    ensures r.Ok? ==> pos < r.value.next <= |toks|
    ensures r.Ok? && AllCanonical(toks) ==> WfExpr(r.value.node)
    decreases |toks| - pos, 8, 0
  {
    ParseLevel(toks, pos, 0)
  }

  /** One binary precedence level: an operand of the next level, then the
      loop over this level's operators. */
  function ParseLevel(toks: seq<Token>, pos: nat, level: nat): (r: Result<Parsed<Expr>>)
    requires pos <= |toks| && level <= UnaryLevel
    ensures r.Ok? ==> pos < r.value.next <= |toks|
    ensures r.Ok? && AllCanonical(toks) ==> WfExpr(r.value.node)
    ensures r.Ok? && AllCanonical(toks) && NoParens(toks, pos) ==> Layered(r.value.node, level)
    decreases |toks| - pos, 7 - level, 0
  {
    if level == UnaryLevel then ParseUnary(toks, pos)
    else
      var lhs :- ParseLevel(toks, pos, level + 1);
      LevelLoop(toks, lhs.node, lhs.next, level)
  }

  /** While the current token is an operator of `level`, consume it, parse
      the right operand one level up and fold to the left. */
  function LevelLoop(toks: seq<Token>, lhs: Expr, pos: nat, level: nat): (r: Result<Parsed<Expr>>)
    requires pos <= |toks| && level < UnaryLevel
    ensures r.Ok? ==> pos <= r.value.next <= |toks|
    ensures r.Ok? && r.value.next == pos ==> r.value.node == lhs
    ensures r.Ok? ==> Cur(toks, r.value.next).kind !in LevelOps(level)
    ensures r.Ok? && AllCanonical(toks) && WfExpr(lhs) ==> WfExpr(r.value.node)
    ensures r.Ok? && AllCanonical(toks) && NoParens(toks, pos) && Layered(lhs, level) ==> Layered(r.value.node, level)
    decreases |toks| - pos, 7 - level, 1
  {
    var t := Cur(toks, pos);
    OperatorSpelled(toks, pos, level);
    if t.kind in LevelOps(level) then
      var rhs :- ParseLevel(toks, pos + 1, level + 1);
      NoParensLater(toks, pos, pos + 1);
      NoParensLater(toks, pos, rhs.next);
      BinaryLayered(lhs, t.text, rhs.node, t.line, level);
      LevelLoop(toks, Binary(lhs, t.text, rhs.node, t.line), rhs.next, level)
    else
      Ok(Parsed(lhs, pos))
  }

  /** `parseUnary`: `!` and `-` prefixes nest by recursion. */
  function ParseUnary(toks: seq<Token>, pos: nat): (r: Result<Parsed<Expr>>)
    requires pos <= |toks|
    ensures r.Ok? ==> pos < r.value.next <= |toks|
    ensures r.Ok? && AllCanonical(toks) ==> WfExpr(r.value.node)
    ensures r.Ok? && NoParens(toks, pos) ==> Layered(r.value.node, UnaryLevel)
    decreases |toks| - pos, 0, 3
  {
    var t := Cur(toks, pos);
    OperatorSpelled(toks, pos, UnaryLevel);
    if t.kind == Not || t.kind == Minus then
      var rhs :- ParseUnary(toks, pos + 1);
      Ok(Parsed(Unary(t.text, rhs.node, t.line), rhs.next))
    else
      ParsePrimary(toks, pos)
  }

  /** `parsePrimary`: literals, identifiers and parenthesised expressions,
      each followed by the postfix loop. */
  function ParsePrimary(toks: seq<Token>, pos: nat): (r: Result<Parsed<Expr>>)
    requires pos <= |toks|
    ensures r.Ok? ==> pos < r.value.next <= |toks|
    ensures r.Ok? && AllCanonical(toks) ==> WfExpr(r.value.node)
    ensures r.Ok? ==> Cur(toks, r.value.next).kind != LParen && Cur(toks, r.value.next).kind != Dot
    ensures r.Ok? && NoParens(toks, pos) ==> Layered(r.value.node, UnaryLevel)
    ensures Cur(toks, pos).kind == Number && NumberLiteral(Cur(toks, pos).text).Err? ==> r == Err("stoll")
    decreases |toks| - pos, 0, 2
  {
    var t := Cur(toks, pos);
    if t.kind == Number then
      var lit :- NumberLiteral(t.text);
      ParsePostfix(toks, Lit(lit, t.line), pos + 1)
    else if t.kind == String then ParsePostfix(toks, Lit(StrLit(t.text), t.line), pos + 1)
    else if t.kind == KwTrue then ParsePostfix(toks, Lit(BoolLit(true), t.line), pos + 1)
    else if t.kind == KwFalse then ParsePostfix(toks, Lit(BoolLit(false), t.line), pos + 1)
    else if t.kind.Ident? then ParsePostfix(toks, Expr.Ident(t.text, t.line), pos + 1)
    else if t.kind == LParen then
      var inner :- ParseExpr(toks, pos + 1);
      var p :- Expect(toks, inner.next, RParen, "Expected ')'");
      ParsePostfix(toks, inner.node, p)
    else
      Fail(toks, pos, "Expected expression")
  }

  /** `parseCall`: any number of `(args)` and `.member` suffixes. */
  function ParsePostfix(toks: seq<Token>, callee: Expr, pos: nat): (r: Result<Parsed<Expr>>)
    requires 0 < pos <= |toks|
    ensures r.Ok? ==> pos <= r.value.next <= |toks|
    ensures r.Ok? ==> Cur(toks, r.value.next).kind != LParen && Cur(toks, r.value.next).kind != Dot
    ensures r.Ok? && AllCanonical(toks) && WfExpr(callee) ==> WfExpr(r.value.node)
    ensures r.Ok? && Layered(callee, UnaryLevel) ==> Layered(r.value.node, UnaryLevel)
    decreases |toks| - pos, 0, 1
  {
    var t := Cur(toks, pos);
    if t.kind == LParen then
      var args :- ParseArgs(toks, pos + 1);
      var p :- Expect(toks, args.next, RParen, "Expected ')' after arguments");
      ParsePostfix(toks, Call(callee, args.node, t.line), p)
    else if t.kind == Dot then
      var m := Cur(toks, pos + 1);
      if !m.kind.Ident? then Fail(toks, pos + 1, "Expected member name after '.'")
      else ParsePostfix(toks, Access(callee, m.text, t.line), pos + 2)
    else
      Ok(Parsed(callee, pos))
  }

  /** The argument list of a call: empty when `)` follows at once, otherwise
      comma-separated expressions. */
  function ParseArgs(toks: seq<Token>, pos: nat): (r: Result<Parsed<seq<Expr>>>)
    requires pos <= |toks|
    ensures r.Ok? ==> pos <= r.value.next <= |toks|
    ensures r.Ok? ==> (|r.value.node| == 0 <==> r.value.next == pos)
    ensures r.Ok? && AllCanonical(toks) ==> forall a :: a in r.value.node ==> WfExpr(a)
    decreases |toks| - pos, 9, 0
  {
    if Cur(toks, pos).kind == RParen then Ok(Parsed([], pos))
    else
      var first :- ParseExpr(toks, pos);
      ArgsLoop(toks, [first.node], first.next)
  }

  function ArgsLoop(toks: seq<Token>, acc: seq<Expr>, pos: nat): (r: Result<Parsed<seq<Expr>>>)
    requires pos <= |toks| && |acc| > 0
    ensures r.Ok? ==> pos <= r.value.next <= |toks| && |r.value.node| >= |acc|
    ensures r.Ok? ==> r.value.node[..|acc|] == acc
    ensures r.Ok? && AllCanonical(toks) && (forall a :: a in acc ==> WfExpr(a)) ==> forall a :: a in r.value.node ==> WfExpr(a)
    decreases |toks| - pos, 9, 0
  {
    if Cur(toks, pos).kind == Comma then
      var e :- ParseExpr(toks, pos + 1);
      ArgsLoop(toks, acc + [e.node], e.next)
    else
      Ok(Parsed(acc, pos))
  }

  /** `isExpressionStart`: the tokens that can begin an expression. */
  predicate IsExpressionStart(k: Kind) {
    k == Number || k == String || k.Ident? || k == KwTrue || k == KwFalse
    || k == LParen || k == Minus || k == Not
  }

  const DeclKinds: set<Kind> := {KwNum, KwStr, KwBool}

  function DeclTypeOf(k: Kind): DeclType
    requires k in DeclKinds
  {
    if k == KwNum then NumType else if k == KwStr then StrType else BoolType
  }

  /** `parseProgram`: statements in source order until `End`. */
  function ParseProgram(toks: seq<Token>): (r: Result<Program>)
    ensures r.Ok? && AllCanonical(toks) ==> WfStmts(r.value.stmts)
  {
    var list :- StmtList(toks, 0, false);
    Ok(Program(list.node))
  }

  /** The statement loop shared by `parseProgram` (which stops only at
      `End`) and by blocks (which also stop at `}`). */
  function StmtList(toks: seq<Token>, pos: nat, inBlock: bool): (r: Result<Parsed<seq<Stmt>>>)
    requires pos <= |toks|
    ensures r.Ok? ==> pos <= r.value.next <= |toks|
    ensures r.Ok? ==> Cur(toks, r.value.next).kind == End || (inBlock && Cur(toks, r.value.next).kind == RBrace)
    ensures r.Ok? && r.value.next == pos ==> r.value.node == []
    ensures r.Ok? && AllCanonical(toks) ==> WfStmts(r.value.node)
    decreases |toks| - pos, 3
  {
    var k := Cur(toks, pos).kind;
    if k == End || (inBlock && k == RBrace) then Ok(Parsed([], pos))
    else
      var s :- ParseStmt(toks, pos);
      var rest :- StmtList(toks, s.next, inBlock);
      Ok(Parsed([s.node] + rest.node, rest.next))
  }

  /** `parseStmt`: dispatch on the leading token; an identifier directly
      followed by `=` starts an assignment, anything else an expression
      statement, each with an optional `;`. */
  function ParseStmt(toks: seq<Token>, pos: nat): (r: Result<Parsed<Stmt>>)
    requires pos <= |toks|
    ensures r.Ok? ==> pos < r.value.next <= |toks|
    ensures r.Ok? ==>
      var k := Cur(toks, pos).kind;
      var n := r.value.node;
      && (n.If? <==> k == KwIf)
      && (n.For? <==> k == KwFor)
      && (n.Obj? <==> k == KwObj)
      && (n.Decl? <==> k in DeclKinds)
      && (n.Break? <==> k == KwBreak)
      && (n.Continue? <==> k == KwContinue)
      && (n.Assign? <==> k.Ident? && Cur(toks, pos + 1).kind.Assign?)
    ensures r.Ok? && AllCanonical(toks) ==> WfStmt(r.value.node)
    decreases |toks| - pos, 2
  {
    var t := Cur(toks, pos);
    if t.kind == KwIf then ParseIf(toks, pos)
    else if t.kind == KwFor then ParseFor(toks, pos)
    else if t.kind == KwObj then ParseObj(toks, pos)
    else if t.kind in DeclKinds then ParseDecl(toks, pos)
    else if t.kind == KwBreak || t.kind == KwContinue then ParseSignal(toks, pos)
    else ParseSimple(toks, pos)
  }

  /** `break block` and `continue block`. */
  function ParseSignal(toks: seq<Token>, pos: nat): (r: Result<Parsed<Stmt>>)
    requires pos <= |toks| && (Cur(toks, pos).kind == KwBreak || Cur(toks, pos).kind == KwContinue)
    ensures r.Ok? ==> pos < r.value.next <= |toks|
    ensures r.Ok? ==> (r.value.node.Break? <==> Cur(toks, pos).kind == KwBreak)
    ensures r.Ok? ==> (r.value.node.Continue? <==> Cur(toks, pos).kind == KwContinue)
    ensures r.Ok? && AllCanonical(toks) ==> WfStmt(r.value.node)
    decreases |toks| - pos, 1
  {
    var t := Cur(toks, pos);
    var body :- ParseBlock(toks, pos + 1);
    if t.kind == KwBreak then Ok(Parsed(Break(body.node, t.line), body.next))
    else Ok(Parsed(Continue(body.node, t.line), body.next))
  }

  /** An assignment `name = expr` (an identifier directly followed by `=`)
      or an expression statement, each with an optional `;`.  The statement
      takes the line of its expression. */
  function ParseSimple(toks: seq<Token>, pos: nat): (r: Result<Parsed<Stmt>>)
    requires pos <= |toks|
    ensures r.Ok? ==> pos < r.value.next <= |toks|
    ensures r.Ok? ==> (r.value.node.Assign? <==> Cur(toks, pos).kind.Ident? && Cur(toks, pos + 1).kind.Assign?)
    ensures r.Ok? ==> r.value.node.Assign? || r.value.node.ExprStmt?
    ensures r.Ok? && AllCanonical(toks) ==> WfStmt(r.value.node)
    decreases |toks| - pos, 1
  {
    var t := Cur(toks, pos);
    if t.kind.Ident? && Cur(toks, pos + 1).kind.Assign? then
      var e :- ParseExpr(toks, pos + 2);
      Ok(Parsed(Stmt.Assign(t.text, e.node, t.line), OptSemi(toks, e.next)))
    else
      var e :- ParseExpr(toks, pos);
      Ok(Parsed(ExprStmt(e.node, e.node.line), OptSemi(toks, e.next)))
  }

  /** `(cond) block`, the part `if` and `elif` share; `after` names the
      keyword in the error messages. */
  function ParseGuarded(toks: seq<Token>, pos: nat, after: string): (r: Result<Parsed<Elif>>)
    requires pos <= |toks|
    ensures r.Ok? ==> pos < r.value.next <= |toks|
    ensures r.Ok? && AllCanonical(toks) ==> WfExpr(r.value.node.cond) && WfStmts(r.value.node.body)
    decreases |toks| - pos, 1
  {
    var p1 :- Expect(toks, pos, LParen, "Expected '(' after '" + after + "'");
    var cond :- ParseExpr(toks, p1);
    var p2 :- Expect(toks, cond.next, RParen, "Expected ')' after " + after + " condition");
    var body :- ParseBlock(toks, p2);
    Ok(Parsed(Elif(cond.node, body.node), body.next))
  }

  /** `parseIf`: `if (cond) block`, any number of `elif (cond) block` in
      order, then at most one `else block`. */
  function ParseIf(toks: seq<Token>, pos: nat): (r: Result<Parsed<Stmt>>)
    requires pos <= |toks| && Cur(toks, pos).kind == KwIf
    ensures r.Ok? ==> pos < r.value.next <= |toks| && r.value.node.If?
    ensures r.Ok? && AllCanonical(toks) ==> WfStmt(r.value.node)
    ensures r.Ok? ==>
              var head := ParseGuarded(toks, pos + 1, "if");
              head.Ok? && ParseElifs(toks, head.value.next).Ok?
              && var elifs := ParseElifs(toks, head.value.next).value;
              ParseElse(toks, elifs.next).Ok?
              && r.value == Parsed(If(head.value.node.cond, head.value.node.body, elifs.node,
                                      ParseElse(toks, elifs.next).value.node, Cur(toks, pos).line),
                                   ParseElse(toks, elifs.next).value.next)
    decreases |toks| - pos, 1
  {
    var line := Cur(toks, pos).line;
    var head :- ParseGuarded(toks, pos + 1, "if");
    var elifs :- ParseElifs(toks, head.next);
    var elseBody :- ParseElse(toks, elifs.next);
    Ok(Parsed(If(head.node.cond, head.node.body, elifs.node, elseBody.node, line), elseBody.next))
  }

  /** The `elif` loop of `parseIf`. */
  function ParseElifs(toks: seq<Token>, pos: nat): (r: Result<Parsed<seq<Elif>>>)
    requires pos <= |toks|
    ensures r.Ok? ==> pos <= r.value.next <= |toks|
    ensures r.Ok? ==> Cur(toks, r.value.next).kind != KwElif
    ensures r.Ok? && AllCanonical(toks) ==> forall k :: 0 <= k < |r.value.node| ==> WfExpr(r.value.node[k].cond) && WfStmts(r.value.node[k].body)
    decreases |toks| - pos, 1
  {
    if Cur(toks, pos).kind != KwElif then Ok(Parsed([], pos))
    else
      var clause :- ParseGuarded(toks, pos + 1, "elif");
      var rest :- ParseElifs(toks, clause.next);
      Ok(Parsed([clause.node] + rest.node, rest.next))
  }

  /** The optional `else block` of `parseIf`; no `else` gives an empty body. */
  function ParseElse(toks: seq<Token>, pos: nat): (r: Result<Parsed<seq<Stmt>>>)
    requires pos <= |toks|
    ensures r.Ok? ==> pos <= r.value.next <= |toks|
    ensures r.Ok? && Cur(toks, pos).kind != KwElse ==> r.value == Parsed([], pos)
    ensures r.Ok? && AllCanonical(toks) ==> WfStmts(r.value.node)
    decreases |toks| - pos, 1
  {
    if Cur(toks, pos).kind != KwElse then Ok(Parsed([], pos))
    else ParseBlock(toks, pos + 1)
  }

  /** `parseFor`: `for (name, e1 [, e2 [, e3]]) block`. */
  function ParseFor(toks: seq<Token>, pos: nat): (r: Result<Parsed<Stmt>>)
    requires pos <= |toks| && Cur(toks, pos).kind == KwFor
    ensures r.Ok? ==> pos < r.value.next <= |toks|
    ensures r.Ok? ==> r.value.node.For? && 1 <= |r.value.node.args| <= 3
    ensures r.Ok? && AllCanonical(toks) ==> WfStmt(r.value.node)
    decreases |toks| - pos, 1
  {
    var line := Cur(toks, pos).line;
    var p1 :- Expect(toks, pos + 1, LParen, "Expected '(' after 'for'");
    var it := Cur(toks, p1);
    if !it.kind.Ident? then Fail(toks, p1, "Expected iterator variable name")
    else
      var p2 :- Expect(toks, p1 + 1, Comma, "Expected ',' after iterator variable");
      var args :- ForArgs(toks, p2);
      var p3 :- Expect(toks, args.next, RParen, "Expected ')' after for arguments");
      var body :- ParseBlock(toks, p3);
      Ok(Parsed(For(it.text, args.node, body.node, line), body.next))
  }

  /** The one to three comma-separated expressions of a `for`. */
  function ForArgs(toks: seq<Token>, pos: nat): (r: Result<Parsed<seq<Expr>>>)
    requires pos <= |toks|
    ensures r.Ok? ==> pos < r.value.next <= |toks| && 1 <= |r.value.node| <= 3
    ensures r.Ok? && AllCanonical(toks) ==> forall a :: a in r.value.node ==> WfExpr(a)
    decreases |toks| - pos, 10
  {
    var first :- ParseExpr(toks, pos);
    var more :- ForMoreArgs(toks, first.next);
    var args := [first.node] + more.node;
    assert forall a :: a in args ==> a == first.node || a in more.node;
    Ok(Parsed(args, more.next))
  }

  /** Up to two further `, expr` arguments of a `for`. */
  function ForMoreArgs(toks: seq<Token>, pos: nat): (r: Result<Parsed<seq<Expr>>>)
    requires pos <= |toks|
    ensures r.Ok? ==> pos <= r.value.next <= |toks| && |r.value.node| <= 2
    ensures r.Ok? && AllCanonical(toks) ==> forall a :: a in r.value.node ==> WfExpr(a)
  {
    if Cur(toks, pos).kind != Comma then Ok(Parsed([], pos))
    else
      var second :- ParseExpr(toks, pos + 1);
      if Cur(toks, second.next).kind != Comma then Ok(Parsed([second.node], second.next))
      else
        var third :- ParseExpr(toks, second.next + 1);
        Ok(Parsed([second.node, third.node], third.next))
  }

  /** `parseObj`: `obj ("Class", idExpr) block`. */
  function ParseObj(toks: seq<Token>, pos: nat): (r: Result<Parsed<Stmt>>)
    requires pos <= |toks| && Cur(toks, pos).kind == KwObj
    ensures r.Ok? ==> pos < r.value.next <= |toks| && r.value.node.Obj?
    ensures r.Ok? ==>
      && Cur(toks, pos + 1).kind == LParen && Cur(toks, pos + 2).kind == String
      && r.value.node.className == Cur(toks, pos + 2).text
    ensures r.Ok? && AllCanonical(toks) ==> WfStmt(r.value.node)
    decreases |toks| - pos, 1
  {
    var line := Cur(toks, pos).line;
    var p1 :- Expect(toks, pos + 1, LParen, "Expected '(' after 'obj'");
    var name := Cur(toks, p1);
    if name.kind != String then Fail(toks, p1, "Expected class name string")
    else
      var p2 :- Expect(toks, p1 + 1, Comma, "Expected ',' after class name");
      var id :- ParseExpr(toks, p2);
      var p3 :- Expect(toks, id.next, RParen, "Expected ')' after object id");
      var body :- ParseBlock(toks, p3);
      Ok(Parsed(Obj(name.text, id.node, body.node, line), body.next))
  }

  /** `parseDecl`: `type(name)` with an optional `{ ... }` initialiser and an
      optional `;`.  `{}` means no initialiser, a lone expression before `}`
      is the initialiser, and anything else is an initialiser block. */
  function ParseDecl(toks: seq<Token>, pos: nat): (r: Result<Parsed<Stmt>>)
    requires pos <= |toks| && Cur(toks, pos).kind in DeclKinds
    ensures r.Ok? ==> pos < r.value.next <= |toks| && r.value.node.Decl?
    ensures r.Ok? ==> r.value.node.typ == DeclTypeOf(Cur(toks, pos).kind)
    ensures r.Ok? && r.value.node.init.Some? ==> |r.value.node.initBlock| == 0
    ensures r.Ok? && AllCanonical(toks) ==> WfStmt(r.value.node)
    decreases |toks| - pos, 1
  {
    var t := Cur(toks, pos);
    var typ := DeclTypeOf(t.kind);
    var p1 :- Expect(toks, pos + 1, LParen, "Expected '(' after type");
    var name := Cur(toks, p1);
    if !name.kind.Ident? then Fail(toks, p1, "Expected variable name")
    else
      var p2 :- Expect(toks, p1 + 1, RParen, "Expected ')' after variable name");
      if Cur(toks, p2).kind != LBrace then
        Ok(Parsed(Decl(typ, name.text, None, [], t.line), OptSemi(toks, p2)))
      else
        DeclInitializer(toks, p2, typ, name.text, t.line)
  }

  /** The braced initialiser of a declaration, from its `{`: statements make
      an initialiser block, otherwise the single expression (if any) is the
      initial value. */
  function DeclInitializer(toks: seq<Token>, pos: nat, typ: DeclType, name: string, line: int): (r: Result<Parsed<Stmt>>)
    requires pos < |toks| && Cur(toks, pos).kind == LBrace
    ensures r.Ok? ==> pos < r.value.next <= |toks| && r.value.node.Decl?
    ensures r.Ok? ==> r.value.node.typ == typ && r.value.node.name == name
    ensures r.Ok? && r.value.node.init.Some? ==> |r.value.node.initBlock| == 0
    ensures r.Ok? && AllCanonical(toks) ==> WfStmt(r.value.node)
    decreases |toks| - pos, 5
  {
    var init :- ParseInitializer(toks, pos + 1);
    var p :- Expect(toks, init.next, RBrace, "Expected '}' after initializer");
    var d := if |init.node.1| > 0 then Decl(typ, name, None, init.node.1, line)
             else Decl(typ, name, init.node.0, [], line);
    Ok(Parsed(d, OptSemi(toks, p)))
  }

  /** The inside of a declaration's braces: nothing, a single expression, or
      statements (the first of them possibly an expression already read,
      which becomes an expression statement on the line of the token after
      it). */
  function ParseInitializer(toks: seq<Token>, pos: nat): (r: Result<Parsed<(Option<Expr>, seq<Stmt>)>>)
    requires pos <= |toks|
    ensures r.Ok? ==> pos <= r.value.next <= |toks|
    ensures r.Ok? && r.value.node.0.Some? ==> |r.value.node.1| == 0 && Cur(toks, r.value.next).kind == RBrace
    ensures r.Ok? && Cur(toks, pos).kind == RBrace ==> r.value.node == (None, [])
    ensures r.Ok? && AllCanonical(toks) ==> (r.value.node.0.Some? ==> WfExpr(r.value.node.0.value)) && WfStmts(r.value.node.1)
    decreases |toks| - pos, 4
  {
    var k := Cur(toks, pos).kind;
    if k == RBrace then Ok(Parsed((None, []), pos))
    else if IsExpressionStart(k) then
      var e :- ParseExpr(toks, pos);
      if Cur(toks, e.next).kind == RBrace then Ok(Parsed((Some(e.node), []), e.next))
      else
        var rest :- StmtList(toks, e.next, true);
        Ok(Parsed((None, [ExprStmt(e.node, Cur(toks, e.next).line)] + rest.node), rest.next))
    else
      var rest :- StmtList(toks, pos, true);
      Ok(Parsed((None, rest.node), rest.next))
  }

  /** `parseBlock`: `{`, statements until `}` or `End`, then `}`. */
  function ParseBlock(toks: seq<Token>, pos: nat): (r: Result<Parsed<seq<Stmt>>>)
    requires pos <= |toks|
    ensures r.Ok? ==> pos < r.value.next <= |toks|
    ensures r.Ok? ==> Cur(toks, pos).kind == LBrace && Cur(toks, r.value.next - 1).kind == RBrace
    ensures r.Ok? && AllCanonical(toks) ==> WfStmts(r.value.node)
    decreases |toks| - pos, 0
  {
    var open := Expect(toks, pos, LBrace, "Expected '{'");
    if open.Err? then Err(open.msg)
    else
      var list := StmtList(toks, open.value, true);
      if list.Err? then Err(list.msg)
      else
        var close := Expect(toks, list.value.next, RBrace, "Expected '}'");
        if close.Err? then Err(close.msg)
        else Ok(Parsed(list.value.node, close.value))
  }

  /** Parsing a whole script: lexing, then `parseProgram`. */
  function Parse(src: string): Result<Program> {
    ParseProgram(HeadLexer.Tokenize(src))
  }
}
