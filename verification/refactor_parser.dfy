/** The recursive-descent parser of the game-description front end
    (LuduScript-refactor).  The parser walks a token list that ends with
    `EofToken`; `advance` never moves past that token, and `check` answers
    false there.  A failed `consume` prints
    `Error at line L [text]: <message>` and throws; the model returns that
    text as the error. */
module RefactorParser {
  import opened Results
  import opened NumText
  import opened RefactorLexer
  import opened RefactorAst

  /** The token lists the parser is given: at least one token, the last
      being `EofToken`, as `tokenize` produces. */
  predicate Ended(toks: seq<Lexeme>) {
    |toks| > 0 && toks[|toks| - 1].kind == EofToken
  }

  /** A valid cursor into such a list. */
  predicate At(toks: seq<Lexeme>, pos: nat) {
    Ended(toks) && pos < |toks|
  }

  /** `isAtEnd`: the current token is `EofToken`. */
  predicate AtEnd(toks: seq<Lexeme>, pos: nat)
    requires At(toks, pos)
  {
    toks[pos].kind == EofToken
  }

  /** `advance`: one token forward, except at `EofToken`, which it never
      passes. */
  function Advance(toks: seq<Lexeme>, pos: nat): (p: nat)
    requires At(toks, pos)
    ensures At(toks, p)
    ensures AtEnd(toks, pos) ==> p == pos
    ensures !AtEnd(toks, pos) ==> p == pos + 1
  {
    if AtEnd(toks, pos) then pos else pos + 1
  }

  /** `check`: the current token has kind `k`; always false at the end. */
  predicate Check(toks: seq<Lexeme>, pos: nat, k: TokenType)
    requires At(toks, pos)
  {
    !AtEnd(toks, pos) && toks[pos].kind == k
  }

  /** The diagnostic `error` prints for token `t`. */
  function Report(t: Lexeme, msg: string): string {
    "Error at line " + IntText(t.line) + " [" + t.text + "]: " + msg
  }

  /** `consume`: the current token and the position after it when it has
      kind `k`; otherwise the diagnostic at the current token. */
  function Consume(toks: seq<Lexeme>, pos: nat, k: TokenType, msg: string): (r: Result<Parsed<Lexeme>>)
    requires At(toks, pos)
    ensures r.Ok? <==> Check(toks, pos, k)
    ensures r.Ok? ==> r.value == Parsed(toks[pos], pos + 1) && At(toks, r.value.next)
    ensures r.Err? ==> r.msg == Report(toks[pos], msg)
  {
    if Check(toks, pos, k) then Ok(Parsed(toks[pos], Advance(toks, pos)))
    else Err(Report(toks[pos], msg))
  }

  // ---------------------------------------------------------------- Expressions

  /** The binary operator kinds of each level, lowest first: equality,
      comparison, term, factor.  Level 4 is unary. */
  function LevelOps(level: nat): set<TokenType> {
    if level == 0 then {Eq, Neq}
    else if level == 1 then {Gt, Ge, Lt, Le}
    else if level == 2 then {Plus, Minus}
    else if level == 3 then {Slash, Star}
    else {}
  }

  const UnaryLevel: nat := 4

  /** The level `LevelOps` gives an operator's spelling; anything else sits
      at the unary level. */
  function OpLevel(op: string): (k: nat)
    ensures k <= UnaryLevel
  {
    if op == "==" || op == "!=" then 0
    else if op == "<" || op == ">" || op == "<=" || op == ">=" then 1
    else if op == "+" || op == "-" then 2
    else if op == "*" || op == "/" then 3
    else UnaryLevel
  }

  /** The shape precedence climbing gives an expression read at `level`:
      a binary node's operator binds no looser than `level`, its left
      operand is read at the operator's own level (operators associate to
      the left) and its right operand one level tighter; the operand of a
      prefix operator and the object of a member access or an index hold
      no binary node at their top. */
  predicate Layered(e: Expression, level: nat) {
    match e
    case Binary(lhs, op, rhs) =>
      level <= OpLevel(op) < UnaryLevel && Layered(lhs, OpLevel(op)) && Layered(rhs, OpLevel(op) + 1)
    case Unary(_, operand) => Layered(operand, UnaryLevel)
    case Member(obj, _) => Layered(obj, UnaryLevel)
    case Index(obj, _) => Layered(obj, UnaryLevel)
    case _ => true
  }

  /** No `(` from `pos` on: no parenthesised sub-expression can lift a
      looser operator into a tighter position. */
  predicate NoParens(toks: seq<Lexeme>, pos: nat) {
    forall k :: pos <= k < |toks| ==> toks[k].kind != LParen
  }

  lemma NoParensLater(toks: seq<Lexeme>, pos: nat, q: nat)
    requires pos <= q
    ensures NoParens(toks, pos) ==> NoParens(toks, q)
  {}

  /** An operator of this level over a left operand of the same level and a
      right operand one level tighter is layered at this level. */
  lemma BinaryLayered(lhs: Expression, op: string, rhs: Expression, level: nat)
    ensures level < UnaryLevel && OpLevel(op) == level && Layered(lhs, level) && Layered(rhs, level + 1)
            ==> Layered(Binary(lhs, op, rhs), level)
  {}

  /** A canonical operator token of `level` has that level's spelling. */
  lemma OperatorLevel(toks: seq<Lexeme>, pos: nat, level: nat)
    requires pos < |toks|
    ensures AllCanonical(toks) && toks[pos].kind in LevelOps(level) ==> OpLevel(toks[pos].text) == level
  {
    if AllCanonical(toks) {
      assert Canonical(toks[pos]);
    }
  }

  /** `parseExpression`, that is `parseEquality`. */
  function ParseExpression(toks: seq<Lexeme>, pos: nat): (r: Result<Parsed<Expression>>)
    requires At(toks, pos)
    ensures r.Ok? ==> pos < r.value.next && At(toks, r.value.next)
    decreases |toks| - pos, 7, 0
  {
    ParseLevel(toks, pos, 0)
  }

  /** One binary level: an operand of the next level, then the loop. */
  function ParseLevel(toks: seq<Lexeme>, pos: nat, level: nat): (r: Result<Parsed<Expression>>)
    requires At(toks, pos) && level <= UnaryLevel
    ensures r.Ok? ==> pos < r.value.next && At(toks, r.value.next)
    ensures r.Ok? && AllCanonical(toks) && NoParens(toks, pos) ==> Layered(r.value.node, level)
    decreases |toks| - pos, 6 - level, 0
  {
    if level == UnaryLevel then ParseUnary(toks, pos)
    else
      var lhs :- ParseLevel(toks, pos, level + 1);
      LevelLoop(toks, lhs.node, lhs.next, level)
  }

  /** While the current token is an operator of `level`, take it and the
      next operand, folding to the left. */
  function LevelLoop(toks: seq<Lexeme>, lhs: Expression, pos: nat, level: nat): (r: Result<Parsed<Expression>>)
    requires At(toks, pos) && level < UnaryLevel
    ensures r.Ok? ==> pos <= r.value.next && At(toks, r.value.next)
    ensures r.Ok? ==> toks[r.value.next].kind !in LevelOps(level)
    ensures r.Ok? && r.value.next == pos ==> r.value.node == lhs
    ensures r.Ok? && AllCanonical(toks) && NoParens(toks, pos) && Layered(lhs, level) ==> Layered(r.value.node, level)
    decreases |toks| - pos, 6 - level, 1
  {
    var t := toks[pos];
    if t.kind in LevelOps(level) then
      OperatorLevel(toks, pos, level);
      var rhs :- ParseLevel(toks, Advance(toks, pos), level + 1);
      NoParensLater(toks, pos, Advance(toks, pos));
      NoParensLater(toks, pos, rhs.next);
      BinaryLayered(lhs, t.text, rhs.node, level);
      LevelLoop(toks, Binary(lhs, t.text, rhs.node), rhs.next, level)
    else
      Ok(Parsed(lhs, pos))
  }

  /** `parseUnary`: `not` and `-` prefixes nest by recursion. */
  function ParseUnary(toks: seq<Lexeme>, pos: nat): (r: Result<Parsed<Expression>>)
    requires At(toks, pos)
    ensures r.Ok? ==> pos < r.value.next && At(toks, r.value.next)
    ensures r.Ok? && NoParens(toks, pos) ==> Layered(r.value.node, UnaryLevel)
    decreases |toks| - pos, 1, 3
  {
    var t := toks[pos];
    if t.kind == KwNot || t.kind == Minus then
      var rhs :- ParseUnary(toks, Advance(toks, pos));
      Ok(Parsed(Unary(t.text, rhs.node), rhs.next))
    else
      ParsePrimary(toks, pos)
  }

  /** `parsePrimary`: literals, names with their postfix chain, list
      displays and parenthesised expressions. */
  function ParsePrimary(toks: seq<Lexeme>, pos: nat): (r: Result<Parsed<Expression>>)
    requires At(toks, pos)
    ensures r.Ok? ==> pos < r.value.next && At(toks, r.value.next)
    ensures r.Err? && !(toks[pos].kind in PrimaryStarts) ==> r.msg == Report(toks[pos], "Expect expression.")
    ensures r.Ok? && NoParens(toks, pos) ==> Layered(r.value.node, UnaryLevel)
    decreases |toks| - pos, 1, 2
  {
    var t := toks[pos];
    var p := Advance(toks, pos);
    if t.kind == KwFalse then Ok(Parsed(Literal("False", "bool"), p))
    else if t.kind == KwTrue then Ok(Parsed(Literal("True", "bool"), p))
    else if t.kind == KwNull then Ok(Parsed(Literal("None", "null"), p))
    else if t.kind == NumberLit then Ok(Parsed(Literal(t.text, "number"), p))
    else if t.kind == StringLit then Ok(Parsed(Literal(t.text, "string"), p))
    else if t.kind == Identifier || t.kind == KwGame then
      PostfixLayered(toks, Variable(t.text), p);
      Postfix(toks, Variable(t.text), p)
    else if t.kind == LBracket then
      var elems :- ExprList(toks, p, RBracket);
      var close :- Consume(toks, elems.next, RBracket, "Expect ']'.");
      Ok(Parsed(List(elems.node), close.next))
    else if t.kind == LParen then
      var inner :- ParseExpression(toks, p);
      var close :- Consume(toks, inner.next, RParen, "Expect ')' after expression.");
      Ok(Parsed(inner.node, close.next))
    else
      Err(Report(t, "Expect expression."))
  }

  /** The kinds that can start a primary expression. */
  const PrimaryStarts: set<TokenType> :=
    {KwFalse, KwTrue, KwNull, NumberLit, StringLit, Identifier, KwGame, LBracket, LParen}

  /** The suffix loop after a name: `.m` builds `Member`, `[e]` builds
      `Index`, and `(args)` builds a `Call` only when the expression so far
      is a bare variable; otherwise the parsed arguments are dropped. */
  function Postfix(toks: seq<Lexeme>, e: Expression, pos: nat): (r: Result<Parsed<Expression>>)
    requires At(toks, pos)
    ensures r.Ok? ==> pos <= r.value.next && At(toks, r.value.next)
    ensures r.Ok? ==> toks[r.value.next].kind !in {Dot, LBracket, LParen}
    ensures r.Ok? && r.value.next == pos ==> r.value.node == e
    decreases |toks| - pos, 1, 1
  {
    var t := toks[pos];
    var p := Advance(toks, pos);
    if t.kind == Dot then
      var m :- Consume(toks, p, Identifier, "Expect property name after '.'.");
      Postfix(toks, Member(e, m.node.text), m.next)
    else if t.kind == LBracket then
      var idx :- ParseExpression(toks, p);
      var close :- Consume(toks, idx.next, RBracket, "Expect ']' after index.");
      Postfix(toks, Index(e, idx.node), close.next)
    else if t.kind == LParen then
      var args :- ExprList(toks, p, RParen);
      var close :- Consume(toks, args.next, RParen, "Expect ')' after arguments.");
      Postfix(toks, CallOn(e, args.node), close.next)
    else
      Ok(Parsed(e, pos))
  }

  /** Member accesses, indexing and calls keep an expression with no binary
      or unary node at its top in that shape. */
  lemma {:induction false} PostfixLayered(toks: seq<Lexeme>, e: Expression, pos: nat)
    requires At(toks, pos)
    ensures var r := Postfix(toks, e, pos); r.Ok? && Layered(e, UnaryLevel) ==> Layered(r.value.node, UnaryLevel)
    decreases |toks| - pos, 1, 3, 1
  {
    if toks[pos].kind == Dot {
      MemberLayered(toks, e, pos);
    } else if toks[pos].kind == LBracket {
      IndexLayered(toks, e, pos);
    } else if toks[pos].kind == LParen {
      CallLayered(toks, e, pos);
    }
  }

  lemma {:induction false} MemberLayered(toks: seq<Lexeme>, e: Expression, pos: nat)
    requires At(toks, pos) && toks[pos].kind == Dot
    ensures var r := Postfix(toks, e, pos); r.Ok? && Layered(e, UnaryLevel) ==> Layered(r.value.node, UnaryLevel)
    decreases |toks| - pos, 1, 3, 0
  {
    PostfixMember(toks, e, pos);
    var m := Consume(toks, Advance(toks, pos), Identifier, "Expect property name after '.'.");
    if m.Ok? {
      PostfixLayered(toks, Member(e, m.value.node.text), m.value.next);
    }
  }

  lemma {:induction false} IndexLayered(toks: seq<Lexeme>, e: Expression, pos: nat)
    requires At(toks, pos) && toks[pos].kind == LBracket
    ensures var r := Postfix(toks, e, pos); r.Ok? && Layered(e, UnaryLevel) ==> Layered(r.value.node, UnaryLevel)
    decreases |toks| - pos, 1, 3, 0
  {
    PostfixIndex(toks, e, pos);
    if Postfix(toks, e, pos).Ok? {
      var x: Expression, q: nat :| pos < q && At(toks, q) && Postfix(toks, e, pos) == Postfix(toks, Index(e, x), q);
      PostfixLayered(toks, Index(e, x), q);
    }
  }

  lemma {:induction false} CallLayered(toks: seq<Lexeme>, e: Expression, pos: nat)
    requires At(toks, pos) && toks[pos].kind == LParen
    ensures var r := Postfix(toks, e, pos); r.Ok? && Layered(e, UnaryLevel) ==> Layered(r.value.node, UnaryLevel)
    decreases |toks| - pos, 1, 3, 0
  {
    PostfixCall(toks, e, pos);
    if Postfix(toks, e, pos).Ok? {
      var args: seq<Expression>, q: nat :| pos < q && At(toks, q) && Postfix(toks, e, pos) == Postfix(toks, CallOn(e, args), q);
      CallOnLayered(e, args);
      PostfixLayered(toks, CallOn(e, args), q);
    }
  }

  /** One `.name` step of the postfix loop. */
  lemma PostfixMember(toks: seq<Lexeme>, e: Expression, pos: nat)
    requires At(toks, pos) && toks[pos].kind == Dot
    ensures var r := Postfix(toks, e, pos);
            var m := Consume(toks, Advance(toks, pos), Identifier, "Expect property name after '.'.");
            r.Ok? ==> m.Ok? && r == Postfix(toks, Member(e, m.value.node.text), m.value.next)
    decreases |toks| - pos, 1, 2
  {}

  /** One `[index]` step of the postfix loop. */
  lemma PostfixIndex(toks: seq<Lexeme>, e: Expression, pos: nat)
    requires At(toks, pos) && toks[pos].kind == LBracket
    ensures Postfix(toks, e, pos).Ok? ==>
              exists x: Expression, q: nat :: pos < q && At(toks, q) && Postfix(toks, e, pos) == Postfix(toks, Index(e, x), q)
    decreases |toks| - pos, 1, 2
  {
    if Postfix(toks, e, pos).Ok? {
      var idx := ParseExpression(toks, Advance(toks, pos)).value;
      var close := Consume(toks, idx.next, RBracket, "Expect ']' after index.").value;
      assert Postfix(toks, e, pos) == Postfix(toks, Index(e, idx.node), close.next);
    }
  }

  /** One `(args)` step of the postfix loop. */
  lemma PostfixCall(toks: seq<Lexeme>, e: Expression, pos: nat)
    requires At(toks, pos) && toks[pos].kind == LParen
    ensures Postfix(toks, e, pos).Ok? ==>
              exists args: seq<Expression>, q: nat :: pos < q && At(toks, q) && Postfix(toks, e, pos) == Postfix(toks, CallOn(e, args), q)
    decreases |toks| - pos, 1, 2
  {
    if Postfix(toks, e, pos).Ok? {
      var args := ExprList(toks, Advance(toks, pos), RParen).value;
      var close := Consume(toks, args.next, RParen, "Expect ')' after arguments.").value;
      assert Postfix(toks, e, pos) == Postfix(toks, CallOn(e, args.node), close.next);
    }
  }

  /** What `(args)` makes of the expression before it. */
  function CallOn(e: Expression, args: seq<Expression>): (r: Expression)
    ensures e.Variable? ==> r == Call(e.name, args)
    ensures !e.Variable? ==> r == e
  {
    if e.Variable? then Call(e.name, args) else e
  }

  lemma CallOnLayered(e: Expression, args: seq<Expression>)
    ensures Layered(e, UnaryLevel) ==> Layered(CallOn(e, args), UnaryLevel)
  {}

  /** A comma-separated list that is empty when `closer` follows at once. */
  function ExprList(toks: seq<Lexeme>, pos: nat, closer: TokenType): (r: Result<Parsed<seq<Expression>>>)
    requires At(toks, pos) && closer != Comma
    ensures r.Ok? ==> pos <= r.value.next && At(toks, r.value.next)
    ensures r.Ok? ==> (|r.value.node| == 0 <==> Check(toks, pos, closer))
    ensures r.Ok? ==> toks[r.value.next].kind != Comma
    decreases |toks| - pos, 8, 0
  {
    if Check(toks, pos, closer) then Ok(Parsed([], pos))
    else
      var first :- ParseExpression(toks, pos);
      ListLoop(toks, [first.node], first.next)
  }

  function ListLoop(toks: seq<Lexeme>, acc: seq<Expression>, pos: nat): (r: Result<Parsed<seq<Expression>>>)
    requires At(toks, pos) && |acc| > 0
    ensures r.Ok? ==> pos <= r.value.next && At(toks, r.value.next)
    ensures r.Ok? ==> |r.value.node| >= |acc| && r.value.node[..|acc|] == acc
    ensures r.Ok? ==> toks[r.value.next].kind != Comma
    decreases |toks| - pos, 8, 0
  {
    if toks[pos].kind == Comma then
      var e :- ParseExpression(toks, Advance(toks, pos));
      ListLoop(toks, acc + [e.node], e.next)
    else
      Ok(Parsed(acc, pos))
  }

  // ----------------------------------------------------------------- Statements

  /** `parseStatement`: dispatch on the leading keyword; `{` opens a block;
      anything else is an expression statement or an assignment. */
  function ParseStatement(toks: seq<Lexeme>, pos: nat): (r: Result<Parsed<Statement>>)
    requires At(toks, pos)
    ensures r.Ok? ==> pos < r.value.next && At(toks, r.value.next)
    decreases |toks| - pos, 12
  {
    var k := toks[pos].kind;
    var p := Advance(toks, pos);
    if k == KwLet then ParseLet(toks, p)
    else if k == KwIf then ParseIf(toks, p)
    else if k == KwFor then ParseFor(toks, p)
    else if k == KwReturn then ParseReturn(toks, p)
    else if k == LBrace then
      var b :- ParseBlock(toks, pos);
      Ok(Parsed(Block(b.node), b.next))
    else ParseExprStmt(toks, pos)
  }

  /** `parseBlock`: `{`, statements until `}` or the end, `}`. */
  function ParseBlock(toks: seq<Lexeme>, pos: nat): (r: Result<Parsed<seq<Statement>>>)
    requires At(toks, pos)
    ensures r.Ok? ==> pos < r.value.next && At(toks, r.value.next)
    ensures r.Ok? ==> toks[pos].kind == LBrace && toks[r.value.next - 1].kind == RBrace
    decreases |toks| - pos, 11
  {
    var open :- Consume(toks, pos, LBrace, "Expect '{'.");
    var body :- BlockLoop(toks, open.next, []);
    var close :- Consume(toks, body.next, RBrace, "Expect '}'.");
    Ok(Parsed(body.node, close.next))
  }

  function BlockLoop(toks: seq<Lexeme>, pos: nat, acc: seq<Statement>): (r: Result<Parsed<seq<Statement>>>)
    requires At(toks, pos)
    ensures r.Ok? ==> pos <= r.value.next && At(toks, r.value.next)
    ensures r.Ok? ==> |r.value.node| >= |acc| && r.value.node[..|acc|] == acc
    ensures r.Ok? ==> Check(toks, r.value.next, RBrace) || AtEnd(toks, r.value.next)
    decreases |toks| - pos, 13
  {
    if Check(toks, pos, RBrace) || AtEnd(toks, pos) then Ok(Parsed(acc, pos))
    else
      var s := ParseStatement(toks, pos);
      if s.Err? then Err(s.msg)
      else
        var more := acc + [s.value.node];
        var rest := BlockLoop(toks, s.value.next, more);
        assert rest.Ok? ==> rest.value.node[..|acc|] == more[..|acc|] == acc;
        rest
  }

  /** `parseLet`, after `let`: a name, `=`, the initial value. */
  function ParseLet(toks: seq<Lexeme>, pos: nat): (r: Result<Parsed<Statement>>)
    requires At(toks, pos)
    ensures r.Ok? ==> pos < r.value.next && At(toks, r.value.next)
    ensures r.Ok? ==> r.value.node.Let? && r.value.node.initial.Some?
    decreases |toks| - pos, 10
  {
    var name :- Consume(toks, pos, Identifier, "Expect variable name.");
    var eq :- Consume(toks, name.next, TokenType.Assign, "Expect '='.");
    var init :- ParseExpression(toks, eq.next);
    Ok(Parsed(Let(name.node.text, Some(init.node)), init.next))
  }

  /** `parseIf`, after `if`: an optionally parenthesised condition, a block,
      and an optional `else` that is either `if ...` (a nested `If`) or a
      block. */
  function ParseIf(toks: seq<Lexeme>, pos: nat): (r: Result<Parsed<Statement>>)
    requires At(toks, pos)
    ensures r.Ok? ==> pos < r.value.next && At(toks, r.value.next)
    ensures r.Ok? ==> r.value.node.If? && r.value.node.thenBranch.Block?
    ensures r.Ok? && r.value.node.elseBranch.Some? ==>
      r.value.node.elseBranch.value.If? || r.value.node.elseBranch.value.Block?
    decreases |toks| - pos, 10
  {
    var paren := Check(toks, pos, LParen);
    var p := if paren then Advance(toks, pos) else pos;
    var cond :- ParseExpression(toks, p);
    var q :- CloseParen(toks, cond.next, paren);
    var thenB :- ParseBlock(toks, q);
    IfElse(toks, cond.node, thenB.node, thenB.next)
  }

  /** The rest of `parseIf` once the condition `c` and the then-block
      `body` are read: an optional `else` followed by a nested `if` or a
      block. */
  function IfElse(toks: seq<Lexeme>, c: Expression, body: seq<Statement>, pos: nat): (r: Result<Parsed<Statement>>)
    requires At(toks, pos)
    ensures r.Ok? ==> pos <= r.value.next && At(toks, r.value.next)
    ensures r.Ok? ==> r.value.node.If? && r.value.node.thenBranch.Block?
    ensures r.Ok? && r.value.node.elseBranch.Some? ==>
      r.value.node.elseBranch.value.If? || r.value.node.elseBranch.value.Block?
    decreases |toks| - pos, 9
  {
    if Check(toks, pos, KwElse) then
      var e := Advance(toks, pos);
      if Check(toks, e, KwIf) then
        var nested :- ParseIf(toks, Advance(toks, e));
        Ok(Parsed(If(c, Block(body), Some(nested.node)), nested.next))
      else
        var elseB :- ParseBlock(toks, e);
        Ok(Parsed(If(c, Block(body), Some(Block(elseB.node))), elseB.next))
    else
      Ok(Parsed(If(c, Block(body), None), pos))
  }

  /** The `)` that must close a condition opened with `(`. */
  function CloseParen(toks: seq<Lexeme>, pos: nat, paren: bool): (r: Result<nat>)
    requires At(toks, pos)
    ensures r.Ok? ==> At(toks, r.value)
    ensures r.Ok? ==> r.value == (if paren then pos + 1 else pos)
    ensures r.Err? <==> paren && !Check(toks, pos, RParen)
  {
    if paren then
      var c :- Consume(toks, pos, RParen, "Expect ')'.");
      Ok(c.next)
    else Ok(pos)
  }

  /** `parseFor`, after `for`: an optionally parenthesised `name in expr`,
      then a block. */
  function ParseFor(toks: seq<Lexeme>, pos: nat): (r: Result<Parsed<Statement>>)
    requires At(toks, pos)
    ensures r.Ok? ==> pos < r.value.next && At(toks, r.value.next)
    ensures r.Ok? ==> r.value.node.For?
    decreases |toks| - pos, 10
  {
    var paren := Check(toks, pos, LParen);
    var p := if paren then Advance(toks, pos) else pos;
    var it :- Consume(toks, p, Identifier, "Expect iterator name.");
    var inKw :- Consume(toks, it.next, KwIn, "Expect 'in'.");
    var iterable :- ParseExpression(toks, inKw.next);
    var q :- CloseParen(toks, iterable.next, paren);
    var body :- ParseBlock(toks, q);
    Ok(Parsed(For(it.node.text, iterable.node, body.node), body.next))
  }

  /** `parseReturn`, after `return`: no value exactly when `}` follows. */
  function ParseReturn(toks: seq<Lexeme>, pos: nat): (r: Result<Parsed<Statement>>)
    requires At(toks, pos)
    ensures r.Ok? ==> pos <= r.value.next && At(toks, r.value.next)
    ensures r.Ok? ==> r.value.node.Return?
    ensures r.Ok? ==> (r.value.node.result.None? <==> Check(toks, pos, RBrace))
    decreases |toks| - pos, 10
  {
    if Check(toks, pos, RBrace) then Ok(Parsed(Return(None), pos))
    else
      var v :- ParseExpression(toks, pos);
      Ok(Parsed(Return(Some(v.node)), v.next))
  }

  /** `parseExpressionStatement`: an expression; when `=` follows it, the
      expression is the target of an assignment whose value comes next. */
  function ParseExprStmt(toks: seq<Lexeme>, pos: nat): (r: Result<Parsed<Statement>>)
    requires At(toks, pos)
    ensures r.Ok? ==> pos < r.value.next && At(toks, r.value.next)
    ensures r.Ok? ==> var e := ParseExpression(toks, pos);
      && e.Ok?
      && (r.value.node.Assign? <==> Check(toks, e.value.next, TokenType.Assign))
      && (r.value.node.Assign? ==> r.value.node.target == e.value.node)
      && (!r.value.node.Assign? ==> r.value.node == ExprStmt(e.value.node))
    decreases |toks| - pos, 11
  {
    var e :- ParseExpression(toks, pos);
    if Check(toks, e.next, TokenType.Assign) then
      var v :- ParseExpression(toks, Advance(toks, e.next));
      Ok(Parsed(Statement.Assign(e.node, v.node), v.next))
    else
      Ok(Parsed(ExprStmt(e.node), e.next))
  }

  // --------------------------------------------------------------- Declarations

  /** The display name that may follow a declared name: the next STRING, or
      the name itself. */
  function DisplayName(toks: seq<Lexeme>, pos: nat, name: string): (r: Parsed<string>)
    requires At(toks, pos)
    ensures At(toks, r.next)
    ensures Check(toks, pos, StringLit) ==> r == Parsed(toks[pos].text, pos + 1)
    ensures !Check(toks, pos, StringLit) ==> r == Parsed(name, pos)
  {
    if Check(toks, pos, StringLit) then Parsed(toks[pos].text, Advance(toks, pos))
    else Parsed(name, pos)
  }

  /** `parseGame`: `game Name {`, members until `}`, `}`.  A token that
      starts no member is reported and skipped. */
  function ParseGame(toks: seq<Lexeme>): (r: Result<GameDecl>)
    requires Ended(toks)
  {
    var kw :- Consume(toks, 0, KwGame, "Expect 'game' keyword.");
    var name :- Consume(toks, kw.next, Identifier, "Expect game name.");
    var open :- Consume(toks, name.next, LBrace, "Expect '{' after game name.");
    var body :- GameLoop(toks, open.next, EmptyGame(name.node.text));
    var close :- Consume(toks, body.next, RBrace, "Expect '}' after game body.");
    Ok(body.node)
  }

  function GameLoop(toks: seq<Lexeme>, pos: nat, g: GameDecl): (r: Result<Parsed<GameDecl>>)
    requires At(toks, pos)
    ensures r.Ok? ==> pos <= r.value.next && At(toks, r.value.next)
    ensures r.Ok? ==> r.value.node.name == g.name
    ensures r.Ok? ==> |r.value.node.roles| >= |g.roles| && r.value.node.roles[..|g.roles|] == g.roles
    ensures r.Ok? ==> |r.value.node.phases| >= |g.phases| && r.value.node.phases[..|g.phases|] == g.phases
    ensures r.Ok? ==> Check(toks, r.value.next, RBrace) || AtEnd(toks, r.value.next)
    decreases |toks| - pos
  {
    if Check(toks, pos, RBrace) || AtEnd(toks, pos) then Ok(Parsed(g, pos))
    else
      var m :- GameMember(toks, pos, g);
      var r := GameLoop(toks, m.next, m.node);
      if r.Ok? then
        PrefixOfPrefix(g.roles, m.node.roles, r.value.node.roles);
        PrefixOfPrefix(g.phases, m.node.phases, r.value.node.phases);
        r
      else r
  }

  /** One member of the game body, dispatched on its keyword: `config`
      replaces the config, `setup` the setup block; roles, variables,
      actions and phases are appended; any other token is skipped. */
  function GameMember(toks: seq<Lexeme>, pos: nat, g: GameDecl): (r: Result<Parsed<GameDecl>>)
    requires At(toks, pos) && !AtEnd(toks, pos)
    ensures r.Ok? ==> pos < r.value.next && At(toks, r.value.next)
    ensures r.Ok? ==> r.value.node.name == g.name
    ensures r.Ok? ==> |r.value.node.roles| >= |g.roles| && r.value.node.roles[..|g.roles|] == g.roles
    ensures r.Ok? ==> |r.value.node.phases| >= |g.phases| && r.value.node.phases[..|g.phases|] == g.phases
    ensures r.Ok? && toks[pos].kind == KwRole ==>
      |r.value.node.roles| == |g.roles| + 1 && r.value.node.roles[|g.roles|].name == toks[pos + 1].text
    ensures r.Ok? && toks[pos].kind !in MemberStarts ==> r.value == Parsed(g, pos + 1)
  {
    var k := toks[pos].kind;
    if k == KwConfig then
      var c :- ParseConfig(toks, pos);
      Ok(Parsed(g.(config := Some(c.node)), c.next))
    else if k == KwRole then
      var ro :- ParseRole(toks, pos);
      assert (g.roles + [ro.node])[..|g.roles|] == g.roles;
      Ok(Parsed(g.(roles := g.roles + [ro.node]), ro.next))
    else if k == KwVar then
      var v :- ParseVar(toks, pos);
      Ok(Parsed(g.(vars := g.vars + [v.node]), v.next))
    else if k == KwSetup then
      var b :- ParseBlock(toks, Advance(toks, pos));
      Ok(Parsed(g.(setup := Some(b.node)), b.next))
    else if k == KwAction then
      var a :- ParseAction(toks, pos);
      Ok(Parsed(g.(actions := g.actions + [a.node]), a.next))
    else if k == KwPhase then
      var ph :- ParsePhase(toks, pos);
      assert (g.phases + [ph.node])[..|g.phases|] == g.phases;
      Ok(Parsed(g.(phases := g.phases + [ph.node]), ph.next))
    else
      Ok(Parsed(g, Advance(toks, pos)))
  }

  lemma PrefixOfPrefix<T>(a: seq<T>, b: seq<T>, c: seq<T>)
    requires |b| >= |a| && b[..|a|] == a
    requires |c| >= |b| && c[..|b|] == b
    ensures |c| >= |a| && c[..|a|] == a
  {
    assert c[..|a|] == c[..|b|][..|a|];
  }

  /** The keywords that start a member of the game body. */
  const MemberStarts: set<TokenType> := {KwConfig, KwRole, KwVar, KwSetup, KwAction, KwPhase}

  /** `parseConfig`: `config {`, then `key : NUMBER` pairs until `}`; only
      `min_players` and `max_players` are kept, converted with `stoi`;
      the counts start at 0. */
  function ParseConfig(toks: seq<Lexeme>, pos: nat): (r: Result<Parsed<ConfigDecl>>)
    requires At(toks, pos)
    ensures r.Ok? ==> pos < r.value.next && At(toks, r.value.next)
    ensures r.Ok? && r.value.next == pos + 3 ==> r.value.node == DefaultConfig
  {
    var kw :- Consume(toks, pos, KwConfig, "Expect 'config' keyword.");
    var open :- Consume(toks, kw.next, LBrace, "Expect '{'.");
    var body :- ConfigLoop(toks, open.next, DefaultConfig);
    var close :- Consume(toks, body.next, RBrace, "Expect '}'.");
    Ok(Parsed(body.node, close.next))
  }

  function ConfigLoop(toks: seq<Lexeme>, pos: nat, c: ConfigDecl): (r: Result<Parsed<ConfigDecl>>)
    requires At(toks, pos)
    ensures r.Ok? ==> pos <= r.value.next && At(toks, r.value.next)
    ensures r.Ok? && r.value.next == pos ==> r.value.node == c
    ensures r.Ok? ==> Check(toks, r.value.next, RBrace) || AtEnd(toks, r.value.next)
    decreases |toks| - pos
  {
    if Check(toks, pos, RBrace) || AtEnd(toks, pos) then Ok(Parsed(c, pos))
    else
      var key :- Consume(toks, pos, Identifier, "Expect config key.");
      var colon :- Consume(toks, key.next, Colon, "Expect ':'.");
      var value :- Consume(toks, colon.next, NumberLit, "Expect number value.");
      var c' :- ConfigEntry(c, key.node.text, value.node.text);
      ConfigLoop(toks, value.next, c')
  }

  /** One config entry; `stoi` throws (`stoi` is the exception text) when
      the number does not fit 32 bits. */
  function ConfigEntry(c: ConfigDecl, key: string, value: string): (r: Result<ConfigDecl>)
    ensures key != "min_players" && key != "max_players" ==> r == Ok(c)
    ensures key == "min_players" && r.Ok? ==> r.value == c.(minPlayers := Atoi(value))
    ensures key == "max_players" && r.Ok? ==> r.value == c.(maxPlayers := Atoi(value))
    ensures (key == "min_players" || key == "max_players") ==> (r.Err? <==> Stoi(value).None?)
  {
    if key == "min_players" then
      var n :- StoiResult(value);
      Ok(c.(minPlayers := n))
    else if key == "max_players" then
      var n :- StoiResult(value);
      Ok(c.(maxPlayers := n))
    else Ok(c)
  }

  function StoiResult(s: string): (r: Result<int>)
    ensures r.Ok? <==> Stoi(s).Some?
    ensures r.Ok? ==> r.value == Atoi(s)
  {
    match Stoi(s)
    case Some(n) => Ok(n)
    case None => Err("stoi")
  }

  /** `parseRole`: `role Name ["Display"]`. */
  function ParseRole(toks: seq<Lexeme>, pos: nat): (r: Result<Parsed<RoleDecl>>)
    requires At(toks, pos)
    ensures r.Ok? ==> pos < r.value.next && At(toks, r.value.next)
    ensures r.Ok? ==> r.value.node.name == toks[pos + 1].text
  {
    var kw :- Consume(toks, pos, KwRole, "Expect 'role'.");
    var name :- Consume(toks, kw.next, Identifier, "Expect role name.");
    var d := DisplayName(toks, name.next, name.node.text);
    Ok(Parsed(RoleDecl(name.node.text, d.node), d.next))
  }

  /** `parseVar`: `var name : type [= expr]`. */
  function ParseVar(toks: seq<Lexeme>, pos: nat): (r: Result<Parsed<VarDecl>>)
    requires At(toks, pos)
    ensures r.Ok? ==> pos < r.value.next && At(toks, r.value.next)
  {
    var kw :- Consume(toks, pos, KwVar, "Expect 'var'.");
    var name :- Consume(toks, kw.next, Identifier, "Expect variable name.");
    var colon :- Consume(toks, name.next, Colon, "Expect ':'.");
    var ty :- Consume(toks, colon.next, Identifier, "Expect type.");
    if Check(toks, ty.next, TokenType.Assign) then
      var init :- ParseExpression(toks, Advance(toks, ty.next));
      Ok(Parsed(VarDecl(name.node.text, ty.node.text, Some(init.node)), init.next))
    else
      Ok(Parsed(VarDecl(name.node.text, ty.node.text, None), ty.next))
  }

  /** `parseAction`: `action Name ["Display"] {`, then `execute { ... }`
      bodies and `description: "..."` entries until `}`; other tokens are
      skipped. */
  function ParseAction(toks: seq<Lexeme>, pos: nat): (r: Result<Parsed<ActionDecl>>)
    requires At(toks, pos)
    ensures r.Ok? ==> pos < r.value.next && At(toks, r.value.next)
  {
    var kw :- Consume(toks, pos, KwAction, "Expect 'action'.");
    var name :- Consume(toks, kw.next, Identifier, "Expect action name.");
    var d := DisplayName(toks, name.next, name.node.text);
    var open :- Consume(toks, d.next, LBrace, "Expect '{'.");
    var body :- ActionLoop(toks, open.next, ActionDecl(name.node.text, d.node, "", None));
    var close :- Consume(toks, body.next, RBrace, "Expect '}'.");
    Ok(Parsed(body.node, close.next))
  }

  function ActionLoop(toks: seq<Lexeme>, pos: nat, a: ActionDecl): (r: Result<Parsed<ActionDecl>>)
    requires At(toks, pos)
    ensures r.Ok? ==> pos <= r.value.next && At(toks, r.value.next)
    ensures r.Ok? ==> r.value.node.name == a.name && r.value.node.displayName == a.displayName
    decreases |toks| - pos
  {
    if Check(toks, pos, RBrace) || AtEnd(toks, pos) then Ok(Parsed(a, pos))
    else if toks[pos].kind == KwExecute then
      var b :- ParseBlock(toks, Advance(toks, pos));
      ActionLoop(toks, b.next, a.(body := Some(b.node)))
    else if toks[pos].kind == Identifier then
      var p := Advance(toks, pos);
      if toks[pos].text == "description" then
        var colon :- Consume(toks, p, Colon, "Expect ':'.");
        var text :- Consume(toks, colon.next, StringLit, "Expect string.");
        ActionLoop(toks, text.next, a.(description := text.node.text))
      else
        ActionLoop(toks, p, a)
    else
      ActionLoop(toks, Advance(toks, pos), a)
  }

  /** `parsePhase`: `phase Name ["Display"] {`, steps until `}`; other
      tokens are skipped. */
  function ParsePhase(toks: seq<Lexeme>, pos: nat): (r: Result<Parsed<PhaseDecl>>)
    requires At(toks, pos)
    ensures r.Ok? ==> pos < r.value.next && At(toks, r.value.next)
  {
    var kw :- Consume(toks, pos, KwPhase, "Expect 'phase'.");
    var name :- Consume(toks, kw.next, Identifier, "Expect phase name.");
    var d := DisplayName(toks, name.next, name.node.text);
    var open :- Consume(toks, d.next, LBrace, "Expect '{'.");
    var steps :- PhaseLoop(toks, open.next, []);
    var close :- Consume(toks, steps.next, RBrace, "Expect '}'.");
    Ok(Parsed(PhaseDecl(name.node.text, d.node, steps.node), close.next))
  }

  function PhaseLoop(toks: seq<Lexeme>, pos: nat, acc: seq<StepDecl>): (r: Result<Parsed<seq<StepDecl>>>)
    requires At(toks, pos)
    ensures r.Ok? ==> pos <= r.value.next && At(toks, r.value.next)
    ensures r.Ok? ==> |r.value.node| >= |acc| && r.value.node[..|acc|] == acc
    decreases |toks| - pos
  {
    if Check(toks, pos, RBrace) || AtEnd(toks, pos) then Ok(Parsed(acc, pos))
    else if toks[pos].kind == KwStep then
      var st :- ParseStep(toks, pos);
      var r := PhaseLoop(toks, st.next, acc + [st.node]);
      assert (acc + [st.node])[..|acc|] == acc;
      r
    else
      PhaseLoop(toks, Advance(toks, pos), acc)
  }

  /** `parseStep`: `step` and a STRING or IDENTIFIER name, then `{` and
      `key : value` entries until `}`. */
  function ParseStep(toks: seq<Lexeme>, pos: nat): (r: Result<Parsed<StepDecl>>)
    requires At(toks, pos)
    ensures r.Ok? ==> pos < r.value.next && At(toks, r.value.next)
  {
    var kw :- Consume(toks, pos, KwStep, "Expect 'step'.");
    var name :- if Check(toks, kw.next, StringLit)
                then Consume(toks, kw.next, StringLit, "Expect step name string.")
                else Consume(toks, kw.next, Identifier, "Expect step name identifier.");
    var open :- Consume(toks, name.next, LBrace, "Expect '{'.");
    var body :- StepLoop(toks, open.next, StepDecl(name.node.text, [], ""));
    var close :- Consume(toks, body.next, RBrace, "Expect '}'.");
    Ok(Parsed(body.node, close.next))
  }

  /** The entries of a step: `roles: [a, b]` appends the listed roles,
      `action: name` sets the action; the value of any other key is left
      for the next entry. */
  function StepLoop(toks: seq<Lexeme>, pos: nat, st: StepDecl): (r: Result<Parsed<StepDecl>>)
    requires At(toks, pos)
    ensures r.Ok? ==> pos <= r.value.next && At(toks, r.value.next)
    ensures r.Ok? ==> r.value.node.name == st.name
    decreases |toks| - pos
  {
    if Check(toks, pos, RBrace) || AtEnd(toks, pos) then Ok(Parsed(st, pos))
    else
      var key :- if toks[pos].kind == KwAction then Ok(Parsed("action", Advance(toks, pos)))
                 else var t :- Consume(toks, pos, Identifier, "Expect key."); Ok(Parsed(t.node.text, t.next));
      var colon :- Consume(toks, key.next, Colon, "Expect ':'.");
      if key.node == "roles" then
        var open :- Consume(toks, colon.next, LBracket, "Expect '['.");
        var roles :- RolesLoop(toks, open.next, st.roles);
        var close :- Consume(toks, roles.next, RBracket, "Expect ']'.");
        StepLoop(toks, close.next, st.(roles := roles.node))
      else if key.node == "action" then
        var a :- Consume(toks, colon.next, Identifier, "Expect action name.");
        StepLoop(toks, a.next, st.(actionName := a.node.text))
      else
        StepLoop(toks, colon.next, st)
  }

  /** The texts of the identifier tokens of `ts`, in order. */
  function IdentTexts(ts: seq<Lexeme>): seq<string> {
    if |ts| == 0 then []
    else (if ts[0].kind == Identifier then [ts[0].text] else []) + IdentTexts(ts[1..])
  }

  lemma {:induction false} IdentTextsAppend(a: seq<Lexeme>, b: seq<Lexeme>)
    ensures IdentTexts(a + b) == IdentTexts(a) + IdentTexts(b)
    decreases |a|
  {
    if |a| == 0 {
      assert a + b == b;
    } else {
      assert (a + b)[1..] == a[1..] + b;
      IdentTextsAppend(a[1..], b);
    }
  }

  /** The bracketed role list: identifiers separated by commas, until `]`.
      The roles added are exactly the identifiers read, in order. */
  function RolesLoop(toks: seq<Lexeme>, pos: nat, acc: seq<string>): (r: Result<Parsed<seq<string>>>)
    requires At(toks, pos)
    ensures r.Ok? ==> pos <= r.value.next && At(toks, r.value.next)
    ensures r.Ok? ==> var e := r.value.next; r.value.node == acc + IdentTexts(toks[pos..e])
    ensures r.Ok? ==> Check(toks, r.value.next, RBracket) || AtEnd(toks, r.value.next)
    decreases |toks| - pos
  {
    if Check(toks, pos, RBracket) || AtEnd(toks, pos) then
      assert toks[pos..pos] == [];
      Ok(Parsed(acc, pos))
    else
      var role :- Consume(toks, pos, Identifier, "Expect role name.");
      var sep :- RoleSeparator(toks, role.next);
      var rest :- RolesLoop(toks, sep, acc + [role.node.text]);
      RolesSplit(toks, pos, sep, rest.next);
      Ok(rest)
  }

  /** After a role name: nothing before `]`, otherwise a required comma. */
  function RoleSeparator(toks: seq<Lexeme>, pos: nat): (r: Result<nat>)
    requires At(toks, pos)
    ensures r.Ok? ==> At(toks, r.value)
    ensures r.Ok? && Check(toks, pos, RBracket) ==> r.value == pos
    ensures r.Ok? && !Check(toks, pos, RBracket) ==> r.value == pos + 1 && toks[pos].kind == Comma
  {
    if Check(toks, pos, RBracket) then Ok(pos)
    else
      var c :- Consume(toks, pos, Comma, "Expect ','.");
      Ok(c.next)
  }

  lemma RolesSplit(toks: seq<Lexeme>, pos: nat, sep: nat, next: nat)
    requires pos < sep <= pos + 2 && sep <= next <= |toks|
    requires toks[pos].kind == Identifier
    requires sep == pos + 2 ==> toks[pos + 1].kind == Comma
    ensures IdentTexts(toks[pos..next]) == [toks[pos].text] + IdentTexts(toks[sep..next])
  {
    assert toks[pos..next] == toks[pos..sep] + toks[sep..next];
    IdentTextsAppend(toks[pos..sep], toks[sep..next]);
    if sep == pos + 2 {
      assert toks[pos..sep] == [toks[pos]] + [toks[pos + 1]];
      IdentTextsAppend([toks[pos]], [toks[pos + 1]]);
    } else {
      assert toks[pos..sep] == [toks[pos]];
    }
  }

  /** The whole front end: tokenize, then parse one game. */
  function Parse(src: string): Result<GameDecl> {
    ParseGame(Tokenize(src))
  }
}
