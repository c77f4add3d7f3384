/** Facts about the game-description parser, one parsing step each: how a
    binary level folds its operands, what a name with its postfix chain
    parses to, and how `if`, blocks and assignments are assembled. */
module RefactorParserFacts {
  import opened Results
  import opened RefactorLexer
  import opened RefactorAst
  import opened RefactorParser

  // ------------------------------------------------------------ Binary levels

  /** `e` under the prefix operators `ops`, the first one outermost. */
  function Prefixed(ops: seq<Lexeme>, e: Expression): (r: Expression)
    ensures |ops| > 0 ==> r.Unary? && r.op == ops[0].text
  {
    if |ops| == 0 then e else Unary(ops[0].text, Prefixed(ops[1..], e))
  }

  /** A run of `n` prefix operators (`not`, `-`) in front of a primary
      expression nests into `n` unary nodes, the first operator outermost. */
  lemma {:induction false} PrefixesNest(toks: seq<Lexeme>, pos: nat, n: nat)
    requires At(toks, pos + n)
    requires forall k :: pos <= k < pos + n ==> toks[k].kind == KwNot || toks[k].kind == Minus
    requires toks[pos + n].kind != KwNot && toks[pos + n].kind != Minus
    ensures ParseUnary(toks, pos) == match ParsePrimary(toks, pos + n)
              case Ok(p) => Ok(Parsed(Prefixed(toks[pos..pos + n], p.node), p.next))
              case Err(m) => Err(m)
    decreases n
  {
    if n > 0 {
      PrefixesNest(toks, pos + 1, n - 1);
      assert toks[pos..pos + n][1..] == toks[pos + 1..pos + n];
    }
  }

  /** A level's loop stops at a token that is not one of its operators. */
  lemma LoopStops(toks: seq<Lexeme>, lhs: Expression, p: nat, level: nat)
    requires At(toks, p) && level < UnaryLevel && toks[p].kind !in LevelOps(level)
    ensures LevelLoop(toks, lhs, p, level) == Ok(Parsed(lhs, p))
  {
  }

  /** A level's loop takes an operator of its level and the operand after
      it, folding both into the left operand before going on. */
  lemma LoopTakes(toks: seq<Lexeme>, lhs: Expression, p: nat, level: nat, rhs: Expression, q: nat, folded: Expression, res: Expression, r: nat)
    requires At(toks, p) && level < UnaryLevel && toks[p].kind in LevelOps(level)
    requires p + 1 < |toks| && ParseLevel(toks, p + 1, level + 1) == Ok(Parsed(rhs, q))
    requires folded == Binary(lhs, toks[p].text, rhs)
    requires At(toks, q) && LevelLoop(toks, folded, q, level) == Ok(Parsed(res, r))
    ensures LevelLoop(toks, lhs, p, level) == Ok(Parsed(res, r))
  {
    assert Advance(toks, p) == p + 1;
  }

  /** A level parses its first operand one level up, then runs its loop. */
  lemma LevelStarts(toks: seq<Lexeme>, p: nat, level: nat, x: Expression, q: nat, res: Expression, r: nat)
    requires At(toks, p) && level < UnaryLevel
    requires ParseLevel(toks, p, level + 1) == Ok(Parsed(x, q))
    requires At(toks, q) && LevelLoop(toks, x, q, level) == Ok(Parsed(res, r))
    ensures ParseLevel(toks, p, level) == Ok(Parsed(res, r))
  {
  }

  /** An operand parsed at `level`, followed by a token that is no
      operator of any lower level, is the whole expression. */
  lemma {:induction false} OperandIsExpression(toks: seq<Lexeme>, p: nat, x: Expression, q: nat, level: nat)
    requires At(toks, p) && At(toks, q) && level <= UnaryLevel
    requires ParseLevel(toks, p, level) == Ok(Parsed(x, q))
    requires forall l :: 0 <= l < level ==> toks[q].kind !in LevelOps(l)
    ensures ParseExpression(toks, p) == Ok(Parsed(x, q))
    decreases level
  {
    if level > 0 {
      LoopStops(toks, x, q, level - 1);
      LevelStarts(toks, p, level - 1, x, q, x, q);
      OperandIsExpression(toks, p, x, q, level - 1);
    }
  }

  // ------------------------------------------------------------------ Operands

  /** A name starts a postfix chain; the operand is what the chain builds. */
  lemma NameStartsChain(toks: seq<Lexeme>, p: nat, res: Expression, r: nat)
    requires At(toks, p) && toks[p].kind == Identifier && p + 1 < |toks|
    requires Postfix(toks, Variable(toks[p].text), p + 1) == Ok(Parsed(res, r))
    ensures ParseLevel(toks, p, UnaryLevel) == Ok(Parsed(res, r))
  {
    PrimaryName(toks, p);
    assert ParseUnary(toks, p) == ParsePrimary(toks, p);
  }

  lemma PrimaryName(toks: seq<Lexeme>, p: nat)
    requires At(toks, p) && toks[p].kind == Identifier && p + 1 < |toks|
    ensures ParsePrimary(toks, p) == Postfix(toks, Variable(toks[p].text), p + 1)
  {
    assert Advance(toks, p) == p + 1;
  }

  /** A postfix chain ends at a token other than `.`, `[` and `(`. */
  lemma ChainStops(toks: seq<Lexeme>, e: Expression, p: nat)
    requires At(toks, p) && toks[p].kind !in {Dot, LBracket, LParen}
    ensures Postfix(toks, e, p) == Ok(Parsed(e, p))
  {
  }

  /** `.name` extends the chain with a member access. */
  lemma ChainMember(toks: seq<Lexeme>, e: Expression, p: nat, res: Expression, r: nat)
    requires At(toks, p) && toks[p].kind == Dot && p + 2 < |toks| && toks[p + 1].kind == Identifier
    requires Postfix(toks, Member(e, toks[p + 1].text), p + 2) == Ok(Parsed(res, r))
    ensures Postfix(toks, e, p) == Ok(Parsed(res, r))
  {
  }

  /** `(args)` extends the chain with `CallOn`: a call of a bare name, and
      the unchanged expression otherwise. */
  lemma ChainCall(toks: seq<Lexeme>, e: Expression, p: nat, args: seq<Expression>, q: nat, called: Expression)
    requires At(toks, p) && toks[p].kind == LParen && p + 1 < |toks|
    requires ExprList(toks, p + 1, RParen) == Ok(Parsed(args, q))
    requires At(toks, q) && toks[q].kind == RParen && q + 1 < |toks|
    requires called == CallOn(e, args)
    ensures Postfix(toks, e, p) == Postfix(toks, called, q + 1)
  {
    assert Advance(toks, p) == p + 1;
    assert Consume(toks, q, RParen, "Expect ')' after arguments.") == Ok(Parsed(toks[q], q + 1));
  }

  /** A name with no postfix after it is a variable at the unary level. */
  lemma NameUnary(toks: seq<Lexeme>, p: nat)
    requires At(toks, p) && p + 1 < |toks| && toks[p].kind == Identifier
    requires toks[p + 1].kind !in {Dot, LBracket, LParen}
    ensures ParseLevel(toks, p, UnaryLevel) == Ok(Parsed(Variable(toks[p].text), p + 1))
  {
    ChainStops(toks, Variable(toks[p].text), p + 1);
    NameStartsChain(toks, p, Variable(toks[p].text), p + 1);
  }

  /** A number is a literal of type "number" at the unary level. */
  lemma NumberUnary(toks: seq<Lexeme>, p: nat)
    requires At(toks, p) && toks[p].kind == NumberLit
    ensures ParseLevel(toks, p, UnaryLevel) == Ok(Parsed(Literal(toks[p].text, "number"), p + 1))
  {
    assert ParsePrimary(toks, p) == Ok(Parsed(Literal(toks[p].text, "number"), p + 1));
  }

  /** A name followed by a token that extends no operand is a complete
      operand of the factor level. */
  lemma NameOperand(toks: seq<Lexeme>, p: nat)
    requires At(toks, p) && p + 1 < |toks| && toks[p].kind == Identifier
    requires toks[p + 1].kind !in {Dot, LBracket, LParen, Slash, Star}
    ensures ParseLevel(toks, p, 3) == Ok(Parsed(Variable(toks[p].text), p + 1))
  {
    var x := Variable(toks[p].text);
    NameUnary(toks, p);
    LoopStops(toks, x, p + 1, 3);
    LevelStarts(toks, p, 3, x, p + 1, x, p + 1);
  }

  /** A name followed by the end, `)`, `]`, `{`, `}`, `,` or `=` is a whole
      expression. */
  lemma NameExpression(toks: seq<Lexeme>, p: nat)
    requires At(toks, p) && p + 1 < |toks| && toks[p].kind == Identifier
    requires toks[p + 1].kind in {EofToken, RParen, RBracket, LBrace, RBrace, Comma, TokenType.Assign}
    ensures ParseExpression(toks, p) == Ok(Parsed(Variable(toks[p].text), p + 1))
  {
    NameOperand(toks, p);
    OperandIsExpression(toks, p, Variable(toks[p].text), p + 1, 3);
  }

  /** A one-element argument list. */
  lemma OneArgument(toks: seq<Lexeme>, p: nat, closer: TokenType, x: Expression, q: nat)
    requires At(toks, p) && closer != Comma && !Check(toks, p, closer)
    requires ParseExpression(toks, p) == Ok(Parsed(x, q))
    requires At(toks, q) && toks[q].kind != Comma
    ensures ExprList(toks, p, closer) == Ok(Parsed([x], q))
  {
  }

  // ---------------------------------------------------------------- Statements

  /** `{` directly followed by `}` is an empty block. */
  lemma EmptyBlock(toks: seq<Lexeme>, p: nat)
    requires At(toks, p) && p + 2 < |toks| && toks[p].kind == LBrace && toks[p + 1].kind == RBrace
    ensures ParseBlock(toks, p) == Ok(Parsed([], p + 2))
  {
    assert BlockLoop(toks, p + 1, []) == Ok(Parsed([], p + 1));
  }

  /** An `if` (after the keyword) with no parenthesis and no `else`. */
  lemma IfWithoutElse(toks: seq<Lexeme>, p: nat, c: Expression, q: nat, body: seq<Statement>, r: nat)
    requires At(toks, p) && !Check(toks, p, LParen)
    requires ParseExpression(toks, p) == Ok(Parsed(c, q))
    requires At(toks, q) && ParseBlock(toks, q) == Ok(Parsed(body, r))
    requires At(toks, r) && !Check(toks, r, KwElse)
    ensures ParseIf(toks, p) == Ok(Parsed(If(c, Block(body), None), r))
  {
  }

  /** An `if` (after the keyword) with no parenthesis whose block is
      followed by `else if`: the nested `if` becomes the else branch. */
  lemma IfElseIf(toks: seq<Lexeme>, p: nat, c: Expression, q: nat, body: seq<Statement>, r: nat, nested: Statement, n: nat)
    requires At(toks, p) && !Check(toks, p, LParen)
    requires ParseExpression(toks, p) == Ok(Parsed(c, q))
    requires At(toks, q) && ParseBlock(toks, q) == Ok(Parsed(body, r))
    requires r + 2 < |toks| && toks[r].kind == KwElse && toks[r + 1].kind == KwIf
    requires ParseIf(toks, r + 2) == Ok(Parsed(nested, n))
    ensures ParseIf(toks, p) == Ok(Parsed(If(c, Block(body), Some(nested)), n))
  {
    IfHead(toks, p, c, q, body, r);
    ElseIfTaken(toks, c, body, r, nested, n);
  }

  /** After an `if`'s block, `else if` hands the rest to a nested `if`. */
  lemma ElseIfTaken(toks: seq<Lexeme>, c: Expression, body: seq<Statement>, r: nat, nested: Statement, n: nat)
    requires At(toks, r) && r + 2 < |toks| && toks[r].kind == KwElse && toks[r + 1].kind == KwIf
    requires ParseIf(toks, r + 2) == Ok(Parsed(nested, n))
    ensures IfElse(toks, c, body, r) == Ok(Parsed(If(c, Block(body), Some(nested)), n))
  {
    assert Check(toks, r, KwElse) && Advance(toks, r) == r + 1;
    assert Check(toks, r + 1, KwIf) && Advance(toks, r + 1) == r + 2;
  }

  /** An `if` (after the keyword) with no parenthesis: once the condition
      and the block are read, what follows decides the rest. */
  lemma IfHead(toks: seq<Lexeme>, p: nat, c: Expression, q: nat, body: seq<Statement>, r: nat)
    requires At(toks, p) && !Check(toks, p, LParen)
    requires ParseExpression(toks, p) == Ok(Parsed(c, q))
    requires At(toks, q) && ParseBlock(toks, q) == Ok(Parsed(body, r))
    ensures At(toks, r) && ParseIf(toks, p) == IfElse(toks, c, body, r)
  {
    assert CloseParen(toks, q, false) == Ok(q);
  }

  /** A statement that starts with an expression followed by `=` is an
      assignment to that expression. */
  lemma AssignmentStatement(toks: seq<Lexeme>, p: nat, target: Expression, q: nat, value: Expression, r: nat)
    requires At(toks, p) && toks[p].kind !in {KwLet, KwIf, KwFor, KwReturn, LBrace}
    requires ParseExpression(toks, p) == Ok(Parsed(target, q))
    requires At(toks, q) && toks[q].kind == TokenType.Assign && q + 1 < |toks|
    requires ParseExpression(toks, q + 1) == Ok(Parsed(value, r))
    ensures ParseStatement(toks, p) == Ok(Parsed(Statement.Assign(target, value), r))
  {
    ExpressionStatement(toks, p);
    ExprThenAssign(toks, p, target, q, value, r);
  }

  /** A statement that starts with no keyword and no `{` is read as an
      expression statement. */
  lemma ExpressionStatement(toks: seq<Lexeme>, p: nat)
    requires At(toks, p) && toks[p].kind !in {KwLet, KwIf, KwFor, KwReturn, LBrace}
    ensures ParseStatement(toks, p) == ParseExprStmt(toks, p)
  {
  }

  /** An expression followed by `=` and a second expression is an
      assignment. */
  lemma ExprThenAssign(toks: seq<Lexeme>, p: nat, target: Expression, q: nat, value: Expression, r: nat)
    requires At(toks, p) && ParseExpression(toks, p) == Ok(Parsed(target, q))
    requires At(toks, q) && toks[q].kind == TokenType.Assign && q + 1 < |toks|
    requires ParseExpression(toks, q + 1) == Ok(Parsed(value, r))
    ensures ParseExprStmt(toks, p) == Ok(Parsed(Statement.Assign(target, value), r))
  {
    assert Check(toks, q, TokenType.Assign) && Advance(toks, q) == q + 1;
  }
}
