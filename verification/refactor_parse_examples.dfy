/** How the game-description front end parses some short token patterns,
    wherever they occur in a token list: grouping and precedence of binary
    operators, what `(args)` does after a name and after a member access,
    how `else if` nests, and what an assignment's target is. */
module RefactorParseExamples {
  import opened Results
  import opened RefactorLexer
  import opened RefactorAst
  import opened RefactorParser
  import opened RefactorParserFacts

  /** The tokens that end an expression in these patterns. */
  const Enders: set<TokenType> := {EofToken, RParen, RBracket, LBrace, RBrace, Comma, TokenType.Assign}

  /** `a - b - c` groups to the left: `(a - b) - c`. */
  lemma SubtractionGroupsLeft(toks: seq<Lexeme>, p: nat)
    requires At(toks, p + 5)
    requires toks[p].kind == Identifier && toks[p + 1].kind == Minus && toks[p + 2].kind == Identifier
    requires toks[p + 3].kind == Minus && toks[p + 4].kind == Identifier && toks[p + 5].kind in Enders
    ensures ParseExpression(toks, p)
            == Ok(Parsed(Binary(Binary(Variable(toks[p].text), toks[p + 1].text, Variable(toks[p + 2].text)),
                                toks[p + 3].text, Variable(toks[p + 4].text)), p + 5))
  {
    var a, b, c := Variable(toks[p].text), Variable(toks[p + 2].text), Variable(toks[p + 4].text);
    var abc := Binary(Binary(a, toks[p + 1].text, b), toks[p + 3].text, c);
    assert ParseLevel(toks, p, 2) == Ok(Parsed(abc, p + 5)) by {
      SubtractionLoop(toks, p);
      NameOperand(toks, p);
      LevelStarts(toks, p, 2, a, p + 1, abc, p + 5);
    }
    TermIsExpression(toks, p, abc, p + 5);
  }

  /** The term loop of `a - b - c` after `a`: it folds `b`, then `c`. */
  lemma SubtractionLoop(toks: seq<Lexeme>, p: nat)
    requires At(toks, p + 5)
    requires toks[p].kind == Identifier && toks[p + 1].kind == Minus && toks[p + 2].kind == Identifier
    requires toks[p + 3].kind == Minus && toks[p + 4].kind == Identifier && toks[p + 5].kind in Enders
    ensures LevelLoop(toks, Variable(toks[p].text), p + 1, 2)
            == Ok(Parsed(Binary(Binary(Variable(toks[p].text), toks[p + 1].text, Variable(toks[p + 2].text)),
                                toks[p + 3].text, Variable(toks[p + 4].text)), p + 5))
  {
    var a, b, c := Variable(toks[p].text), Variable(toks[p + 2].text), Variable(toks[p + 4].text);
    var ab := Binary(a, toks[p + 1].text, b);
    var abc := Binary(ab, toks[p + 3].text, c);
    NameOperand(toks, p + 4);
    LoopStops(toks, abc, p + 5, 2);
    LoopTakes(toks, ab, p + 3, 2, c, p + 5, abc, abc, p + 5);
    NameOperand(toks, p + 2);
    LoopTakes(toks, a, p + 1, 2, b, p + 3, ab, abc, p + 5);
  }

  /** `a + b * c`: the factor level binds tighter than the term level. */
  lemma ProductBindsTighter(toks: seq<Lexeme>, p: nat)
    requires At(toks, p + 5)
    requires toks[p].kind == Identifier && toks[p + 1].kind == Plus && toks[p + 2].kind == Identifier
    requires toks[p + 3].kind == Star && toks[p + 4].kind == Identifier && toks[p + 5].kind in Enders
    ensures ParseExpression(toks, p)
            == Ok(Parsed(Binary(Variable(toks[p].text), toks[p + 1].text,
                                Binary(Variable(toks[p + 2].text), toks[p + 3].text, Variable(toks[p + 4].text))), p + 5))
  {
    var a, b, c := Variable(toks[p].text), Variable(toks[p + 2].text), Variable(toks[p + 4].text);
    var bc := Binary(b, toks[p + 3].text, c);
    var abc := Binary(a, toks[p + 1].text, bc);
    assert ParseLevel(toks, p, 2) == Ok(Parsed(abc, p + 5)) by {
      ProductOperand(toks, p + 2);
      LoopStops(toks, abc, p + 5, 2);
      LoopTakes(toks, a, p + 1, 2, bc, p + 5, abc, abc, p + 5);
      NameOperand(toks, p);
      LevelStarts(toks, p, 2, a, p + 1, abc, p + 5);
    }
    TermIsExpression(toks, p, abc, p + 5);
  }

  /** A term-level operand followed by an ender is the whole expression. */
  lemma TermIsExpression(toks: seq<Lexeme>, p: nat, x: Expression, q: nat)
    requires At(toks, p) && At(toks, q) && toks[q].kind in Enders
    requires ParseLevel(toks, p, 2) == Ok(Parsed(x, q))
    ensures ParseExpression(toks, p) == Ok(Parsed(x, q))
  {
    OperandIsExpression(toks, p, x, q, 2);
  }

  /** `b * c` followed by an ender is one factor-level operand. */
  lemma ProductOperand(toks: seq<Lexeme>, p: nat)
    requires At(toks, p + 3)
    requires toks[p].kind == Identifier && toks[p + 1].kind == Star
    requires toks[p + 2].kind == Identifier && toks[p + 3].kind in Enders
    ensures ParseLevel(toks, p, 3)
            == Ok(Parsed(Binary(Variable(toks[p].text), toks[p + 1].text, Variable(toks[p + 2].text)), p + 3))
  {
    var b, c := Variable(toks[p].text), Variable(toks[p + 2].text);
    var bc := Binary(b, toks[p + 1].text, c);
    NameUnary(toks, p + 2);
    LoopStops(toks, bc, p + 3, 3);
    LoopTakes(toks, b, p + 1, 3, c, p + 3, bc, bc, p + 3);
    NameUnary(toks, p);
    LevelStarts(toks, p, 3, b, p + 1, bc, p + 3);
  }

  /** `f(x)`: arguments after a bare name make a call of that name. */
  lemma CallOnName(toks: seq<Lexeme>, p: nat)
    requires At(toks, p + 4)
    requires toks[p].kind == Identifier && toks[p + 1].kind == LParen && toks[p + 2].kind == Identifier
    requires toks[p + 3].kind == RParen && toks[p + 4].kind !in {Dot, LBracket, LParen}
    ensures ParseLevel(toks, p, UnaryLevel)
            == Ok(Parsed(Call(toks[p].text, [Variable(toks[p + 2].text)]), p + 4))
  {
    var x := Variable(toks[p + 2].text);
    var call := Call(toks[p].text, [x]);
    NameExpression(toks, p + 2);
    OneArgument(toks, p + 2, RParen, x, p + 3);
    ChainStops(toks, call, p + 4);
    ChainCall(toks, Variable(toks[p].text), p + 1, [x], p + 3, call);
    NameStartsChain(toks, p, call, p + 4);
  }

  /** `o.m(x)`: arguments after anything but a bare name are parsed and
      dropped, leaving the member access. */
  lemma CallAfterMemberIsDropped(toks: seq<Lexeme>, p: nat)
    requires At(toks, p + 6)
    requires toks[p].kind == Identifier && toks[p + 1].kind == Dot && toks[p + 2].kind == Identifier
    requires toks[p + 3].kind == LParen && toks[p + 4].kind == Identifier && toks[p + 5].kind == RParen
    requires toks[p + 6].kind !in {Dot, LBracket, LParen}
    ensures ParseLevel(toks, p, UnaryLevel)
            == Ok(Parsed(Member(Variable(toks[p].text), toks[p + 2].text), p + 6))
  {
    var om := Member(Variable(toks[p].text), toks[p + 2].text);
    var x := Variable(toks[p + 4].text);
    NameExpression(toks, p + 4);
    OneArgument(toks, p + 4, RParen, x, p + 5);
    ChainStops(toks, om, p + 6);
    ChainCall(toks, om, p + 3, [x], p + 5, om);
    ChainMember(toks, Variable(toks[p].text), p + 1, om, p + 6);
    NameStartsChain(toks, p, om, p + 6);
  }

  /** `if c {}` with nothing after it: no else branch. */
  lemma IfEmptyBlock(toks: seq<Lexeme>, p: nat)
    requires At(toks, p + 3)
    requires toks[p].kind == Identifier && toks[p + 1].kind == LBrace && toks[p + 2].kind == RBrace
    requires toks[p + 3].kind != KwElse
    ensures ParseIf(toks, p) == Ok(Parsed(If(Variable(toks[p].text), Block([]), None), p + 3))
  {
    NameExpression(toks, p);
    EmptyBlock(toks, p + 1);
    IfWithoutElse(toks, p, Variable(toks[p].text), p + 1, [], p + 3);
  }

  /** `if c {} else if d {}`: the `else if` becomes a nested `If` in the
      else branch (the tokens start after the first `if`). */
  lemma ElseIfNests(toks: seq<Lexeme>, p: nat)
    requires At(toks, p + 8)
    requires toks[p].kind == Identifier && toks[p + 1].kind == LBrace && toks[p + 2].kind == RBrace
    requires toks[p + 3].kind == KwElse && toks[p + 4].kind == KwIf
    requires toks[p + 5].kind == Identifier && toks[p + 6].kind == LBrace && toks[p + 7].kind == RBrace
    requires toks[p + 8].kind != KwElse
    ensures ParseIf(toks, p)
            == Ok(Parsed(If(Variable(toks[p].text), Block([]),
                            Some(If(Variable(toks[p + 5].text), Block([]), None))), p + 8))
  {
    var inner := If(Variable(toks[p + 5].text), Block([]), None);
    IfEmptyBlock(toks, p + 5);
    NameExpression(toks, p);
    EmptyBlock(toks, p + 1);
    IfElseIf(toks, p, Variable(toks[p].text), p + 1, [], p + 3, inner, p + 8);
  }

  /** `o.f` followed by `=` is one expression, a member access. */
  lemma MemberTarget(toks: seq<Lexeme>, p: nat)
    requires At(toks, p + 3)
    requires toks[p].kind == Identifier && toks[p + 1].kind == Dot && toks[p + 2].kind == Identifier
    requires toks[p + 3].kind == TokenType.Assign
    ensures ParseExpression(toks, p) == Ok(Parsed(Member(Variable(toks[p].text), toks[p + 2].text), p + 3))
  {
    var of := Member(Variable(toks[p].text), toks[p + 2].text);
    ChainStops(toks, of, p + 3);
    ChainMember(toks, Variable(toks[p].text), p + 1, of, p + 3);
    NameStartsChain(toks, p, of, p + 3);
    LoopStops(toks, of, p + 3, 3);
    LevelStarts(toks, p, 3, of, p + 3, of, p + 3);
    OperandIsExpression(toks, p, of, p + 3, 3);
  }

  /** A number followed by an ender is one expression. */
  lemma NumberExpression(toks: seq<Lexeme>, p: nat)
    requires At(toks, p + 1) && toks[p].kind == NumberLit && toks[p + 1].kind in Enders
    ensures ParseExpression(toks, p) == Ok(Parsed(Literal(toks[p].text, "number"), p + 1))
  {
    var n := Literal(toks[p].text, "number");
    NumberUnary(toks, p);
    LoopStops(toks, n, p + 1, 3);
    LevelStarts(toks, p, 3, n, p + 1, n, p + 1);
    OperandIsExpression(toks, p, n, p + 1, 3);
  }

  /** `o.f = 1`: the target of an assignment is the whole expression before
      `=`, here a member access. */
  lemma MemberAssignment(toks: seq<Lexeme>, p: nat)
    requires At(toks, p + 5)
    requires toks[p].kind == Identifier && toks[p + 1].kind == Dot && toks[p + 2].kind == Identifier
    requires toks[p + 3].kind == TokenType.Assign && toks[p + 4].kind == NumberLit && toks[p + 5].kind in Enders
    ensures ParseStatement(toks, p)
            == Ok(Parsed(Statement.Assign(Member(Variable(toks[p].text), toks[p + 2].text),
                                     Literal(toks[p + 4].text, "number")), p + 5))
  {
    MemberTarget(toks, p);
    NumberExpression(toks, p + 4);
    AssignmentStatement(toks, p, Member(Variable(toks[p].text), toks[p + 2].text), p + 3,
                        Literal(toks[p + 4].text, "number"), p + 5);
  }
}
