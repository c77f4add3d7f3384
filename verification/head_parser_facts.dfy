/** Properties of the LuduScript-head front end as a whole: what a
    successful parse produces, and how operators group. */
module HeadParserFacts {
  import opened Results
  import opened HeadLexer
  import opened HeadAst
  import opened HeadParser

  /** Every program the front end accepts is well-formed: known operators,
      one to three `for` arguments, never both an initialiser expression and
      an initialiser block. */
  lemma ParsedProgramsAreWellFormed(src: string)
    ensures Parse(src).Ok? ==> WfStmts(Parse(src).value.stmts)
  {
    var toks := Tokenize(src);
    assert AllCanonical(toks);
  }

  function Id(name: string): Token { Token(Kind.Ident, name, 1) }
  function Op(k: Kind, text: string): Token { Token(k, text, 1) }
  function Var(name: string): Expr { Expr.Ident(name, 1) }

  /** An identifier followed by a token that continues no expression of
      the multiplicative level or above is a complete operand there. */
  lemma IdentOperand(toks: seq<Token>, p: nat)
    requires p + 1 < |toks| && toks[p].kind == Kind.Ident
    requires toks[p + 1].kind !in {LParen, Dot, Mul, Div, Mod}
    ensures ParseLevel(toks, p, UnaryLevel) == Ok(Parsed(Expr.Ident(toks[p].text, toks[p].line), p + 1))
    ensures ParseLevel(toks, p, 5) == Ok(Parsed(Expr.Ident(toks[p].text, toks[p].line), p + 1))
  {
    var x := Expr.Ident(toks[p].text, toks[p].line);
    assert ParsePostfix(toks, x, p + 1) == Ok(Parsed(x, p + 1));
    assert ParsePrimary(toks, p) == Ok(Parsed(x, p + 1));
    assert ParseUnary(toks, p) == Ok(Parsed(x, p + 1));
    assert LevelLoop(toks, x, p + 1, 5) == Ok(Parsed(x, p + 1));
  }

  /** At the end of the tokens every lower level's loop stops at once. */
  lemma LowerLevelsStop(toks: seq<Token>, x: Expr, p: nat)
    requires p < |toks| && toks[p].kind == End
    requires ParseLevel(toks, 0, 4) == Ok(Parsed(x, p))
    ensures ParseExpr(toks, 0) == Ok(Parsed(x, p))
  {
    assert ParseLevel(toks, 0, 3) == Ok(Parsed(x, p));
    assert ParseLevel(toks, 0, 2) == Ok(Parsed(x, p));
    assert ParseLevel(toks, 0, 1) == Ok(Parsed(x, p));
    assert ParseLevel(toks, 0, 0) == Ok(Parsed(x, p));
  }

  /** A level's loop stops at once at a token that is no operator of it. */
  lemma LoopStops(toks: seq<Token>, lhs: Expr, p: nat, level: nat)
    requires p <= |toks| && level < UnaryLevel && Cur(toks, p).kind !in LevelOps(level)
    ensures LevelLoop(toks, lhs, p, level) == Ok(Parsed(lhs, p))
  {}

  /** A level's loop takes an operator of its level and the operand after
      it, folding both into the left operand before going on. */
  lemma LoopTakes(toks: seq<Token>, lhs: Expr, p: nat, level: nat, rhs: Expr, q: nat, res: Expr, r: nat)
    requires p < |toks| && level < UnaryLevel && toks[p].kind in LevelOps(level)
    requires ParseLevel(toks, p + 1, level + 1) == Ok(Parsed(rhs, q))
    requires LevelLoop(toks, Binary(lhs, toks[p].text, rhs, toks[p].line), q, level) == Ok(Parsed(res, r))
    ensures LevelLoop(toks, lhs, p, level) == Ok(Parsed(res, r))
  {}

  /** A level parses its first operand one level up, then runs its loop. */
  lemma LevelStarts(toks: seq<Token>, p: nat, level: nat, x: Expr, q: nat, res: Expr, r: nat)
    requires p <= |toks| && level < UnaryLevel
    requires ParseLevel(toks, p, level + 1) == Ok(Parsed(x, q))
    requires LevelLoop(toks, x, q, level) == Ok(Parsed(res, r))
    ensures ParseLevel(toks, p, level) == Ok(Parsed(res, r))
  {}

  /** `a - b - c` groups to the left: `(a - b) - c`. */
  lemma SubtractionGroupsLeft()
    ensures ParseExpr([Id("a"), Op(Minus, "-"), Id("b"), Op(Minus, "-"), Id("c"), Op(End, "")], 0)
            == Ok(Parsed(Binary(Binary(Var("a"), "-", Var("b"), 1), "-", Var("c"), 1), 5))
  {
    SubtractionChain([Id("a"), Op(Minus, "-"), Id("b"), Op(Minus, "-"), Id("c"), Op(End, "")]);
  }

  /** Any `x - y - z` at the end of the tokens groups to the left. */
  lemma SubtractionChain(toks: seq<Token>)
    requires |toks| == 6 && toks[0].kind == Kind.Ident && toks[1].kind == Minus && toks[2].kind == Kind.Ident
    requires toks[3].kind == Minus && toks[4].kind == Kind.Ident && toks[5].kind == End
    ensures ParseExpr(toks, 0)
            == Ok(Parsed(Binary(Binary(Expr.Ident(toks[0].text, toks[0].line), toks[1].text, Expr.Ident(toks[2].text, toks[2].line), toks[1].line),
                                toks[3].text, Expr.Ident(toks[4].text, toks[4].line), toks[3].line), 5))
  {
    var a, b, c := Expr.Ident(toks[0].text, toks[0].line), Expr.Ident(toks[2].text, toks[2].line), Expr.Ident(toks[4].text, toks[4].line);
    var ab := Binary(a, toks[1].text, b, toks[1].line);
    var abc := Binary(ab, toks[3].text, c, toks[3].line);
    assert ParseLevel(toks, 0, 4) == Ok(Parsed(abc, 5)) by {
      IdentOperand(toks, 0);
      IdentOperand(toks, 2);
      IdentOperand(toks, 4);
      LoopStops(toks, abc, 5, 4);
      LoopTakes(toks, ab, 3, 4, c, 5, abc, 5);
      LoopTakes(toks, a, 1, 4, b, 3, abc, 5);
      LevelStarts(toks, 0, 4, a, 1, abc, 5);
    }
    LowerLevelsStop(toks, abc, 5);
  }

  /** A run of `n` prefix operators in front of a primary expression nests
      into `n` unary nodes, the first operator outermost. */
  lemma {:induction false} PrefixesNest(toks: seq<Token>, pos: nat, n: nat)
    requires pos + n <= |toks|
    requires forall k :: pos <= k < pos + n ==> toks[k].kind == Not || toks[k].kind == Minus
    requires Cur(toks, pos + n).kind != Not && Cur(toks, pos + n).kind != Minus
    ensures ParseUnary(toks, pos) == match ParsePrimary(toks, pos + n)
              case Ok(p) => Ok(Parsed(Prefixed(toks[pos..pos + n], p.node), p.next))
              case Err(m) => Err(m)
    decreases n
  {
    if n > 0 {
      PrefixesNest(toks, pos + 1, n - 1);
      assert toks[pos..pos + n][1..] == toks[pos + 1..pos + n];
    }
  }

  /** The positions of the `elif` keywords that `ParseElifs` reads from
      `pos`, each one where the clause before it ended. */
  function ElifStarts(toks: seq<Token>, pos: nat): (ps: seq<nat>)
    requires pos <= |toks|
    ensures forall k :: 0 <= k < |ps| ==> pos <= ps[k] < |toks| && toks[ps[k]].kind == KwElif
    decreases |toks| - pos
  {
    if Cur(toks, pos).kind != KwElif then []
    else match ParseGuarded(toks, pos + 1, "elif")
      case Err(_) => []
      case Ok(c) => [pos] + ElifStarts(toks, c.next)
  }

  /** An `elif` keyword stands at `q`, and the guarded block after it is
      `c`, ending at `next`. */
  predicate ElifAt(toks: seq<Token>, q: nat, c: Elif, next: nat) {
    q < |toks| && toks[q].kind == KwElif && ParseGuarded(toks, q + 1, "elif") == Ok(Parsed(c, next))
  }

  /** The clause after the `elif` at each `ps[k]` is `clauses[k]` and ends
      where the next keyword stands, the last one at `end`. */
  predicate ElifChain(toks: seq<Token>, ps: seq<nat>, clauses: seq<Elif>, end: nat) {
    |ps| == |clauses|
    && (forall k :: 0 <= k < |ps| - 1 ==> ps[k] < ps[k + 1])
    && forall k :: 0 <= k < |ps| ==> ElifAt(toks, ps[k], clauses[k], if k + 1 < |ps| then ps[k + 1] else end)
  }

  lemma {:induction false} ElifChainCons(toks: seq<Token>, p: nat, c: Elif, ps: seq<nat>, clauses: seq<Elif>, end: nat)
    requires ElifAt(toks, p, c, if |ps| > 0 then ps[0] else end)
    requires ElifChain(toks, ps, clauses, end)
    requires |ps| > 0 ==> p < ps[0]
    ensures ElifChain(toks, [p] + ps, [c] + clauses, end)
  {
    var qs, cs := [p] + ps, [c] + clauses;
    assert forall k :: 0 < k < |qs| ==> qs[k] == ps[k - 1] && cs[k] == clauses[k - 1];
    assert forall k :: 0 <= k < |qs| - 1 ==> qs[k] < qs[k + 1];
    forall k | 0 <= k < |qs|
      ensures ElifAt(toks, qs[k], cs[k], if k + 1 < |qs| then qs[k + 1] else end)
    {
      if k > 0 {
        assert ElifAt(toks, ps[k - 1], clauses[k - 1], if k < |ps| then ps[k] else end);
      }
    }
    assert |qs| == |cs|;
    assert ElifChain(toks, qs, cs, end);
  }

  /** The `elif` clauses come out in source order: the k-th clause is the
      guarded block after the k-th `elif` keyword, the keywords are
      increasing, the first stands at `pos` and each clause ends where the
      next keyword stands. */
  lemma {:induction false} ElifsInOrder(toks: seq<Token>, pos: nat)
    requires pos <= |toks|
    ensures var r := ParseElifs(toks, pos); var ps := ElifStarts(toks, pos);
            r.Ok? ==>
              ElifChain(toks, ps, r.value.node, r.value.next)
              && (|ps| == 0 <==> r.value.next == pos)
              && (|ps| > 0 ==> ps[0] == pos)
    decreases |toks| - pos
  {
    var r := ParseElifs(toks, pos);
    if Cur(toks, pos).kind == KwElif && r.Ok? {
      var c := ParseGuarded(toks, pos + 1, "elif").value;
      var rest := ParseElifs(toks, c.next).value;
      ElifsInOrder(toks, c.next);
      var tail := ElifStarts(toks, c.next);
      assert ElifStarts(toks, pos) == [pos] + tail;
      assert r.value == Parsed([c.node] + rest.node, rest.next);
      ElifChainCons(toks, pos, c.node, tail, rest.node, rest.next);
    }
  }
}
