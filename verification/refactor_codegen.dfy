/** The statement and expression printers of the game-description code
    generator (LuduScript-refactor), which emit Python.  The generator
    writes to a stream with a current `indentLevel`; here a statement
    prints to a list of `Line`s, each with its own level, and `Render`
    turns lines into text with four spaces per level.  Expressions print
    without parentheses. */
module RefactorCodegen {
  import opened Results
  import opened RefactorAst
  import opened PyText

  // ---------------------------------------------------------------- Expressions

  /** The text between the operands of a binary expression: `and` and `or`
      have branches of their own, which print like every other operator. */
  function OperatorText(op: string): (r: string)
    ensures r == " " + op + " "
  {
    if op == "and" then " and "
    else if op == "or" then " or "
    else " " + op + " "
  }

  /** The helpers that take the game as their first argument. */
  const GameHelpers: set<string> :=
    {"get_players", "get_role", "kill", "stop_game", "set_data", "get_data", "shuffle"}

  /** What a call prints before its arguments. */
  function CallPrefix(name: string): (r: string)
    ensures name == "len" ==> r == "len("
    ensures name in {"vote", "discussion"} ==> r == "dsl_" + name + "(game, "
  {
    if name == "announce" then "game.announce("
    else if name == "get_players" then "get_players(game, "
    else if name == "get_role" then "get_role(game, "
    else if name == "kill" then "kill(game, "
    else if name == "stop_game" then "stop_game(game, "
    else if name == "set_data" then "set_data(game, "
    else if name == "get_data" then "get_data(game, "
    else if name == "shuffle" then "shuffle(game, "
    else if name == "len" then "len("
    else if name == "vote" then "dsl_vote(game, "
    else if name == "discussion" then "dsl_discussion(game, "
    else "game." + name + "("
  }

  /** A game helper is called with the game as its first argument. */
  lemma HelperCallPrefix(name: string)
    ensures name in GameHelpers ==> CallPrefix(name) == name + "(game, "
  {
    if name == "get_players" {
    } else if name == "get_role" {
    } else if name == "kill" {
    } else if name == "stop_game" {
    } else if name == "set_data" {
    } else if name == "get_data" {
    } else if name == "shuffle" {
    }
  }

  /** Any other name is called as a method of the game. */
  lemma MethodCallPrefix(name: string)
    ensures name !in GameHelpers + {"len", "vote", "discussion"} ==> CallPrefix(name) == "game." + name + "("
  {}

  /** The expression printers.  A string literal is quoted and any other
      literal prints raw; nothing is parenthesised. */
  function ExprText(e: Expression): (r: string)
    ensures e.Literal? ==> (e.ty == "string" <==> r == "\"" + e.value + "\"")
    ensures e.Literal? && e.ty != "string" ==> r == e.value
    decreases e, 0, 0
  {
    match e
    case Literal(value, ty) => if ty == "string" then "\"" + value + "\"" else value
    case Variable(name) => name
    case Binary(left, op, right) => ExprText(left) + OperatorText(op) + ExprText(right)
    case Unary(op, operand) => (if op == "not" then "not " else op) + ExprText(operand)
    case Call(name, args) => CallPrefix(name) + ArgsFrom(args, 0) + ")"
    case List(elements) => "[" + ArgsFrom(elements, 0) + "]"
    case Member(obj, member) => ExprText(obj) + "." + member
    case Index(obj, index) => ExprText(obj) + "[" + ExprText(index) + "]"
  }

  /** The argument loop from position `i`: each argument, followed by
      `", "` unless it is the last. */
  function ArgsFrom(es: seq<Expression>, i: nat): string
    requires i <= |es|
    decreases es, 1, |es| - i
  {
    if i == |es| then ""
    else ExprText(es[i]) + (if i < |es| - 1 then ", " else "") + ArgsFrom(es, i + 1)
  }

  function Texts(es: seq<Expression>): (r: seq<string>)
    ensures |r| == |es| && forall k :: 0 <= k < |es| ==> r[k] == ExprText(es[k])
  {
    seq(|es|, k requires 0 <= k < |es| => ExprText(es[k]))
  }

  /** The argument loop prints exactly the comma-joined argument texts. */
  lemma {:induction false} ArgsAreCommaJoined(es: seq<Expression>, i: nat)
    requires i <= |es|
    ensures ArgsFrom(es, i) == CommaJoin(Texts(es)[i..])
    decreases |es| - i
  {
    if i < |es| {
      ArgsAreCommaJoined(es, i + 1);
      var parts := Texts(es)[i..];
      assert parts[1..] == Texts(es)[i + 1..];
      if i == |es| - 1 {
        assert ArgsFrom(es, i + 1) == "";
      }
    }
  }

  /** A call prints its prefix, the comma-joined arguments and `)`; a list
      prints the comma-joined elements in brackets. */
  lemma CallAndListText(name: string, es: seq<Expression>)
    ensures ExprText(Call(name, es)) == CallPrefix(name) + CommaJoin(Texts(es)) + ")"
    ensures ExprText(List(es)) == "[" + CommaJoin(Texts(es)) + "]"
  {
    ArgsAreCommaJoined(es, 0);
    assert Texts(es)[0..] == Texts(es);
  }

  /** Grouping is not printed: `(a op b) op c` and `a op (b op c)` give
      the same text. */
  lemma GroupingIsLost(a: Expression, op: string, b: Expression, c: Expression)
    ensures ExprText(Binary(Binary(a, op, b), op, c)) == ExprText(Binary(a, op, Binary(b, op, c)))
  {
    var A, O, B, C := ExprText(a), OperatorText(op), ExprText(b), ExprText(c);
    assert (A + O + B) + O + C == A + O + (B + O + C);
  }

  // ----------------------------------------------------------------- Statements

  /** The statement printers.  Every statement prints at least one line,
      the first at the current level and none shallower: the level an
      `if` or `for` raises is lowered again after its body. */
  function StmtLines(s: Statement, level: nat): (r: seq<Line>)
    ensures |r| >= 1 && r[0].level == level
    ensures forall k :: 0 <= k < |r| ==> r[k].level >= level
    ensures s.If? ==> r[0].text == "if " + ExprText(s.condition) + ":"
    ensures s.If? && s.elseBranch.None? ==> forall k :: 1 <= k < |r| ==> r[k].level > level
    decreases s, 0, 0
  {
    match s
    case Block(ss) => BlockLines(ss, level)
    case Let(name, initial) =>
      [Line(level, name + " = " + (if initial.Some? then ExprText(initial.value) else "None"))]
    case Assign(target, value) => [Line(level, ExprText(target) + " = " + ExprText(value))]
    case If(c, thenB, elseB) =>
      var head := [Line(level, "if " + ExprText(c) + ":")] + StmtLines(thenB, level + 1);
      if elseB.Some? then head + [Line(level, "else:")] + StmtLines(elseB.value, level + 1)
      else head
    case For(it, iterable, body) =>
      [Line(level, "for " + it + " in " + ExprText(iterable) + ":")] + BlockLines(body, level + 1)
    case Return(v) => [Line(level, "return" + (if v.Some? then " " + ExprText(v.value) else ""))]
    case ExprStmt(e) => [Line(level, ExprText(e))]
  }

  /** A block: `pass` when empty, otherwise its statements in order. */
  function BlockLines(ss: seq<Statement>, level: nat): (r: seq<Line>)
    ensures |r| >= 1 && r[0].level == level
    ensures forall k :: 0 <= k < |r| ==> r[k].level >= level
    ensures |ss| == 0 ==> r == [Line(level, "pass")]
    ensures |ss| > 0 ==> |r| >= |ss|
    decreases ss, 2, 0
  {
    if |ss| == 0 then [Line(level, "pass")] else StmtsFrom(ss, 0, level)
  }

  function StmtsFrom(ss: seq<Statement>, i: nat, level: nat): (r: seq<Line>)
    requires i <= |ss|
    ensures |r| >= |ss| - i
    ensures i < |ss| ==> r[0].level == level
    ensures forall k :: 0 <= k < |r| ==> r[k].level >= level
    decreases ss, 1, |ss| - i
  {
    if i == |ss| then [] else StmtLines(ss[i], level) + StmtsFrom(ss, i + 1, level)
  }

  /** The text a statement prints at `level`. */
  function StmtText(s: Statement, level: nat): string {
    Render(StmtLines(s, level))
  }

  /** An `if` with an `else` prints `else:` at the level of the `if`,
      after the then-branch and before the else-branch. */
  lemma IfElseLayout(c: Expression, t: Statement, e: Statement, level: nat)
    ensures var r := StmtLines(If(c, t, Some(e)), level);
      var n := |StmtLines(t, level + 1)|;
      && r[n + 1] == Line(level, "else:")
      && (forall k :: 1 <= k <= n ==> r[k].level > level)
      && (forall k :: n + 1 < k < |r| ==> r[k].level > level)
  {
  }

  /** The text of a statement starts with the indentation of its level. */
  lemma TextStartsIndented(s: Statement, level: nat)
    ensures |StmtText(s, level)| >= 4 * level && StmtText(s, level)[..4 * level] == Indent(level)
  {
    var lines := StmtLines(s, level);
    assert StmtText(s, level) == Indent(level) + (lines[0].text + "\n" + Render(lines[1..]));
  }
}
