/** The WolfParser (the repository's top-level `src/parser.cpp`).  It does
    not build expression trees: it glues token texts into strings and
    lines, fills a `ParseResult` record, and reports errors by setting
    `hasError` and `errorMessage` (the last error wins) without stopping.
    The parser's state is the token position, the record, the parse
    context and the in-game flag; every parsing routine is a function from
    state to state over the token list the lexer produces.  Pulling a token
    past `End` gives `End` again, so `Next` stays on the last token. */
module WolfParser {
  import opened WolfLexer

  datatype Param = Param(name: string, ty: string)

  datatype ActionDef = ActionDef(name: string, params: seq<Param>, bodyLines: seq<string>, line: int)

  datatype VariableDef = VariableDef(name: string, typeKeyword: string, value: string, line: int)

  datatype StepDef = StepDef(name: string, roles: seq<string>, actionName: string,
                             condition: string, bodyLines: seq<string>, line: int)

  datatype PhaseDef = PhaseDef(name: string, steps: seq<StepDef>, line: int)

  datatype MethodDef = MethodDef(name: string, params: seq<Param>, bodyLines: seq<string>, line: int)

  datatype SetupDef = SetupDef(bodyLines: seq<string>, line: int)

  datatype ParseResult = ParseResult(
    gameName: string,
    roles: seq<string>,
    actions: seq<ActionDef>,
    phases: seq<PhaseDef>,
    variables: map<string, VariableDef>,
    methods: seq<MethodDef>,
    setup: SetupDef,
    hasError: bool,
    errorMessage: string)

  /** A fresh record: everything empty and no error. */
  const EmptyResult: ParseResult :=
    ParseResult("", [], [], [], map[], [], SetupDef([], 0), false, "")

  /** The contexts the parser actually enters. */
  datatype Context = TopLevel | InGame | InPhase

  datatype PState = PState(pos: nat, res: ParseResult, ctx: Context, inGame: bool)

  const Initial: PState := PState(0, EmptyResult, TopLevel, false)

  /** The words that start a definition and so end an expression or a
      statement line. */
  const BlockKeywords: set<string> :=
    {"game", "enum", "action", "phase", "step", "def", "setup", "num", "str", "bool", "obj"}

  /** The type words that start a variable definition. */
  const VarTypes: set<string> := {"num", "str", "bool", "obj"}

  // ------------------------------------------------------------------ Cursor

  /** A token list as the lexer delivers it: ending with `End`. */
  predicate Ended(toks: seq<Token>) {
    |toks| > 0 && toks[|toks| - 1].kind == End
  }

  predicate Valid(toks: seq<Token>, st: PState) {
    Ended(toks) && st.pos < |toks|
  }

  /** A routine's result is a valid state no earlier than where it began. */
  predicate Moves(toks: seq<Token>, st: PState, r: PState) {
    Valid(toks, r) && st.pos <= r.pos
  }

  /** The game's name is left alone. */
  predicate NameKept(st: PState, r: PState) {
    r.res.gameName == st.res.gameName
  }

  /** The phases keep their number, and all but the last are left alone:
      only the last phase can gain steps. */
  predicate EarlierPhasesKept(st: PState, r: PState) {
    var a, b := st.res.phases, r.res.phases;
    |a| == |b| && (|a| > 0 ==> b[..|a| - 1] == a[..|a| - 1])
  }

  /** The position after `consume`: the next token, or `End` again. */
  function Next(toks: seq<Token>, p: nat): (q: nat)
    requires Ended(toks) && p < |toks|
    ensures q < |toks|
    ensures toks[p].kind == End ==> q == p
    ensures toks[p].kind != End ==> q == p + 1
  {
    if toks[p].kind == End then p else p + 1
  }

  function Consume(toks: seq<Token>, st: PState): (r: PState)
    requires Valid(toks, st)
    ensures Valid(toks, r) && r == st.(pos := Next(toks, st.pos))
  {
    st.(pos := Next(toks, st.pos))
  }

  predicate IsWord(toks: seq<Token>, p: nat, w: string)
    requires p < |toks|
  {
    toks[p].kind == Ident && toks[p].text == w
  }

  /** `b` differs from `a` at most in the error flag and message. */
  predicate ErrorOnly(a: ParseResult, b: ParseResult) {
    && b.gameName == a.gameName && b.roles == a.roles && b.actions == a.actions
    && b.phases == a.phases && b.variables == a.variables && b.methods == a.methods
    && b.setup == a.setup
  }

  /** `error`: the flag is set and the message replaces any earlier one;
      nothing else changes and parsing goes on. */
  function Fail(st: PState, msg: string): (r: PState)
    ensures r.res.hasError && r.res.errorMessage == msg
    ensures r.pos == st.pos && r.ctx == st.ctx && r.inGame == st.inGame
    ensures ErrorOnly(st.res, r.res)
  {
    st.(res := st.res.(hasError := true, errorMessage := msg))
  }

  /** `expect`: a token of the wrong kind is reported, and one token is
      consumed either way. */
  function Expect(toks: seq<Token>, st: PState, kind: Kind, msg: string): (r: PState)
    requires Valid(toks, st)
    ensures Valid(toks, r) && r.pos == Next(toks, st.pos)
    ensures r.ctx == st.ctx && r.inGame == st.inGame && ErrorOnly(st.res, r.res)
    ensures toks[st.pos].kind == kind ==> r.res == st.res
    ensures toks[st.pos].kind != kind ==> r.res == Fail(st, msg).res
  {
    Consume(toks, if toks[st.pos].kind != kind then Fail(st, msg) else st)
  }

  /** `expectIdent`: the same for one particular word. */
  function ExpectWord(toks: seq<Token>, st: PState, w: string, msg: string): (r: PState)
    requires Valid(toks, st)
    ensures Valid(toks, r) && r.pos == Next(toks, st.pos)
    ensures r.ctx == st.ctx && r.inGame == st.inGame && ErrorOnly(st.res, r.res)
    ensures IsWord(toks, st.pos, w) ==> r.res == st.res
    ensures !IsWord(toks, st.pos, w) ==> r.res == Fail(st, msg).res
  {
    Consume(toks, if !IsWord(toks, st.pos, w) then Fail(st, msg) else st)
  }

  /** `checkInGameContext`. */
  function InGameCheck(st: PState, what: string): (r: PState)
    ensures r.pos == st.pos && r.ctx == st.ctx && r.inGame == st.inGame && ErrorOnly(st.res, r.res)
    ensures st.inGame ==> r == st
    ensures !st.inGame ==> r == Fail(st, what + " must be inside a game definition")
  {
    if !st.inGame then Fail(st, what + " must be inside a game definition") else st
  }

  /** `checkNotInTopLevel`. */
  function NotTopCheck(st: PState, what: string): (r: PState)
    ensures r.pos == st.pos && r.ctx == st.ctx && r.inGame == st.inGame && ErrorOnly(st.res, r.res)
    ensures st.ctx != TopLevel ==> r == st
    ensures st.ctx == TopLevel ==> r == Fail(st, what + " cannot be at top level")
  {
    if st.ctx == TopLevel then Fail(st, what + " cannot be at top level") else st
  }

  // ------------------------------------------------------- Expressions, lines

  predicate IsBlockKeyword(t: Token) {
    t.kind == Ident && t.text in BlockKeywords
  }

  /** Token texts, each followed by one space. */
  function Spaced(ts: seq<Token>): string {
    if |ts| == 0 then "" else ts[0].text + " " + Spaced(ts[1..])
  }

  predicate EndsExpression(t: Token) {
    t.kind in {Semi, RParen, RBrace, Comma, End} || IsBlockKeyword(t)
  }

  // Results that pair what was read with where reading stopped: a token
  // position (`...At`) or the whole parser state (`...In`).
  type TextAt = (string, nat)
  type LinesAt = (seq<string>, nat)
  type ParamsAt = (seq<Param>, nat)
  type TextIn = (string, PState)
  type LinesIn = (seq<string>, PState)
  type HeaderIn = (Header, PState)
  type CallableIn = (seq<Param>, seq<string>, PState)

  /** `parseExpression`: the texts of the tokens up to the first `;`, `)`,
      `}`, `,`, `End` or block keyword, each followed by a space. */
  function ParseExpression(toks: seq<Token>, p: nat): (r: TextAt)
    requires Ended(toks) && p < |toks|
    ensures p <= r.1 < |toks| && EndsExpression(toks[r.1])
    ensures forall k :: p <= k < r.1 ==> !EndsExpression(toks[k])
    ensures var e := r.1; r.0 == Spaced(toks[p..e])
    decreases |toks| - p
  {
    if EndsExpression(toks[p]) then ("", p)
    else
      var rest := ParseExpression(toks, p + 1);
      assert toks[p..rest.1] == [toks[p]] + toks[p + 1..rest.1];
      (toks[p].text + " " + rest.0, rest.1)
  }

  predicate EndsLine(t: Token) {
    t.kind in {Semi, RBrace, End} || IsBlockKeyword(t)
  }

  /** Where a statement line stops: at `;`, `}`, `End` or a block keyword. */
  function LineEnd(toks: seq<Token>, p: nat): (e: nat)
    requires Ended(toks) && p < |toks|
    ensures p <= e < |toks| && EndsLine(toks[e])
    ensures forall k :: p <= k < e ==> !EndsLine(toks[k])
    decreases |toks| - p
  {
    if EndsLine(toks[p]) then p else LineEnd(toks, p + 1)
  }

  /** One round of `parseStatementList`'s outer loop as written, at a
      token that is not `}` or `End`: a `;` is skipped; otherwise the inner
      loop collects a line, stopping at once at a block keyword, and a
      non-empty line is kept. */
  function StatementStepAsWritten(toks: seq<Token>, p: nat, lines: seq<string>): (r: LinesAt)
    requires Ended(toks) && p < |toks| && toks[p].kind !in {RBrace, End}
    ensures p <= r.1 < |toks|
  {
    if toks[p].kind == Semi then (lines, p + 1)
    else
      var e := LineEnd(toks, p);
      var line := Spaced(toks[p..e]);
      (if line != "" then lines + [line] else lines, if toks[e].kind == Semi then e + 1 else e)
  }

  /** A line that starts with a block keyword (`num x = 1;` in a step body)
      stops the outer loop dead: the round changes nothing, and since the
      keyword is neither `}` nor `End` the loop runs that round forever. */
  lemma KeywordLineStalls(toks: seq<Token>, p: nat, lines: seq<string>)
    requires Ended(toks) && p < |toks| && IsBlockKeyword(toks[p])
    ensures toks[p].kind !in {RBrace, End}
    ensures StatementStepAsWritten(toks, p, lines) == (lines, p)
  {
    assert LineEnd(toks, p) == p;
  }

  /** `parseStatementList`, with a block keyword ending the line only once
      the line has text (so a keyword at the start of a line begins that
      line): the lines up to the `}` or `End` that ends the list, `;`
      separators dropped, each line non-empty. */
  function StatementList(toks: seq<Token>, p: nat): (r: LinesAt)
    requires Ended(toks) && p < |toks|
    ensures p <= r.1 < |toks| && toks[r.1].kind in {RBrace, End}
    ensures forall k :: p <= k < r.1 ==> toks[k].kind !in {RBrace, End}
    ensures forall i :: 0 <= i < |r.0| ==> |r.0[i]| > 0 && r.0[i][|r.0[i]| - 1] == ' '
    decreases |toks| - p
  {
    if toks[p].kind in {RBrace, End} then ([], p)
    else if toks[p].kind == Semi then StatementList(toks, p + 1)
    else
      var e := LineEnd(toks, p + 1);
      var q := if toks[e].kind == Semi then e + 1 else e;
      var rest := StatementList(toks, q);
      var line := Spaced(toks[p..e]);
      assert line == toks[p].text + " " + Spaced(toks[p + 1..e]) by {
        assert toks[p..e][1..] == toks[p + 1..e];
      }
      LineEndsWithSpace(toks[p..e]);
      ([line] + rest.0, rest.1)
  }

  lemma {:induction false} LineEndsWithSpace(ts: seq<Token>)
    requires |ts| > 0
    ensures |Spaced(ts)| > 0 && Spaced(ts)[|Spaced(ts)| - 1] == ' '
    decreases |ts|
  {
    if |ts| > 1 {
      LineEndsWithSpace(ts[1..]);
    }
  }

  /** The tokens of a list other than `;`. */
  function NonSemi(ts: seq<Token>): seq<Token> {
    if |ts| == 0 then [] else (if ts[0].kind == Semi then [] else [ts[0]]) + NonSemi(ts[1..])
  }

  function Concat(lines: seq<string>): string {
    if |lines| == 0 then "" else lines[0] + Concat(lines[1..])
  }

  lemma {:induction false} SpacedAppend(a: seq<Token>, b: seq<Token>)
    ensures Spaced(a + b) == Spaced(a) + Spaced(b)
    decreases |a|
  {
    if |a| == 0 {
      assert a + b == b;
    } else {
      assert (a + b)[1..] == a[1..] + b;
      SpacedAppend(a[1..], b);
    }
  }

  lemma {:induction false} NonSemiAppend(a: seq<Token>, b: seq<Token>)
    ensures NonSemi(a + b) == NonSemi(a) + NonSemi(b)
    decreases |a|
  {
    if |a| == 0 {
      assert a + b == b;
    } else {
      assert (a + b)[1..] == a[1..] + b;
      NonSemiAppend(a[1..], b);
    }
  }

  lemma {:induction false} NonSemiKeeps(ts: seq<Token>)
    requires forall k :: 0 <= k < |ts| ==> ts[k].kind != Semi
    ensures NonSemi(ts) == ts
    decreases |ts|
  {
    if |ts| > 0 {
      NonSemiKeeps(ts[1..]);
    }
  }

  /** Nothing but the separators is lost: the lines, put together, are the
      spaced texts of every token of the list other than `;`. */
  lemma {:induction false} LinesKeepEveryToken(toks: seq<Token>, p: nat)
    requires Ended(toks) && p < |toks|
    ensures Concat(StatementList(toks, p).0) == Spaced(NonSemi(toks[p..StatementList(toks, p).1]))
    decreases |toks| - p
  {
    var r := StatementList(toks, p);
    if toks[p].kind in {RBrace, End} {
      assert toks[p..r.1] == [];
    } else if toks[p].kind == Semi {
      assert r == StatementList(toks, p + 1);
      LinesKeepEveryToken(toks, p + 1);
      SemiDropped(toks, p, r.1);
    } else {
      var e := LineEnd(toks, p + 1);
      var q := if toks[e].kind == Semi then e + 1 else e;
      LinesKeepEveryToken(toks, q);
      LineKept(toks, p, e, q);
    }
  }

  /** The step of `LinesKeepEveryToken` at a token that starts a line. */
  lemma LineKept(toks: seq<Token>, p: nat, e: nat, q: nat)
    requires Ended(toks) && p < |toks| && toks[p].kind !in {RBrace, End, Semi}
    requires e == LineEnd(toks, p + 1) && q == (if toks[e].kind == Semi then e + 1 else e)
    requires q < |toks| && Concat(StatementList(toks, q).0) == Spaced(NonSemi(toks[q..StatementList(toks, q).1]))
    ensures Concat(StatementList(toks, p).0) == Spaced(NonSemi(toks[p..StatementList(toks, p).1]))
  {
    var r := StatementList(toks, p);
    var rest := StatementList(toks, q);
    assert r.0 == [Spaced(toks[p..e])] + rest.0 && r.1 == rest.1;
    ConcatCons(Spaced(toks[p..e]), rest.0);
    LineThenRest(toks, p, e, q, r.1);
    SpacedAppend(toks[p..e], NonSemi(toks[q..r.1]));
  }

  lemma ConcatCons(a: string, ls: seq<string>)
    ensures Concat([a] + ls) == a + Concat(ls)
  {
    assert ([a] + ls)[1..] == ls;
  }

  /** A leading `;` leaves no trace. */
  lemma SemiDropped(toks: seq<Token>, p: nat, r: nat)
    requires p < r <= |toks| && toks[p].kind == Semi
    ensures NonSemi(toks[p..r]) == NonSemi(toks[p + 1..r])
  {
    assert toks[p..r] == [toks[p]] + toks[p + 1..r];
    NonSemiAppend([toks[p]], toks[p + 1..r]);
    assert NonSemi([toks[p]]) == [] by {
      assert [toks[p]][1..] == [];
    }
    assert [] + NonSemi(toks[p + 1..r]) == NonSemi(toks[p + 1..r]);
  }

  /** A line with no `;` in it, an optional `;` after it, and the rest:
      only the `;` goes. */
  lemma LineThenRest(toks: seq<Token>, p: nat, e: nat, q: nat, r: nat)
    requires p <= e <= q <= r <= |toks|
    requires forall k :: p <= k < e ==> toks[k].kind != Semi
    requires q == e || (q == e + 1 && toks[e].kind == Semi)
    ensures NonSemi(toks[p..r]) == toks[p..e] + NonSemi(toks[q..r])
  {
    NonSemiKeeps(toks[p..e]);
    assert toks[p..r] == toks[p..e] + toks[e..r];
    NonSemiAppend(toks[p..e], toks[e..r]);
    if q == e + 1 {
      assert toks[e..r] == [toks[e]] + toks[q..r];
      NonSemiAppend([toks[e]], toks[q..r]);
    }
  }

  /** A `(`, the expression up to `)`, and that `)`. */
  function Condition(toks: seq<Token>, st: PState, openMsg: string, closeMsg: string): (r: TextIn)
    requires Valid(toks, st)
    ensures Moves(toks, st, r.1) && r.1.ctx == st.ctx && r.1.inGame == st.inGame
    ensures ErrorOnly(st.res, r.1.res)
  {
    var s1 := Expect(toks, st, LParen, openMsg);
    var e := ParseExpression(toks, s1.pos);
    (e.0, Expect(toks, s1.(pos := e.1), RParen, closeMsg))
  }

  /** A `{`, a statement list, and the `}` that should close it. */
  function Body(toks: seq<Token>, st: PState, openMsg: string, closeMsg: string): (r: LinesIn)
    requires Valid(toks, st)
    ensures Moves(toks, st, r.1) && r.1.ctx == st.ctx && r.1.inGame == st.inGame
    ensures ErrorOnly(st.res, r.1.res)
  {
    var s1 := Expect(toks, st, LBrace, openMsg);
    var l := StatementList(toks, s1.pos);
    (l.0, Expect(toks, s1.(pos := l.1), RBrace, closeMsg))
  }

  // -------------------------------------------------------------- Definitions

  /** The identifiers of a token list, in order. */
  function IdentTexts(ts: seq<Token>): seq<string> {
    if |ts| == 0 then [] else (if ts[0].kind == Ident then [ts[0].text] else []) + IdentTexts(ts[1..])
  }

  lemma {:induction false} IdentTextsAppend(a: seq<Token>, b: seq<Token>)
    ensures IdentTexts(a + b) == IdentTexts(a) + IdentTexts(b)
    decreases |a|
  {
    if |a| == 0 {
      assert a + b == b;
    } else {
      assert (a + b)[1..] == a[1..] + b;
      IdentTextsAppend(a[1..], b);
    }
  }

  /** The member loop of `parseEnumDefinition`: every identifier up to the
      closing `}` (or `End`) is a role, in order; commas and any other
      tokens are passed over. */
  function EnumMembers(toks: seq<Token>, p: nat): (r: LinesAt)
    requires Ended(toks) && p < |toks|
    ensures p <= r.1 < |toks| && toks[r.1].kind in {RBrace, End}
    ensures var e := r.1; r.0 == IdentTexts(toks[p..e])
    decreases |toks| - p
  {
    if toks[p].kind in {RBrace, End} then ([], p)
    else
      var q := if toks[p].kind == Ident && toks[p + 1].kind == Comma then p + 2 else p + 1;
      var rest := EnumMembers(toks, q);
      MemberStep(toks, p, q, rest.1);
      ((if toks[p].kind == Ident then [toks[p].text] else []) + rest.0, rest.1)
  }

  /** Passing over one member (and its comma) adds that member's
      identifier in front of those read after it. */
  lemma MemberStep(toks: seq<Token>, p: nat, q: nat, e: nat)
    requires p < q <= e <= |toks| && q <= p + 2
    requires q == p + 2 ==> toks[p + 1].kind == Comma
    ensures IdentTexts(toks[p..e]) == (if toks[p].kind == Ident then [toks[p].text] else []) + IdentTexts(toks[q..e])
  {
    assert toks[p..e] == toks[p..q] + toks[q..e];
    IdentTextsAppend(toks[p..q], toks[q..e]);
    var h := toks[p..q];
    assert h[0] == toks[p];
    if q == p + 2 {
      assert h[1..] == [toks[p + 1]];
      assert IdentTexts([toks[p + 1]]) == [] by {
        assert [toks[p + 1]][1..] == [];
      }
    } else {
      assert h[1..] == [];
    }
  }

  /** `parseEnumDefinition`: the roles are appended to the record's roles. */
  function ParseEnum(toks: seq<Token>, st: PState): (r: PState)
    requires Valid(toks, st)
    ensures Moves(toks, st, r) && NameKept(st, r) && r.ctx == st.ctx && r.inGame == st.inGame
    ensures |r.res.roles| >= |st.res.roles| && r.res.roles[..|st.res.roles|] == st.res.roles
    ensures r.res.phases == st.res.phases && r.res.variables == st.res.variables
  {
    var s1 := ExpectWord(toks, InGameCheck(st, "enum"), "enum", "Expected 'enum'");
    var s2 := Expect(toks, s1, LBrace, "Expected '{' after enum");
    var m := EnumMembers(toks, s2.pos);
    var s3 := s2.(pos := m.1, res := s2.res.(roles := s2.res.roles + m.0));
    assert s3.res.roles[..|st.res.roles|] == st.res.roles;
    Expect(toks, s3, RBrace, "Expected '}' to close enum")
  }

  /** `parseParamList`: identifiers separated by commas, up to the first
      token that breaks the pattern; a parameter's type is never filled. */
  function ParamList(toks: seq<Token>, p: nat): (r: ParamsAt)
    requires Ended(toks) && p < |toks|
    ensures p <= r.1 < |toks|
    ensures forall i :: 0 <= i < |r.0| ==> r.0[i].ty == ""
    ensures toks[p].kind != Ident ==> r == ([], p)
    ensures toks[p].kind == Ident ==> |r.0| >= 1 && r.0[0].name == toks[p].text
    decreases |toks| - p
  {
    if toks[p].kind == Ident then
      var param := Param(toks[p].text, "");
      if toks[p + 1].kind == Comma then
        var rest := ParamList(toks, p + 2);
        ([param] + rest.0, rest.1)
      else ([param], p + 1)
    else ([], p)
  }

  /** The parts `action` and `def` share: a name, a parenthesised parameter
      list and a body.  `None` when the name is missing. */
  function Callable(toks: seq<Token>, st: PState, word: string, what: string): (r: HeaderIn)
    requires Valid(toks, st)
    ensures Moves(toks, st, r.1) && r.1.ctx == st.ctx && r.1.inGame == st.inGame
    ensures ErrorOnly(st.res, r.1.res)
    ensures r.0.Named? ==> r.0.line == toks[st.pos].line
  {
    var line := toks[st.pos].line;
    var s1 := ExpectWord(toks, st, word, "Expected '" + word + "'");
    if toks[s1.pos].kind != Ident then (Unnamed, Fail(s1, "Expected " + what + " name"))
    else
      var s2 := Expect(toks, Consume(toks, s1), LParen, "Expected '(' after " + what + " name");
      var r := ParamsAndBody(toks, s2, what);
      (Named(toks[s1.pos].text, r.0, r.1, line), r.2)
  }

  /** The parameters up to `)` and the body of an action or method. */
  function ParamsAndBody(toks: seq<Token>, st: PState, what: string): (r: CallableIn)
    requires Valid(toks, st)
    ensures Moves(toks, st, r.2) && r.2.ctx == st.ctx && r.2.inGame == st.inGame
    ensures ErrorOnly(st.res, r.2.res)
  {
    var ps := ParamList(toks, st.pos);
    var s3 := Expect(toks, st.(pos := ps.1), RParen, "Expected ')' after parameters");
    var b := Body(toks, s3, "Expected '{' after " + what + " parameters", "Expected '}' after " + what + " body");
    (ps.0, b.0, b.1)
  }

  /** What `Callable` read: name, parameters, body lines and line. */
  datatype Header = Unnamed | Named(name: string, params: seq<Param>, bodyLines: seq<string>, line: int)

  /** `parseActionDefinition`: a well-named action is appended. */
  function ParseAction(toks: seq<Token>, st: PState): (r: PState)
    requires Valid(toks, st)
    ensures Moves(toks, st, r) && NameKept(st, r) && r.ctx == st.ctx && r.inGame == st.inGame
    ensures |st.res.actions| <= |r.res.actions| <= |st.res.actions| + 1 && r.res.actions[..|st.res.actions|] == st.res.actions
    ensures r.res.phases == st.res.phases && r.res.variables == st.res.variables
  {
    var c := Callable(toks, InGameCheck(st, "action"), "action", "action");
    match c.0
    case Unnamed => c.1
    case Named(name, params, body, line) =>
      c.1.(res := c.1.res.(actions := c.1.res.actions + [ActionDef(name, params, body, line)]))
  }

  /** `parseMethodDefinition`: a well-named method is appended. */
  function ParseMethod(toks: seq<Token>, st: PState): (r: PState)
    requires Valid(toks, st)
    ensures Moves(toks, st, r) && NameKept(st, r) && r.ctx == st.ctx && r.inGame == st.inGame
    ensures |st.res.methods| <= |r.res.methods| <= |st.res.methods| + 1 && r.res.methods[..|st.res.methods|] == st.res.methods
    ensures r.res.phases == st.res.phases && r.res.variables == st.res.variables
  {
    var c := Callable(toks, InGameCheck(st, "method definition"), "def", "method");
    match c.0
    case Unnamed => c.1
    case Named(name, params, body, line) =>
      c.1.(res := c.1.res.(methods := c.1.res.methods + [MethodDef(name, params, body, line)]))
  }

  /** `parseSetupDefinition`: the body replaces the record's setup. */
  function ParseSetup(toks: seq<Token>, st: PState): (r: PState)
    requires Valid(toks, st)
    ensures Moves(toks, st, r) && NameKept(st, r) && r.ctx == st.ctx && r.inGame == st.inGame
    ensures r.res.setup.line == toks[st.pos].line
    ensures r.res.phases == st.res.phases && r.res.variables == st.res.variables
  {
    var line := toks[st.pos].line;
    var s1 := ExpectWord(toks, InGameCheck(st, "setup"), "setup", "Expected 'setup'");
    var b := Body(toks, s1, "Expected '{' after setup", "Expected '}' after setup body");
    b.1.(res := b.1.res.(setup := SetupDef(b.0, line)))
  }

  /** Where a variable's name is: after the type word, or after `(`. */
  function NamePos(toks: seq<Token>, p: nat): (q: nat)
    requires Ended(toks) && p < |toks| && toks[p].kind == Ident
    ensures p < q < |toks|
  {
    if toks[p + 1].kind == LParen then p + 2 else p + 1
  }

  /** `parseVariableDefinition` at its type word: `type(name)` or `type
      name`, then an optional `= expression` and an optional `;`.  The
      definition is stored under its name, replacing any earlier one; with
      no name, an error and nothing stored. */
  function ParseVariable(toks: seq<Token>, st: PState): (r: PState)
    requires Valid(toks, st) && toks[st.pos].kind == Ident
    ensures Moves(toks, st, r) && NameKept(st, r) && r.pos > st.pos && r.ctx == st.ctx && r.inGame == st.inGame
    ensures r.res.phases == st.res.phases
    ensures var q := NamePos(toks, st.pos);
      if toks[q].kind == Ident then
        var name := toks[q].text;
        && name in r.res.variables
        && r.res.variables == st.res.variables[name := r.res.variables[name]]
        && r.res.variables[name].name == name
        && r.res.variables[name].typeKeyword == toks[st.pos].text
        && r.res.variables[name].line == toks[st.pos].line
      else
        r.res.variables == st.res.variables && r.res.hasError && r.res.errorMessage == "Expected variable name"
  {
    var ty, line := toks[st.pos].text, toks[st.pos].line;
    var s1 := Consume(toks, NotTopCheck(st, "Variable definition"));
    var paren := toks[s1.pos].kind == LParen;
    var s2 := if paren then Consume(toks, s1) else s1;
    assert s2.pos == NamePos(toks, st.pos);
    if toks[s2.pos].kind != Ident then Fail(s2, "Expected variable name")
    else VariableRest(toks, s2, paren, ty, line)
  }

  /** `parseVariableDefinition` from the variable's name on. */
  function VariableRest(toks: seq<Token>, st: PState, paren: bool, ty: string, line: int): (r: PState)
    requires Valid(toks, st) && toks[st.pos].kind == Ident
    ensures Moves(toks, st, r) && r.pos > st.pos && NameKept(st, r) && r.ctx == st.ctx && r.inGame == st.inGame
    ensures r.res.phases == st.res.phases
    ensures var name := toks[st.pos].text;
      && name in r.res.variables
      && r.res.variables == st.res.variables[name := r.res.variables[name]]
      && r.res.variables[name].name == name
      && r.res.variables[name].typeKeyword == ty
      && r.res.variables[name].line == line
  {
    var name := toks[st.pos].text;
    var s3 := Consume(toks, st);
    var s4 := if paren then Expect(toks, s3, RParen, "Expected ')' after variable name") else s3;
    StoreVariable(toks, s4, name, ty, line)
  }

  /** The optional `= expression` and `;` of a variable definition, and
      the definition stored under its name. */
  function StoreVariable(toks: seq<Token>, st: PState, name: string, ty: string, line: int): (r: PState)
    requires Valid(toks, st)
    ensures Moves(toks, st, r) && NameKept(st, r) && r.ctx == st.ctx && r.inGame == st.inGame
    ensures r.res.phases == st.res.phases
    ensures name in r.res.variables
    ensures r.res.variables == st.res.variables[name := r.res.variables[name]]
    ensures r.res.variables[name].name == name && r.res.variables[name].typeKeyword == ty
    ensures r.res.variables[name].line == line
  {
    var v := if toks[st.pos].kind == Kind.Assign then ParseExpression(toks, Next(toks, st.pos)) else ("", st.pos);
    var s5 := st.(pos := v.1);
    var s6 := if toks[s5.pos].kind == Semi then Consume(toks, s5) else s5;
    s6.(res := s6.res.(variables := s6.res.variables[name := VariableDef(name, ty, v.0, line)]))
  }

  /** The roles after `for` in a step header: identifiers separated by
      commas, ending before `with` or `if` or at the first identifier not
      followed by a comma. */
  function StepRoles(toks: seq<Token>, p: nat): (r: LinesAt)
    requires Ended(toks) && p < |toks|
    ensures p <= r.1 < |toks|
    ensures forall i :: 0 <= i < |r.0| ==> r.0[i] != "with" && r.0[i] != "if"
    ensures |r.0| == 0 <==> r.1 == p
    decreases |toks| - p
  {
    if toks[p].kind == Ident && toks[p].text != "with" && toks[p].text != "if" then
      if toks[p + 1].kind == Comma then
        var rest := StepRoles(toks, p + 2);
        ([toks[p].text] + rest.0, rest.1)
      else ([toks[p].text], p + 1)
    else ([], p)
  }

  /** The record with `step` appended to its last phase; with no phase,
      the record unchanged. */
  function AddStep(res: ParseResult, step: StepDef): (r: ParseResult)
    ensures |r.phases| == |res.phases|
    ensures |res.phases| == 0 ==> r == res
    ensures |res.phases| > 0 ==>
      var n := |res.phases| - 1;
      && r == res.(phases := r.phases)
      && r.phases[..n] == res.phases[..n]
      && r.phases[n] == res.phases[n].(steps := res.phases[n].steps + [step])
  {
    if |res.phases| == 0 then res
    else
      var n := |res.phases| - 1;
      res.(phases := res.phases[..n] + [res.phases[n].(steps := res.phases[n].steps + [step])])
  }

  /** `parseStepDefinition`: outside a phase an error and nothing consumed;
      otherwise the header and body, and the finished step goes to the last
      phase.  The record's phases keep their number, and with no phase they
      do not change. */
  function ParseStep(toks: seq<Token>, st: PState): (r: PState)
    requires Valid(toks, st)
    ensures Moves(toks, st, r) && EarlierPhasesKept(st, r) && NameKept(st, r) && r.ctx == st.ctx && r.inGame == st.inGame
    ensures st.ctx != InPhase ==> r == Fail(st, "step must be inside a phase")
    ensures |r.res.phases| == |st.res.phases|
    ensures |st.res.phases| == 0 ==> r.res.phases == st.res.phases
    ensures r.res.variables == st.res.variables
  {
    if st.ctx != InPhase then Fail(st, "step must be inside a phase")
    else
      var line := toks[st.pos].line;
      var s1 := ExpectWord(toks, st, "step", "Expected 'step'");
      if toks[s1.pos].kind != Str then Fail(s1, "Expected step name string")
      else
        var s2 := Consume(toks, s1);
        var roles := if IsWord(toks, s2.pos, "for") then StepRoles(toks, Next(toks, s2.pos)) else ([], s2.pos);
        StepTail(toks, s2.(pos := roles.1), StepDef(toks[s1.pos].text, roles.0, "", "", [], line))
  }

  /** The rest of a step header (`with`, `if`) and its body. */
  function StepTail(toks: seq<Token>, st: PState, step: StepDef): (r: PState)
    requires Valid(toks, st)
    ensures Moves(toks, st, r) && EarlierPhasesKept(st, r) && NameKept(st, r) && r.ctx == st.ctx && r.inGame == st.inGame
    ensures |r.res.phases| == |st.res.phases|
    ensures |st.res.phases| == 0 ==> r.res.phases == st.res.phases
    ensures r.res.variables == st.res.variables
  {
    if !IsWord(toks, st.pos, "with") then StepBody(toks, st, step)
    else
      var s1 := Consume(toks, st);
      if toks[s1.pos].kind != Ident then Fail(s1, "Expected action name after 'with'")
      else StepBody(toks, Consume(toks, s1), step.(actionName := toks[s1.pos].text))
  }

  /** The optional `if (condition)` of a step header, the step's body, and
      the finished step appended to the last phase. */
  function StepBody(toks: seq<Token>, st: PState, step: StepDef): (r: PState)
    requires Valid(toks, st)
    ensures Moves(toks, st, r) && EarlierPhasesKept(st, r) && NameKept(st, r) && r.ctx == st.ctx && r.inGame == st.inGame
    ensures |r.res.phases| == |st.res.phases|
    ensures |st.res.phases| == 0 ==> r.res.phases == st.res.phases
    ensures r.res.variables == st.res.variables
  {
    var c := if IsWord(toks, st.pos, "if")
             then Condition(toks, Consume(toks, st), "Expected '(' after 'if'", "Expected ')' after condition")
             else ("", st);
    var b := Body(toks, c.1, "Expected '{' after step definition", "Expected '}' to close step");
    assert ErrorOnly(st.res, b.1.res);
    b.1.(res := AddStep(b.1.res, step.(condition := c.0, bodyLines := b.0)))
  }

  // --------------------------------------------------------------- Statements

  /** `parseExpressionStatement`: an expression and an optional `;`. */
  function ExprStatement(toks: seq<Token>, st: PState): (r: PState)
    requires Valid(toks, st)
    ensures Moves(toks, st, r) && NameKept(st, r) && r.ctx == st.ctx && r.inGame == st.inGame
    ensures r.res.phases == st.res.phases && r.res.variables == st.res.variables
    ensures st.ctx != TopLevel && EndsExpression(toks[st.pos]) && toks[st.pos].kind != Semi ==> r == st
  {
    var s1 := NotTopCheck(st, "Expression statement");
    var e := ParseExpression(toks, s1.pos);
    var s2 := s1.(pos := e.1);
    if toks[s2.pos].kind == Semi then Consume(toks, s2) else s2
  }

  /** The `elif` clauses of an `if`, each consuming its `elif`. */
  function ElifLoop(toks: seq<Token>, st: PState): (r: PState)
    requires Valid(toks, st)
    ensures Moves(toks, st, r) && NameKept(st, r) && r.ctx == st.ctx && r.inGame == st.inGame
    ensures r.res.phases == st.res.phases && r.res.variables == st.res.variables
    ensures !IsWord(toks, r.pos, "elif")
    decreases |toks| - st.pos
  {
    if IsWord(toks, st.pos, "elif") then
      var c := Condition(toks, Consume(toks, st), "Expected '(' after 'elif'", "Expected ')' after elif condition");
      var b := Body(toks, c.1, "Expected '{' for elif body", "Expected '}' to close elif body");
      ElifLoop(toks, b.1)
    else st
  }

  /** `parseIfStatement`: the texts are read and discarded. */
  function ParseIf(toks: seq<Token>, st: PState): (r: PState)
    requires Valid(toks, st)
    ensures Moves(toks, st, r) && NameKept(st, r) && r.ctx == st.ctx && r.inGame == st.inGame
    ensures r.res.phases == st.res.phases && r.res.variables == st.res.variables
  {
    var s1 := ExpectWord(toks, NotTopCheck(st, "if statement"), "if", "Expected 'if'");
    var c := Condition(toks, s1, "Expected '(' after 'if'", "Expected ')' after condition");
    var b := Body(toks, c.1, "Expected '{' for if body", "Expected '}' to close if body");
    ElseTail(toks, ElifLoop(toks, b.1))
  }

  /** The optional `else` body after the `elif` clauses. */
  function ElseTail(toks: seq<Token>, st: PState): (r: PState)
    requires Valid(toks, st)
    ensures Moves(toks, st, r) && NameKept(st, r) && r.ctx == st.ctx && r.inGame == st.inGame
    ensures r.res.phases == st.res.phases && r.res.variables == st.res.variables
  {
    if IsWord(toks, st.pos, "else") then
      Body(toks, Consume(toks, st), "Expected '{' for else body", "Expected '}' to close else body").1
    else st
  }

  /** `parseForStatement`: the texts are read and discarded. */
  function ParseFor(toks: seq<Token>, st: PState): (r: PState)
    requires Valid(toks, st)
    ensures Moves(toks, st, r) && NameKept(st, r) && r.ctx == st.ctx && r.inGame == st.inGame
    ensures r.res.phases == st.res.phases && r.res.variables == st.res.variables
  {
    var s1 := ExpectWord(toks, NotTopCheck(st, "for statement"), "for", "Expected 'for'");
    var s2 := Expect(toks, s1, LParen, "Expected '(' after 'for'");
    if toks[s2.pos].kind != Ident then Fail(s2, "Expected iterator variable name")
    else ForArguments(toks, Consume(toks, s2))
  }

  /** The `,`, the argument text up to `)`, and the body of a `for`. */
  function ForArguments(toks: seq<Token>, st: PState): (r: PState)
    requires Valid(toks, st)
    ensures Moves(toks, st, r) && r.ctx == st.ctx && r.inGame == st.inGame && ErrorOnly(st.res, r.res)
  {
    var s3 := Expect(toks, st, Comma, "Expected ',' after iterator variable");
    var e := ParseExpression(toks, s3.pos);
    var s4 := Expect(toks, s3.(pos := e.1), RParen, "Expected ')' after for arguments");
    Body(toks, s4, "Expected '{' for for body", "Expected '}' to close for body").1
  }

  // ------------------------------------------------------------------- Phases

  /** The progress guard of `parseInGameBlock`: when the current token is
      the one the round started on (same kind, line and text) and is not
      `End`, one token is consumed. */
  function Guard(toks: seq<Token>, before: PState, after: PState): (r: PState)
    requires Valid(toks, before) && Valid(toks, after) && before.pos <= after.pos
    ensures Moves(toks, after, r) && r.res == after.res && r.ctx == after.ctx && r.inGame == after.inGame
    ensures toks[before.pos].kind != End ==> r.pos > before.pos
  {
    var b, a := toks[before.pos], toks[after.pos];
    if a.kind == b.kind && a.line == b.line && a.text == b.text && a.kind != End then Consume(toks, after)
    else after
  }

  /** One round of the loop of `parsePhaseDefinition`, as written. */
  function PhaseRoundAsWritten(toks: seq<Token>, st: PState): (r: PState)
    requires Valid(toks, st)
    ensures Moves(toks, st, r) && EarlierPhasesKept(st, r) && NameKept(st, r) && r.ctx == st.ctx && r.inGame == st.inGame
    ensures |r.res.phases| == |st.res.phases|
  {
    var t := toks[st.pos];
    if t.kind == Ident && t.text == "step" then ParseStep(toks, st)
    else if t.kind == Ident && t.text in VarTypes then ParseVariable(toks, st)
    else ExprStatement(toks, st)
  }

  /** A `)` or `,` in a phase body, or a block keyword other than `step`
      and the type words, stops an expression statement before its first
      token: the round as written changes nothing, the loop's condition
      still holds, and the loop runs forever. */
  lemma PhaseRoundStalls(toks: seq<Token>, st: PState)
    requires Valid(toks, st) && st.ctx == InPhase
    requires toks[st.pos].kind in {RParen, Comma}
          || (IsBlockKeyword(toks[st.pos]) && toks[st.pos].text !in VarTypes + {"step"})
    ensures toks[st.pos].kind !in {RBrace, End}
    ensures PhaseRoundAsWritten(toks, st) == st
  {
  }

  /** One round of the phase loop with the progress guard that
      `parseInGameBlock` has: at a token other than `End` it always moves. */
  function PhaseRound(toks: seq<Token>, st: PState): (r: PState)
    requires Valid(toks, st)
    ensures Moves(toks, st, r) && EarlierPhasesKept(st, r) && NameKept(st, r) && r.ctx == st.ctx && r.inGame == st.inGame
    ensures |r.res.phases| == |st.res.phases|
    ensures toks[st.pos].kind != End ==> r.pos > st.pos
  {
    Guard(toks, st, PhaseRoundAsWritten(toks, st))
  }

  function PhaseLoop(toks: seq<Token>, st: PState): (r: PState)
    requires Valid(toks, st)
    ensures Moves(toks, st, r) && EarlierPhasesKept(st, r) && NameKept(st, r) && r.ctx == st.ctx && r.inGame == st.inGame
    ensures toks[r.pos].kind in {RBrace, End}
    ensures |r.res.phases| == |st.res.phases|
    decreases |toks| - st.pos
  {
    if toks[st.pos].kind in {RBrace, End} then st
    else
      var s1 := PhaseRound(toks, st);
      var r := PhaseLoop(toks, s1);
      EarlierPhasesChain(st, s1, r);
      r
  }

  lemma EarlierPhasesChain(a: PState, b: PState, c: PState)
    requires EarlierPhasesKept(a, b) && EarlierPhasesKept(b, c)
    ensures EarlierPhasesKept(a, c)
  {
  }

  /** `parsePhaseDefinition`: the phase is appended before its body is
      read, so the steps of the body go to it. */
  function ParsePhase(toks: seq<Token>, st: PState): (r: PState)
    requires Valid(toks, st)
    ensures Moves(toks, st, r) && NameKept(st, r) && r.inGame == st.inGame
    ensures |st.res.phases| <= |r.res.phases| <= |st.res.phases| + 1
    ensures r.res.phases[..|st.res.phases|] == st.res.phases
  {
    var line := toks[st.pos].line;
    var s1 := ExpectWord(toks, InGameCheck(st, "phase"), "phase", "Expected 'phase'");
    if toks[s1.pos].kind != Ident then Fail(s1, "Expected phase name")
    else
      var s2 := Expect(toks, Consume(toks, s1), LBrace, "Expected '{' after phase name");
      PhaseBody(toks, s2, PhaseDef(toks[s1.pos].text, [], line))
  }

  /** The body of a phase: the new phase is appended first, then the
      phase loop runs in the phase context, then the closing `}`. */
  function PhaseBody(toks: seq<Token>, st: PState, phase: PhaseDef): (r: PState)
    requires Valid(toks, st)
    ensures Moves(toks, st, r) && NameKept(st, r) && r.inGame == st.inGame
    ensures |r.res.phases| == |st.res.phases| + 1
    ensures r.res.phases[..|st.res.phases|] == st.res.phases
  {
    var s3 := st.(res := st.res.(phases := st.res.phases + [phase]), ctx := InPhase);
    var s4 := PhaseLoop(toks, s3);
    assert s3.res.phases[..|st.res.phases|] == st.res.phases;
    assert s4.res.phases[..|st.res.phases|] == st.res.phases by {
      assert s4.res.phases[..|s3.res.phases| - 1] == s3.res.phases[..|s3.res.phases| - 1];
    }
    Expect(toks, s4.(ctx := InGame), RBrace, "Expected '}' to close phase")
  }

  // ------------------------------------------------------------------ Games

  /** The dispatch of `parseInGameBlock`, with `game` rejected as a nested
      definition. */
  function InGameDispatch(toks: seq<Token>, st: PState): (r: PState)
    requires Valid(toks, st)
    ensures Moves(toks, st, r) && NameKept(st, r) && r.inGame == st.inGame
  {
    var t := toks[st.pos];
    if t.kind == Ident then
      if t.text == "game" then Fail(st, "Nested game definitions are not allowed")
      else if t.text == "enum" then ParseEnum(toks, st)
      else if t.text == "action" then ParseAction(toks, st)
      else if t.text == "phase" then ParsePhase(toks, st)
      else if t.text == "def" then ParseMethod(toks, st)
      else if t.text == "setup" then ParseSetup(toks, st)
      else if t.text in VarTypes then ParseVariable(toks, st)
      else if t.text == "if" then ParseIf(toks, st)
      else if t.text == "for" then ParseFor(toks, st)
      else ExprStatement(toks, st)
    else if t.kind == LBrace then
      var s1 := Consume(toks, st);
      var l := StatementList(toks, s1.pos);
      Expect(toks, s1.(pos := l.1), RBrace, "Expected '}' to close block")
    else ExprStatement(toks, st)
  }

  /** `parseInGameBlock`: the dispatch, then the progress guard, so that at
      any token but `End` a round consumes at least one token. */
  function InGameBlock(toks: seq<Token>, st: PState): (r: PState)
    requires Valid(toks, st)
    ensures Moves(toks, st, r) && NameKept(st, r) && r.inGame == st.inGame
    ensures toks[st.pos].kind != End ==> r.pos > st.pos
  {
    Guard(toks, st, InGameDispatch(toks, st))
  }

  /** `parseInGameBlock` as written, where `game` is not among the words
      dispatched on and so starts an expression statement. */
  function InGameBlockAsWritten(toks: seq<Token>, st: PState): (r: PState)
    requires Valid(toks, st)
    ensures Moves(toks, st, r) && r.inGame == st.inGame
  {
    if IsWord(toks, st.pos, "game") then Guard(toks, st, ExprStatement(toks, st))
    else InGameBlock(toks, st)
  }

  /** As written, `game` inside a game is passed over without any error:
      the expression statement stops at the keyword, and the guard
      consumes it. */
  lemma NestedGameIsSkipped(toks: seq<Token>, st: PState)
    requires Valid(toks, st) && st.ctx != TopLevel && IsWord(toks, st.pos, "game")
    ensures InGameBlockAsWritten(toks, st) == st.(pos := st.pos + 1)
  {
    assert ExprStatement(toks, st) == st;
  }

  /** With the dispatch on `game`, a nested definition is reported. */
  lemma NestedGameIsRejected(toks: seq<Token>, st: PState)
    requires Valid(toks, st) && IsWord(toks, st.pos, "game")
    ensures var r := InGameBlock(toks, st);
      r.res.hasError && r.res.errorMessage == "Nested game definitions are not allowed" && r.pos == st.pos + 1
  {
  }

  function GameLoop(toks: seq<Token>, st: PState): (r: PState)
    requires Valid(toks, st)
    ensures Moves(toks, st, r) && NameKept(st, r) && r.inGame == st.inGame
    ensures toks[r.pos].kind in {RBrace, End}
    decreases |toks| - st.pos
  {
    if toks[st.pos].kind in {RBrace, End} then st else GameLoop(toks, InGameBlock(toks, st))
  }

  /** `parseGameDefinition` at a `game` word outside any game: the name,
      `{`, the game's rounds up to `}` or `End`, and `}`; afterwards the
      parser is back at top level. */
  function GameDefinition(toks: seq<Token>, st: PState): (r: PState)
    requires Valid(toks, st) && !st.inGame && st.ctx == TopLevel && IsWord(toks, st.pos, "game")
    ensures Moves(toks, st, r) && r.pos > st.pos && !r.inGame && r.ctx == TopLevel
    ensures toks[st.pos + 1].kind == Ident ==> r.res.gameName == toks[st.pos + 1].text
    ensures toks[st.pos + 1].kind != Ident ==> r == Fail(st.(pos := st.pos + 1), "Expected game name")
  {
    var s1 := ExpectWord(toks, st, "game", "Expected 'game'");
    if toks[s1.pos].kind != Ident then Fail(s1, "Expected game name")
    else
      var s2 := s1.(res := s1.res.(gameName := toks[s1.pos].text));
      GameBody(toks, Consume(toks, s2))
  }

  /** A game's `{`, its rounds in the game context, and `}`; the parser is
      back at top level afterwards. */
  function GameBody(toks: seq<Token>, st: PState): (r: PState)
    requires Valid(toks, st)
    ensures Moves(toks, st, r) && NameKept(st, r) && !r.inGame && r.ctx == TopLevel
  {
    var s3 := Expect(toks, st, LBrace, "Expected '{' after game name");
    var s4 := GameLoop(toks, s3.(inGame := true, ctx := InGame));
    var s5 := Expect(toks, s4, RBrace, "Expected '}' to close game definition");
    s5.(inGame := false, ctx := TopLevel)
  }

  /** One round of `parseTopLevel`, at a token other than `End`: `game`
      starts a definition, any other identifier is reported and consumed,
      and any other token is consumed silently. */
  function TopRound(toks: seq<Token>, st: PState): (r: PState)
    requires Valid(toks, st) && !st.inGame && st.ctx == TopLevel && toks[st.pos].kind != End
    ensures Moves(toks, st, r) && r.pos > st.pos && !r.inGame && r.ctx == TopLevel
    ensures toks[st.pos].kind == Ident && toks[st.pos].text != "game" ==>
      r == Fail(st, "Only 'game' definition is allowed at top level").(pos := st.pos + 1)
    ensures toks[st.pos].kind != Ident ==> r == st.(pos := st.pos + 1)
  {
    if IsWord(toks, st.pos, "game") then GameDefinition(toks, st)
    else if toks[st.pos].kind == Ident then
      Consume(toks, Fail(st, "Only 'game' definition is allowed at top level"))
    else Consume(toks, st)
  }

  /** `parseTopLevel`: rounds until `End`. */
  function TopLoop(toks: seq<Token>, st: PState): (r: PState)
    requires Valid(toks, st) && !st.inGame && st.ctx == TopLevel
    ensures Moves(toks, st, r) && toks[r.pos].kind == End
    decreases |toks| - st.pos
  {
    if toks[st.pos].kind == End then st else TopLoop(toks, TopRound(toks, st))
  }

  /** `parse` over a token list: the record after the top-level loop. */
  function ParseTokens(toks: seq<Token>): (r: ParseResult)
    requires Ended(toks)
    ensures toks[0].kind == End ==> r == EmptyResult
  {
    TopLoop(toks, Initial).res
  }

  /** The whole front end: lex, then parse. */
  function Parse(src: string): ParseResult {
    ParseTokens(Lex(src))
  }
}
