/** The lexer of the game-description front end (LuduScript-refactor).
    It keeps a read position, a line and a column; `advance` moves one
    character and starts a new line after `\n`.  Strings have no escapes,
    numbers are digits only, and `tokenize` ends the list with one
    `EofToken`. */
module RefactorLexer {
  import opened Chars
  import opened Scanning

  datatype TokenType =
    | KwGame | KwConfig | KwRole | KwVar | KwAction | KwPhase | KwStep
    | KwExecute | KwSetup | KwLet | KwIf | KwElse | KwFor | KwIn | KwReturn
    | KwTrue | KwFalse | KwNull | KwAnd | KwOr | KwNot
    | Identifier | StringLit | NumberLit
    | LBrace | RBrace | LParen | RParen | LBracket | RBracket
    | Colon | Comma | Dot | Assign | Eq | Neq | Lt | Gt | Le | Ge
    | Plus | Minus | Star | Slash
    | EofToken | Unknown

  datatype Lexeme = Lexeme(kind: TokenType, text: string, line: int, column: int)

  /** The lexer's counters: read position, line and column. */
  datatype Cursor = Cursor(pos: nat, line: int, column: int)

  /** A scanned token and the cursor after it. */
  type ScannedToken = (Lexeme, Cursor)

  /** The 21 reserved words. */
  const Keywords: map<string, TokenType> := map[
    "game" := KwGame, "config" := KwConfig, "role" := KwRole, "var" := KwVar,
    "action" := KwAction, "phase" := KwPhase, "step" := KwStep,
    "execute" := KwExecute, "setup" := KwSetup, "let" := KwLet,
    "if" := KwIf, "else" := KwElse, "for" := KwFor, "in" := KwIn,
    "return" := KwReturn, "true" := KwTrue, "false" := KwFalse,
    "null" := KwNull, "and" := KwAnd, "or" := KwOr, "not" := KwNot]

  /** The one-character tokens that need no lookahead. */
  const Single: map<char, TokenType> := map[
    '{' := LBrace, '}' := RBrace, '(' := LParen, ')' := RParen,
    '[' := LBracket, ']' := RBracket, ':' := Colon, ',' := Comma, '.' := Dot,
    '+' := Plus, '-' := Minus, '*' := Star, '/' := Slash]

  /** Line and column a cursor at `p` should show, counted from the start of
      `s`: one more than the newlines before `p`, and one more than the
      characters since the last of them. */
  function ColumnAt(s: string, p: nat): (c: int)
    requires p <= |s|
    ensures 1 <= c <= p + 1
  {
    if p == 0 then 1 else if s[p - 1] == '\n' then 1 else ColumnAt(s, p - 1) + 1
  }

  /** The cursor's line and column agree with its position. */
  predicate Tracks(s: string, c: Cursor) {
    c.pos <= |s| && c.line == 1 + Newlines(s[..c.pos]) && c.column == ColumnAt(s, c.pos)
  }

  function Start(): Cursor {
    Cursor(0, 1, 1)
  }

  /** `advance` over the character under the cursor. */
  function Step(s: string, c: Cursor): (r: Cursor)
    requires c.pos < |s|
    ensures r.pos == c.pos + 1
    ensures s[c.pos] == '\n' ==> r.line == c.line + 1 && r.column == 1
    ensures s[c.pos] != '\n' ==> r.line == c.line && r.column == c.column + 1
    ensures Tracks(s, c) ==> Tracks(s, r)
  {
    var r := if s[c.pos] == '\n' then Cursor(c.pos + 1, c.line + 1, 1)
             else Cursor(c.pos + 1, c.line, c.column + 1);
    assert s[..c.pos + 1] == s[..c.pos] + [s[c.pos]];
    NewlinesAppend(s[..c.pos], [s[c.pos]]);
    r
  }

  /** `advance` repeated until the position reaches `j`. */
  function StepTo(s: string, c: Cursor, j: nat): (r: Cursor)
    requires c.pos <= j <= |s|
    ensures r.pos == j
    ensures r.line == c.line + Newlines(s[c.pos..j])
    ensures Tracks(s, c) ==> Tracks(s, r)
    decreases j - c.pos
  {
    if c.pos == j then c
    else
      var r := StepTo(s, Step(s, c), j);
      NewlinesSplit(s, c.pos, c.pos + 1, j);
      r
  }

  /** The start of a comment: two slashes. */
  predicate CommentAt(s: string, i: nat) {
    Peek(s, i) == '/' && Peek(s, i + 1) == '/'
  }

  /** The body of a `//` comment, up to the newline or NUL that ends it. */
  function SkipComment(s: string, c: Cursor): (r: Cursor)
    requires c.pos <= |s|
    ensures c.pos <= r.pos <= |s|
    ensures Peek(s, r.pos) == '\n' || Peek(s, r.pos) == '\0'
    ensures Tracks(s, c) ==> Tracks(s, r)
    decreases |s| - c.pos
  {
    var ch := Peek(s, c.pos);
    if ch != '\n' && ch != '\0' then SkipComment(s, Step(s, c)) else c
  }

  /** `skipWhitespace`: blanks and comments, until neither starts at the
      cursor. */
  function SkipWs(s: string, c: Cursor): (r: Cursor)
    requires c.pos <= |s|
    ensures c.pos <= r.pos <= |s|
    ensures !IsSpace(Peek(s, r.pos)) && !CommentAt(s, r.pos)
    ensures Tracks(s, c) ==> Tracks(s, r)
    decreases |s| - c.pos, if CommentAt(s, c.pos) then 1 else 0
  {
    var ch := Peek(s, c.pos);
    if IsSpace(ch) then SkipWs(s, Step(s, c))
    else if CommentAt(s, c.pos) then
      var d := SkipComment(s, c);
      SkipWs(s, d)
    else c
  }

  /** End of a string literal's text that starts at `i`: the next quote or
      NUL, or the end of the input. */
  function StringEnd(s: string, i: nat): (j: nat)
    requires i <= |s|
    ensures i <= j <= |s|
    ensures forall k :: i <= k < j ==> s[k] != '"' && s[k] != '\0'
    ensures Peek(s, j) == '"' || Peek(s, j) == '\0'
    decreases |s| - i
  {
    if i < |s| && s[i] != '"' && s[i] != '\0' then StringEnd(s, i + 1) else i
  }

  /** The kind of a scanned word. */
  function WordKind(w: string): (k: TokenType)
    ensures w in Keywords ==> k == Keywords[w]
    ensures w !in Keywords ==> k == Identifier
  {
    if w in Keywords then Keywords[w] else Identifier
  }

  /** The operator branch of `tokenize` for the character at the cursor:
      one character is always consumed; `=`, `!`, `<` and `>` take a second
      one exactly when it is `=` (a lone `!` is `Unknown`); the fixed
      one-character tokens come from `Single`; anything else is an
      `Unknown` token of that one character. */
  function ScanOperator(s: string, c: Cursor): (r: ScannedToken)
    requires c.pos < |s|
    ensures c.pos < r.1.pos <= c.pos + 2 && r.1.pos <= |s|
    ensures r.0.line == r.1.line && r.0.column == c.column
    ensures var e := r.1.pos; r.0.text == s[c.pos..e]
    ensures Tracks(s, c) ==> Tracks(s, r.1)
    ensures var ch := s[c.pos];
      && (ch in Lookahead && Peek(s, c.pos + 1) == '=' ==>
            r.0.kind == Lookahead[ch].1 && r.1.pos == c.pos + 2)
      && (ch in Lookahead && Peek(s, c.pos + 1) != '=' ==>
            r.0.kind == Lookahead[ch].0 && r.1.pos == c.pos + 1)
      && (ch !in Lookahead ==> r.1.pos == c.pos + 1)
      && (ch in Single ==> r.0.kind == Single[ch])
      && (ch !in Lookahead && ch !in Single ==> r.0.kind == Unknown)
  {
    var ch := s[c.pos];
    assert s[c.pos..c.pos + 1] == [ch] by {
      assert |s[c.pos..c.pos + 1]| == 1 && s[c.pos..c.pos + 1][0] == ch;
    }
    var c1 := Step(s, c);
    if ch in Lookahead && Peek(s, c.pos + 1) == '=' then
      var c2 := Step(s, c1);
      assert s[c.pos..c.pos + 2] == [ch, '='];
      (Lexeme(Lookahead[ch].1, [ch, '='], c2.line, c.column), c2)
    else if ch in Lookahead then
      (Lexeme(Lookahead[ch].0, [ch], c1.line, c.column), c1)
    else if ch in Single then
      (Lexeme(Single[ch], [ch], c1.line, c.column), c1)
    else
      (Lexeme(Unknown, [ch], c1.line, c.column), c1)
  }

  /** The spelling of each binary operator kind; empty for every other
      kind. */
  function Spelling(k: TokenType): string {
    match k
    case Eq => "==" case Neq => "!=" case Lt => "<" case Le => "<=" case Gt => ">" case Ge => ">="
    case Plus => "+" case Minus => "-" case Star => "*" case Slash => "/"
    case _ => ""
  }

  /** A token of an operator kind carries that operator's spelling. */
  predicate Canonical(t: Lexeme) {
    Spelling(t.kind) == "" || t.text == Spelling(t.kind)
  }

  predicate AllCanonical(toks: seq<Lexeme>) {
    forall k :: 0 <= k < |toks| ==> Canonical(toks[k])
  }

  lemma OperatorSpellings(ch: char)
    ensures ch in Lookahead ==> Spelling(Lookahead[ch].0) == "" || Spelling(Lookahead[ch].0) == [ch]
    ensures ch in Lookahead ==> Spelling(Lookahead[ch].1) == "" || Spelling(Lookahead[ch].1) == [ch, '=']
    ensures ch !in Lookahead && ch in Single ==> Spelling(Single[ch]) == "" || Spelling(Single[ch]) == [ch]
  {
    if ch == '=' {} else if ch == '!' {} else if ch == '<' {} else if ch == '>' {}
    else if ch == '+' {} else if ch == '-' {} else if ch == '*' {} else if ch == '/' {}
  }

  /** The characters that look one character ahead, with the kinds they give
      alone and followed by `=`.  A lone `!` is `Unknown`. */
  const Lookahead: map<char, (TokenType, TokenType)> := map[
    '=' := (Assign, Eq), '!' := (Unknown, Neq), '<' := (Lt, Le), '>' := (Gt, Ge)]

  /** `identifierOrKeyword`: the longest run of `[A-Za-z0-9_]`, a keyword
      token exactly when the word is in the keyword table. */
  function ScanWord(s: string, c: Cursor): (r: ScannedToken)
    requires c.pos < |s| && IsWordChar(s[c.pos])
    ensures c.pos < r.1.pos <= |s|
    ensures var e := r.1.pos; r.0.text == s[c.pos..e]
    ensures forall k :: 0 <= k < |r.0.text| ==> IsWordChar(r.0.text[k])
    ensures !IsWordChar(Peek(s, r.1.pos))
    ensures r.0.kind == Identifier <==> r.0.text !in Keywords
    ensures r.0.text in Keywords ==> r.0.kind == Keywords[r.0.text]
    ensures r.0.column == c.column && r.0.line == r.1.line
    ensures Tracks(s, c) ==> Tracks(s, r.1)
  {
    var j := WordEnd(s, c.pos);
    var d := StepTo(s, c, j);
    (Lexeme(WordKind(s[c.pos..j]), s[c.pos..j], d.line, c.column), d)
  }

  /** `numberLiteral`: the longest run of digits, with no sign and no
      decimal point. */
  function ScanNumber(s: string, c: Cursor): (r: ScannedToken)
    requires c.pos < |s| && IsDigit(s[c.pos])
    ensures c.pos < r.1.pos <= |s|
    ensures var e := r.1.pos; r.0.kind == NumberLit && r.0.text == s[c.pos..e]
    ensures AllDigits(r.0.text) && !IsDigit(Peek(s, r.1.pos))
    ensures r.0.column == c.column && r.0.line == r.1.line
    ensures Tracks(s, c) ==> Tracks(s, r.1)
  {
    var j := DigitRun(s, c.pos);
    var d := StepTo(s, c, j);
    (Lexeme(NumberLit, s[c.pos..j], d.line, c.column), d)
  }

  /** `stringLiteral`: the characters after the opening quote, exactly as
      written (no escapes), up to the next quote, which is consumed, or up to
      a NUL or the end of the input, where the literal simply stops. */
  function ScanStringLit(s: string, c: Cursor): (r: ScannedToken)
    requires c.pos < |s| && s[c.pos] == '"'
    ensures c.pos < r.1.pos <= |s|
    ensures r.0.kind == StringLit
    ensures forall k :: 0 <= k < |r.0.text| ==> r.0.text[k] != '"' && r.0.text[k] != '\0'
    ensures c.pos + 1 + |r.0.text| <= |s| && r.0.text == s[c.pos + 1..c.pos + 1 + |r.0.text|]
    ensures var e := c.pos + 1 + |r.0.text|;
      && (e < |s| && s[e] == '"' ==> r.1.pos == e + 1)
      && (!(e < |s| && s[e] == '"') ==> r.1.pos == e && (e == |s| || s[e] == '\0'))
    ensures r.0.column == c.column && r.0.line == r.1.line
    ensures Tracks(s, c) ==> Tracks(s, r.1)
  {
    var j := StringEnd(s, c.pos + 1);
    var d := StepTo(s, c, if j < |s| && s[j] == '"' then j + 1 else j);
    var t := s[c.pos + 1..j];
    assert forall k :: 0 <= k < |t| ==> t[k] == s[c.pos + 1 + k];
    (Lexeme(StringLit, t, d.line, c.column), d)
  }

  /** One token of `tokenize`, starting at a character that is not blank and
      starts no comment.  The token's column is where it starts; its line is
      the line reached after it, as the source reads `line` once the token
      has been scanned. */
  function ScanToken(s: string, c: Cursor): (r: ScannedToken)
    requires c.pos < |s|
    ensures c.pos < r.1.pos <= |s|
    ensures r.0.kind != EofToken
    ensures r.0.column == c.column && r.0.line == r.1.line
    ensures Tracks(s, c) ==> Tracks(s, r.1)
  {
    var ch := s[c.pos];
    if IsAlpha(ch) || ch == '_' then ScanWord(s, c)
    else if IsDigit(ch) then ScanNumber(s, c)
    else if ch == '"' then ScanStringLit(s, c)
    else ScanOperator(s, c)
  }

  /** `tokenize`: the tokens from the cursor on, closed by one `EofToken`
      carrying the final line and column. */
  function TokensFrom(s: string, c: Cursor): (toks: seq<Lexeme>)
    requires c.pos <= |s|
    ensures |toks| >= 1 && toks[|toks| - 1].kind == EofToken && toks[|toks| - 1].text == ""
    ensures forall k :: 0 <= k < |toks| - 1 ==> toks[k].kind != EofToken
    ensures Tracks(s, c) ==> forall k :: 0 <= k < |toks| ==> toks[k].line >= 1 && toks[k].column >= 1
    decreases |s| - c.pos
  {
    var d := SkipWs(s, c);
    if d.pos >= |s| then [Lexeme(EofToken, "", d.line, d.column)]
    else
      var r := ScanToken(s, d);
      var rest := TokensFrom(s, r.1);
      ConsTokens(s, d, r.0, r.1, rest);
      [r.0] + rest
  }

  lemma ConsTokens(s: string, d: Cursor, t: Lexeme, e: Cursor, rest: seq<Lexeme>)
    requires t.kind != EofToken
    requires Tracks(s, d) ==> Tracks(s, e) && t.column == d.column && t.line == e.line
    requires |rest| >= 1 && rest[|rest| - 1].kind == EofToken && rest[|rest| - 1].text == ""
    requires forall k :: 0 <= k < |rest| - 1 ==> rest[k].kind != EofToken
    requires Tracks(s, e) ==> forall k :: 0 <= k < |rest| ==> rest[k].line >= 1 && rest[k].column >= 1
    ensures var toks := [t] + rest;
      && toks[|toks| - 1].kind == EofToken && toks[|toks| - 1].text == ""
      && (forall k :: 0 <= k < |toks| - 1 ==> toks[k].kind != EofToken)
      && (Tracks(s, d) ==> forall k :: 0 <= k < |toks| ==> toks[k].line >= 1 && toks[k].column >= 1)
  {
    assert forall k :: 1 <= k < |rest| + 1 ==> ([t] + rest)[k] == rest[k - 1];
    if Tracks(s, d) {
      assert ColumnAt(s, d.pos) >= 1;
    }
  }

  function Tokenize(s: string): (toks: seq<Lexeme>)
    ensures |toks| >= 1 && toks[|toks| - 1].kind == EofToken
    ensures forall k :: 0 <= k < |toks| - 1 ==> toks[k].kind != EofToken
    ensures forall k :: 0 <= k < |toks| ==> toks[k].line >= 1 && toks[k].column >= 1
    ensures AllCanonical(toks)
  {
    assert s[..0] == [];
    TokensCanonical(s, Start());
    TokensFrom(s, Start())
  }

  /** Every operator token the lexer makes carries its spelling. */
  lemma {:induction false} TokensCanonical(s: string, c: Cursor)
    requires c.pos <= |s|
    ensures AllCanonical(TokensFrom(s, c))
    decreases |s| - c.pos
  {
    var d := SkipWs(s, c);
    if d.pos < |s| {
      var r := ScanToken(s, d);
      TokensCanonical(s, r.1);
      ScannedCanonical(s, d);
      CanonicalCons(r.0, TokensFrom(s, r.1));
      assert TokensFrom(s, c) == [r.0] + TokensFrom(s, r.1);
    } else {
      assert TokensFrom(s, c) == [Lexeme(EofToken, "", d.line, d.column)];
    }
  }

  /** A scanned token of an operator kind is spelled as that operator; words,
      numbers and strings are of no operator kind. */
  lemma ScannedCanonical(s: string, c: Cursor)
    requires c.pos < |s|
    ensures Canonical(ScanToken(s, c).0)
  {
    var ch := s[c.pos];
    if IsAlpha(ch) || ch == '_' {
      assert forall k | k in Keywords.Values :: Spelling(k) == "";
    } else if !IsDigit(ch) && ch != '"' {
      OperatorSpellings(ch);
    }
  }

  lemma CanonicalCons(t: Lexeme, rest: seq<Lexeme>)
    requires Canonical(t) && AllCanonical(rest)
    ensures AllCanonical([t] + rest)
  {
    assert forall k :: 1 <= k < |rest| + 1 ==> ([t] + rest)[k] == rest[k - 1];
  }
}
