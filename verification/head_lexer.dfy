/** The lexer of the LuduScript interpreter (LuduScript-head).
    A lexer state is the source text, a read position and the current line
    number.  `NextToken` skips blanks and `//` comments and returns one token;
    at the end of the text (or at an embedded NUL byte, which the source
    treats the same way) it returns `End` and stays where it is. */
module HeadLexer {
  import opened Chars
  import opened Scanning

  datatype Kind =
    | End | Ident | Number | String | Bool
    | KwIf | KwElif | KwElse | KwFor | KwBreak | KwContinue
    | KwObj | KwNum | KwStr | KwBool | KwTrue | KwFalse
    | LParen | RParen | LBrace | RBrace | Comma | Semi | Dot
    | Plus | Minus | Mul | Div | Mod
    | Eq | Assign | Neq | Lt | Gt | Le | Ge | And | Or | Not
    | Unknown

  /** A token: its kind, its text and the line it was produced on. */
  datatype Token = Token(kind: Kind, text: string, line: int)

  /** A scanned token and the position after it. */
  type Scanned = (Token, nat)

  /** The position after skipped blanks and the line number reached there. */
  type Skipped = (nat, int)

  datatype Lexer = Lexer(src: string, pos: nat, line: int) {
    ghost predicate Valid() {
      pos <= |src|
    }
  }

  /** A token and the lexer state after it. */
  type Stepped = (Token, Lexer)

  /** A fresh lexer over `src`, at line 1. */
  function Start(src: string): Lexer {
    Lexer(src, 0, 1)
  }

  /** The twelve reserved words and the token kind each one produces. */
  const Keywords: map<string, Kind> := map[
    "if" := KwIf, "elif" := KwElif, "else" := KwElse, "for" := KwFor,
    "obj" := KwObj, "num" := KwNum, "str" := KwStr, "bool" := KwBool,
    "break" := KwBreak, "continue" := KwContinue,
    "true" := KwTrue, "false" := KwFalse]

  predicate IsKeywordKind(k: Kind) {
    k.KwIf? || k.KwElif? || k.KwElse? || k.KwFor? || k.KwBreak? || k.KwContinue?
    || k.KwObj? || k.KwNum? || k.KwStr? || k.KwBool? || k.KwTrue? || k.KwFalse?
  }

  /** The one-character tokens. */
  const Punct: map<char, Kind> := map[
    '(' := LParen, ')' := RParen, '{' := LBrace, '}' := RBrace,
    ',' := Comma, ';' := Semi, '.' := Dot,
    '+' := Plus, '-' := Minus, '*' := Mul, '/' := Div, '%' := Mod]

  /** The characters that take one character of lookahead: without a
      following `=` they give the first kind, with it the second. */
  const Lookahead: map<char, (Kind, Kind)> := map[
    '=' := (Assign, Eq), '!' := (Not, Neq), '<' := (Lt, Le), '>' := (Gt, Ge)]

  /** The fixed spelling of every operator and punctuation kind; empty
      for the kinds whose text varies. */
  function Spelling(k: Kind): string {
    match k
    case LParen => "(" case RParen => ")" case LBrace => "{" case RBrace => "}"
    case Comma => "," case Semi => ";" case Dot => "."
    case Plus => "+" case Minus => "-" case Mul => "*" case Div => "/" case Mod => "%"
    case Assign => "=" case Eq => "==" case Not => "!" case Neq => "!="
    case Lt => "<" case Le => "<=" case Gt => ">" case Ge => ">="
    case And => "&&" case Or => "||"
    case _ => ""
  }

  /** A token of an operator or punctuation kind carries its spelling. */
  predicate Canonical(t: Token) {
    Spelling(t.kind) == "" || t.text == Spelling(t.kind)
  }

  lemma PunctCanonical(c: char, ln: int)
    requires c in Punct
    ensures Canonical(Token(Punct[c], [c], ln))
  {
    if c == '(' {} else if c == ')' {} else if c == '{' {} else if c == '}' {}
    else if c == ',' {} else if c == ';' {} else if c == '.' {}
    else if c == '+' {} else if c == '-' {} else if c == '*' {} else if c == '/' {}
    else { assert c == '%'; }
  }

  lemma LookaheadCanonical(c: char, ln: int)
    requires c in Lookahead
    ensures Canonical(Token(Lookahead[c].0, [c], ln))
    ensures Canonical(Token(Lookahead[c].1, [c, '='], ln))
  {
    if c == '=' {} else if c == '!' {} else if c == '<' {} else { assert c == '>'; }
  }

  /** True when `skipWhitespace` would consume something at `i`. */
  predicate SkipStart(s: string, i: nat) {
    var c := Peek(s, i);
    c == ' ' || c == '\t' || c == '\r' || c == '\n'
    || (c == '/' && i + 1 < |s| && s[i + 1] == '/')
  }

  /** The body of a `//` comment: everything up to the next newline or NUL. */
  function SkipComment(s: string, i: nat): (j: nat)
    requires i <= |s|
    ensures i <= j <= |s|
    ensures Peek(s, j) == '\n' || Peek(s, j) == '\0'
    ensures forall k :: i <= k < j ==> s[k] != '\n' && s[k] != '\0'
    decreases |s| - i
  {
    if Peek(s, i) != '\n' && Peek(s, i) != '\0' then SkipComment(s, i + 1) else i
  }

  /** `skipWhitespace`: returns the first position that starts neither a blank
      nor a comment, and the line number advanced by exactly the number of
      newlines passed over. */
  function SkipWs(s: string, i: nat, line: int): (r: Skipped)
    requires i <= |s|
    ensures i <= r.0 <= |s|
    ensures var e := r.0; r.1 == line + Newlines(s[i..e])
    ensures !SkipStart(s, r.0)
    decreases |s| - i
  {
    var c := Peek(s, i);
    if c == ' ' || c == '\t' || c == '\r' || c == '\n' then
      var r := SkipWs(s, i + 1, if c == '\n' then line + 1 else line);
      NewlinesSplit(s, i, i + 1, r.0);
      r
    else if c == '/' && i + 1 < |s| && s[i + 1] == '/' then
      var j := SkipComment(s, i);
      var r := SkipWs(s, j, line);
      NewlinesSplit(s, i, j, r.0);
      NoNewlines(s, i, j);
      r
    else
      (i, line)
  }

  /** Kind of a scanned word: its keyword kind, or `Ident`. */
  function WordKind(w: string): (k: Kind)
    ensures IsKeywordKind(k) <==> w in Keywords
    ensures w in Keywords ==> k == Keywords[w]
    ensures w !in Keywords ==> k == Ident
  {
    if w in Keywords then Keywords[w] else Ident
  }

  /** End of a number token that starts at the digit at `i`: digits, then
      `.` and more digits only when a digit follows the dot. */
  function NumberEnd(s: string, i: nat): (j: nat)
    requires i <= |s|
    ensures i <= j <= |s|
    ensures forall k :: i <= k < j ==> IsDigit(s[k]) || s[k] == '.'
    ensures forall k, m :: i <= k < m < j && s[k] == '.' ==> s[m] != '.'
    ensures j > i ==> IsDigit(s[j - 1])
    ensures !IsDigit(Peek(s, j))
  {
    var d := DigitRun(s, i);
    if Peek(s, d) == '.' && IsDigit(Peek(s, d + 1)) then DigitRun(s, d + 1) else d
  }

  /** What an escape `\c` inside a string literal stands for. */
  function Unescape(c: char): char {
    if c == 'n' then '\n'
    else if c == 't' then '\t'
    else if c == '"' then '"'
    else if c == '\\' then '\\'
    else c
  }

  /** The outcome of scanning a string body: whether the closing quote was
      found, the decoded text, and the position after the last character read. */
  datatype StrScan = StrScan(closed: bool, text: string, next: nat)

  /** The loop of the string scanner, reading from `i` with `acc` decoded so far. */
  function ScanString(s: string, i: nat, acc: string): (r: StrScan)
    requires i <= |s|
    ensures i <= r.next <= |s|
    ensures r.closed ==> i < r.next && s[r.next - 1] == '"'
    ensures !r.closed ==> r.next == |s| || (i < r.next && s[r.next - 1] == '\0')
    decreases |s| - i
  {
    var ch := Peek(s, i);
    if ch == '\0' then StrScan(false, acc, if i < |s| then i + 1 else i)
    else if ch == '"' then StrScan(true, acc, i + 1)
    else if ch == '\\' then
      var nx := Peek(s, i + 1);
      ScanString(s, if i + 1 < |s| then i + 2 else i + 1, acc + [Unescape(nx)])
    else ScanString(s, i + 1, acc + [ch])
  }

  /** The operator and punctuation part of `nextToken`, for a character `c`
      at `p` that starts no word, number or string: one-character tokens,
      `==` `!=` `<=` `>=` by one character of lookahead, `&&` and `||` only
      when both characters are present, and otherwise a one-character
      `Unknown` token. */
  function ScanOperator(s: string, p: nat, ln: int): (r: Scanned)
    requires p < |s|
    ensures p < r.1 <= p + 2 && r.1 <= |s|
    ensures r.0.line == ln && r.0.kind != End
    ensures var e := r.1; r.0.text == s[p..e]
    ensures Canonical(r.0)
  {
    var c := s[p];
    if c in Punct then
      PunctCanonical(c, ln);
      (Token(Punct[c], [c], ln), p + 1)
    else if c in Lookahead then
      LookaheadCanonical(c, ln);
      if Peek(s, p + 1) == '=' then
        assert s[p..p + 2] == [c, '='];
        (Token(Lookahead[c].1, s[p..p + 2], ln), p + 2)
      else (Token(Lookahead[c].0, [c], ln), p + 1)
    else if c == '&' && p + 1 < |s| && s[p + 1] == '&' then
      assert s[p..p + 2] == "&&";
      (Token(And, s[p..p + 2], ln), p + 2)
    else if c == '|' && p + 1 < |s| && s[p + 1] == '|' then
      assert s[p..p + 2] == "||";
      (Token(Or, s[p..p + 2], ln), p + 2)
    else
      (Token(Unknown, [c], ln), p + 1)
  }

  /** The token that starts at `p` (blanks already skipped), and the
      position after it. */
  function Scan(s: string, p: nat, ln: int): (r: Scanned)
    requires p <= |s|
    ensures p <= r.1 <= |s|
    ensures r.0.line == ln
    ensures r.0.kind == End <==> Peek(s, p) == '\0'
    ensures r.0.kind == End ==> r.0.text == "" && r.1 == p
    ensures r.0.kind != End ==> p < r.1
    ensures var e := r.1; Peek(s, p) != '"' ==> r.0.text == s[p..e]
    ensures Canonical(r.0)
  {
    var c := Peek(s, p);
    if c == '\0' then
      (Token(End, "", ln), p)
    else if IsAlpha(c) || c == '_' then
      var j := WordEnd(s, p);
      (Token(WordKind(s[p..j]), s[p..j], ln), j)
    else if IsDigit(c) then
      var j := NumberEnd(s, p);
      (Token(Number, s[p..j], ln), j)
    else if c == '"' then
      var sc := ScanString(s, p + 1, "");
      (Token(if sc.closed then String else Unknown, sc.text, ln), sc.next)
    else
      ScanOperator(s, p, ln)
  }

  /** `nextToken`: skip blanks and comments, then scan one token.  The
      token's line is the line reached after skipping. */
  function NextToken(lx: Lexer): (r: Stepped)
    requires lx.Valid()
    ensures r.1.Valid() && r.1.src == lx.src && r.1.line == r.0.line
    ensures r.0.kind == End ==> r.0.text == "" && r.1.pos == SkipWs(lx.src, lx.pos, lx.line).0
    ensures r.0.kind != End ==> lx.pos < r.1.pos
    ensures Canonical(r.0) && r.0.line >= lx.line
  {
    SkipWsLine(lx.src, lx.pos, lx.line);
    var (p, ln) := SkipWs(lx.src, lx.pos, lx.line);
    var (t, q) := Scan(lx.src, p, ln);
    (t, Lexer(lx.src, q, ln))
  }

  /** The tokens `nextToken` hands out from a fresh lexer, up to and including
      the first `End`. */
  function Tokenize(src: string): (toks: seq<Token>)
    ensures |toks| >= 1 && toks[|toks| - 1].kind == End
    ensures forall k :: 0 <= k < |toks| - 1 ==> toks[k].kind != End
    ensures forall k :: 0 <= k < |toks| ==> Canonical(toks[k])
  {
    TokensFrom(Start(src))
  }

  function TokensFrom(lx: Lexer): (toks: seq<Token>)
    requires lx.Valid()
    ensures TokenStream(toks, lx.line)
    decreases |lx.src| - lx.pos
  {
    var (t, next) := NextToken(lx);
    if t.kind == End then [t]
    else
      var rest := TokensFrom(next);
      ConsTokens(t, rest, lx.line);
      [t] + rest
  }

  /** What the lexer hands out: tokens from line `line` on, on
      non-decreasing lines, all canonical, ending with the one and only
      `End`. */
  predicate TokenStream(toks: seq<Token>, line: int) {
    && |toks| >= 1 && toks[|toks| - 1].kind == End
    && (forall k :: 0 <= k < |toks| - 1 ==> toks[k].kind != End && toks[k].line <= toks[k + 1].line)
    && (forall k :: 0 <= k < |toks| ==> toks[k].line >= line && Canonical(toks[k]))
  }

  lemma ConsTokens(t: Token, rest: seq<Token>, line: int)
    requires t.kind != End && t.line >= line && Canonical(t)
    requires TokenStream(rest, t.line)
    ensures TokenStream([t] + rest, line)
  {
    assert forall k :: 1 <= k < |rest| + 1 ==> ([t] + rest)[k] == rest[k - 1];
  }

  /** Skipping never moves the line counter backwards. */
  lemma SkipWsLine(s: string, i: nat, line: int)
    requires i <= |s|
    ensures SkipWs(s, i, line).1 >= line
  {
  }

  /** Once `nextToken` has returned `End` it returns the same `End` again and
      leaves the lexer where it is. */
  lemma EndIsSticky(lx: Lexer)
    requires lx.Valid()
    requires NextToken(lx).0.kind == End
    ensures NextToken(NextToken(lx).1) == NextToken(lx)
  {
    var (p, ln) := SkipWs(lx.src, lx.pos, lx.line);
    assert !SkipStart(lx.src, p);
    assert SkipWs(lx.src, p, ln) == (p, ln);
  }

  /** `=`, `!`, `<` and `>` become the two-character operator exactly when `=`
      follows; otherwise they give the one-character token and consume only
      themselves. */
  lemma OperatorLookahead(s: string, p: nat, ln: int)
    requires p < |s| && s[p] in Lookahead
    ensures var (t, q) := Scan(s, p, ln);
      && (Peek(s, p + 1) == '=' ==> t.kind == Lookahead[s[p]].1 && q == p + 2)
      && (Peek(s, p + 1) != '=' ==> t.kind == Lookahead[s[p]].0 && q == p + 1)
  {
    TablesDisjoint(s[p]);
    assert Scan(s, p, ln) == ScanOperator(s, p, ln);
  }

  /** No character is both punctuation and a lookahead operator. */
  lemma TablesDisjoint(c: char)
    requires c in Lookahead
    ensures c !in Punct
  {
    assert Punct.Keys == {'(', ')', '{', '}', ',', ';', '.', '+', '-', '*', '/', '%'};
    assert c == '=' || c == '!' || c == '<' || c == '>';
  }

  /** `&&` and `||` are operators only when both characters are present; a
      lone `&` or `|` is an unknown character. */
  lemma LogicalOperators(s: string, p: nat, ln: int)
    requires p < |s| && (s[p] == '&' || s[p] == '|')
    ensures var (t, q) := Scan(s, p, ln);
      && (p + 1 < |s| && s[p + 1] == s[p] ==> t.kind == (if s[p] == '&' then And else Or) && q == p + 2)
      && (!(p + 1 < |s| && s[p + 1] == s[p]) ==> t == Token(Unknown, [s[p]], ln) && q == p + 1)
  {
  }

  /** A word is the longest run of `[A-Za-z0-9_]`; it is a keyword token
      exactly when it is one of the reserved words, and an identifier
      otherwise; the token text is the word itself. */
  lemma WordToken(s: string, p: nat, ln: int)
    requires p < |s| && (IsAlpha(s[p]) || s[p] == '_')
    ensures var (t, q) := Scan(s, p, ln);
      && t.text == s[p..q] && |t.text| >= 1
      && (forall k :: 0 <= k < |t.text| ==> IsWordChar(t.text[k]))
      && !IsWordChar(Peek(s, q))
      && (IsKeywordKind(t.kind) <==> t.text in Keywords)
      && (!IsKeywordKind(t.kind) ==> t.kind == Ident)
  {
  }

  /** Text of a number token: digits, optionally one `.` followed by digits. */
  predicate IsNumberText(t: string) {
    && |t| > 0 && IsDigit(t[0]) && IsDigit(t[|t| - 1])
    && forall i :: 0 <= i < |t| ==>
         IsDigit(t[i]) || (t[i] == '.' && forall j :: 0 <= j < |t| && j != i ==> IsDigit(t[j]))
  }

  /** A number takes its digits and takes a `.` only when a digit follows it;
      otherwise the dot is left for the next token. */
  lemma NumberToken(s: string, p: nat, ln: int)
    requires p < |s| && IsDigit(s[p])
    ensures var (t, q) := Scan(s, p, ln);
      && t.kind == Number && t.text == s[p..q] && IsNumberText(t.text)
      && !IsDigit(Peek(s, q))
      && ('.' !in t.text ==> !(Peek(s, q) == '.' && IsDigit(Peek(s, q + 1))))
  {
    var d := DigitRun(s, p);
    var q := NumberEnd(s, p);
    var t := s[p..q];
    if Peek(s, d) == '.' && IsDigit(Peek(s, d + 1)) {
      assert t[d - p] == '.';
      assert forall i :: 0 <= i < |t| && i != d - p ==> IsDigit(t[i]);
    } else {
      assert q == d;
      assert forall i :: 0 <= i < |t| ==> IsDigit(t[i]);
    }
  }

  /** How a script writer puts one character into a string literal: quote
      and backslash are escaped, newline and tab are written as `\n` and `\t`. */
  function EscapeChar(c: char): (e: string)
    ensures 1 <= |e| <= 2
  {
    if c == '"' then "\\\"" else if c == '\\' then "\\\\"
    else if c == '\n' then "\\n" else if c == '\t' then "\\t" else [c]
  }

  function Escape(t: string): (e: string)
    ensures |e| >= |t|
  {
    if |t| == 0 then "" else EscapeChar(t[0]) + Escape(t[1..])
  }

  /** `w` is written in `s` from position `i` on. */
  predicate WrittenAt(s: string, i: nat, w: string) {
    i + |w| <= |s| && forall k :: 0 <= k < |w| ==> s[i + k] == w[k]
  }

  lemma WrittenSplit(s: string, i: nat, a: string, b: string)
    requires WrittenAt(s, i, a + b)
    ensures WrittenAt(s, i, a) && WrittenAt(s, i + |a|, b)
  {
    forall k | 0 <= k < |a|
      ensures s[i + k] == a[k]
    {
      assert (a + b)[k] == a[k];
    }
    forall k | 0 <= k < |b|
      ensures s[i + |a| + k] == b[k]
    {
      assert (a + b)[|a| + k] == b[k];
    }
  }

  lemma {:induction false} ScanEscaped(s: string, i: nat, acc: string, t: string)
    requires forall k :: 0 <= k < |t| ==> t[k] != '\0'
    requires WrittenAt(s, i, Escape(t) + "\"")
    ensures ScanString(s, i, acc) == StrScan(true, acc + t, i + |Escape(t)| + 1)
    decreases |t|
  {
    if |t| == 0 {
      assert s[i + 0] == (Escape(t) + "\"")[0] == '"';
    } else {
      EscapedSplit(s, i, t);
      ScanEscaped(s, i + |EscapeChar(t[0])|, acc + [t[0]], t[1..]);
      EscapedStep(s, i, acc, t);
    }
  }

  /** Where the first escaped character of `t` ends, the rest of `t` is
      written escaped. */
  lemma EscapedSplit(s: string, i: nat, t: string)
    requires |t| > 0 && forall k :: 0 <= k < |t| ==> t[k] != '\0'
    requires WrittenAt(s, i, Escape(t) + "\"")
    ensures WrittenAt(s, i, EscapeChar(t[0])) && i + |EscapeChar(t[0])| <= |s|
    ensures WrittenAt(s, i + |EscapeChar(t[0])|, Escape(t[1..]) + "\"")
    ensures forall k :: 0 <= k < |t[1..]| ==> t[1..][k] != '\0'
  {
    var head := EscapeChar(t[0]);
    var tail := Escape(t[1..]);
    assert Escape(t) + "\"" == head + (tail + "\"");
    WrittenSplit(s, i, head, tail + "\"");
    assert forall k :: 0 <= k < |t[1..]| ==> t[1..][k] == t[k + 1];
  }

  /** The step of `ScanEscaped`: one escaped character, then the rest. */
  lemma EscapedStep(s: string, i: nat, acc: string, t: string)
    requires |t| > 0 && t[0] != '\0'
    requires WrittenAt(s, i, EscapeChar(t[0])) && i + |EscapeChar(t[0])| <= |s|
    requires ScanString(s, i + |EscapeChar(t[0])|, acc + [t[0]])
      == StrScan(true, acc + [t[0]] + t[1..], i + |EscapeChar(t[0])| + |Escape(t[1..])| + 1)
    ensures ScanString(s, i, acc) == StrScan(true, acc + t, i + |Escape(t)| + 1)
  {
    ScanOneEscaped(s, i, acc, t[0]);
    assert acc + [t[0]] + t[1..] == acc + t;
  }

  /** One escaped character reads back as that character. */
  lemma ScanOneEscaped(s: string, i: nat, acc: string, c: char)
    requires c != '\0' && WrittenAt(s, i, EscapeChar(c)) && i + |EscapeChar(c)| <= |s|
    ensures ScanString(s, i, acc) == ScanString(s, i + |EscapeChar(c)|, acc + [c])
  {
    var head := EscapeChar(c);
    assert s[i + 0] == head[0];
    if c == '"' || c == '\\' || c == '\n' || c == '\t' {
      assert s[i + 1] == head[1];
    }
  }

  /** A string literal written with `Escape` lexes back to exactly the
      original text, as a `String` token that ends after the closing quote. */
  lemma StringRoundTrip(t: string, rest: string, line: int)
    requires forall k :: 0 <= k < |t| ==> t[k] != '\0'
    ensures var src := "\"" + Escape(t) + "\"" + rest;
      NextToken(Lexer(src, 0, line)) == (Token(String, t, line), Lexer(src, |Escape(t)| + 2, line))
  {
    var e := Escape(t);
    var src := "\"" + e + "\"" + rest;
    QuotedSlice(e, rest);
    ScanEscaped(src, 1, "", t);
    assert "" + t == t;
    QuotedToken(src, line);
  }

  lemma QuotedSlice(e: string, rest: string)
    ensures var src := "\"" + e + "\"" + rest;
      |src| > 0 && src[0] == '"' && WrittenAt(src, 1, e + "\"")
  {
    var src := "\"" + e + "\"" + rest;
    var w := e + "\"";
    assert src == "\"" + w + rest;
    forall k | 0 <= k < |w|
      ensures src[1 + k] == w[k]
    {
      assert ("\"" + w + rest)[1 + k] == w[k];
    }
  }

  /** At a quote, `nextToken` skips nothing and hands over what the string
      scanner read. */
  lemma QuotedToken(s: string, line: int)
    requires |s| > 0 && s[0] == '"'
    ensures var sc := ScanString(s, 1, "");
      NextToken(Lexer(s, 0, line)) == (Token(if sc.closed then String else Unknown, sc.text, line), Lexer(s, sc.next, line))
  {
    assert Peek(s, 0) == '"';
    assert SkipWs(s, 0, line) == (0, line);
    QuotedScan(s, 0, line);
  }

  /** At a quote, `Scan` hands over what the string scanner read. */
  lemma QuotedScan(s: string, p: nat, ln: int)
    requires p < |s| && s[p] == '"'
    ensures var sc := ScanString(s, p + 1, "");
      Scan(s, p, ln) == (Token(if sc.closed then String else Unknown, sc.text, ln), sc.next)
  {
    assert Peek(s, p) == '"';
  }

  lemma {:induction false} ScanPlain(s: string, i: nat, acc: string)
    requires i <= |s|
    requires forall k :: i <= k < |s| ==> s[k] != '"' && s[k] != '\\' && s[k] != '\0'
    ensures ScanString(s, i, acc) == StrScan(false, acc + s[i..], |s|)
    decreases |s| - i
  {
    if i < |s| {
      ScanPlain(s, i + 1, acc + [s[i]]);
      assert acc + [s[i]] + s[i + 1..] == acc + s[i..];
    }
  }

  /** A string whose closing quote never comes runs to the end of the input
      and yields an `Unknown` token carrying the text read so far. */
  lemma UnterminatedString(s: string, p: nat, ln: int)
    requires p < |s| && s[p] == '"'
    requires forall k :: p < k < |s| ==> s[k] != '"' && s[k] != '\\' && s[k] != '\0'
    ensures Scan(s, p, ln) == (Token(Unknown, s[p + 1..], ln), |s|)
  {
    ScanPlain(s, p + 1, "");
    assert "" + s[p + 1..] == s[p + 1..];
  }
}
