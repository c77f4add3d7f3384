/** The lexer of the WolfParser front end (the repository's top-level
    `src/lexer.cpp`).  It reads the source on demand through `peek` and
    `get`, both of which yield NUL past the end, and keeps a line counter
    that only whitespace newlines advance.  Every word is an identifier;
    numbers keep a dot that follows a digit; strings decode backslash
    escapes and end, without error, at the closing quote, a newline or the
    end of input. */
module WolfLexer {
  import opened Chars
  import opened Scanning

  datatype Kind =
    | Ident | Number | Str | End
    | LParen | RParen | LBrace | RBrace | Comma | Semi | Dot
    | Plus | Minus | Mul | Div | Mod
    | Eq | Assign | Neq | Not | Le | Lt | Ge | Gt | And | Or
    | Unknown

  datatype Token = Token(kind: Kind, text: string, line: int)

  /** The lexer's state: read position and line counter. */
  datatype Cursor = Cursor(pos: nat, line: int)

  /** A scanned token and the position after it. */
  type Scanned = (Token, nat)

  /** A token and the cursor after it. */
  type Stepped = (Token, Cursor)

  /** The decoded body of a string literal and the position after it. */
  type StrBody = (string, nat)

  function Start(): Cursor {
    Cursor(0, 1)
  }

  /** The start of a comment: two slashes. */
  predicate CommentAt(s: string, i: nat) {
    Peek(s, i) == '/' && Peek(s, i + 1) == '/'
  }

  /** The body of a `//` comment, up to the newline or NUL that ends it. */
  function CommentEnd(s: string, i: nat): (j: nat)
    requires i <= |s|
    ensures i <= j <= |s|
    ensures forall k :: i <= k < j ==> s[k] != '\n'
    ensures Peek(s, j) == '\n' || Peek(s, j) == '\0'
    decreases |s| - i
  {
    var ch := Peek(s, i);
    if ch != '\n' && ch != '\0' then CommentEnd(s, i + 1) else i
  }

  /** `skipWhitespace`: blanks and comments, until neither starts at the
      cursor; the line counter grows by the newlines skipped. */
  function SkipWs(s: string, c: Cursor): (r: Cursor)
    requires c.pos <= |s|
    ensures c.pos <= r.pos <= |s|
    ensures !IsSpace(Peek(s, r.pos)) && !CommentAt(s, r.pos)
    ensures var e := r.pos; r.line == c.line + Newlines(s[c.pos..e])
    decreases |s| - c.pos
  {
    var ch := Peek(s, c.pos);
    if IsSpace(ch) then
      var r := SkipWs(s, Cursor(c.pos + 1, c.line + (if ch == '\n' then 1 else 0)));
      NewlinesSplit(s, c.pos, c.pos + 1, r.pos);
      r
    else if CommentAt(s, c.pos) then
      var j := CommentEnd(s, c.pos);
      NoNewlines(s, c.pos, j);
      var r := SkipWs(s, Cursor(j, c.line));
      NewlinesSplit(s, c.pos, j, r.pos);
      r
    else c
  }

  /** `number`, as its loop runs: after each digit, a dot ends the number
      together with the digits after it. */
  function NumberEnd(s: string, i: nat): (j: nat)
    requires i <= |s|
    ensures i <= j <= |s|
    ensures var d := DigitRun(s, i);
      j == (if d > i && Peek(s, d) == '.' then DigitRun(s, d + 1) else d)
    decreases |s| - i
  {
    if IsDigit(Peek(s, i)) then
      if Peek(s, i + 1) == '.' then DigitRun(s, i + 2) else NumberEnd(s, i + 1)
    else i
  }

  /** What a backslash followed by `c` stands for in a string. */
  function Unescape(c: char): char {
    match c
    case 'n' => '\n'
    case 't' => '\t'
    case _ => c
  }

  /** `string` after the opening quote: the decoded text and the position
      after it.  The text ends before a newline or NUL (or at the end of
      input) and after a closing quote.  A backslash and the character
      after it become one character, NUL for a backslash at the very end. */
  function StringBody(s: string, i: nat): (r: StrBody)
    requires i <= |s|
    ensures i <= r.1 <= |s|
    ensures (r.1 > i && s[r.1 - 1] == '"') || Peek(s, r.1) == '\n' || Peek(s, r.1) == '\0'
    decreases |s| - i
  {
    var ch := Peek(s, i);
    if ch == '\0' || ch == '\n' then ("", i)
    else if ch == '"' then ("", i + 1)
    else if ch == '\\' then
      var rest := StringBody(s, if i + 1 < |s| then i + 2 else i + 1);
      ([Unescape(Peek(s, i + 1))] + rest.0, rest.1)
    else
      var rest := StringBody(s, i + 1);
      ([ch] + rest.0, rest.1)
  }

  /** The one-character tokens. */
  const Single: map<char, Kind> := map[
    '(' := LParen, ')' := RParen, '{' := LBrace, '}' := RBrace, ',' := Comma,
    ';' := Semi, '.' := Dot, '+' := Plus, '-' := Minus, '*' := Mul,
    '/' := Div, '%' := Mod]

  /** The characters that become a two-character token when `=` follows,
      with the kinds they give alone and with the `=`. */
  const WithEquals: map<char, (Kind, Kind)> := map[
    '=' := (Assign, Eq), '!' := (Not, Neq), '<' := (Lt, Le), '>' := (Gt, Ge)]

  /** The characters that are a token only when doubled. */
  const Doubled: map<char, Kind> := map['&' := And, '|' := Or]

  /** The operator branch of `getNextToken` for the character at `i`: one
      character always, a second one for `==`, `!=`, `<=`, `>=`, `&&` and
      `||`; a lone `&` or `|` and any unlisted character are `Unknown` with
      that one character as text. */
  function ScanOperator(s: string, i: nat, line: int): (r: Scanned)
    requires i < |s|
    ensures i < r.1 <= i + 2 && r.1 <= |s|
    ensures var e := r.1; r.0.line == line && r.0.text == s[i..e]
    ensures var ch := s[i];
      && (ch in WithEquals ==>
            if Peek(s, i + 1) == '=' then r.0.kind == WithEquals[ch].1 && r.1 == i + 2
            else r.0.kind == WithEquals[ch].0 && r.1 == i + 1)
      && (ch in Doubled ==>
            if Peek(s, i + 1) == ch then r.0.kind == Doubled[ch] && r.1 == i + 2
            else r.0.kind == Unknown && r.1 == i + 1)
      && (ch in Single ==> r.0.kind == Single[ch] && r.1 == i + 1)
      && (ch !in Single && ch !in WithEquals && ch !in Doubled ==> r.0.kind == Unknown && r.1 == i + 1)
  {
    var ch := s[i];
    if ch in Single then (Token(Single[ch], [ch], line), i + 1)
    else if ch in WithEquals && Peek(s, i + 1) == '=' then
      assert s[i..i + 2] == [ch, '='];
      (Token(WithEquals[ch].1, [ch, '='], line), i + 2)
    else if ch in WithEquals then (Token(WithEquals[ch].0, [ch], line), i + 1)
    else if ch in Doubled && Peek(s, i + 1) == ch then
      assert s[i..i + 2] == [ch, ch];
      (Token(Doubled[ch], [ch, ch], line), i + 2)
    else (Token(Unknown, [ch], line), i + 1)
  }

  /** `getNextToken`: whitespace and comments first, then one token, whose
      line is the counter's value at the token's start.  NUL (an embedded
      one or the end of input) gives `End` with empty text and consumes
      nothing; every other token consumes at least one character. */
  function NextToken(s: string, c: Cursor): (r: Stepped)
    requires c.pos <= |s|
    ensures c.pos <= r.1.pos <= |s|
    ensures var d, e := SkipWs(s, c), r.1.pos;
      && r.0.line == d.line == r.1.line
      && (r.0.kind == End <==> Peek(s, d.pos) == '\0')
      && (r.0.kind == End ==> r.0.text == "" && r.1 == d)
      && (r.0.kind != End ==> r.1.pos > d.pos)
      && (IsAlpha(Peek(s, d.pos)) || Peek(s, d.pos) == '_' <==> r.0.kind == Ident)
      && (r.0.kind == Ident ==> r.0.text == s[d.pos..e] && e == WordEnd(s, d.pos))
      && (IsDigit(Peek(s, d.pos)) <==> r.0.kind == Number)
      && (r.0.kind == Number ==> r.0.text == s[d.pos..e] && e == NumberEnd(s, d.pos))
      && (Peek(s, d.pos) == '"' <==> r.0.kind == Str)
      && (r.0.kind == Str ==> (r.0.text, r.1.pos) == StringBody(s, d.pos + 1))
  {
    var d := SkipWs(s, c);
    var ch := Peek(s, d.pos);
    if ch == '\0' then (Token(End, "", d.line), d)
    else if IsAlpha(ch) || ch == '_' then
      var j := WordEnd(s, d.pos);
      (Token(Ident, s[d.pos..j], d.line), Cursor(j, d.line))
    else if IsDigit(ch) then
      var j := NumberEnd(s, d.pos);
      (Token(Number, s[d.pos..j], d.line), Cursor(j, d.line))
    else if ch == '"' then
      var b := StringBody(s, d.pos + 1);
      (Token(Str, b.0, d.line), Cursor(b.1, d.line))
    else
      var o := ScanOperator(s, d.pos, d.line);
      (o.0, Cursor(o.1, d.line))
  }

  /** Once the end is reached, every later call gives the same `End` token
      and leaves the cursor where it is. */
  lemma EndRepeats(s: string, c: Cursor)
    requires c.pos <= |s| && NextToken(s, c).0.kind == End
    ensures NextToken(s, NextToken(s, c).1) == NextToken(s, c)
  {
    var d := SkipWs(s, c);
    assert SkipWs(s, d) == d;
  }

  /** A number keeps a dot after its digits even with no digit behind it:
      digits, then a dot, then a non-digit lex as one number ending at the
      dot. */
  lemma TrailingDotIsKept(s: string, i: nat, k: nat)
    requires i < k < |s| && forall m :: i <= m < k ==> IsDigit(s[m])
    requires s[k] == '.' && !IsDigit(Peek(s, k + 1))
    ensures NumberEnd(s, i) == k + 1
  {
    DigitsRunTo(s, i, k);
  }

  lemma {:induction false} DigitsRunTo(s: string, i: nat, k: nat)
    requires i <= k < |s| && forall m :: i <= m < k ==> IsDigit(s[m])
    requires !IsDigit(s[k])
    ensures DigitRun(s, i) == k
    decreases k - i
  {
    if i < k {
      DigitsRunTo(s, i + 1, k);
    }
  }

  // ------------------------------------------------------------------ Escapes

  /** How a character is written inside a string literal so that the lexer
      reads it back: newline, tab, quote and backslash take a backslash. */
  function EscapeChar(c: char): string {
    if c == '\n' then "\\n"
    else if c == '\t' then "\\t"
    else if c == '"' then "\\\""
    else if c == '\\' then "\\\\"
    else [c]
  }

  function Escape(t: string): (r: string)
    ensures |r| >= |t|
  {
    if |t| == 0 then "" else EscapeChar(t[0]) + Escape(t[1..])
  }

  /** A backslash with a character after it decodes that character and
      goes on two positions later. */
  lemma EscapedStep(s: string, i: nat)
    requires i + 1 < |s| && s[i] == '\\'
    ensures StringBody(s, i) == ([Unescape(s[i + 1])] + StringBody(s, i + 2).0, StringBody(s, i + 2).1)
  {
  }

  /** Any other character but NUL, newline and quote is kept as it is. */
  lemma PlainStep(s: string, i: nat)
    requires i < |s| && s[i] !in {'\0', '\n', '"', '\\'}
    ensures StringBody(s, i) == ([s[i]] + StringBody(s, i + 1).0, StringBody(s, i + 1).1)
  {
  }

  /** A character written with `EscapeChar` is either itself, when the
      string scanner keeps it as it is, or a backslash and a character
      that decodes to it. */
  lemma EscapeCharDecodes(c: char)
    ensures |EscapeChar(c)| == 1 ==> EscapeChar(c) == [c] && c !in {'\n', '"', '\\'}
    ensures |EscapeChar(c)| != 1 ==> |EscapeChar(c)| == 2 && EscapeChar(c)[0] == '\\' && Unescape(EscapeChar(c)[1]) == c
  {
  }

  /** Round trip: a NUL-free text written with `Escape` and closed by a
      quote lexes back to itself, ending just after the quote. */
  lemma {:induction false} StringRoundTrip(s: string, i: nat, t: string)
    requires forall k :: 0 <= k < |t| ==> t[k] != '\0'
    requires i + |Escape(t)| < |s|
    requires s[i..i + |Escape(t)|] == Escape(t) && s[i + |Escape(t)|] == '"'
    ensures StringBody(s, i).0 == t
    ensures StringBody(s, i).1 == i + |Escape(t)| + 1
    decreases |t|
  {
    if |t| == 0 {
      assert s[i] == '"';
    } else {
      var e := EscapeChar(t[0]);
      var n := |e|;
      var rest := Escape(t[1..]);
      assert Escape(t) == e + rest;
      SplitWritten(s, i, e, rest);
      StringRoundTrip(s, i + n, t[1..]);
      ReadsWritten(s, i, t[0], n);
      assert [t[0]] + t[1..] == t;
    }
  }

  /** One character written with `EscapeChar` is read back by one step of
      the string scanner. */
  lemma ReadsWritten(s: string, i: nat, c: char, n: nat)
    requires n == |EscapeChar(c)|
    requires c != '\0' && i + n < |s| && s[i..i + n] == EscapeChar(c)
    ensures StringBody(s, i).0 == [c] + StringBody(s, i + n).0
    ensures StringBody(s, i).1 == StringBody(s, i + n).1
  {
    var e := EscapeChar(c);
    EscapeCharDecodes(c);
    assert s[i] == e[0];
    if |e| == 2 {
      assert s[i + 1] == e[1];
      EscapedStep(s, i);
    } else {
      PlainStep(s, i);
    }
  }

  /** Where `a + b` is written at `i`, `a` is written at `i` and `b` after it. */
  lemma SplitWritten(s: string, i: nat, a: string, b: string)
    requires i + |a + b| <= |s| && s[i..i + |a + b|] == a + b
    ensures s[i..i + |a|] == a && s[i + |a|..i + |a| + |b|] == b
  {
    assert s[i..i + |a|] == s[i..i + |a + b|][..|a|];
    assert s[i + |a|..i + |a| + |b|] == s[i..i + |a + b|][|a|..];
  }

  // ------------------------------------------------------------------- Stream

  /** The token stream the parser pulls: tokens up to and including the
      first `End`. */
  function Tokenize(s: string, c: Cursor): (r: seq<Token>)
    requires c.pos <= |s|
    ensures |r| >= 1 && r[|r| - 1].kind == End
    ensures forall k :: 0 <= k < |r| - 1 ==> r[k].kind != End
    decreases |s| - c.pos
  {
    var (t, d) := NextToken(s, c);
    if t.kind == End then [t] else [t] + Tokenize(s, d)
  }

  function Lex(s: string): (r: seq<Token>)
    ensures |r| >= 1 && r[|r| - 1].kind == End
    ensures forall k :: 0 <= k < |r| - 1 ==> r[k].kind != End
  {
    Tokenize(s, Start())
  }
}
