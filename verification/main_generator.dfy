/** The string helpers of the LuduScript-main Python generator
    (`LuduScript/LuduScript-main/src/generator.cpp`): `trimStr`, which
    also drops a UTF-8 byte-order mark, `toPythonLiteral` with its `[]`
    case, `mapActionToClassName`, the clean-up tail of
    `normalizeExpression` that balances parentheses, `transformPrintContent`
    and the two ends of `translateBody`.  The rewrite rules in the middle
    of `normalizeExpression` and the line heuristics in the middle of
    `translateBody` are parameters.  Characters stand for bytes. */
module MainGenerator {
  import opened Chars
  import opened Text
  import opened PyLiteral
  import opened PyText
  import RootGenerator

  // ------------------------------------------------------------------ trimStr

  /** The UTF-8 byte-order mark `EF BB BF`. */
  const Bom: string := ['\U{EF}', '\U{BB}', '\U{BF}']

  /** The text without one leading byte-order mark. */
  function DropBom(s: string): (r: string)
    ensures |s| >= 3 && s[..3] == Bom ==> r == s[3..]
    ensures !(|s| >= 3 && s[..3] == Bom) ==> r == s
  {
    if |s| >= 3 && s[0] == Bom[0] && s[1] == Bom[1] && s[2] == Bom[2] then
      assert s[..3] == Bom;
      s[3..]
    else s
  }

  /** `trimStr`: one byte-order mark dropped, then the blanks at both ends. */
  function TrimStr(s: string): string {
    Trim(DropBom(s), Blanks)
  }

  /** Without a byte-order mark this is the other generator's `trimStr`,
      and with one it is that `trimStr` of the rest. */
  lemma TrimStrBom(s: string)
    ensures (|s| < 3 || s[..3] != Bom) ==> TrimStr(s) == RootGenerator.TrimStr(s)
    ensures TrimStr(Bom + s) == RootGenerator.TrimStr(s)
  {
    assert (Bom + s)[..3] == Bom;
    assert (Bom + s)[3..] == s;
  }

  // ---------------------------------------------------------- toPythonLiteral

  /** `toPythonLiteral`: as in the other generator, with `[]` and `[ ]`
      both written `[]`. */
  function ToPythonLiteral(val: string): (r: string)
    ensures var t := TrimStr(val);
      && (|t| == 0 ==> r == "None")
      && (|t| > 0 && LowerAll(t) == "true" ==> r == "True")
      && (|t| > 0 && LowerAll(t) == "false" ==> r == "False")
      && (t == "[]" || t == "[ ]" ==> r == "[]")
  {
    var t := TrimStr(val);
    if |t| == 0 then "None"
    else
      var lower := LowerAll(t);
      if lower == "false" then "False"
      else if lower == "true" then "True"
      else if t == "[]" || t == "[ ]" then "[]"
      else if t[0] == '"' || t[0] == '\'' then t
      else if LooksLikeNumber(t) then t
      else if !IsWordText(t) then "\"" + t + "\""
      else t
  }

  /** Apart from the list case, this is the other generator's conversion
      of the text after its byte-order mark. */
  lemma LiteralViaRoot(val: string)
    ensures var t := TrimStr(val);
      ToPythonLiteral(val) == if t == "[]" || t == "[ ]" then "[]" else RootGenerator.ToPythonLiteral(DropBom(val))
  {
    var t := TrimStr(val);
    if t == "[]" || t == "[ ]" {
      assert LowerAll(t)[0] == '[';
    }
  }

  /** The shape of a converted value: no blank at either end, never `[]` or
      `[ ]`, and starting with a quote, a word character, a sign or a dot. */
  predicate LiteralShaped(r: string) {
    && |r| > 0 && r[0] !in Blanks && r[|r| - 1] !in Blanks
    && r != "[]" && r != "[ ]"
    && (r[0] in Quotes || IsWordChar(r[0]) || r[0] in {'-', '+', '.'})
  }

  /** Every result of the other generator's conversion has that shape. */
  lemma RootLiteralShape(val: string)
    ensures LiteralShaped(RootGenerator.ToPythonLiteral(val))
  {
    var t := RootGenerator.TrimStr(val);
    if |t| == 0 || LowerAll(t) == "true" || LowerAll(t) == "false" {
      WordsShaped();
    } else if t[0] in Quotes || NumberShaped(t) || IsWordText(t) {
      KeptShape(t);
    } else {
      QuotedShaped(t);
    }
  }

  lemma WordsShaped()
    ensures LiteralShaped("None") && LiteralShaped("True") && LiteralShaped("False")
  {
    assert "None"[0] == 'N' && "True"[0] == 'T' && "False"[0] == 'F';
  }

  lemma QuotedShaped(t: string)
    ensures LiteralShaped("\"" + t + "\"")
  {
    var q := "\"" + t + "\"";
    assert q[0] == '"' && q[|q| - 1] == '"';
  }

  /** Trimmed text kept as it is has the shape of a literal. */
  lemma KeptShape(t: string)
    requires |t| > 0 && t[0] !in Blanks && t[|t| - 1] !in Blanks
    requires t[0] in Quotes || NumberShaped(t) || IsWordText(t)
    ensures LiteralShaped(t)
  {
    if t[0] !in Quotes {
      if NumberShaped(t) {
        NumberStart(t);
      } else {
        assert IsWordChar(t[0]);
      }
    }
  }

  /** A number without a sign starts with a digit or a dot. */
  lemma NumberStart(t: string)
    requires NumberShaped(t)
    ensures t[0] in {'-', '+'} || IsDigit(t[0]) || t[0] == '.'
  {
    if t[0] !in {'-', '+'} {
      assert SignEnd(t) == 0;
      assert t[SignEnd(t)..][0] == t[0];
    }
  }

  /** A literal is already in its final form. */
  lemma LiteralIdempotent(val: string)
    ensures ToPythonLiteral(ToPythonLiteral(val)) == ToPythonLiteral(val)
  {
    var t := TrimStr(val);
    if t == "[]" || t == "[ ]" {
      assert ToPythonLiteral(val) == "[]" by { LiteralViaRoot(val); }
      ListIsKept();
    } else {
      var d := DropBom(val);
      assert ToPythonLiteral(val) == RootGenerator.ToPythonLiteral(d) by { LiteralViaRoot(val); }
      RootResultKept(d);
      RootGenerator.LiteralIdempotent(d);
    }
  }

  lemma ListIsKept()
    ensures ToPythonLiteral("[]") == "[]"
  {
    LowerWord("[]", "[]");
    assert TrimStr("[]") == "[]" by {
      TrimAround("", "[]", "", Blanks);
      assert "" + "[]" + "" == "[]";
    }
  }

  /** A result of the other generator's conversion is converted here as
      there. */
  lemma RootResultKept(d: string)
    ensures var r := RootGenerator.ToPythonLiteral(d);
      ToPythonLiteral(r) == RootGenerator.ToPythonLiteral(r)
  {
    var r := RootGenerator.ToPythonLiteral(d);
    RootLiteralShape(d);
    assert DropBom(r) == r by { assert r[0] != Bom[0]; }
    assert TrimStr(r) == r by { RootGenerator.TrimClean(r); }
    LiteralViaRoot(r);
  }

  lemma LowerWord(w: string, low: string)
    requires |w| == |low| && forall k :: 0 <= k < |w| ==> ToLower(w[k]) == low[k]
    ensures LowerAll(w) == low
  {
    RootGenerator.LowerWord(w, low);
  }

  // ------------------------------------------------------ mapActionToClassName

  /** The loop of `mapActionToClassName`: underscores are dropped and the
      character after one (and the first) is upper-cased. */
  function Camel(s: string, up: bool): (r: string)
    ensures |r| == |s| - Count(s, '_')
    ensures forall k :: 0 <= k < |r| ==> r[k] != '_'
    decreases |s|
  {
    if |s| == 0 then ""
    else if s[0] == '_' then Camel(s[1..], true)
    else [if up then ToUpper(s[0]) else s[0]] + Camel(s[1..], false)
  }

  /** A word with its first character upper-cased. */
  function Capitalize(w: string): string {
    if |w| == 0 then "" else [ToUpper(w[0])] + w[1..]
  }

  function Concat(ws: seq<string>): string {
    if |ws| == 0 then "" else ws[0] + Concat(ws[1..])
  }

  function Capitalized(ws: seq<string>): (r: seq<string>)
    ensures |r| == |ws| && forall i :: 0 <= i < |ws| ==> r[i] == Capitalize(ws[i])
  {
    seq(|ws|, i requires 0 <= i < |ws| => Capitalize(ws[i]))
  }

  /** `mapActionToClassName`: CamelCase without underscores, with `Action`
      appended unless it already occurs. */
  function MapActionToClassName(name: string): (r: string)
    ensures Contains(r, "Action")
    ensures forall k :: 0 <= k < |r| ==> r[k] != '_'
    ensures Contains(Camel(name, true), "Action") ==> r == Camel(name, true)
    ensures !Contains(Camel(name, true), "Action") ==> r == Camel(name, true) + "Action"
  {
    var c := Camel(name, true);
    if Contains(c, "Action") then c
    else
      SuffixFound(c, "Action");
      c + "Action"
  }

  /** Text ending in `pat` contains it. */
  lemma SuffixFound(s: string, pat: string)
    ensures Contains(s + pat, pat)
  {
    assert (s + pat)[|s|..|s| + |pat|] == pat;
    assert At(s + pat, |s|, pat);
  }

  /** Reference definition: the name split at its underscores, each piece
      capitalized, the pieces run together. */
  lemma {:induction false} CamelBySegments(s: string, up: bool)
    ensures var parts := Split(s, '_');
      Camel(s, up) == (if up then Capitalize(parts[0]) else parts[0]) + Concat(Capitalized(parts[1..]))
    decreases |s|
  {
    if |s| > 0 {
      if s[0] == '_' {
        CamelBySegments(s[1..], true);
        CamelAtUnderscore(s, up);
      } else {
        CamelBySegments(s[1..], false);
        CamelAtLetter(s, up);
      }
    }
  }

  /** An underscore opens a new, capitalized segment. */
  lemma CamelAtUnderscore(s: string, up: bool)
    requires |s| > 0 && s[0] == '_'
    requires var rest := Split(s[1..], '_');
      Camel(s[1..], true) == Capitalize(rest[0]) + Concat(Capitalized(rest[1..]))
    ensures var parts := Split(s, '_');
      Camel(s, up) == (if up then Capitalize(parts[0]) else parts[0]) + Concat(Capitalized(parts[1..]))
  {
    var rest := Split(s[1..], '_');
    var parts := Split(s, '_');
    assert parts == [""] + rest;
    assert parts[0] == "" && parts[1..] == rest;
    var lead := if up then Capitalize(parts[0]) else parts[0];
    assert lead == "";
    assert Camel(s, up) == Camel(s[1..], true);
    var caps := Capitalized(rest);
    assert caps[1..] == Capitalized(rest[1..]);
    assert Concat(caps) == Capitalize(rest[0]) + Concat(caps[1..]);
    assert lead + Concat(caps) == Concat(caps);
  }

  /** Any other character joins the current segment. */
  lemma CamelAtLetter(s: string, up: bool)
    requires |s| > 0 && s[0] != '_'
    requires var rest := Split(s[1..], '_');
      Camel(s[1..], false) == rest[0] + Concat(Capitalized(rest[1..]))
    ensures var parts := Split(s, '_');
      Camel(s, up) == (if up then Capitalize(parts[0]) else parts[0]) + Concat(Capitalized(parts[1..]))
  {
    var rest := Split(s[1..], '_');
    var parts := Split(s, '_');
    var p0 := [s[0]] + rest[0];
    var tail := Concat(Capitalized(rest[1..]));
    var ch := if up then ToUpper(s[0]) else s[0];
    assert parts[0] == p0 && parts[1..] == rest[1..] by {
      assert parts == [p0] + rest[1..];
    }
    assert (if up then Capitalize(p0) else p0) == [ch] + rest[0] by {
      assert p0[1..] == rest[0];
    }
    CamelLetter(s, up);
    AppendAssoc([ch], rest[0], tail);
  }

  lemma AppendAssoc(a: string, b: string, c: string)
    ensures a + (b + c) == (a + b) + c
  {
  }

  lemma CamelLetter(s: string, up: bool)
    requires |s| > 0 && s[0] != '_'
    ensures Camel(s, up) == [if up then ToUpper(s[0]) else s[0]] + Camel(s[1..], false)
  {
  }

  /** The class name of a class name is itself. */
  lemma ClassNameIdempotent(name: string)
    ensures MapActionToClassName(MapActionToClassName(name)) == MapActionToClassName(name)
  {
    var c := Camel(name, true);
    var r := MapActionToClassName(name);
    CamelHead(name);
    if |c| > 0 {
      assert r[0] == c[0];
    }
    CamelFixed(r);
  }

  /** The first character of the camel form is already upper-case. */
  lemma CamelHead(s: string)
    ensures var c := Camel(s, true); |c| > 0 ==> ToUpper(c[0]) == c[0]
    decreases |s|
  {
    if |s| > 0 && s[0] == '_' {
      CamelHead(s[1..]);
    }
  }

  /** Text without underscores whose first character is upper-case is its
      own camel form. */
  lemma CamelFixed(r: string)
    requires forall k :: 0 <= k < |r| ==> r[k] != '_'
    requires |r| > 0 ==> ToUpper(r[0]) == r[0]
    ensures Camel(r, true) == r
  {
    if |r| > 0 {
      CamelPlain(r[1..]);
      assert r == [r[0]] + r[1..];
    }
  }

  lemma {:induction false} CamelPlain(r: string)
    requires forall k :: 0 <= k < |r| ==> r[k] != '_'
    ensures Camel(r, false) == r
    decreases |r|
  {
    if |r| > 0 {
      CamelPlain(r[1..]);
      assert r == [r[0]] + r[1..];
    }
  }

  // ------------------------------------------------ normalizeExpression tail

  /** Counting over three consecutive stretches. */
  lemma CountSlices(s: string, i: nat, j: nat, c: char)
    requires i <= j <= |s|
    ensures Count(s, c) == Count(s[..i], c) + Count(s[i..j], c) + Count(s[j..], c)
  {
    assert s == s[..i] + s[i..j] + s[j..];
    CountAppend(s[..i] + s[i..j], s[j..], c);
    CountAppend(s[..i], s[i..j], c);
  }

  /** `trimStr` removes blanks and a byte-order mark only, so other
      characters keep their count. */
  lemma TrimKeepsCount(s: string, c: char)
    requires c !in Blanks && c !in Bom
    ensures Count(TrimStr(s), c) == Count(DropBom(s), c) == Count(s, c)
  {
    var d := DropBom(s);
    var b := TrimBounds(d, Blanks);
    CountSlices(d, b.0, b.1, c);
    CountZero(d[..b.0], c);
    CountZero(d[b.1..], c);
    if |s| >= 3 && s[..3] == Bom {
      assert s == Bom + d;
      CountAppend(Bom, d, c);
      CountZero(Bom, c);
    }
  }

  /** `(` minus `)`. */
  function Surplus(s: string): int {
    Count(s, '(') as int - Count(s, ')') as int
  }

  /** `n` closers, each after a space. */
  function Closers(n: nat): (r: string)
    ensures Count(r, '(') == 0 && Count(r, ')') == n && |r| == 2 * n
  {
    if n == 0 then "" else
      CountAppend(" )", Closers(n - 1), '(');
      CountAppend(" )", Closers(n - 1), ')');
      " )" + Closers(n - 1)
  }

  /** `erase(find(')'), 1)`: the text without its first `)`. */
  function EraseFirstCloser(s: string): (r: string)
    requires Count(s, ')') > 0
    ensures Count(r, ')') == Count(s, ')') - 1 && Count(r, '(') == Count(s, '(')
    ensures |r| == |s| - 1
  {
    CloserFound(s);
    var f := Find(s, ")", 0).value;
    assert s[f..f + 1] == ")";
    CountSlices(s, f, f + 1, '(');
    CountSlices(s, f, f + 1, ')');
    CountAppend(s[..f], s[f + 1..], '(');
    CountAppend(s[..f], s[f + 1..], ')');
    s[..f] + s[f + 1..]
  }

  lemma CloserFound(s: string)
    requires Count(s, ')') > 0
    ensures Find(s, ")", 0).Some?
  {
    CountZero(s, ')');
    var k :| 0 <= k < |s| && s[k] == ')';
    assert s[k..k + 1] == ")";
    assert At(s, k, ")");
  }

  function EraseClosers(s: string, n: nat): (r: string)
    requires n <= Count(s, ')')
    ensures Count(r, ')') == Count(s, ')') - n && Count(r, '(') == Count(s, '(')
    ensures |r| == |s| - n
    decreases n
  {
    if n == 0 then s else
      var e := EraseFirstCloser(s);
      EraseClosers(e, n - 1)
  }

  /** The balancing loops: one ` )` appended per missing closer, the first
      `)` erased once per closer too many.  Openers are never touched. */
  function Balance(s: string): (r: string)
    ensures Count(r, '(') == Count(r, ')') == Count(s, '(')
    ensures Surplus(s) >= 0 ==> r == s + Closers(Surplus(s) as nat)
    ensures Surplus(s) <= 0 ==> |r| == |s| + Surplus(s)
  {
    if Surplus(s) >= 0 then
      CountAppend(s, Closers(Surplus(s) as nat), '(');
      CountAppend(s, Closers(Surplus(s) as nat), ')');
      s + Closers(Surplus(s) as nat)
    else EraseClosers(s, (-Surplus(s)) as nat)
  }

  /** Text with balanced parentheses is left as it is. */
  lemma BalanceKeepsBalanced(s: string)
    requires Count(s, '(') == Count(s, ')')
    ensures Balance(s) == s
  {
    assert Closers(0) == "";
    assert s + "" == s;
  }

  /** The ternary rewrite `c ? a : b` to `a if c else b`, done when a
      `?` has a `:` after it. */
  function Ternary(out: string): (r: string)
    ensures (Find(out, "?", 0).None? || Find(out, ":", Find(out, "?", 0).value).None?) ==> r == out
  {
    match Find(out, "?", 0)
    case None => out
    case Some(q0) =>
      match Find(out, ":", q0)
      case None => out
      case Some(c0) =>
        assert out[q0..q0 + 1] == "?" && out[c0..c0 + 1] == ":";
        TernaryAround(out, q0, c0)
  }

  /** The rewrite around the `?` at `q` and the `:` at `c`, keeping an
      assignment `x =` before the `?` in front.  The source cuts the text
      after the `=` and shifts the positions; the same pieces are taken
      here straight from `out`. */
  function TernaryAround(out: string, q: nat, c: nat): string
    requires q < c < |out| && out[q] == '?' && out[c] == ':'
  {
    var cut := EqualsCut(out, q);
    var pfx := if cut > 0 then out[..cut] + " " else "";
    pfx + TrimStr(out[q + 1..c]) + " if " + TrimStr(out[cut..q]) + " else " + TrimStr(out[c + 1..])
  }

  /** Just after the first `=` when it comes before the `?` at `q`, else 0. */
  function EqualsCut(out: string, q: nat): (cut: nat)
    ensures cut <= q
  {
    var e := Find(out, "=", 0);
    if e.Some? && e.value < q then e.value + 1 else 0
  }

  /** The rewrite moves text around but keeps every parenthesis. */
  lemma TernaryKeepsParens(out: string, ch: char)
    requires ch == '(' || ch == ')'
    ensures Count(Ternary(out), ch) == Count(out, ch)
  {
    match Find(out, "?", 0)
    case None =>
    case Some(q0) =>
      match Find(out, ":", q0)
      case None =>
      case Some(c0) =>
        assert out[q0..q0 + 1] == "?" && out[c0..c0 + 1] == ":";
        AroundKeepsParens(out, q0, c0, ch);
  }

  lemma AroundKeepsParens(out: string, q: nat, c: nat, ch: char)
    requires ch == '(' || ch == ')'
    requires q < c < |out| && out[q] == '?' && out[c] == ':'
    ensures Count(TernaryAround(out, q, c), ch) == Count(out, ch)
  {
    var cut := EqualsCut(out, q);
    var pfx := if cut > 0 then out[..cut] + " " else "";
    var a, b, e := out[q + 1..c], out[cut..q], out[c + 1..];
    assert TernaryAround(out, q, c) == pfx + TrimStr(a) + " if " + TrimStr(b) + " else " + TrimStr(e);
    assert Count(pfx, ch) == Count(out[..cut], ch) by {
      if cut > 0 {
        CountAppend(out[..cut], " ", ch);
      } else {
        assert out[..cut] == "";
      }
    }
    TrimKeepsCount(a, ch);
    TrimKeepsCount(b, ch);
    TrimKeepsCount(e, ch);
    TernaryPieces(pfx, TrimStr(a), TrimStr(b), TrimStr(e), ch);
    CountFour(out, cut, q, c, ch);
  }

  /** Counting around the `?` at `q` and the `:` at `c`. */
  lemma CountFour(out: string, cut: nat, q: nat, c: nat, ch: char)
    requires ch == '(' || ch == ')'
    requires cut <= q < c < |out| && out[q] == '?' && out[c] == ':'
    ensures Count(out, ch) == Count(out[..cut], ch) + Count(out[cut..q], ch) + Count(out[q + 1..c], ch) + Count(out[c + 1..], ch)
  {
    CountSlices(out, cut, q, ch);
    CountSlices(out, q + 1, c, ch);
    CountSlices(out, q, q + 1, ch);
    CountSlices(out, c, c + 1, ch);
    CountSlices(out[q..], 1, c - q, ch);
    assert out[q..][..1] == out[q..q + 1] == "?";
    assert out[q..][1..c - q] == out[q + 1..c];
    assert out[q..][c - q..] == out[c..];
    assert out[c..] == out[c..c + 1] + out[c + 1..];
    CountAppend(out[c..c + 1], out[c + 1..], ch);
    assert out[c..c + 1] == ":";
  }

  lemma TernaryPieces(p: string, a: string, b: string, c: string, ch: char)
    requires ch == '(' || ch == ')'
    ensures Count(p + a + " if " + b + " else " + c, ch) == Count(p, ch) + Count(a, ch) + Count(b, ch) + Count(c, ch)
  {
    CountAppend(p + a + " if " + b + " else ", c, ch);
    CountAppend(p + a + " if " + b, " else ", ch);
    CountAppend(p + a + " if ", b, ch);
    CountAppend(p + a, " if ", ch);
    CountAppend(p, a, ch);
  }

  /** A space is dropped before `(`, `)`, `,`, `]`, `[` or `.` and after
      `(`, `[` or `.`; the test looks at the text before removal. */
  predicate Dropped(out: string, i: nat)
    requires i < |out|
  {
    && out[i] == ' '
    && ((i + 1 < |out| && out[i + 1] in {'(', ')', ',', ']', '[', '.'})
        || (i > 0 && out[i - 1] in {'(', '[', '.'}))
  }

  /** The space-removal loop from position `i`. */
  function DespaceFrom(out: string, i: nat): (r: string)
    requires i <= |out|
    ensures forall ch :: ch != ' ' ==> Count(r, ch) == Count(out[i..], ch)
    decreases |out| - i
  {
    if i == |out| then ""
    else
      var rest := DespaceFrom(out, i + 1);
      var here := if Dropped(out, i) then "" else [out[i]];
      assert out[i..] == [out[i]] + out[i + 1..];
      forall ch | ch != ' '
        ensures Count(here + rest, ch) == Count(out[i..], ch)
      {
        CountAppend(here, rest, ch);
        CountAppend([out[i]], out[i + 1..], ch);
      }
      here + rest
  }

  /** Only spaces are removed: with the spaces taken out, the text is the
      same before and after. */
  lemma {:induction false} DespaceOnlySpaces(out: string, i: nat)
    requires i <= |out|
    ensures NoSpaces(DespaceFrom(out, i)) == NoSpaces(out[i..])
    decreases |out| - i
  {
    if i < |out| {
      DespaceOnlySpaces(out, i + 1);
      assert out[i..] == [out[i]] + out[i + 1..];
      var here := if Dropped(out, i) then "" else [out[i]];
      NoSpacesAppend(here, DespaceFrom(out, i + 1));
      NoSpacesAppend([out[i]], out[i + 1..]);
    }
  }

  function NoSpaces(s: string): string {
    if |s| == 0 then "" else (if s[0] == ' ' then "" else [s[0]]) + NoSpaces(s[1..])
  }

  lemma {:induction false} NoSpacesAppend(a: string, b: string)
    ensures NoSpaces(a + b) == NoSpaces(a) + NoSpaces(b)
    decreases |a|
  {
    if |a| > 0 {
      assert (a + b)[1..] == a[1..] + b;
      NoSpacesAppend(a[1..], b);
    } else {
      assert a + b == b;
    }
  }

  /** The three fixed replacements at the end. */
  function FixCalls(s: string): string {
    ReplaceAll(ReplaceAll(ReplaceAll(s, "_cancel(", "stop_game("), "f \"", "f\""), "f '", "f'")
  }

  lemma FixCallsKeepsParens(s: string, ch: char)
    requires ch == '(' || ch == ')'
    ensures Count(FixCalls(s), ch) == Count(s, ch)
  {
    CancelKeeps(s, ch);
    var a := ReplaceAll(s, "_cancel(", "stop_game(");
    QuoteFixKeeps(a, "f \"", "f\"", ch);
    var b := ReplaceAll(a, "f \"", "f\"");
    QuoteFixKeeps(b, "f '", "f'", ch);
  }

  lemma CancelKeeps(s: string, ch: char)
    requires ch == '(' || ch == ')'
    ensures Count(ReplaceAll(s, "_cancel(", "stop_game("), ch) == Count(s, ch)
  {
    SameParens("_cancel", "stop_game", ch);
    assert "_cancel" + "(" == "_cancel(" && "stop_game" + "(" == "stop_game(";
    ReplaceKeepsCount(s, "_cancel(", "stop_game(", ch);
  }

  lemma QuoteFixKeeps(s: string, pat: string, rep: string, ch: char)
    requires ch == '(' || ch == ')'
    requires pat in {"f \"", "f '"} && rep in {"f\"", "f'"}
    ensures Count(ReplaceAll(s, pat, rep), ch) == Count(s, ch)
  {
    CountZero(pat, ch);
    CountZero(rep, ch);
    ReplaceKeepsCount(s, pat, rep, ch);
  }

  /** Two words without parentheses, each followed by `(`, hold the same
      parentheses. */
  lemma SameParens(a: string, b: string, ch: char)
    requires ch == '(' || ch == ')'
    requires forall k :: 0 <= k < |a| ==> a[k] != '(' && a[k] != ')'
    requires forall k :: 0 <= k < |b| ==> b[k] != '(' && b[k] != ')'
    ensures Count(a + "(", ch) == Count(b + "(", ch)
  {
    CountAppend(a, "(", ch);
    CountAppend(b, "(", ch);
    CountZero(a, ch);
    CountZero(b, ch);
  }

  /** The clean-up after the rewrite rules: the placeholder back to `!=`,
      parentheses balanced, the ternary rewrite, spaces removed next to
      brackets and dots, and the fixed replacements. */
  function CleanUp(out: string): (r: string)
    ensures Count(r, '(') == Count(r, ')') == Count(out, '(')
  {
    var restored := ReplaceAll(out, "__NE__", "!=");
    var balanced := Balance(restored);
    var turned := Ternary(balanced);
    var tight := DespaceFrom(turned, 0);
    assert turned[0..] == turned;
    ReplaceKeepsCount(out, "__NE__", "!=", '(');
    TernaryKeepsParens(balanced, '(');
    TernaryKeepsParens(balanced, ')');
    FixCallsKeepsParens(tight, '(');
    FixCallsKeepsParens(tight, ')');
    FixCalls(tight)
  }

  /** `normalizeExpression`: empty text gives empty text, an empty list
      gives `[]`, and anything else goes through the rewrite rules (here
      the parameter `rules`) and the clean-up, which leaves as many `)` as
      `(` and as many `(` as the rules wrote. */
  function NormalizeExpression(raw: string, rules: string -> string): (r: string)
    ensures TrimStr(raw) == "" ==> r == ""
    ensures TrimStr(raw) == "[]" || TrimStr(raw) == "[ ]" ==> r == "[]"
    ensures Count(r, '(') == Count(r, ')')
    ensures TrimStr(raw) !in {"", "[]", "[ ]"} ==> Count(r, '(') == Count(rules(TrimStr(raw)), '(')
  {
    var expr := TrimStr(raw);
    if expr == "" then ""
    else if expr == "[]" || expr == "[ ]" then
      assert Count("[]", '(') == 0 == Count("[]", ')');
      "[]"
    else CleanUp(rules(expr))
  }

  // ---------------------------------------------------- transformPrintContent

  /** A quote character that is not escaped by a backslash before it. */
  predicate QuoteAt(s: string, i: nat)
    requires i < |s|
  {
    (s[i] == '"' || s[i] == '\'') && (i == 0 || s[i - 1] != '\\')
  }

  /** The splitting loop from position `i`: the current part starts at
      `st`, `inQ` and `qc` track an open quote and its character, `depth`
      counts open parentheses.  A `+` outside quotes and parentheses ends
      a part; every part is trimmed. */
  function SplitFrom(s: string, i: nat, st: nat, inQ: bool, qc: char, depth: int): (r: seq<string>)
    requires st <= i <= |s|
    ensures 1 <= |r| <= 1 + Count(s[i..], '+')
    decreases |s| - i
  {
    if i == |s| then [TrimStr(s[st..])]
    else
      assert s[i..] == [s[i]] + s[i + 1..];
      CountAppend([s[i]], s[i + 1..], '+');
      var opens := QuoteAt(s, i) && !inQ;
      var closes := QuoteAt(s, i) && inQ && s[i] == qc;
      var q := if opens then true else if closes then false else inQ;
      var c := if opens then s[i] else qc;
      if q then SplitFrom(s, i + 1, st, q, c, depth)
      else if s[i] == '(' then SplitFrom(s, i + 1, st, q, c, depth + 1)
      else if s[i] == ')' then SplitFrom(s, i + 1, st, q, c, depth - 1)
      else if s[i] == '+' && depth == 0 then [TrimStr(s[st..i])] + SplitFrom(s, i + 1, i + 1, q, c, depth)
      else SplitFrom(s, i + 1, st, q, c, depth)
  }

  /** The `+`-parts of a `print` argument. */
  function TopSplit(s: string): seq<string> {
    SplitFrom(s, 0, 0, false, '\0', 0)
  }

  /** Reference definition: without quotes and parentheses, the parts are
      the trimmed pieces between the `+` signs. */
  lemma PlainTopSplit(s: string)
    requires forall k :: 0 <= k < |s| ==> s[k] !in {'"', '\'', '(', ')'}
    ensures TopSplit(s) == TrimPieces(Split(s, '+'))
  {
    PlainSplitFrom(s, 0, 0, '\0');
    assert s[0..] == s;
  }

  /** Every piece trimmed. */
  function TrimPieces(ps: seq<string>): (r: seq<string>)
    ensures |r| == |ps|
  {
    if |ps| == 0 then [] else [TrimStr(ps[0])] + TrimPieces(ps[1..])
  }

  lemma {:induction false} PlainSplitFrom(s: string, i: nat, st: nat, qc: char)
    requires st <= i <= |s|
    requires forall k :: 0 <= k < |s| ==> s[k] !in {'"', '\'', '(', ')'}
    requires forall k :: st <= k < i ==> s[k] != '+'
    ensures SplitFrom(s, i, st, false, qc, 0) == TrimPieces(Split(s[st..], '+'))
    decreases |s| - i
  {
    if i == |s| {
      NoSepSplit(s[st..], '+');
    } else {
      PlainStep(s, i, st, qc);
      if s[i] == '+' {
        PlainSplitFrom(s, i + 1, i + 1, qc);
        PlusPiece(s, st, i);
      } else {
        PlainSplitFrom(s, i + 1, st, qc);
      }
    }
  }

  /** One step of the loop over a character that is neither a quote nor
      a parenthesis, outside quotes and parentheses. */
  lemma PlainStep(s: string, i: nat, st: nat, qc: char)
    requires st <= i < |s| && s[i] !in {'"', '\'', '(', ')'}
    ensures SplitFrom(s, i, st, false, qc, 0) ==
      if s[i] == '+' then [TrimStr(s[st..i])] + SplitFrom(s, i + 1, i + 1, false, qc, 0)
      else SplitFrom(s, i + 1, st, false, qc, 0)
  {
    assert !QuoteAt(s, i);
  }

  lemma PlusPiece(s: string, st: nat, i: nat)
    requires st <= i < |s| && s[i] == '+'
    requires forall k :: st <= k < i ==> s[k] != '+'
    ensures TrimPieces(Split(s[st..], '+')) == [TrimStr(s[st..i])] + TrimPieces(Split(s[i + 1..], '+'))
  {
    var a, b := s[st..i], s[i + 1..];
    SplitCons(a, b, '+');
    assert s[st..] == a + ['+'] + b;
    TrimPiecesCons(a, Split(b, '+'));
  }

  lemma TrimPiecesCons(a: string, ps: seq<string>)
    ensures TrimPieces([a] + ps) == [TrimStr(a)] + TrimPieces(ps)
  {
    assert ([a] + ps)[1..] == ps;
  }

  /** Splitting text whose first piece holds no separator. */
  lemma {:induction false} SplitCons(a: string, b: string, sep: char)
    requires forall k :: 0 <= k < |a| ==> a[k] != sep
    ensures Split(a + [sep] + b, sep) == [a] + Split(b, sep)
    decreases |a|
  {
    if |a| == 0 {
      assert (a + [sep] + b)[1..] == b;
    } else {
      SplitCons(a[1..], b, sep);
      assert (a + [sep] + b)[1..] == a[1..] + [sep] + b;
      assert [a[0]] + a[1..] == a;
    }
  }

  /** A `+` inside a quoted text does not split it. */
  lemma QuotedPlusKept(x: string)
    requires forall k :: 0 <= k < |x| ==> x[k] != '"' && x[k] != '\\'
    ensures |TopSplit("\"" + x + "\"")| == 1
  {
    var s := "\"" + x + "\"";
    assert QuoteAt(s, 0);
    InsideQuotes(s, 1, '"', 0);
  }

  lemma {:induction false} InsideQuotes(s: string, i: nat, qc: char, depth: int)
    requires 1 <= i <= |s| - 1 && s[|s| - 1] == qc
    requires forall k :: 1 <= k < |s| - 1 ==> s[k] != qc && s[k] != '\\' && s[k] != '"'
    requires qc == '"'
    ensures |SplitFrom(s, i, 0, true, qc, depth)| == 1
    decreases |s| - i
  {
    if i < |s| - 1 {
      InsideQuotes(s, i + 1, qc, depth);
    } else {
      assert s[i] == qc;
      var rest := SplitFrom(s, i + 1, 0, false, qc, depth);
      assert rest == [TrimStr(s[0..])];
    }
  }

  /** Literal braces doubled, as an f-string needs them. */
  function EscapeBraces(t: string): (r: string)
    ensures |r| == |t| + Count(t, '{') + Count(t, '}')
  {
    if |t| == 0 then ""
    else (if t[0] == '{' then "{{" else if t[0] == '}' then "}}" else [t[0]]) + EscapeBraces(t[1..])
  }

  /** How an f-string reads doubled braces back. */
  function UnescapeBraces(r: string): string
    decreases |r|
  {
    if |r| >= 2 && r[..2] in {"{{", "}}"} then [r[0]] + UnescapeBraces(r[2..])
    else if |r| == 0 then ""
    else [r[0]] + UnescapeBraces(r[1..])
  }

  /** Round trip: the f-string shows the literal text unchanged. */
  lemma {:induction false} EscapeBracesRoundTrip(t: string)
    ensures UnescapeBraces(EscapeBraces(t)) == t
    decreases |t|
  {
    if |t| > 0 {
      EscapeBracesRoundTrip(t[1..]);
      var e := EscapeBraces(t[1..]);
      if t[0] == '{' || t[0] == '}' {
        var r := [t[0], t[0]] + e;
        assert EscapeBraces(t) == r;
        assert r[..2] in {"{{", "}}"} && r[2..] == e;
        assert UnescapeBraces(r) == [t[0]] + UnescapeBraces(e);
      } else {
        var r := [t[0]] + e;
        assert EscapeBraces(t) == r;
        assert r[1..] == e;
        if |r| >= 2 {
          assert r[..2] !in {"{{", "}}"} by {
            assert r[0] == t[0];
          }
        }
        assert UnescapeBraces(r) == [t[0]] + UnescapeBraces(e);
      }
      assert t == [t[0]] + t[1..];
    }
  }

  /** An `f` or `F` prefix with stray characters before its quote loses
      them (`f x"..."` becomes `f"..."`). */
  function FixPrefix(cp: string): (r: string)
    ensures |r| <= |cp|
  {
    if |cp| >= 3 && (cp[0] == 'f' || cp[0] == 'F') then
      var dq := Find(cp, "\"", 0);
      var sq := Find(cp, "'", 0);
      var qp := if dq.None? then sq else if sq.None? then dq else if dq.value < sq.value then dq else sq;
      if qp.Some? && qp.value > 1 then
        assert At(cp, qp.value, "\"") || At(cp, qp.value, "'");
        cp[..1] + cp[qp.value..]
      else cp
    else cp
  }

  /** A part in matching quotes. */
  predicate IsLiteral(cp: string) {
    |cp| > 0 && ((cp[0] == '"' && cp[|cp| - 1] == '"') || (cp[0] == '\'' && cp[|cp| - 1] == '\''))
  }

  /** A part that is itself an f-string literal. */
  predicate IsFLiteral(cp: string) {
    && !IsLiteral(cp) && |cp| >= 3 && (cp[0] == 'f' || cp[0] == 'F')
    && ((cp[1] == '"' && cp[|cp| - 1] == '"') || (cp[1] == '\'' && cp[|cp| - 1] == '\''))
  }

  /** One non-empty part inside the f-string: a literal's text with braces
      doubled, or the normalized expression in braces. */
  function RenderPart(p: string, rules: string -> string): (r: string)
    requires |p| > 0
    ensures IsLiteral(FixPrefix(p)) || IsFLiteral(FixPrefix(p)) || r == "{" + NormalizeExpression(p, rules) + "}"
  {
    var cp := FixPrefix(p);
    if IsLiteral(cp) then EscapeBraces(if |cp| >= 2 then cp[1..|cp| - 1] else "")
    else if IsFLiteral(cp) then EscapeBraces(cp[2..|cp| - 1])
    else "{" + NormalizeExpression(p, rules) + "}"
  }

  /** The rendered parts run together; empty parts are skipped. */
  function RenderParts(parts: seq<string>, rules: string -> string): string {
    if |parts| == 0 then ""
    else (if parts[0] == "" then "" else RenderPart(parts[0], rules)) + RenderParts(parts[1..], rules)
  }

  /** `transformPrintContent`: empty text is `''`; newlines become `\n`;
      text with a single part goes to `normalizeExpression`; several parts
      make an f-string. */
  function TransformPrintContent(inner: string, rules: string -> string): (r: string)
    ensures TrimStr(inner) == "" ==> r == "''"
    ensures var s := ReplaceAll(TrimStr(inner), "\n", "\\n");
      TrimStr(inner) != "" && |TopSplit(s)| <= 1 ==> r == NormalizeExpression(s, rules)
    ensures var s := ReplaceAll(TrimStr(inner), "\n", "\\n");
      TrimStr(inner) != "" && |TopSplit(s)| > 1 ==> |r| >= 3 && r[..2] == "f\"" && r[|r| - 1] == '"'
  {
    var t := TrimStr(inner);
    if t == "" then "''"
    else
      var s := ReplaceAll(t, "\n", "\\n");
      var parts := TopSplit(s);
      if |parts| <= 1 then NormalizeExpression(s, rules)
      else "f\"" + RenderParts(parts, rules) + "\""
  }

  /** Without a `+`, the argument is one normalized expression, so its
      parentheses are balanced. */
  lemma NoPlusDelegates(inner: string, rules: string -> string)
    requires TrimStr(inner) != "" && Count(TrimStr(inner), '+') == 0
    ensures var r := TransformPrintContent(inner, rules);
      r == NormalizeExpression(ReplaceAll(TrimStr(inner), "\n", "\\n"), rules) && Count(r, '(') == Count(r, ')')
  {
    var t := TrimStr(inner);
    var s := ReplaceAll(t, "\n", "\\n");
    CountZero("\n", '+');
    CountZero("\\n", '+');
    ReplaceKeepsCount(t, "\n", "\\n", '+');
    assert s[0..] == s;
  }

  /** No newline is left in the text that gets split. */
  lemma {:induction false} NewlinesEscaped(t: string)
    ensures forall k :: 0 <= k < |ReplaceAll(t, "\n", "\\n")| ==> ReplaceAll(t, "\n", "\\n")[k] != '\n'
    decreases |t|
  {
    if |t| >= 1 {
      NewlinesEscaped(t[1..]);
      assert t[..1] == "\n" <==> t[0] == '\n';
    }
  }

  // ------------------------------------------------------------ translateBody

  /** A generated line: its indentation level and its text. */
  datatype GenLine = GenLine(idt: nat, ct: string)

  /** The line rules of `translateBody`: from the body lines and the base
      level to the generated lines. */
  type Builder = (seq<string>, nat) -> seq<GenLine>

  /** A line that opens a block. */
  predicate Opens(text: string) {
    |text| > 0 && text[|text| - 1] == ':'
  }

  /** Every line that opens a block is followed by a deeper line: the
      Python has no empty block. */
  predicate BlocksHaveBodies(r: seq<Line>) {
    forall k :: 0 <= k < |r| && Opens(r[k].text) ==> k + 1 < |r| && r[k + 1].level > r[k].level
  }

  /** Two runs of lines without empty blocks join into one (the first
      cannot end in an opener). */
  lemma BodiesJoin(a: seq<Line>, b: seq<Line>)
    requires BlocksHaveBodies(a) && BlocksHaveBodies(b)
    ensures BlocksHaveBodies(a + b)
  {
    var r := a + b;
    forall k | 0 <= k < |r| && Opens(r[k].text)
      ensures k + 1 < |r| && r[k + 1].level > r[k].level
    {
      if k < |a| {
        assert r[k] == a[k];
        assert r[k + 1] == a[k + 1];
      } else {
        assert r[k] == b[k - |a|];
        assert k + 1 < |r| ==> r[k + 1] == b[k + 1 - |a|];
      }
    }
  }

  /** The final rendering: each generated line at its level, and a `pass`
      one level deeper after a line ending in `:` that no deeper line
      follows. */
  function RenderGen(gs: seq<GenLine>): (r: seq<Line>)
    ensures |r| >= |gs|
    ensures |gs| > 0 ==> r[0] == Line(gs[0].idt, gs[0].ct)
  {
    if |gs| == 0 then []
    else
      var g := gs[0];
      var filler := if Opens(g.ct) && (|gs| == 1 || gs[1].idt <= g.idt) then [Line(g.idt + 1, "pass")] else [];
      [Line(g.idt, g.ct)] + filler + RenderGen(gs[1..])
  }

  /** Every rendered line ending in `:` is followed by a deeper line, so
      the output never has an empty block. */
  lemma {:induction false} OpenersHaveBodies(gs: seq<GenLine>)
    ensures forall k :: 0 <= k < |RenderGen(gs)| && Opens(RenderGen(gs)[k].text) ==>
      k + 1 < |RenderGen(gs)| && RenderGen(gs)[k + 1].level > RenderGen(gs)[k].level
    decreases |gs|
  {
    if |gs| > 0 {
      OpenersHaveBodies(gs[1..]);
      var g := gs[0];
      var rest := RenderGen(gs[1..]);
      var filler := if Opens(g.ct) && (|gs| == 1 || gs[1].idt <= g.idt) then [Line(g.idt + 1, "pass")] else [];
      var r := [Line(g.idt, g.ct)] + filler + rest;
      assert RenderGen(gs) == r;
      assert !Opens("pass");
      forall k | 0 <= k < |r|
        ensures Opens(r[k].text) ==> k + 1 < |r| && r[k + 1].level > r[k].level
      {
        if k >= 1 + |filler| {
          var j := k - 1 - |filler|;
          assert r[k] == rest[j];
          assert Opens(rest[j].text) ==> j + 1 < |rest| && rest[j + 1].level > rest[j].level;
          if j + 1 < |rest| {
            assert r[k + 1] == rest[j + 1];
          }
        } else if k == 0 && |filler| == 0 {
          if Opens(g.ct) {
            assert |gs| > 1 && gs[1].idt > g.idt;
            assert r[1] == rest[0] == Line(gs[1].idt, gs[1].ct);
          }
        } else if k == 0 {
          assert r[1] == filler[0];
        } else {
          assert r[k] == Line(g.idt + 1, "pass");
        }
      }
    }
  }

  /** Without block openers the lines are rendered as they are. */
  lemma {:induction false} RenderPlain(gs: seq<GenLine>)
    requires forall i :: 0 <= i < |gs| ==> !Opens(gs[i].ct)
    ensures RenderGen(gs) == seq(|gs|, i requires 0 <= i < |gs| => Line(gs[i].idt, gs[i].ct))
    decreases |gs|
  {
    if |gs| > 0 {
      RenderPlain(gs[1..]);
    }
  }

  /** `translateBody`: `pass` for no lines or when the line rules (here
      the parameter `build`) keep nothing; otherwise the rendering of what
      they built. */
  function TranslateBody(lines: seq<string>, level: nat, build: Builder): (r: seq<Line>)
    ensures |lines| == 0 ==> r == [Line(level, "pass")]
    ensures |lines| > 0 && |build(lines, level)| == 0 ==> r == [Line(level, "pass")]
    ensures |r| >= 1
    ensures BlocksHaveBodies(r)
  {
    if |lines| == 0 then [Line(level, "pass")]
    else
      var gs := build(lines, level);
      OpenersHaveBodies(gs);
      if |gs| == 0 then [Line(level, "pass")] else RenderGen(gs)
  }
}
