/** The string rewriting of the Python generator at the top of the
    repository (`src/generator.cpp`): turning a variable's raw text into a
    Python literal, the `normalizeExpression` rewrite of `!` and of
    `true`/`false`, the rewrite of `print` arguments into (f-)strings, and
    `translateBody`, which turns body lines into indented Python lines.
    Output is a list of `Line`s; the surrounding `generate` template text
    is left out. */
module RootGenerator {
  import opened Chars
  import opened Text
  import opened PyLiteral
  import opened PyText
  import opened Scanning
  import Results

  // ---------------------------------------------------------- toPythonLiteral

  /** `trimStr`. */
  function TrimStr(s: string): string {
    Trim(s, Blanks)
  }

  /** `toPythonLiteral`: an empty value is `None`, `true`/`false` in any
      case become Python's booleans, quoted text and numbers are kept, an
      identifier is kept bare, and any other text is double-quoted. */
  function ToPythonLiteral(val: string): (r: string)
    ensures var t := TrimStr(val);
      && (|t| == 0 ==> r == "None")
      && (|t| > 0 && LowerAll(t) == "true" ==> r == "True")
      && (|t| > 0 && LowerAll(t) == "false" ==> r == "False")
      && (|t| > 0 && LowerAll(t) != "true" && LowerAll(t) != "false" ==>
            if t[0] in Quotes || NumberShaped(t) || IsWordText(t) then r == t else r == "\"" + t + "\"")
  {
    var t := TrimStr(val);
    if |t| == 0 then "None"
    else
      var lower := LowerAll(t);
      if lower == "false" then "False"
      else if lower == "true" then "True"
      else if t[0] == '"' || t[0] == '\'' then t
      else if LooksLikeNumber(t) then t
      else if !IsWordText(t) then "\"" + t + "\""
      else t
  }

  /** A literal is already in its final form: converting it again changes
      nothing. */
  lemma LiteralIdempotent(val: string)
    ensures ToPythonLiteral(ToPythonLiteral(val)) == ToPythonLiteral(val)
  {
    var t := TrimStr(val);
    if |t| == 0 {
      KeptWord("None");
    } else if LowerAll(t) == "true" {
      KeptWord("True");
    } else if LowerAll(t) == "false" {
      KeptWord("False");
    } else if t[0] in Quotes || NumberShaped(t) || IsWordText(t) {
      TrimIdempotent(val, Blanks);
    } else {
      KeptQuoted(t);
    }
  }

  /** Text without blanks at its ends is its own `trimStr`. */
  lemma TrimClean(t: string)
    requires |t| > 0 && t[0] !in Blanks && t[|t| - 1] !in Blanks
    ensures TrimStr(t) == t
  {
    TrimAround("", t, "", Blanks);
    assert "" + t + "" == t;
  }

  /** The three words the conversion writes convert to themselves. */
  lemma KeptWord(w: string)
    requires w in {"None", "True", "False"}
    ensures ToPythonLiteral(w) == w
  {
    TrimClean(w);
    if w == "None" {
      KeptNone();
    } else if w == "True" {
      LowerWord("True", "true");
    } else {
      LowerWord("False", "false");
    }
  }

  lemma KeptNone()
    ensures ToPythonLiteral("None") == "None"
  {
    var w := "None";
    TrimClean(w);
    assert LowerAll(w)[0] == 'n';
    assert w[SignEnd(w)..][0] == 'N';
    assert IsWordText(w);
  }

  lemma LowerWord(w: string, low: string)
    requires |w| == |low| && forall k :: 0 <= k < |w| ==> ToLower(w[k]) == low[k]
    ensures LowerAll(w) == low
  {
  }

  /** Double-quoted text converts to itself. */
  lemma KeptQuoted(t: string)
    ensures ToPythonLiteral("\"" + t + "\"") == "\"" + t + "\""
  {
    var q := "\"" + t + "\"";
    TrimClean(q);
    assert LowerAll(q)[0] == '"';
  }

  // ------------------------------------------------------- normalizeExpression

  /** The placeholder `!=` hides behind while `!` is rewritten. */
  const Sentinel: string := "__NE__"

  /** The three replacement loops, in order.  The first advances by 4 after
      writing the six-character placeholder, which lands on its trailing
      `__`, where no `!=` can start, so it scans as `ReplaceAll` does. */
  function Marked(s: string): string {
    ReplaceAll(ReplaceAll(s, "!=", Sentinel), "!", "not ")
  }

  function BangsAsWritten(s: string): string {
    ReplaceAll(Marked(s), Sentinel, "!=")
  }

  /** Every `!` in `s` is directly followed by `=`. */
  predicate BangsClosed(s: string) {
    forall k :: 0 <= k < |s| && s[k] == '!' ==> k + 1 < |s| && s[k + 1] == '='
  }

  /** What the three loops are for: `!=` is kept and every other `!`
      becomes `not `.  Every `!` left is followed by `=`. */
  function Bangs(s: string): (r: string)
    ensures BangsClosed(r)
    decreases |s|
  {
    if |s| == 0 then ""
    else if |s| >= 2 && s[..2] == "!=" then
      var rest := Bangs(s[2..]);
      assert forall k :: 2 <= k < |"!=" + rest| ==> ("!=" + rest)[k] == rest[k - 2];
      "!=" + rest
    else if s[0] == '!' then
      var rest := Bangs(s[1..]);
      assert forall k :: 4 <= k < |"not " + rest| ==> ("not " + rest)[k] == rest[k - 4];
      "not " + rest
    else
      var rest := Bangs(s[1..]);
      assert forall k :: 1 <= k < |[s[0]] + rest| ==> ([s[0]] + rest)[k] == rest[k - 1];
      [s[0]] + rest
  }

  /** Replacing a single character distributes over concatenation. */
  lemma {:induction false} NotWordsAppend(a: string, b: string)
    ensures ReplaceAll(a + b, "!", "not ") == ReplaceAll(a, "!", "not ") + ReplaceAll(b, "!", "not ")
    decreases |a|
  {
    if |a| > 0 {
      assert (a + b)[..1] == a[..1] && (a + b)[1..] == a[1..] + b;
      NotWordsAppend(a[1..], b);
    } else {
      assert a + b == b;
    }
  }

  /** One step of the first two loops. */
  lemma MarkedStep(s: string)
    requires |s| > 0
    ensures |s| >= 2 && s[..2] == "!=" ==> Marked(s) == Sentinel + Marked(s[2..])
    ensures !(|s| >= 2 && s[..2] == "!=") && s[0] == '!' ==> Marked(s) == "not " + Marked(s[1..])
    ensures !(|s| >= 2 && s[..2] == "!=") && s[0] != '!' ==> Marked(s) == [s[0]] + Marked(s[1..])
  {
    var p := ReplaceAll(s, "!=", Sentinel);
    if |s| >= 2 && s[..2] == "!=" {
      NotWordsAppend(Sentinel, ReplaceAll(s[2..], "!=", Sentinel));
      assert ReplaceAll(Sentinel, "!", "not ") == Sentinel;
    } else {
      if |s| < 2 {
        assert p == s == [s[0]] + s[1..];
        assert ReplaceAll(s[1..], "!=", Sentinel) == s[1..];
      }
      assert p == [s[0]] + ReplaceAll(s[1..], "!=", Sentinel);
      NotWordsAppend([s[0]], ReplaceAll(s[1..], "!=", Sentinel));
      assert ReplaceAll([s[0]], "!", "not ") == if s[0] == '!' then "not " else [s[0]];
    }
  }

  /** The restoring loop passes over text with no `_`. */
  lemma {:induction false} RestorePlain(a: string, x: string)
    requires forall k :: 0 <= k < |a| ==> a[k] != '_'
    ensures ReplaceAll(a + x, Sentinel, "!=") == a + ReplaceAll(x, Sentinel, "!=")
    decreases |a|
  {
    if |a| == 0 {
      assert a + x == x;
    } else {
      var s := a + x;
      assert s[0] == a[0] != '_';
      if |s| >= 6 {
        assert s[..6][0] != Sentinel[0];
      }
      assert s[1..] == a[1..] + x;
      RestorePlain(a[1..], x);
      assert a == [a[0]] + a[1..];
    }
  }

  /** `__NE` does not occur in `s`. */
  predicate NoPlaceholder(s: string) {
    forall k :: 0 <= k <= |s| ==> !At(s, k, "__NE")
  }

  /** The first character the first two loops write for `t`. */
  lemma MarkedHead(t: string)
    requires |t| > 0
    ensures |Marked(t)| > 0
    ensures |t| >= 2 && t[..2] == "!=" ==> |Marked(t)| >= 6 && Marked(t)[0] == '_' && Marked(t)[1] == '_'
    ensures !(|t| >= 2 && t[..2] == "!=") && t[0] == '!' ==> Marked(t)[0] == 'n'
    ensures !(|t| >= 2 && t[..2] == "!=") && t[0] != '!' ==> Marked(t)[0] == t[0]
  {
    MarkedStep(t);
    if |t| >= 2 && t[..2] == "!=" {
      assert Marked(t)[..6] == Sentinel;
    }
  }

  /** Text starting with `_` and holding no `__NE` does not write the
      placeholder at its start. */
  lemma NoPlaceholderAtHead(s: string)
    requires |s| > 0 && s[0] == '_' && NoPlaceholder(s)
    ensures var m := Marked(s); !(|m| >= 6 && m[..6] == Sentinel)
  {
    var m := Marked(s);
    assert !At(s, 0, "__NE");
    if |m| >= 6 && m[..6] == Sentinel {
      PlaceholderComesFrom(s);
    }
  }

  /** Where text starting with `_` has the placeholder written at its
      start, the text itself starts with `__NE`. */
  lemma PlaceholderComesFrom(s: string)
    requires |s| > 0 && s[0] == '_'
    requires var m := Marked(s); |m| >= 6 && m[..6] == Sentinel
    ensures At(s, 0, "__NE")
  {
    var m := Marked(s);
    MarkedStep(s);
    assert m[1] == '_' && m[2] == 'N' && m[3] == 'E' by {
      assert m[..6][1] == '_' && m[..6][2] == 'N' && m[..6][3] == 'E';
    }
    var s1 := s[1..];
    var m1 := Marked(s1);
    assert m == [s[0]] + m1;
    assert |m1| >= 5 && m1[0] == '_' && m1[1] == 'N' && m1[2] == 'E';
    MarkedHead(s1);
    assert s1[0] == '_' && !(|s1| >= 2 && s1[..2] == "!=");
    MarkedStep(s1);
    var s2 := s1[1..];
    var m2 := Marked(s2);
    assert m1 == [s1[0]] + m2;
    assert |m2| >= 4 && m2[0] == 'N' && m2[1] == 'E';
    MarkedHead(s2);
    assert s2[0] == 'N' && !(|s2| >= 2 && s2[..2] == "!=");
    MarkedStep(s2);
    var s3 := s2[1..];
    var m3 := Marked(s3);
    assert m2 == [s2[0]] + m3;
    assert |m3| >= 3 && m3[0] == 'E';
    MarkedHead(s3);
    assert s3[0] == 'E';
    assert s[..4] == "__NE";
  }

  /** A suffix of text without `__NE` has none either. */
  lemma NoPlaceholderSuffix(s: string, n: nat)
    requires n <= |s| && NoPlaceholder(s)
    ensures NoPlaceholder(s[n..])
  {
    forall k | 0 <= k <= |s[n..]|
      ensures !At(s[n..], k, "__NE")
    {
      assert !At(s, n + k, "__NE");
      if k + 4 <= |s[n..]| {
        assert s[n..][k..k + 4] == s[n + k..n + k + 4];
      }
    }
  }

  /** The three loops do what they are for on text that holds no `__NE`. */
  lemma {:induction false} BangStagesAgree(s: string)
    requires NoPlaceholder(s)
    ensures BangsAsWritten(s) == Bangs(s)
    decreases |s|
  {
    if |s| == 0 {
      assert Marked(s) == "";
    } else {
      MarkedStep(s);
      if |s| >= 2 && s[..2] == "!=" {
        NoPlaceholderSuffix(s, 2);
        BangStagesAgree(s[2..]);
        assert (Sentinel + Marked(s[2..]))[..6] == Sentinel;
        assert (Sentinel + Marked(s[2..]))[6..] == Marked(s[2..]);
      } else {
        NoPlaceholderSuffix(s, 1);
        BangStagesAgree(s[1..]);
        if s[0] == '!' {
          RestorePlain("not ", Marked(s[1..]));
        } else if s[0] != '_' {
          RestorePlain([s[0]], Marked(s[1..]));
        } else {
          NoPlaceholderAtHead(s);
          var m := Marked(s);
          if |m| >= 6 {
            assert m[..6] != Sentinel;
          }
          assert m[1..] == Marked(s[1..]);
        }
      }
    }
  }

  /** Text without `!` goes through the first two loops unchanged. */
  lemma {:induction false} MarkedKeepsPlain(s: string)
    requires forall k :: 0 <= k < |s| ==> s[k] != '!'
    ensures Marked(s) == s
    decreases |s|
  {
    if |s| == 0 {
      assert ReplaceAll(s, "!=", Sentinel) == s;
    } else {
      MarkedStep(s);
      MarkedKeepsPlain(s[1..]);
      assert s == [s[0]] + s[1..];
    }
  }

  /** Text in which every `!` is followed by `=` is left as it is by the
      intended rewrite. */
  lemma {:induction false} BangsKeeps(s: string)
    requires BangsClosed(s)
    ensures Bangs(s) == s
    decreases |s|
  {
    if |s| > 0 {
      if |s| >= 2 && s[..2] == "!=" {
        BangsKeeps(s[2..]);
        assert s == s[..2] + s[2..];
      } else {
        assert s[0] != '!';
        BangsKeeps(s[1..]);
        assert s == [s[0]] + s[1..];
      }
    }
  }

  /** Text that already holds the placeholder is changed where the
      rewrite means to keep it: `__NE__` comes out as `!=`. */
  lemma PlaceholderClash()
    ensures BangsAsWritten(Sentinel) == "!="
    ensures Bangs(Sentinel) == Sentinel
  {
    MarkedKeepsPlain(Sentinel);
    BangsKeeps(Sentinel);
    assert Sentinel[..6] == Sentinel && Sentinel[6..] == "";
  }

  // -------------------------------------------------------------------- Words

  /** End of the run of non-`isspace` characters from `i`. */
  function WordStop(s: string, i: nat): (j: nat)
    requires i <= |s|
    ensures i <= j <= |s|
    ensures forall k :: i <= k < j ==> !IsSpace(s[k])
    ensures j == |s| || IsSpace(s[j])
    decreases |s| - i
  {
    if i < |s| && !IsSpace(s[i]) then WordStop(s, i + 1) else i
  }

  predicate NoSpace(w: string) {
    forall k :: 0 <= k < |w| ==> !IsSpace(w[k])
  }

  /** The words `stream >> token` reads: the maximal runs of characters
      other than `isspace`. */
  function Words(s: string): (ws: seq<string>)
    ensures forall i :: 0 <= i < |ws| ==> |ws[i]| > 0 && NoSpace(ws[i])
    decreases |s|
  {
    var a := SpaceRun(s, 0);
    if a == |s| then []
    else
      var b := WordStop(s, a);
      [s[a..b]] + Words(s[b..])
  }

  /** The words written back with one space between neighbours. */
  function Unwords(ws: seq<string>): string {
    if |ws| == 0 then "" else if |ws| == 1 then ws[0] else ws[0] + " " + Unwords(ws[1..])
  }

  /** Text with single spaces: no other blank, none at either end, never
      two in a row. */
  predicate SingleSpaced(r: string) {
    && (forall k :: 0 <= k < |r| && IsSpace(r[k]) ==> r[k] == ' ')
    && (|r| > 0 ==> r[0] != ' ' && r[|r| - 1] != ' ')
    && (forall k :: 0 <= k < |r| - 1 && r[k] == ' ' ==> r[k + 1] != ' ')
  }

  lemma {:induction false} UnwordsSpaced(ws: seq<string>)
    requires forall i :: 0 <= i < |ws| ==> |ws[i]| > 0 && NoSpace(ws[i])
    ensures SingleSpaced(Unwords(ws))
    ensures |ws| > 0 ==> |Unwords(ws)| > 0
    decreases |ws|
  {
    if |ws| > 1 {
      UnwordsSpaced(ws[1..]);
      var w, rest := ws[0], Unwords(ws[1..]);
      var r := w + " " + rest;
      assert forall k :: 0 <= k < |w| ==> r[k] == w[k];
      assert r[|w|] == ' ';
      assert forall k :: |w| < k < |r| ==> r[k] == rest[k - |w| - 1];
    }
  }

  /** Round trip: reading the words of words written back gives them. */
  lemma {:induction false} WordsUnwords(ws: seq<string>)
    requires forall i :: 0 <= i < |ws| ==> |ws[i]| > 0 && NoSpace(ws[i])
    ensures Words(Unwords(ws)) == ws
    decreases |ws|
  {
    if |ws| == 0 {
      assert SpaceRun("", 0) == 0;
    } else {
      var w := ws[0];
      var s := Unwords(ws);
      var rest := if |ws| == 1 then "" else " " + Unwords(ws[1..]);
      assert s == w + rest;
      assert !IsSpace(s[0]);
      assert SpaceRun(s, 0) == 0;
      WordStopAt(s, w, rest);
      assert s[..|w|] == w;
      assert s[|w|..] == rest;
      if |ws| == 1 {
        assert SpaceRun("", 0) == 0;
      } else {
        WordsUnwords(ws[1..]);
        LeadingSpace(Unwords(ws[1..]));
      }
    }
  }

  lemma WordStopAt(s: string, w: string, rest: string)
    requires s == w + rest && NoSpace(w)
    requires |rest| == 0 || IsSpace(rest[0])
    ensures WordStop(s, 0) == |w|
  {
    assert forall k :: 0 <= k < |w| ==> s[k] == w[k];
    assert |rest| > 0 ==> s[|w|] == rest[0];
  }

  /** A single leading space is skipped before the next word. */
  lemma LeadingSpace(t: string)
    requires |t| > 0 && !IsSpace(t[0])
    ensures Words(" " + t) == Words(t)
  {
    var s := " " + t;
    assert SpaceRun(s, 0) == 1 by {
      assert IsSpace(s[0]) && !IsSpace(s[1]);
    }
    assert SpaceRun(t, 0) == 0;
    var b := WordStop(s, 1);
    var b0 := WordStop(t, 0);
    WordStopShift(t, 0);
    assert b == b0 + 1;
    assert s[1..b] == t[0..b0];
    assert s[b..] == t[b0..];
  }

  lemma {:induction false} WordStopShift(t: string, i: nat)
    requires i <= |t|
    ensures WordStop(" " + t, i + 1) == WordStop(t, i) + 1
    decreases |t| - i
  {
    var s := " " + t;
    if i < |t| {
      assert s[i + 1] == t[i];
      if !IsSpace(t[i]) {
        WordStopShift(t, i + 1);
      }
    }
  }

  /** `true` and `false` words, in any case, become Python's booleans. */
  function FixBool(w: string): (r: string)
    ensures |w| > 0 && NoSpace(w) ==> |r| > 0 && NoSpace(r)
  {
    var low := LowerAll(w);
    if low == "true" then "True" else if low == "false" then "False" else w
  }

  function FixAll(ws: seq<string>): (r: seq<string>)
    ensures |r| == |ws| && forall i :: 0 <= i < |ws| ==> r[i] == FixBool(ws[i])
  {
    seq(|ws|, i requires 0 <= i < |ws| => FixBool(ws[i]))
  }

  /** `normalizeExpression`, with the `!` rewrite done as intended. */
  function Normalize(expr: string): (r: string)
    ensures SingleSpaced(r)
  {
    var ws := Words(Bangs(expr));
    UnwordsSpaced(FixAll(ws));
    Unwords(FixAll(ws))
  }

  /** `normalizeExpression` as written, with its three replacement loops. */
  function NormalizeAsWritten(expr: string): (r: string)
    ensures SingleSpaced(r)
    ensures NoPlaceholder(expr) ==> r == Normalize(expr)
  {
    var ws := Words(BangsAsWritten(expr));
    UnwordsSpaced(FixAll(ws));
    if NoPlaceholder(expr) then BangStagesAgree(expr); Unwords(FixAll(ws))
    else Unwords(FixAll(ws))
  }

  // ------------------------------------------------ normalizeExpression again

  /** The words of text whose every `!` is followed by `=` keep that
      property: `=` is not a blank, so it stays in the word of its `!`. */
  lemma {:induction false} WordsClosed(s: string)
    requires BangsClosed(s)
    ensures forall i :: 0 <= i < |Words(s)| ==> BangsClosed(Words(s)[i])
    decreases |s|
  {
    var a := SpaceRun(s, 0);
    if a < |s| {
      var b := WordStop(s, a);
      var w := s[a..b];
      forall k | 0 <= k < |w| && w[k] == '!'
        ensures k + 1 < |w| && w[k + 1] == '='
      {
        assert s[a + k] == '!';
        assert s[a + k + 1] == '=';
        assert a + k + 1 != b;
      }
      var t := s[b..];
      forall k | 0 <= k < |t| && t[k] == '!'
        ensures k + 1 < |t| && t[k + 1] == '='
      {
        assert s[b + k] == '!';
      }
      WordsClosed(t);
      assert Words(s) == [w] + Words(t);
    }
  }

  lemma {:induction false} UnwordsClosed(ws: seq<string>)
    requires forall i :: 0 <= i < |ws| ==> BangsClosed(ws[i])
    ensures BangsClosed(Unwords(ws))
    decreases |ws|
  {
    if |ws| > 1 {
      UnwordsClosed(ws[1..]);
      var w, rest := ws[0], Unwords(ws[1..]);
      var r := w + " " + rest;
      forall k | 0 <= k < |r| && r[k] == '!'
        ensures k + 1 < |r| && r[k + 1] == '='
      {
        if k < |w| {
          assert w[k] == '!';
        } else {
          assert k > |w|;
          assert rest[k - |w| - 1] == '!';
        }
      }
    }
  }

  lemma FixBoolKeeps(w: string)
    ensures BangsClosed(w) ==> BangsClosed(FixBool(w))
    ensures FixBool(FixBool(w)) == FixBool(w)
  {
    LowerWord("True", "true");
    LowerWord("False", "false");
  }

  /** Normalizing twice is normalizing once. */
  lemma NormalizeIdempotent(expr: string)
    ensures Normalize(Normalize(expr)) == Normalize(expr)
  {
    var ws := Words(Bangs(expr));
    var fs := FixAll(ws);
    var out := Normalize(expr);
    assert out == Unwords(fs);
    WordsClosed(Bangs(expr));
    forall i | 0 <= i < |fs|
      ensures BangsClosed(fs[i])
    {
      FixBoolKeeps(ws[i]);
    }
    UnwordsClosed(fs);
    BangsKeeps(out);
    WordsUnwords(fs);
    forall i | 0 <= i < |fs|
      ensures FixBool(fs[i]) == fs[i]
    {
      FixBoolKeeps(ws[i]);
    }
    assert FixAll(fs) == fs;
  }

  // ----------------------------------------------------- transformPrintContent

  /** A part wrapped in a matching pair of quotes (a lone quote counts). */
  predicate IsQuotedPart(p: string) {
    |p| > 0 && ((p[0] == '"' && p[|p| - 1] == '"') || (p[0] == '\'' && p[|p| - 1] == '\''))
  }

  /** How one part of a `+`-joined `print` argument enters the f-string:
      a quoted part loses its quotes, an identifier becomes a
      placeholder, anything else is copied. */
  function PrintPart(p: string): (r: string)
    requires |p| > 0
    ensures IsQuotedPart(p) && |p| >= 2 ==> p == [p[0]] + r + [p[0]]
    ensures !IsQuotedPart(p) && IsWordText(p) ==> r == "{" + p + "}"
    ensures !IsQuotedPart(p) && !IsWordText(p) ==> r == p
  {
    if IsQuotedPart(p) then
      if |p| >= 2 then
        assert p == [p[0]] + p[1..|p| - 1] + [p[|p| - 1]];
        p[1..|p| - 1]
      else ""
    else if IsWordText(p) then "{" + p + "}"
    else p
  }

  /** The f-string body: the rendered non-empty parts, a space written
      before each one once the body is no longer empty. */
  function FString(parts: seq<string>, f: string): string
    decreases |parts|
  {
    if |parts| == 0 then f
    else if parts[0] == "" then FString(parts[1..], f)
    else FString(parts[1..], (if |f| > 0 then f + " " else f) + PrintPart(parts[0]))
  }

  function TrimAll(parts: seq<string>): (r: seq<string>)
    ensures |r| == |parts| && forall i :: 0 <= i < |parts| ==> r[i] == TrimStr(parts[i])
  {
    seq(|parts|, i requires 0 <= i < |parts| => TrimStr(parts[i]))
  }

  /** `transformPrintContent`: with a `+`, the trimmed parts between the
      `+` signs make an f-string; without one, empty text is `""`, quoted
      text and an identifier are kept, and anything else is quoted. */
  function TransformPrintContent(inner: string): (r: string)
    ensures var s := TrimStr(inner);
      && (Count(s, '+') > 0 ==> |r| >= 3 && r[..2] == "f\"" && r[|r| - 1] == '"')
      && (Count(s, '+') == 0 && |s| == 0 ==> r == "\"\"")
      && (Count(s, '+') == 0 && |s| > 0 ==>
            if s[0] in Quotes || IsWordText(s) then r == s else r == "\"" + s + "\"")
  {
    var s := TrimStr(inner);
    if Count(s, '+') > 0 then "f\"" + FString(TrimAll(Split(s, '+')), "") + "\""
    else if |s| == 0 then "\"\""
    else if s[0] == '"' || s[0] == '\'' then s
    else if IsWordText(s) then s
    else "\"" + s + "\""
  }

  /** Without a `+`, rewriting a `print` argument twice is rewriting it
      once. */
  lemma PlainPrintIdempotent(inner: string)
    requires Count(TrimStr(inner), '+') == 0
    ensures TransformPrintContent(TransformPrintContent(inner)) == TransformPrintContent(inner)
  {
    var s := TrimStr(inner);
    var r := TransformPrintContent(inner);
    TrimClean(r);
    if |s| == 0 {
      assert Count(r, '+') == 0;
    } else if s[0] in Quotes || IsWordText(s) {
      TrimIdempotent(inner, Blanks);
    } else {
      CountAppend("\"" + s, "\"", '+');
      CountAppend("\"", s, '+');
    }
  }

  /** Text in double quotes. */
  function DoubleQuoted(t: string): string {
    "\"" + t + "\""
  }

  /** A quoted text joined with `+` to an identifier becomes an f-string
      of the text, a space and the identifier's placeholder. */
  lemma TextPlusName(x: string, w: string)
    requires |x| > 0 && Count(x, '+') == 0
    requires |w| > 0 && IsWordText(w)
    ensures TransformPrintContent(DoubleQuoted(x) + " + " + w) == "f\"" + (x + " {" + w + "}") + "\""
  {
    QuotedEnds(x);
    WordEnds(w);
    NoPlusWord(w);
    TwoParts(DoubleQuoted(x), w);
    FStringPair(x, w);
  }

  lemma QuotedEnds(x: string)
    requires Count(x, '+') == 0
    ensures var q := DoubleQuoted(x); |q| > 0 && q[0] !in Blanks && q[|q| - 1] !in Blanks && Count(q, '+') == 0
  {
    CountAppend("\"" + x, "\"", '+');
    CountAppend("\"", x, '+');
  }

  /** Two `+`-free parts without blanks at their ends, joined by ` + `,
      make the f-string of the two. */
  lemma TwoParts(a: string, b: string)
    requires |a| > 0 && a[0] !in Blanks && a[|a| - 1] !in Blanks && Count(a, '+') == 0
    requires |b| > 0 && b[0] !in Blanks && b[|b| - 1] !in Blanks && Count(b, '+') == 0
    ensures TransformPrintContent(a + " + " + b) == "f\"" + FString([a, b], "") + "\""
  {
    var p1, p2 := a + " ", " " + b;
    var s := a + " + " + b;
    assert s == p1 + ['+'] + p2;
    assert TrimStr(s) == s by {
      assert s[0] == a[0] && s[|s| - 1] == b[|b| - 1];
      TrimClean(s);
    }
    assert Count(s, '+') == 1 && Split(s, '+') == [p1, p2] by {
      PlusBetween(a, b);
    }
    assert TrimAll([p1, p2]) == [a, b] by {
      TrimPair(a, b);
    }
    PlusForm(s);
  }

  /** The only `+` of `a + " + " + b` is the one between the parts. */
  lemma PlusBetween(a: string, b: string)
    requires Count(a, '+') == 0 && Count(b, '+') == 0
    ensures var p1, p2 := a + " ", " " + b;
      Count(a + " + " + b, '+') == 1 && Split(a + " + " + b, '+') == [p1, p2]
  {
    var p1, p2 := a + " ", " " + b;
    assert a + " + " + b == p1 + ['+'] + p2;
    CountAppend(p1 + ['+'], p2, '+');
    CountAppend(p1, ['+'], '+');
    CountAppend(a, " ", '+');
    CountAppend(" ", b, '+');
    CountZero(p1, '+');
    CountZero(p2, '+');
    SplitTwo(p1, p2, '+');
  }

  /** Trimming the two parts around ` + ` gives back the parts. */
  lemma TrimPair(a: string, b: string)
    requires |a| > 0 && a[0] !in Blanks && a[|a| - 1] !in Blanks
    requires |b| > 0 && b[0] !in Blanks && b[|b| - 1] !in Blanks
    ensures TrimAll([a + " ", " " + b]) == [a, b]
  {
    TrimAround("", a, " ", Blanks);
    assert "" + a + " " == a + " ";
    TrimAround(" ", b, "", Blanks);
    assert " " + b + "" == " " + b;
  }

  lemma SplitTwo(a: string, b: string, sep: char)
    requires forall k :: 0 <= k < |a| ==> a[k] != sep
    requires forall k :: 0 <= k < |b| ==> b[k] != sep
    ensures Split(a + [sep] + b, sep) == [a, b]
  {
    assert [a, b][1..] == [b];
    JoinSplit([a, b], sep);
  }

  lemma WordEnds(w: string)
    requires |w| > 0 && IsWordText(w)
    ensures w[0] !in Blanks && w[|w| - 1] !in Blanks
  {
    assert IsWordChar(w[0]) && IsWordChar(w[|w| - 1]);
  }

  lemma NoPlusWord(w: string)
    requires IsWordText(w)
    ensures Count(w, '+') == 0
  {
    CountZero(w, '+');
  }

  /** With a `+`, the output is the f-string of the trimmed parts. */
  lemma PlusForm(inner: string)
    requires Count(TrimStr(inner), '+') > 0
    ensures TransformPrintContent(inner) == "f\"" + FString(TrimAll(Split(TrimStr(inner), '+')), "") + "\""
  {
  }

  lemma FStringPair(x: string, w: string)
    requires |x| > 0 && |w| > 0 && IsWordText(w)
    ensures FString([DoubleQuoted(x), w], "") == x + " {" + w + "}"
  {
    var q := DoubleQuoted(x);
    assert IsQuotedPart(q);
    assert q[1..|q| - 1] == x;
    assert IsWordChar(w[0]);
    assert !IsQuotedPart(w);
    assert [q, w][1..] == [w];
    assert PrintPart(q) == x;
    assert [q, w][0] == q && "" + x == x;
    assert FString([q, w], "") == FString([w], x);
    assert PrintPart(w) == "{" + w + "}";
    assert FString([w], x) == FString([], x + " " + "{" + w + "}");
  }

  // ------------------------------------------------------------ translateBody

  /** `erase(remove(..., c))`: the text with every `c` dropped. */
  function DropChar(s: string, c: char): (r: string)
    ensures forall k :: 0 <= k < |r| ==> r[k] != c
    ensures |r| == |s| - Count(s, c)
  {
    if |s| == 0 then "" else (if s[0] == c then "" else [s[0]]) + DropChar(s[1..], c)
  }

  /** The `print` arguments taken out of a line, and the rest of it. */
  type Calls = (seq<string>, string)

  /** The loop that takes `print(...)` calls out of a line: the text after
      `print` up to the first `(` and from there to the first `)`, each
      call erased from the line before the search goes on where it began.
      Gives the call arguments in order and what is left of the line. */
  function PrintCalls(rem: string, scan: nat): (r: Calls)
    ensures |r.1| <= |rem|
    decreases |rem|
  {
    match Find(rem, "print", scan)
    case None => ([], rem)
    case Some(pos) =>
      match Find(rem, "(", pos)
      case None => ([], rem)
      case Some(start) =>
        match Find(rem, ")", start)
        case None => ([], rem)
        case Some(end) =>
          assert rem[pos..pos + 5] == "print" && rem[start..start + 1] == "(" && rem[end..end + 1] == ")";
          assert end != start;
          var rest := PrintCalls(rem[..pos] + rem[end + 1..], pos);
          ([rem[start + 1..end]] + rest.0, rest.1)
  }

  /** One body line: its `print` calls, each on a line of its own, then
      the normalized rest, or `pass` when the line held nothing. */
  function LineOut(line: string, level: nat): (r: seq<Line>)
    ensures |r| >= 1 && forall k :: 0 <= k < |r| ==> r[k].level == level
  {
    var t := TrimStr(DropChar(line, ';'));
    var calls := PrintCalls(t, 0);
    var prints := seq(|calls.0|, i requires 0 <= i < |calls.0| =>
      Line(level, "print(" + TransformPrintContent(calls.0[i]) + ")"));
    var rest := TrimStr(calls.1);
    if |rest| > 0 then prints + [Line(level, Normalize(rest))]
    else if |calls.0| == 0 then [Line(level, "pass")]
    else prints
  }

  /** `translateBody`: `pass` for no lines, otherwise every line's output
      in order, all at the given level. */
  function TranslateBody(lines: seq<string>, level: nat): (r: seq<Line>)
    ensures |lines| == 0 ==> r == [Line(level, "pass")]
    ensures |r| >= |lines|
    ensures forall k :: 0 <= k < |r| ==> r[k].level == level
  {
    if |lines| == 0 then [Line(level, "pass")] else BodyFrom(lines, level)
  }

  function BodyFrom(lines: seq<string>, level: nat): (r: seq<Line>)
    ensures |r| >= |lines|
    ensures forall k :: 0 <= k < |r| ==> r[k].level == level
  {
    if |lines| == 0 then [] else LineOut(lines[0], level) + BodyFrom(lines[1..], level)
  }

  /** A line without `print` comes out as one line: its normalized text
      with semicolons dropped, or `pass` when nothing is left. */
  lemma PlainLine(line: string, level: nat)
    requires Find(TrimStr(DropChar(line, ';')), "print", 0).None?
    ensures var t := TrimStr(DropChar(line, ';'));
      LineOut(line, level) == [Line(level, if |t| > 0 then Normalize(t) else "pass")]
  {
    var t := TrimStr(DropChar(line, ';'));
    TrimIdempotent(DropChar(line, ';'), Blanks);
  }

  /** The text of a call of `print` on `arg`. */
  function PrintCall(arg: string): string {
    "print(" + arg + ")"
  }

  /** A line holding one `print` call, with or without its semicolon,
      comes out as that call with its argument rewritten. */
  lemma PrintLine(x: string, level: nat)
    requires forall k :: 0 <= k < |x| ==> x[k] != ')' && x[k] != ';'
    ensures LineOut(PrintCall(x) + ";", level) == [Line(level, PrintCall(TransformPrintContent(x)))]
    ensures LineOut(PrintCall(x), level) == [Line(level, PrintCall(TransformPrintContent(x)))]
  {
    var t := PrintCall(x);
    CallClean(x);
    DropPlain(t, ";");
    DropNone(t, ';');
    TrimClean(t);
    CallsOfPrint(x);
    assert TrimStr("") == "";
  }

  lemma CallClean(x: string)
    requires forall k :: 0 <= k < |x| ==> x[k] != ')' && x[k] != ';'
    ensures var t := PrintCall(x); |t| > 0 && t[0] !in Blanks && t[|t| - 1] !in Blanks
    ensures forall k :: 0 <= k < |PrintCall(x)| ==> PrintCall(x)[k] != ';'
  {
    var t := PrintCall(x);
    assert forall k :: 0 <= k < |t| ==> t[k] == if k < 6 then "print("[k] else if k < 6 + |x| then x[k - 6] else ')';
  }

  /** The one call is taken out and nothing is left of the line. */
  lemma CallsOfPrint(x: string)
    requires forall k :: 0 <= k < |x| ==> x[k] != ')'
    ensures PrintCalls(PrintCall(x), 0) == ([x], "")
  {
    var t := PrintCall(x);
    assert At(t, 0, "print");
    assert Find(t, "print", 0) == Results.Some(0);
    assert At(t, 5, "(");
    forall k | 0 <= k < 5
      ensures !At(t, k, "(")
    {
      assert t[k..k + 1] == [t[k]] && t[k] == "print"[k];
    }
    assert Find(t, "(", 0) == Results.Some(5);
    assert forall k :: 5 <= k < 6 + |x| ==> !At(t, k, ")") by {
      forall k | 5 <= k < 6 + |x|
        ensures !At(t, k, ")")
      {
        assert t[k] == if k == 5 then '(' else x[k - 6];
        assert t[k..k + 1] == [t[k]];
      }
    }
    assert At(t, 6 + |x|, ")");
    assert Find(t, ")", 5) == Results.Some(6 + |x|);
    assert t[6..6 + |x|] == x;
    assert t[..0] + t[6 + |x| + 1..] == "";
    assert PrintCalls("", 0) == ([], "");
    assert [x] + [] == [x];
  }

  /** Text without `c` loses nothing. */
  lemma {:induction false} DropNone(s: string, c: char)
    requires forall k :: 0 <= k < |s| ==> s[k] != c
    ensures DropChar(s, c) == s
    decreases |s|
  {
    if |s| > 0 {
      DropNone(s[1..], c);
      assert [s[0]] + s[1..] == s;
    }
  }

  /** Dropping `c` from text followed by `c`. */
  lemma {:induction false} DropPlain(s: string, tail: string)
    requires tail == ";" && forall k :: 0 <= k < |s| ==> s[k] != ';'
    ensures DropChar(s + tail, ';') == s
    decreases |s|
  {
    if |s| == 0 {
      assert s + tail == ";";
      assert DropChar(";"[1..], ';') == "";
    } else {
      assert (s + tail)[1..] == s[1..] + tail;
      DropPlain(s[1..], tail);
      assert s == [s[0]] + s[1..];
    }
  }
}
