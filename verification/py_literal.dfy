/** The literal helpers both Python generators share (`src/generator.cpp`
    and its LuduScript-main copy): the blanks `trimStr` removes,
    `looksLikeNumber` with a reference definition of the number shape it
    accepts, and the identifier test that decides whether a value needs
    quotes. */
module PyLiteral {
  import opened Chars
  import opened Text

  /** The blanks `trimStr` removes: space, tab, carriage return, newline. */
  const Blanks: set<char> := {' ', '\t', '\r', '\n'}

  /** The two quote characters a value may already start with. */
  const Quotes: set<char> := {'"', '\''}

  /** Text made only of `[A-Za-z0-9_]` (the empty text included). */
  predicate IsWordText(t: string) {
    forall k :: 0 <= k < |t| ==> IsWordChar(t[k])
  }

  /** The shape of a number: an optional sign, then digits and dots with at
      most one dot and at least one digit. */
  predicate NumberShaped(s: string) {
    && |s| > 0
    && var body := s[SignEnd(s)..];
    && (forall k :: 0 <= k < |body| ==> IsDigit(body[k]) || body[k] == '.')
    && Count(body, '.') <= 1
    && (exists k :: 0 <= k < |body| && IsDigit(body[k]))
  }

  /** Where the text after an optional leading sign starts. */
  function SignEnd(s: string): nat
    requires |s| > 0
  {
    if s[0] == '-' || s[0] == '+' then 1 else 0
  }

  /** The scan of `looksLikeNumber` from position `i`, with the flags it
      has set so far. */
  function NumberScan(s: string, i: nat, hasDigit: bool, hasDot: bool): (r: bool)
    requires i <= |s|
    ensures r <==>
      && (forall k :: i <= k < |s| ==> IsDigit(s[k]) || s[k] == '.')
      && Count(s[i..], '.') <= (if hasDot then 0 else 1)
      && (hasDigit || exists k :: i <= k < |s| && IsDigit(s[k]))
    decreases |s| - i
  {
    if i == |s| then hasDigit
    else
      assert s[i..] == [s[i]] + s[i + 1..];
      CountAppend([s[i]], s[i + 1..], '.');
      if IsDigit(s[i]) then NumberScan(s, i + 1, true, hasDot)
      else if s[i] == '.' && !hasDot then NumberScan(s, i + 1, hasDigit, true)
      else false
  }

  /** `looksLikeNumber`: exactly the texts of the number shape. */
  function LooksLikeNumber(s: string): (r: bool)
    ensures r <==> NumberShaped(s)
  {
    if |s| == 0 then false
    else
      var start := SignEnd(s);
      var body := s[start..];
      assert forall k :: start <= k < |s| ==> s[k] == body[k - start];
      assert forall k :: 0 <= k < |body| ==> body[k] == s[k + start];
      assert (exists k :: start <= k < |s| && IsDigit(s[k])) <==> (exists k :: 0 <= k < |body| && IsDigit(body[k])) by {
        if exists k :: start <= k < |s| && IsDigit(s[k]) {
          var k :| start <= k < |s| && IsDigit(s[k]);
          assert IsDigit(body[k - start]);
        }
        if exists k :: 0 <= k < |body| && IsDigit(body[k]) {
          var k :| 0 <= k < |body| && IsDigit(body[k]);
          assert IsDigit(s[k + start]);
        }
      }
      NumberScan(s, start, false, false)
  }

  /** The decimal text of a whole number with an optional sign and dot is
      a number, and a text with a letter in it never is. */
  lemma NumberShapes(digits: string, c: char, s: string)
    requires |digits| > 0 && forall k :: 0 <= k < |digits| ==> IsDigit(digits[k])
    requires IsAlpha(c) && c in s
    ensures LooksLikeNumber("-" + digits)
    ensures LooksLikeNumber(digits + ".")
    ensures !LooksLikeNumber(s)
  {
    SignedDigits(digits);
    DottedDigits(digits);
    assert !NumberShaped(s) by {
      var k :| 0 <= k < |s| && s[k] == c;
      if |s| > 0 && k >= SignEnd(s) {
        assert s[SignEnd(s)..][k - SignEnd(s)] == c;
      }
    }
  }

  lemma SignedDigits(digits: string)
    requires |digits| > 0 && forall k :: 0 <= k < |digits| ==> IsDigit(digits[k])
    ensures NumberShaped("-" + digits)
  {
    assert ("-" + digits)[1..] == digits;
    CountZero(digits, '.');
    assert IsDigit(digits[0]);
  }

  lemma DottedDigits(digits: string)
    requires |digits| > 0 && forall k :: 0 <= k < |digits| ==> IsDigit(digits[k])
    ensures NumberShaped(digits + ".")
  {
    var d := digits + ".";
    assert d[0..] == d;
    CountAppend(digits, ".", '.');
    CountZero(digits, '.');
    assert IsDigit(d[0]);
  }
}
