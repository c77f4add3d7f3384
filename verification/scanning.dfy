/** Cursor-level helpers shared by every lexer in the model: the `peek`
    that yields NUL past the end, the longest runs of digits, blanks and
    word characters, and the count of newlines in a stretch of text. */
module Scanning {
  import opened Chars

  /** The character at `i`, or NUL past the end, as `peek` returns it. */
  function Peek(s: string, i: nat): char {
    if i < |s| then s[i] else '\0'
  }

  predicate AllDigits(s: string) {
    forall i :: 0 <= i < |s| ==> IsDigit(s[i])
  }

  /** End of the longest run of digits starting at `i`. */
  function DigitRun(s: string, i: nat): (j: nat)
    requires i <= |s|
    ensures i <= j <= |s|
    ensures var e := j; AllDigits(s[i..e])
    ensures forall k :: i <= k < j ==> IsDigit(s[k])
    ensures !IsDigit(Peek(s, j))
    decreases |s| - i
  {
    if i < |s| && IsDigit(s[i]) then DigitRun(s, i + 1) else i
  }

  /** End of the longest run of `isspace` characters starting at `i`. */
  function SpaceRun(s: string, i: nat): (j: nat)
    requires i <= |s|
    ensures i <= j <= |s|
    ensures forall k :: i <= k < j ==> IsSpace(s[k])
    ensures j == |s| || !IsSpace(s[j])
    decreases |s| - i
  {
    if i < |s| && IsSpace(s[i]) then SpaceRun(s, i + 1) else i
  }

  /** End of the longest run of `[A-Za-z0-9_]` starting at `i`. */
  function WordEnd(s: string, i: nat): (j: nat)
    requires i <= |s|
    ensures i <= j <= |s|
    ensures forall k :: i <= k < j ==> IsWordChar(s[k])
    ensures !IsWordChar(Peek(s, j))
    decreases |s| - i
  {
    if i < |s| && IsWordChar(s[i]) then WordEnd(s, i + 1) else i
  }

  /** Number of newline characters in `t`. */
  function Newlines(t: string): nat {
    if |t| == 0 then 0 else (if t[0] == '\n' then 1 else 0) + Newlines(t[1..])
  }

  lemma {:induction false} NewlinesAppend(a: string, b: string)
    ensures Newlines(a + b) == Newlines(a) + Newlines(b)
    decreases |a|
  {
    if |a| > 0 {
      assert (a + b)[1..] == a[1..] + b;
      NewlinesAppend(a[1..], b);
    } else {
      assert a + b == b;
    }
  }

  lemma NewlinesSplit(s: string, i: nat, j: nat, k: nat)
    requires i <= j <= k <= |s|
    ensures Newlines(s[i..k]) == Newlines(s[i..j]) + Newlines(s[j..k])
  {
    assert s[i..k] == s[i..j] + s[j..k];
    NewlinesAppend(s[i..j], s[j..k]);
  }

  lemma {:induction false} NoNewlines(s: string, i: nat, j: nat)
    requires i <= j <= |s|
    requires forall k :: i <= k < j ==> s[k] != '\n'
    ensures Newlines(s[i..j]) == 0
    decreases j - i
  {
    if i < j {
      assert s[i..j][1..] == s[i + 1..j];
      NoNewlines(s, i + 1, j);
    }
  }
}
