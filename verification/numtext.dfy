/** Decimal text of integers and the C library's text-to-integer
    conversions (`std::to_string(long long)`, `atoi`, `std::stoll`), plus the
    exact value of a decimal literal such as `12.5`. */
module NumText {
  import opened Chars
  import opened Scanning
  import opened Results

  function DigitValue(c: char): (d: nat)
    requires IsDigit(c)
    ensures d < 10
  {
    c as int - '0' as int
  }

  function DigitChar(d: nat): (c: char)
    requires d < 10
    ensures IsDigit(c) && DigitValue(c) == d
  {
    ('0' as int + d) as char
  }

  /** The number a run of decimal digits denotes (most significant first). */
  function DigitsValue(s: string): nat
    requires AllDigits(s)
  {
    if |s| == 0 then 0 else DigitsValue(s[..|s| - 1]) * 10 + DigitValue(s[|s| - 1])
  }

  /** `std::to_string` of a non-negative integer: shortest decimal digits. */
  function NatText(n: nat): (s: string)
    ensures 1 <= |s| && AllDigits(s)
    ensures |s| > 1 ==> s[0] != '0'
  {
    if n < 10 then [DigitChar(n)] else NatText(n / 10) + [DigitChar(n % 10)]
  }

  /** `std::to_string` of an integer: a minus sign for negatives, then digits. */
  function IntText(i: int): (s: string)
    ensures 1 <= |s|
    ensures i < 0 <==> s[0] == '-'
  {
    if i < 0 then "-" + NatText(-i) else NatText(i)
  }

  lemma {:induction false} NatTextValue(n: nat)
    ensures DigitsValue(NatText(n)) == n
    decreases n
  {
    if n >= 10 {
      var s := NatText(n);
      assert s[..|s| - 1] == NatText(n / 10);
      NatTextValue(n / 10);
    }
  }

  /** The shape `strtol` recognises in base 10: leading white space, an
      optional sign, and the longest run of digits after it.  `digits` is
      empty when no number is present. */
  datatype Prefix = Prefix(negative: bool, digits: string)

  function ScanPrefix(s: string): (p: Prefix)
    ensures AllDigits(p.digits)
  {
    var i := SpaceRun(s, 0);
    var neg := i < |s| && s[i] == '-';
    var j := if i < |s| && (s[i] == '-' || s[i] == '+') then i + 1 else i;
    Prefix(neg, s[j..DigitRun(s, j)])
  }

  function PrefixValue(p: Prefix): int
    requires AllDigits(p.digits)
  {
    var v: int := DigitsValue(p.digits);
    if p.negative then -v else v
  }

  /** `atoi`: the value of the leading number, 0 when there is none.
      Values that overflow `int` are undefined behaviour in C and are not
      narrowed here. */
  function Atoi(s: string): int {
    PrefixValue(ScanPrefix(s))
  }

  const MinLong: int := -0x8000_0000_0000_0000
  const MaxLong: int := 0x7FFF_FFFF_FFFF_FFFF

  /** `std::stoll`: `None` where the library throws, that is when no digit
      follows the optional sign or when the value does not fit 64 bits. */
  function Stoll(s: string): (r: Option<int>)
    ensures r.Some? ==> MinLong <= r.value <= MaxLong
    ensures r.Some? <==> |ScanPrefix(s).digits| > 0 && MinLong <= Atoi(s) <= MaxLong
  {
    var p := ScanPrefix(s);
    if |p.digits| == 0 then None
    else
      var v := PrefixValue(p);
      if MinLong <= v <= MaxLong then Some(v) else None
  }

  const MinInt: int := -0x8000_0000
  const MaxInt: int := 0x7FFF_FFFF

  /** `std::stoi`: like `stoll`, but `None` outside the 32-bit range. */
  function Stoi(s: string): (r: Option<int>)
    ensures r.Some? ==> MinInt <= r.value <= MaxInt
    ensures r.Some? <==> |ScanPrefix(s).digits| > 0 && MinInt <= Atoi(s) <= MaxInt
    ensures r.Some? ==> r.value == Atoi(s)
  {
    var p := ScanPrefix(s);
    if |p.digits| == 0 then None
    else
      var v := PrefixValue(p);
      if MinInt <= v <= MaxInt then Some(v) else None
  }

  lemma NatTextScan(n: nat, rest: string)
    requires rest == [] || !IsDigit(rest[0])
    ensures DigitRun(NatText(n) + rest, 0) == |NatText(n)|
  {
    var s := NatText(n) + rest;
    DigitRunAll(s, 0, |NatText(n)|);
  }

  lemma {:induction false} DigitRunAll(s: string, i: nat, j: nat)
    requires i <= j <= |s|
    requires forall k :: i <= k < j ==> IsDigit(s[k])
    requires j == |s| || !IsDigit(s[j])
    ensures DigitRun(s, i) == j
    decreases j - i
  {
    if i < j {
      DigitRunAll(s, i + 1, j);
    }
  }

  /** `atoi` reads back what `std::to_string` writes, and so does `stoll`
      within the 64-bit range. */
  lemma IntTextRoundTrip(i: int)
    ensures Atoi(IntText(i)) == i
    ensures MinLong <= i <= MaxLong ==> Stoll(IntText(i)) == Some(i)
  {
    var n: nat := if i < 0 then -i else i;
    if i < 0 {
      ScanNegative(n);
    } else {
      ScanNonNegative(n);
    }
    assert ScanPrefix(IntText(i)) == Prefix(i < 0, NatText(n));
    NatTextValue(n);
  }

  /** `stoll` of a plain run of digits, such as a lexer's number: its value
      when that fits 64 bits, the out-of-range failure otherwise. */
  lemma StollDigits(s: string)
    requires |s| > 0 && AllDigits(s)
    ensures Stoll(s) == if DigitsValue(s) <= MaxLong then Some(DigitsValue(s)) else None
  {
    assert SpaceRun(s, 0) == 0 by { assert !IsSpace(s[0]); }
    DigitRunAll(s, 0, |s|);
    assert s[0..|s|] == s;
    assert ScanPrefix(s) == Prefix(false, s);
  }

  lemma ScanNonNegative(n: nat)
    ensures ScanPrefix(NatText(n)) == Prefix(false, NatText(n))
  {
    var s := NatText(n);
    assert SpaceRun(s, 0) == 0;
    DigitRunAll(s, 0, |s|);
    assert s[0..|s|] == s;
  }

  lemma ScanNegative(n: nat)
    ensures ScanPrefix("-" + NatText(n)) == Prefix(true, NatText(n))
  {
    var s := "-" + NatText(n);
    assert SpaceRun(s, 0) == 0;
    DigitRunAll(s, 1, |s|);
    assert s[1..|s|] == NatText(n);
  }

  /** The exact value of a decimal literal `whole.frac`; `frac` may be empty. */
  function DecimalValue(whole: string, frac: string): (r: real)
    requires AllDigits(whole) && AllDigits(frac)
    ensures r >= 0.0
    ensures |frac| == 0 ==> r == DigitsValue(whole) as real
  {
    DigitsValue(whole) as real + DigitsValue(frac) as real / Pow10(|frac|) as real
  }

  function Pow10(k: nat): (p: nat)
    ensures p >= 1
  {
    if k == 0 then 1 else 10 * Pow10(k - 1)
  }
}
