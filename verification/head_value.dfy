/** Runtime values of the LuduScript interpreter and the operators on them.
    A NUM is a number plus the flag that says it is to be treated as an
    integer; the model keeps the number as an exact real, so rounding of
    `double` is not modelled.  Two library conversions the model does not
    spell out (`std::to_string(double)` and `std::stod`) come in as a `Host`. */
module HeadValue {
  import opened Results
  import opened NumText

  datatype Value = Num(n: real, isInt: bool) | Str(s: string) | Bool(b: bool)

  /** The conversions that depend on floating-point formatting and parsing:
      `floatText` is `std::to_string(double)`; `stod` is `std::stod`, `None`
      where it throws. */
  datatype Host = Host(floatText: real -> string, stod: string -> Option<real>)

  predicate Integral(x: real) {
    x == x.Floor as real
  }

  /** An integer-flagged NUM always holds a whole number. */
  predicate ValueOk(v: Value) {
    v.Num? && v.isInt ==> Integral(v.n)
  }

  /** `Value::makeInt`. */
  function MakeInt(i: int): (v: Value)
    ensures v.Num? && v.isInt && ValueOk(v)
  {
    Num(i as real, true)
  }

  /** `Value::makeNum`: never integer-flagged. */
  function MakeNum(x: real): (v: Value)
    ensures v.Num? && !v.isInt && v.n == x
  {
    Num(x, false)
  }

  /** `static_cast<long long>` of a number: truncation toward zero. */
  function Trunc(x: real): (i: int)
    ensures x >= 0.0 ==> 0.0 <= i as real <= x < i as real + 1.0
    ensures x < 0.0 ==> i as real - 1.0 < x <= i as real <= 0.0
  {
    if x >= 0.0 then x.Floor else -((-x).Floor)
  }

  /** C's `/` on integers: division truncated toward zero. */
  function CQuot(a: int, b: int): int
    requires b != 0
  {
    var q := if a >= 0 then a / Abs(b) else -((-a) / Abs(b));
    if b < 0 then -q else q
  }

  /** C's `%` on integers: the remainder of division truncated toward zero,
      which takes the sign of the dividend. */
  function CRem(a: int, b: int): (r: int)
    requires b != 0
    ensures a >= 0 ==> 0 <= r < Abs(b)
    ensures a < 0 ==> 0 - Abs(b) < r <= 0
  {
    if a >= 0 then a % Abs(b) else -((-a) % Abs(b))
  }

  /** Quotient and remainder recombine to the dividend, as C guarantees. */
  lemma CDivision(a: int, b: int)
    requires b != 0
    ensures a == b * CQuot(a, b) + CRem(a, b)
  {
    var m := Abs(b);
    if a >= 0 {
      assert a == m * (a / m) + a % m;
    } else {
      assert -a == m * ((-a) / m) + (-a) % m;
    }
    if b < 0 {
      assert b * CQuot(a, b) == m * (if a >= 0 then a / m else -((-a) / m));
    }
  }

  function Abs(i: int): nat {
    if i < 0 then -i else i
  }

  /** `Value::toStr`. */
  function ToStr(h: Host, v: Value): string {
    match v
    case Str(s) => s
    case Num(n, isInt) => if isInt then IntText(Trunc(n)) else h.floatText(n)
    case Bool(b) => if b then "true" else "false"
  }

  /** `Value::toNum`: text goes through `stod`, 0 when that throws. */
  function ToNum(h: Host, v: Value): real {
    match v
    case Num(n, _) => n
    case Str(s) => h.stod(s).GetOr(0.0)
    case Bool(b) => if b then 1.0 else 0.0
  }

  /** `Value::toInt`: numbers truncate, text goes through `stoll`, 0 when
      that throws. */
  function ToInt(v: Value): int {
    match v
    case Num(n, _) => Trunc(n)
    case Str(s) => Stoll(s).GetOr(0)
    case Bool(b) => if b then 1 else 0
  }

  /** `Value::toBool`: a BOOL is itself, a NUM is true iff non-zero, a STR is
      true iff non-empty. */
  function ToBool(v: Value): (b: bool)
    ensures v.Bool? ==> b == v.b
    ensures v.Num? ==> (b <==> v.n != 0.0)
    ensures v.Str? ==> (b <==> |v.s| > 0)
  {
    match v
    case Bool(b) => b
    case Num(n, _) => n != 0.0
    case Str(s) => s != ""
  }

  predicate BothInts(l: Value, r: Value) {
    l.Num? && r.Num? && l.isInt && r.isInt
  }

  predicate SameKind(l: Value, r: Value) {
    (l.Num? && r.Num?) || (l.Str? && r.Str?) || (l.Bool? && r.Bool?)
  }

  /** Payload equality of two values of the same kind. */
  predicate SamePayload(l: Value, r: Value)
    requires SameKind(l, r)
  {
    match l
    case Num(n, _) => n == r.n
    case Str(s) => s == r.s
    case Bool(b) => b == r.b
  }

  /** `evalUnary` once the operand is known. */
  function ApplyUnary(h: Host, op: string, v: Value): (r: Result<Value>)
    ensures op == "!" ==> r == Ok(Bool(!ToBool(v)))
    ensures op == "-" ==> r.Ok? && r.value.Num? && !r.value.isInt
    ensures op !in {"!", "-"} ==> r.Err?
  {
    if op == "!" then Ok(Bool(!ToBool(v)))
    else if op == "-" then Ok(MakeNum(-ToNum(h, v)))
    else Err("Unknown unary operator: " + op)
  }

  /** `evalBinary` once both operands are known. */
  function ApplyBinary(h: Host, op: string, l: Value, r: Value): Result<Value> {
    if op == "+" then
      if l.Str? || r.Str? then Ok(Str(ToStr(h, l) + ToStr(h, r)))
      else if BothInts(l, r) then Ok(MakeInt(Trunc(l.n) + Trunc(r.n)))
      else Ok(MakeNum(ToNum(h, l) + ToNum(h, r)))
    else if op == "-" then
      if BothInts(l, r) then Ok(MakeInt(Trunc(l.n) - Trunc(r.n)))
      else Ok(MakeNum(ToNum(h, l) - ToNum(h, r)))
    else if op == "*" then
      if BothInts(l, r) then Ok(MakeInt(Trunc(l.n) * Trunc(r.n)))
      else Ok(MakeNum(ToNum(h, l) * ToNum(h, r)))
    else if op == "/" then
      var d := ToNum(h, r);
      if d == 0.0 then Err("Division by zero") else Ok(MakeNum(ToNum(h, l) / d))
    else if op == "%" then
      var d := ToInt(r);
      if d == 0 then Err("Modulo by zero") else Ok(MakeNum(CRem(ToInt(l), d) as real))
    else if op == "==" then
      Ok(Bool(SameKind(l, r) && SamePayload(l, r)))
    else if op == "!=" then
      Ok(Bool(!(SameKind(l, r) && SamePayload(l, r))))
    else if op == "<" then Ok(Bool(ToNum(h, l) < ToNum(h, r)))
    else if op == ">" then Ok(Bool(ToNum(h, l) > ToNum(h, r)))
    else if op == "<=" then Ok(Bool(ToNum(h, l) <= ToNum(h, r)))
    else if op == ">=" then Ok(Bool(ToNum(h, l) >= ToNum(h, r)))
    else if op == "&&" then Ok(Bool(ToBool(l) && ToBool(r)))
    else if op == "||" then Ok(Bool(ToBool(l) || ToBool(r)))
    else Err("Unknown binary operator: " + op)
  }

  lemma TruncWhole(i: int)
    ensures Trunc(i as real) == i
  {
  }

  /** On integer-flagged operands `+`, `-` and `*` are exact integer
      arithmetic and stay integer-flagged. */
  lemma IntegerArithmetic(h: Host, a: int, b: int)
    ensures ApplyBinary(h, "+", MakeInt(a), MakeInt(b)) == Ok(MakeInt(a + b))
    ensures ApplyBinary(h, "-", MakeInt(a), MakeInt(b)) == Ok(MakeInt(a - b))
    ensures ApplyBinary(h, "*", MakeInt(a), MakeInt(b)) == Ok(MakeInt(a * b))
  {
    TruncWhole(a);
    TruncWhole(b);
  }

  /** The integer flag of an arithmetic result: set exactly when both
      operands are integer-flagged NUMs (for `+`, when neither is a STR);
      `/` and `%` never set it. */
  lemma ArithmeticFlag(h: Host, op: string, l: Value, r: Value)
    requires op in {"+", "-", "*", "/", "%"}
    requires ApplyBinary(h, op, l, r).Ok?
    ensures ApplyBinary(h, op, l, r).value.Num? <==> !(op == "+" && (l.Str? || r.Str?))
    ensures ApplyBinary(h, op, l, r).value.Num? ==>
              (ApplyBinary(h, op, l, r).value.isInt <==> op in {"+", "-", "*"} && BothInts(l, r))
  {
  }

  /** `/` fails exactly on a zero divisor and `%` exactly on a divisor whose
      integer value is zero; `%` follows C's sign rule. */
  lemma DivisionErrors(h: Host, l: Value, r: Value)
    ensures ApplyBinary(h, "/", l, r).Err? <==> ToNum(h, r) == 0.0
    ensures ApplyBinary(h, "%", l, r).Err? <==> ToInt(r) == 0
    ensures ApplyBinary(h, "%", l, r).Ok? ==>
              ApplyBinary(h, "%", l, r).value == MakeNum(CRem(ToInt(l), ToInt(r)) as real)
  {
  }

  /** `!=` is always the negation of `==`, and `==` is reflexive. */
  lemma EqualityComplement(h: Host, l: Value, r: Value)
    ensures ApplyBinary(h, "==", l, r).Ok? && ApplyBinary(h, "!=", l, r).Ok?
    ensures ApplyBinary(h, "!=", l, r).value.b == !ApplyBinary(h, "==", l, r).value.b
    ensures ApplyBinary(h, "==", l, l) == Ok(Bool(true))
    ensures ApplyBinary(h, "==", l, r) == Ok(Bool(true)) ==> ApplyBinary(h, "==", r, l) == Ok(Bool(true))
  {
  }

  /** Values of different kinds are never equal, so `1 == "1"` is false. */
  lemma CrossKindUnequal(h: Host, l: Value, r: Value)
    requires !SameKind(l, r)
    ensures ApplyBinary(h, "==", l, r) == Ok(Bool(false))
  {
  }

  /** Every operator keeps the integer-flag invariant. */
  lemma OperatorsKeepValueOk(h: Host, op: string, l: Value, r: Value)
    ensures ValueOk(l) && ValueOk(r) && ApplyBinary(h, op, l, r).Ok? ==> ValueOk(ApplyBinary(h, op, l, r).value)
    ensures ValueOk(l) && ApplyUnary(h, op, l).Ok? ==> ValueOk(ApplyUnary(h, op, l).value)
  {
  }
}
