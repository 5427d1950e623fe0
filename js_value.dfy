/**
 * The JavaScript values a parsed step record holds, the object it is held in,
 * and the three coercions script.js applies to them: the `isNaN`/`parseFloat`
 * test, the `*` operator's conversion to a number, and truthiness in an `if`.
 */
module JsValue {
  import opened Strings

  /** A JavaScript number; `NaN` is the one value kept apart from the reals. */
  datatype Number = Finite(value: real) | NaN

  /** A property value: a number, a string, or `undefined` for a property never assigned. */
  datatype Value = Num(n: Number) | Str(s: string) | Undefined

  /** A plain object `{}` used as a dictionary from property names to values. */
  type Record = map<string, Value>

  /** The one property name whose assignment on a plain object does not create a property. */
  const PROTO_KEY := "__proto__"

  /** Reading `rec[k]`: a property never assigned reads as `undefined`. */
  function Get(rec: Record, k: string): Value {
    if k in rec then rec[k] else Undefined
  }

  /**
   * `rec[k] = v` on a plain object. Assigning a string or a number to `__proto__`
   * goes to the inherited setter, which ignores anything that is not an object.
   */
  function Store(rec: Record, k: string, v: Value): Record {
    if k == PROTO_KEY then rec else rec[k := v]
  }

  predicate IsDigit(c: char) {
    '0' <= c <= '9'
  }

  predicate AllDigits(s: string) {
    forall k :: 0 <= k < |s| ==> IsDigit(s[k])
  }

  function DigitValue(c: char): nat
    requires IsDigit(c)
  {
    (c as int - '0' as int) as nat
  }

  /** The value of a string of decimal digits, most significant first. */
  function DigitsValue(s: string): nat
    requires AllDigits(s)
    decreases |s|
  {
    if s == [] then 0 else 10 * DigitsValue(s[..|s| - 1]) + DigitValue(s[|s| - 1])
  }

  function Pow10(n: nat): (r: nat)
    ensures r >= 1
  {
    if n == 0 then 1 else 10 * Pow10(n - 1)
  }

  /** Digits with at most one `.` among them and at least one digit: `12`, `1.5`, `.5`, `5.`. */
  predicate IsUnsignedDecimal(s: string) {
    if '.' in s then
      var p := FirstIndex(s, '.');
      |s| >= 2 && AllDigits(s[..p]) && AllDigits(s[p + 1..])
    else
      s != [] && AllDigits(s)
  }

  function UnsignedValue(s: string): real
    requires IsUnsignedDecimal(s)
  {
    if '.' in s then
      var p := FirstIndex(s, '.');
      (DigitsValue(s[..p]) as real) + (DigitsValue(s[p + 1..]) as real) / (Pow10(|s| - p - 1) as real)
    else
      DigitsValue(s) as real
  }

  predicate IsSign(c: char) {
    c == '+' || c == '-'
  }

  /** A decimal literal with an optional sign. */
  predicate IsDecimal(s: string) {
    if |s| > 0 && IsSign(s[0]) then IsUnsignedDecimal(s[1..]) else IsUnsignedDecimal(s)
  }

  function DecimalValue(s: string): real
    requires IsDecimal(s)
  {
    if |s| > 0 && s[0] == '-' then -UnsignedValue(s[1..])
    else if |s| > 0 && s[0] == '+' then UnsignedValue(s[1..])
    else UnsignedValue(s)
  }

  /**
   * `Number(s)`: white space around the text is ignored, a blank text is 0,
   * a decimal literal is its value, anything else is NaN.
   */
  function StringToNumber(s: string): Number {
    var t := Trim(s);
    if t == "" then Finite(0.0)
    else if IsDecimal(t) then Finite(DecimalValue(t))
    else NaN
  }

  /**
   * `isNaN(token) ? token : parseFloat(token)`: a token that `Number()` rejects
   * stays a string; otherwise `parseFloat` reads it, and a blank token, which
   * `Number()` takes for 0, has no digits for `parseFloat` and becomes NaN.
   */
  function PlainValue(token: string): (v: Value)
    ensures !v.Undefined?
    ensures v.Str? <==> StringToNumber(token).NaN?
    ensures v.Str? ==> v.s == token
    ensures v.Num? && !AllSpace(token) ==> v.n == StringToNumber(token)
    ensures AllSpace(token) ==> v == Num(NaN)
  {
    var t := Trim(token);
    if t == "" then Num(NaN)
    else if IsDecimal(t) then Num(Finite(DecimalValue(t)))
    else Str(token)
  }

  /** `Number(v)` as the `*` operator applies it: `undefined` becomes NaN. */
  function ToNumber(v: Value): Number {
    match v
    case Num(n) => n
    case Str(s) => StringToNumber(s)
    case Undefined => NaN
  }

  /** Multiplication by a finite constant; NaN stays NaN. */
  function Times(n: Number, k: real): Number {
    match n
    case Finite(x) => Finite(x * k)
    case NaN => NaN
  }

  /** What an `if` makes of a value: zero, NaN, the empty string and `undefined` are false. */
  predicate Truthy(v: Value) {
    match v
    case Num(Finite(x)) => x != 0.0
    case Num(NaN) => false
    case Str(s) => s != ""
    case Undefined => false
  }

  /** The decimal digits of a natural number, without leading zeros. */
  function NatToDigits(n: nat): (s: string)
    ensures s != [] && AllDigits(s)
    decreases n
  {
    if n < 10 then ['0' + n as char]
    else NatToDigits(n / 10) + ['0' + (n % 10) as char]
  }

  /** How `String(i)` writes an integer. */
  function IntToString(i: int): (s: string) {
    if i < 0 then "-" + NatToDigits(-i) else NatToDigits(i)
  }

  lemma {:induction false} DigitsRoundTrip(n: nat)
    ensures DigitsValue(NatToDigits(n)) == n
    decreases n
  {
    var s := NatToDigits(n);
    if n >= 10 {
      assert s[..|s| - 1] == NatToDigits(n / 10);
      DigitsRoundTrip(n / 10);
    }
  }

  lemma DigitsAreDecimal(d: string)
    requires d != [] && AllDigits(d)
    ensures IsUnsignedDecimal(d) && UnsignedValue(d) == DigitsValue(d) as real
  {
    assert forall k :: 0 <= k < |d| ==> d[k] != '.';
  }

  lemma IntToStringDecimal(i: int)
    ensures Trimmed(IntToString(i)) && IsDecimal(IntToString(i))
    ensures DecimalValue(IntToString(i)) == i as real
  {
    var s := IntToString(i);
    var n := if i < 0 then -i else i;
    var d := NatToDigits(n);
    DigitsRoundTrip(n);
    DigitsAreDecimal(d);
    assert IsDigit(d[0]) && IsDigit(d[|d| - 1]);
    if i < 0 {
      assert s[1..] == d && s[0] == '-';
    } else {
      assert s == d && !IsSign(d[0]);
    }
  }

  /** `Number()` reads back every integer that `String()` writes, and so does the step parser. */
  lemma IntToStringRoundTrip(i: int)
    ensures StringToNumber(IntToString(i)) == Finite(i as real)
    ensures PlainValue(IntToString(i)) == Num(Finite(i as real))
  {
    IntToStringDecimal(i);
    TrimmedIsFixed(IntToString(i));
  }
}
