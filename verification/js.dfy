/**
  The pieces of JavaScript semantics the components rely on: the values a
  parsed front-matter header can hold, the string coercion `String(v)`, the
  decimal form of an integer, and the white-space class `\s` of regular
  expressions.
*/
module Js {

  /** The integers a JavaScript number holds exactly, `Number.MIN_SAFE_INTEGER`
      to `Number.MAX_SAFE_INTEGER`. `String` writes all of them in plain
      decimal (the exponent form starts at 10^21). */
  type SafeInteger = n: int | -0x1F_FFFF_FFFF_FFFF <= n <= 0x1F_FFFF_FFFF_FFFF

  /** A JavaScript value as it can appear in parsed header data.
      Numbers are safe integers here; `Other` is any other object (a `Date`
      produced from a YAML timestamp, a nested mapping, ...) together with
      the string its `toString` yields. */
  datatype Value =
    | Undefined
    | Null
    | Bool(b: bool)
    | Num(n: SafeInteger)
    | Str(s: string)
    | Arr(items: seq<Value>)
    | Other(display: string)

  /** `v === null || v === undefined`, the values on which `??` falls back. */
  predicate IsNullish(v: Value) {
    v.Undefined? || v.Null?
  }

  /** `String(v)`: a string is kept as it is; `null` and `undefined` spell
      their names; a number is its decimal form; an array is the join of its
      elements, so the empty array gives `""`. */
  function ToStr(v: Value): (s: string)
    ensures v.Str? ==> s == v.s
    ensures v.Undefined? ==> s == "undefined"
    ensures v.Null? ==> s == "null"
    ensures v.Bool? ==> s == (if v.b then "true" else "false")
    ensures v.Num? ==> s == IntToDecimal(v.n)
    ensures v.Arr? ==> s == JoinElements(v.items)
    ensures v.Other? ==> s == v.display
  {
    match v
    case Undefined => "undefined"
    case Null => "null"
    case Bool(b) => if b then "true" else "false"
    case Num(n) => IntToDecimal(n)
    case Str(s) => s
    case Arr(items) => JoinElements(items)
    case Other(display) => display
  }

  /** `Array.prototype.toString`, that is `join(",")`: a `null` or `undefined`
      element contributes the empty string. */
  function JoinElements(items: seq<Value>): (s: string)
    ensures items == [] ==> s == ""
    ensures |items| == 1 ==> s == (if IsNullish(items[0]) then "" else ToStr(items[0]))
    ensures |items| >= 2 ==> ',' in s
  {
    if |items| == 0 then ""
    else
      var first := if IsNullish(items[0]) then "" else ToStr(items[0]);
      if |items| == 1 then first else first + "," + JoinElements(items[1..])
  }

  /** Joining two non-empty arrays put together puts one comma between
      their joins. */
  lemma {:induction false} JoinElementsAppend(a: seq<Value>, b: seq<Value>)
    requires a != [] && b != []
    ensures JoinElements(a + b) == JoinElements(a) + "," + JoinElements(b)
  {
    assert (a + b)[0] == a[0];
    assert (a + b)[1..] == a[1..] + b;
    if |a| > 1 {
      JoinElementsAppend(a[1..], b);
    }
  }

  predicate IsDigit(c: char) {
    '0' <= c <= '9'
  }

  function DigitChar(d: nat): (c: char)
    requires d < 10
    ensures IsDigit(c) && c as int - '0' as int == d
  {
    (d + '0' as int) as char
  }

  /** The value of a string of decimal digits. */
  function DecimalValue(s: string): int
    requires forall i :: 0 <= i < |s| ==> IsDigit(s[i])
  {
    if s == [] then 0
    else 10 * DecimalValue(s[..|s| - 1]) + (s[|s| - 1] as int - '0' as int)
  }

  /** The decimal form of a non-negative integer, as `String(n)` writes it:
      digits only, and no leading zero unless the number is zero. */
  function NatToDecimal(n: nat): (r: string)
    ensures |r| >= 1
    ensures forall i :: 0 <= i < |r| ==> IsDigit(r[i])
    ensures r[0] == '0' ==> n == 0 && r == "0"
    decreases n
  {
    if n < 10 then [DigitChar(n)] else NatToDecimal(n / 10) + [DigitChar(n % 10)]
  }

  /** Reading the decimal form back gives the number again. */
  lemma {:induction false} DecimalRoundTrip(n: nat)
    ensures DecimalValue(NatToDecimal(n)) == n
    decreases n
  {
    if n >= 10 {
      var r := NatToDecimal(n);
      assert r[..|r| - 1] == NatToDecimal(n / 10);
      DecimalRoundTrip(n / 10);
    }
  }

  /** `String(n)` for a safe integer `n`. */
  function IntToDecimal(n: SafeInteger): (r: string)
    ensures |r| >= 1
    ensures r[0] == '-' <==> n < 0
    ensures n < 0 ==> r[1..] == NatToDecimal(-n)
    ensures n >= 0 ==> r == NatToDecimal(n)
  {
    if n < 0 then "-" + NatToDecimal(-n) else NatToDecimal(n)
  }

  /** Two integers with the same decimal form are equal. */
  lemma DecimalInjective(m: SafeInteger, n: SafeInteger)
    requires IntToDecimal(m) == IntToDecimal(n)
    ensures m == n
  {
    if m < 0 {
      DecimalRoundTrip(-m);
      DecimalRoundTrip(-n);
    } else {
      DecimalRoundTrip(m);
      DecimalRoundTrip(n);
    }
  }

  /** The characters matched by `\s` in an ECMAScript regular expression:
      the WhiteSpace and LineTerminator code points. */
  predicate IsSpace(c: char) {
    || c == '\t' || c == '\n' || c == '\U{000B}' || c == '\U{000C}' || c == '\r'
    || c == ' ' || c == '\U{00A0}' || c == '\U{1680}'
    || ('\U{2000}' <= c <= '\U{200A}')
    || c == '\U{2028}' || c == '\U{2029}' || c == '\U{202F}' || c == '\U{205F}'
    || c == '\U{3000}' || c == '\U{FEFF}'
  }
}
