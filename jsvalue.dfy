/**
 * The JavaScript values that reach the modelled code: parsed JSON bodies,
 * query-string values and `undefined`. Numbers are reals, so a fractional
 * number is representable; NaN and the infinities are not values here.
 */
module JsValue {
  import opened Wrappers

  datatype Value =
    | Undefined
    | Null
    | Bool(b: bool)
    | Num(x: real)
    | Str(s: string)
    | Obj(fields: map<string, Value>)

  /** ToBoolean: the values that `if (v)` and `v || d` treat as true. */
  predicate Truthy(v: Value) {
    match v
    case Undefined => false
    case Null => false
    case Bool(b) => b
    case Num(x) => x != 0.0
    case Str(s) => s != ""
    case Obj(_) => true
  }

  /** Property read `o.k`; a key the object lacks reads as `undefined`. */
  function Get(o: map<string, Value>, k: string): (v: Value)
    ensures k !in o ==> v == Undefined
    ensures k in o ==> v == o[k]
  {
    if k in o then o[k] else Undefined
  }

  /** Property read `v.k` on any value: `None` where JavaScript throws a TypeError (null, undefined). */
  function Member(v: Value, k: string): (r: Option<Value>)
    ensures r.None? <==> v.Undefined? || v.Null?
  {
    match v
    case Undefined => None
    case Null => None
    case Obj(m) => Some(Get(m, k))
    case _ => Some(Undefined)
  }

  /** `Number.isInteger` on a finite number. */
  predicate IsInteger(x: real) {
    x.Floor as real == x
  }

  predicate IsDigit(c: char) {
    '0' <= c <= '9'
  }

  predicate AllDigits(s: string) {
    forall i :: 0 <= i < |s| ==> IsDigit(s[i])
  }

  /** The decimal value of a run of ASCII digits, most significant first. */
  function DigitsValue(s: string): nat
    requires AllDigits(s)
  {
    if s == [] then 0 else 10 * DigitsValue(s[..|s| - 1]) + (s[|s| - 1] as int - '0' as int)
  }

  /** An optional `+` or `-` followed by at least one ASCII digit. */
  predicate IsSignedInteger(s: string) {
    |s| >= 2 && (s[0] == '-' || s[0] == '+') && AllDigits(s[1..])
  }

  /**
   * `Number(s)` for the strings this model covers: the empty string is 0, a
   * run of ASCII digits is its decimal value, and a sign followed by digits
   * is the signed value. Every other string (surrounding white space, a
   * fraction, an exponent, hexadecimal) is taken to be NaN (`None`).
   */
  function NumberOfString(s: string): (r: Option<int>)
    ensures r.Some? <==> AllDigits(s) || IsSignedInteger(s)
    ensures s == "" ==> r == Some(0)
    ensures AllDigits(s) ==> r == Some(DigitsValue(s))
    ensures IsSignedInteger(s) && s[0] == '-' ==> r == Some(0 - DigitsValue(s[1..]))
  {
    if AllDigits(s) then Some(DigitsValue(s))
    else if IsSignedInteger(s) then
      Some(if s[0] == '-' then 0 - DigitsValue(s[1..]) else DigitsValue(s[1..]) as int)
    else None
  }

  /** `Number(v)`, as `z.coerce.number()` applies it; `None` stands for NaN. */
  function ToNumber(v: Value): (r: Option<real>)
    ensures v.Num? ==> r == Some(v.x)
    ensures v.Undefined? || v.Obj? ==> r.None?
  {
    match v
    case Undefined => None
    case Null => Some(0.0)
    case Bool(b) => Some(if b then 1.0 else 0.0)
    case Num(x) => Some(x)
    case Str(s) => (match NumberOfString(s) case Some(n) => Some(n as real) case None => None)
    case Obj(_) => None
  }

  /** The abstract relational comparison `v < n` of JavaScript, for a number `n`. */
  predicate LessThan(v: Value, n: int) {
    match v
    case Undefined => false
    case Obj(_) => false
    case _ => (match ToNumber(v) case Some(x) => x < n as real case None => false)
  }

  /** The decimal text of a natural number (what `String(n)` prints). */
  function DecimalString(n: nat): (s: string)
    ensures |s| >= 1 && AllDigits(s)
  {
    if n < 10 then ['0' + n as char] else DecimalString(n / 10) + ['0' + (n % 10) as char]
  }

  /** Printing a number in decimal and reading it back with `Number` gives the number. */
  lemma {:induction false} NumberOfDecimalString(n: nat)
    ensures NumberOfString(DecimalString(n)) == Some(n)
  {
    if n >= 10 {
      var s := DecimalString(n);
      NumberOfDecimalString(n / 10);
      assert s[..|s| - 1] == DecimalString(n / 10);
      assert DigitsValue(s) == 10 * (n / 10) + n % 10;
    }
  }
}
