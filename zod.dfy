/**
 * The pieces of the zod schema language that the validators use, over
 * JavaScript values: object fields, optional fields, string lengths,
 * numbers with and without coercion, and the fixed-shape patterns. Lengths
 * are counted in characters of `string`.
 */
module Zod {
  import opened Wrappers
  import opened JsValue

  /** Field `k` of the input; a non-object input has no fields. */
  function Field(v: Value, k: string): (r: Value)
    ensures !v.Obj? ==> r == Undefined
  {
    if v.Obj? then Get(v.fields, k) else Undefined
  }

  /** Where an integer check takes its number from. */
  datatype NumberSource =
    | Plain    // `z.number()`: only a number is accepted
    | Coerced  // `z.coerce.number()`: `Number(v)` of any value
    | FromText // `z.string().transform(Number).pipe(z.number())`: a string, read by `Number`

  /** The check one field of an object schema makes. */
  datatype Check =
    | Text(min: nat, max: Option<nat>)                         // `z.string().min(min).max(max)`
    | TimeText                                                 // `z.string().regex(YYYY-MM-DD HH:mm:ss)`
    | PhoneText                                                // `z.string().regex(/^1[3-9]\d{9}$/)`
    | EmailText                                                // `z.string().email()`
    | Int(source: NumberSource, lo: Option<int>, hi: Option<int>) // `.int().min(lo).max(hi)`
    | IntIn(source: NumberSource, values: set<int>)            // `.int().refine(v => values.includes(v))`
    | Optional(inner: Check)                                   // `.optional()`

  /** The number a check sees; `None` where it sees no number (or NaN). */
  function NumberFrom(source: NumberSource, v: Value): (r: Option<real>)
    ensures source == Coerced ==> r == ToNumber(v)
  {
    match source
    case Plain => if v.Num? then Some(v.x) else None
    case Coerced => ToNumber(v)
    case FromText =>
      if v.Str? then (match NumberOfString(v.s) case Some(n) => Some(n as real) case None => None) else None
  }

  predicate Within(x: real, lo: Option<int>, hi: Option<int>) {
    (lo.None? || x >= lo.value as real) && (hi.None? || x <= hi.value as real)
  }

  /**
   * The value `v` passes check `c`. `isEmail` is the address test of
   * `.email()`; `.optional()` accepts `undefined` only, not `null`.
   */
  predicate Passes(c: Check, v: Value, isEmail: string -> bool) {
    match c
    case Text(min, max) => v.Str? && min <= |v.s| && (max.None? || |v.s| <= max.value)
    case TimeText => v.Str? && TimeShaped(v.s)
    case PhoneText => v.Str? && PhoneShaped(v.s)
    case EmailText => v.Str? && isEmail(v.s)
    case Int(source, lo, hi) =>
      var n := NumberFrom(source, v);
      n.Some? && IsInteger(n.value) && Within(n.value, lo, hi)
    case IntIn(source, values) =>
      var n := NumberFrom(source, v);
      n.Some? && IsInteger(n.value) && n.value.Floor in values
    case Optional(inner) => v == Undefined || Passes(inner, v, isEmail)
  }

  /** The address test for schemas without an e-mail field, where it is never consulted. */
  function NoEmail(): string -> bool {
    _ => false
  }

  /** An object schema: the check of each key of its shape. Keys outside the shape are stripped, not checked. */
  type Shape = map<string, Check>

  /** `z.object(shape)` accepts `v`. */
  predicate Accepts(shape: Shape, v: Value, isEmail: string -> bool) {
    v.Obj? && forall k :: k in shape ==> Passes(shape[k], Field(v, k), isEmail)
  }

  /** `.partial()`: every check of the shape made optional. */
  function Partial(shape: Shape): (r: Shape)
    ensures r.Keys == shape.Keys
    ensures forall k :: k in r ==> r[k] == Optional(shape[k])
  {
    map k | k in shape :: Optional(shape[k])
  }

  /** A partial schema accepts the empty object. */
  lemma PartialAcceptsEmpty(shape: Shape, isEmail: string -> bool)
    ensures Accepts(Partial(shape), Obj(map[]), isEmail)
  {
  }

  /** What a schema accepts, its partial form accepts too. */
  lemma PartialAcceptsMore(shape: Shape, v: Value, isEmail: string -> bool)
    requires Accepts(shape, v, isEmail)
    ensures Accepts(Partial(shape), v, isEmail)
  {
  }

  /**
   * `c1` is at least as strict as `c2`, judged from their parameters: a
   * narrower length range, a narrower integer range from the same source,
   * or `c2` the optional form of such a check.
   */
  predicate Stricter(c1: Check, c2: Check) {
    c1 == c2 ||
    (c2.Optional? && (c1 == c2.inner || Stricter(c1, c2.inner))) ||
    (c1.Text? && c2.Text? && c2.min <= c1.min &&
      (c2.max.None? || (c1.max.Some? && c1.max.value <= c2.max.value))) ||
    (c1.Int? && c2.Int? && c1.source == c2.source &&
      (c2.lo.None? || (c1.lo.Some? && c1.lo.value >= c2.lo.value)) &&
      (c2.hi.None? || (c1.hi.Some? && c1.hi.value <= c2.hi.value))) ||
    (c1.IntIn? && c2.IntIn? && c1.source == c2.source && c1.values <= c2.values)
  }

  /** Whatever passes a stricter check passes the looser one. */
  lemma {:induction false} StricterPasses(c1: Check, c2: Check, v: Value, isEmail: string -> bool)
    requires Stricter(c1, c2) && Passes(c1, v, isEmail)
    ensures Passes(c2, v, isEmail)
  {
    if c1 != c2 && c2.Optional? && c1 != c2.inner && Stricter(c1, c2.inner) {
      StricterPasses(c1, c2.inner, v, isEmail);
    }
  }

  /** Every key of `s2` is in `s1`, and checked there at least as strictly. */
  predicate KeywiseStricter(s1: Shape, s2: Shape) {
    forall k :: k in s2 ==> k in s1 && Stricter(s1[k], s2[k])
  }

  /** Binding one more key, to a stricter check on the left, keeps one schema key by key at least as strict as another. */
  lemma StricterExtend(s1: Shape, s2: Shape, key: string, c1: Check, c2: Check)
    requires KeywiseStricter(s1, s2)
    requires Stricter(c1, c2)
    ensures KeywiseStricter(s1[key := c1], s2[key := c2])
  {
  }

  /** A schema whose every key is checked at least as strictly by another schema accepts all that the other accepts. */
  lemma StricterAccepts(s1: Shape, s2: Shape, v: Value, isEmail: string -> bool)
    requires forall k :: k in s2 ==> k in s1 && Stricter(s1[k], s2[k])
    requires Accepts(s1, v, isEmail)
    ensures Accepts(s2, v, isEmail)
  {
    forall k | k in s2 ensures Passes(s2[k], Field(v, k), isEmail) {
      StricterPasses(s1[k], s2[k], Field(v, k), isEmail);
    }
  }

  /** Replacing one field by a value that passes the same checks there changes no verdict. */
  lemma AcceptsReplace(shape: Shape, m: map<string, Value>, k: string, a: Value, b: Value, isEmail: string -> bool)
    requires k in shape ==> Passes(shape[k], a, isEmail) == Passes(shape[k], b, isEmail)
    ensures Accepts(shape, Obj(m[k := a]), isEmail) == Accepts(shape, Obj(m[k := b]), isEmail)
  {
    var va, vb := Obj(m[k := a]), Obj(m[k := b]);
    assert forall f :: f != k ==> Field(va, f) == Field(vb, f);
  }

  /**
   * A coercing check reads the decimal text of a number as that number; a
   * check on text reads it the same way but refuses the number itself.
   */
  lemma CoercedDecimal(c: Check, n: nat, isEmail: string -> bool)
    requires c.Int? || c.IntIn?
    requires c.source == Coerced || c.source == FromText
    ensures Passes(c, Str(DecimalString(n)), isEmail) == Passes(c.(source := Coerced), Num(n as real), isEmail)
    ensures c.source == FromText ==> !Passes(c, Num(n as real), isEmail)
  {
    NumberOfDecimalString(n);
  }

  /**
   * Setting an optional field: the object is accepted exactly when the new
   * value passes that field's check and the object without the field is accepted.
   */
  lemma AcceptsOptionalField(shape: Shape, m: map<string, Value>, key: string, a: Value, isEmail: string -> bool)
    requires key in shape && shape[key].Optional? && a != Undefined
    ensures Accepts(shape, Obj(m[key := a]), isEmail) <==>
      Passes(shape[key].inner, a, isEmail) && Accepts(shape, Obj(m - {key}), isEmail)
  {
    var va, vr := Obj(m[key := a]), Obj(m - {key});
    assert Field(va, key) == a && Field(vr, key) == Undefined;
    assert forall k :: k != key ==> Field(va, k) == Field(vr, k);
  }

  /** One field that fails its check is enough for the schema to refuse the object. */
  lemma RejectedByField(shape: Shape, v: Value, key: string, isEmail: string -> bool)
    requires key in shape && !Passes(shape[key], Field(v, key), isEmail)
    ensures !Accepts(shape, v, isEmail)
  {
  }

  /** An object with the single field `key` passes a schema whose other keys are all optional, once that field passes. */
  lemma AcceptsSingleField(shape: Shape, key: string, v: Value, isEmail: string -> bool)
    requires forall k :: k in shape ==> k == key || shape[k].Optional?
    requires key in shape ==> Passes(shape[key], v, isEmail)
    ensures Accepts(shape, Obj(map[key := v]), isEmail)
  {
    forall k | k in shape
      ensures Passes(shape[k], Field(Obj(map[key := v]), k), isEmail)
    {
      if k != key {
        assert Field(Obj(map[key := v]), k) == Undefined;
      }
    }
  }

  /** A check that reads its value through `Number(v)`: a coerced integer check, or the optional form of one. */
  predicate CoercesNumber(c: Check) {
    ((c.Int? || c.IntIn?) && c.source == Coerced) ||
    (c.Optional? && (c.inner.Int? || c.inner.IntIn?) && c.inner.source == Coerced)
  }

  /** A schema whose field `k` coerces accepts the decimal text of a number there exactly where it accepts the number. */
  lemma CoercedFieldDecimal(shape: Shape, m: map<string, Value>, k: string, n: nat, isEmail: string -> bool)
    requires k in shape && CoercesNumber(shape[k])
    ensures Accepts(shape, Obj(m[k := Str(DecimalString(n))]), isEmail) == Accepts(shape, Obj(m[k := Num(n as real)]), isEmail)
  {
    var c := if shape[k].Optional? then shape[k].inner else shape[k];
    CoercedDecimal(c, n, isEmail);
    AcceptsReplace(shape, m, k, Str(DecimalString(n)), Num(n as real), isEmail);
  }

  /** `/^\d{4}-\d{2}-\d{2} \d{2}:\d{2}:\d{2}$/`: ASCII digits in the layout `YYYY-MM-DD HH:mm:ss`, nothing around it. */
  predicate TimeShaped(s: string) {
    |s| == 19 &&
    forall i :: 0 <= i < 19 ==>
      if i == 4 || i == 7 then s[i] == '-'
      else if i == 10 then s[i] == ' '
      else if i == 13 || i == 16 then s[i] == ':'
      else IsDigit(s[i])
  }

  /** The fourteen digits of a time, in order. */
  function TimeDigits(s: string): (ds: string)
    requires |s| == 19
    ensures |ds| == 14
  {
    s[0..4] + s[5..7] + s[8..10] + s[11..13] + s[14..16] + s[17..19]
  }

  /** Fourteen digits written into the layout `YYYY-MM-DD HH:mm:ss`. */
  function FillTime(ds: string): (s: string)
    requires |ds| == 14
    ensures |s| == 19
  {
    ds[0..4] + "-" + ds[4..6] + "-" + ds[6..8] + " " + ds[8..10] + ":" + ds[10..12] + ":" + ds[12..14]
  }

  /** Any fourteen digits make an accepted time (there is no calendar or range check), and they are read back. */
  lemma FillTimeShaped(ds: string)
    requires |ds| == 14 && AllDigits(ds)
    ensures TimeShaped(FillTime(ds))
    ensures TimeDigits(FillTime(ds)) == ds
  {
    var s := FillTime(ds);
    forall i | 0 <= i < 19
      ensures if i == 4 || i == 7 then s[i] == '-'
        else if i == 10 then s[i] == ' '
        else if i == 13 || i == 16 then s[i] == ':'
        else IsDigit(s[i])
    {
      if i < 4 { assert s[i] == ds[i]; }
      else if 4 < i < 7 { assert s[i] == ds[i - 1]; }
      else if 7 < i < 10 { assert s[i] == ds[i - 2]; }
      else if 10 < i < 13 { assert s[i] == ds[i - 3]; }
      else if 13 < i < 16 { assert s[i] == ds[i - 4]; }
      else if 16 < i { assert s[i] == ds[i - 5]; }
    }
    var back := TimeDigits(s);
    forall j | 0 <= j < 14 ensures back[j] == ds[j] {
      if j < 4 { assert back[j] == s[j]; }
      else if j < 6 { assert back[j] == s[j + 1]; }
      else if j < 8 { assert back[j] == s[j + 2]; }
      else if j < 10 { assert back[j] == s[j + 3]; }
      else if j < 12 { assert back[j] == s[j + 4]; }
      else { assert back[j] == s[j + 5]; }
    }
  }

  /** Every accepted time is its own digits written into the layout. */
  lemma TimeShapedIsFilled(s: string)
    requires TimeShaped(s)
    ensures AllDigits(TimeDigits(s))
    ensures FillTime(TimeDigits(s)) == s
  {
    var ds := TimeDigits(s);
    forall j | 0 <= j < 14 ensures IsDigit(ds[j]) {
      if j < 4 { assert ds[j] == s[j]; }
      else if j < 6 { assert ds[j] == s[j + 1]; }
      else if j < 8 { assert ds[j] == s[j + 2]; }
      else if j < 10 { assert ds[j] == s[j + 3]; }
      else if j < 12 { assert ds[j] == s[j + 4]; }
      else { assert ds[j] == s[j + 5]; }
    }
    var t := FillTime(ds);
    forall i | 0 <= i < 19 ensures t[i] == s[i] {
      if i < 4 { assert t[i] == ds[i]; }
      else if 4 < i < 7 { assert t[i] == ds[i - 1]; }
      else if 7 < i < 10 { assert t[i] == ds[i - 2]; }
      else if 10 < i < 13 { assert t[i] == ds[i - 3]; }
      else if 13 < i < 16 { assert t[i] == ds[i - 4]; }
      else if 16 < i { assert t[i] == ds[i - 5]; }
    }
  }

  /** `/^1[3-9]\d{9}$/`: eleven ASCII digits, the first `1`, the second 3 to 9. */
  predicate PhoneShaped(s: string) {
    |s| == 11 && s[0] == '1' && '3' <= s[1] <= '9' && forall i :: 2 <= i < 11 ==> IsDigit(s[i])
  }
}
