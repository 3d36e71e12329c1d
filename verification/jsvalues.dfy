/** The JavaScript values the handlers touch: parsed JSON, the truthiness and
    nullishness tests of the validation guard, and the `Number(...)` and
    `String(...)` conversions used for totals and message text. */
module JsValues {
  import opened Wrappers
  import opened JsText
  import Locale

  /** A value `JSON.parse` can return. Numbers are restricted to naturals. */
  datatype Json =
    | JNull
    | JBool(b: bool)
    | JNum(n: nat)
    | JStr(s: string)
    | JArr(elems: seq<Json>)
    | JObj(fields: map<string, Json>)

  /** Property read `v.key` on a non-null value: an object's own field; every
      other JSON value has none of the field names the handlers read, so the
      read yields `undefined` (None). Reading from `null` throws instead, so
      callers rule it out first. */
  function Get(v: Json, key: string): (r: Option<Json>)
    requires v != JNull
    ensures r.Some? <==> v.JObj? && key in v.fields
    ensures r.Some? ==> r.value == v.fields[key]
  {
    if v.JObj? && key in v.fields then Some(v.fields[key]) else None
  }

  /** JavaScript truthiness of a property read (`undefined` is None). */
  predicate Truthy(o: Option<Json>) {
    match o
    case None => false
    case Some(JNull) => false
    case Some(JBool(b)) => b
    case Some(JNum(n)) => n != 0
    case Some(JStr(s)) => s != []
    case Some(_) => true
  }

  /** `x == null`: true of `undefined` and `null` only. */
  predicate Nullish(o: Option<Json>) {
    o == None || o == Some(JNull)
  }

  /** A JavaScript number within the model: a natural or NaN. */
  datatype Num = Fin(n: nat) | NaN

  /** `a + b`; NaN absorbs. */
  function Add(a: Num, b: Num): (r: Num)
    ensures r.Fin? <==> a.Fin? && b.Fin?
    ensures r.Fin? ==> r.n == a.n + b.n
  {
    if a.Fin? && b.Fin? then Fin(a.n + b.n) else NaN
  }

  /** `x <= 0`; every comparison with NaN is false. */
  predicate AtMostZero(x: Num) {
    x == Fin(0)
  }

  /** `String(v)`, which is also what a template literal interpolates. */
  function Text(v: Json): string
    decreases v
  {
    match v
    case JNull => "null"
    case JBool(b) => if b then "true" else "false"
    case JNum(n) => Locale.Digits(n)
    case JStr(s) => s
    case JArr(xs) =>
      Join(seq(|xs|, i requires 0 <= i < |xs| => if xs[i] == JNull then "" else Text(xs[i])), ",")
    case JObj(_) => "[object Object]"
  }

  /** `String(x)` of a property read, where `undefined` prints as "undefined". */
  function TextOf(o: Option<Json>): string {
    if o.None? then "undefined" else Text(o.value)
  }

  /** `Array.prototype.join`: the parts with `sep` between consecutive ones. */
  function Join(parts: seq<string>, sep: string): string {
    if parts == [] then ""
    else if |parts| == 1 then parts[0]
    else Join(parts[..|parts| - 1], sep) + sep + parts[|parts| - 1]
  }

  /** `Number(s)` for text: blank text is 0, a run of decimal digits is its value,
      and anything else is NaN within the model. */
  function StringToNumber(s: string): (r: Num)
    ensures r.Fin? ==> AllSpace(s) || Locale.AllDigits(Trim(s))
  {
    var t := Trim(s);
    if t == [] then Fin(0)
    else if Locale.AllDigits(t) then Fin(Locale.DecimalValue(t))
    else NaN
  }

  /** `Number(x)` of a property read. Objects and arrays convert through their
      text, as JavaScript's ToPrimitive does. */
  function ToNumber(o: Option<Json>): (r: Num)
    ensures o.None? ==> r == NaN
    ensures o.Some? && o.value.JNum? ==> r == Fin(o.value.n)
    ensures o.Some? && o.value.JStr? ==> r == StringToNumber(o.value.s)
    ensures o.Some? && o.value.JObj? ==> r == NaN
    ensures o == Some(JArr([])) ==> r == Fin(0)
  {
    match o
    case None => NaN
    case Some(JNull) => Fin(0)
    case Some(JBool(b)) => Fin(if b then 1 else 0)
    case Some(JNum(n)) => Fin(n)
    case Some(JObj(_)) =>
      ObjectTextNaN(o.value);
      StringToNumber(Text(o.value))
    case Some(v) => StringToNumber(Text(v))
  }

  /** "[object Object]" is not numeric text. */
  lemma ObjectTextNaN(v: Json)
    requires v.JObj?
    ensures StringToNumber(Text(v)) == NaN
  {
    var t := Text(v);
    assert Trimmed(t) by {
      assert !IsSpace(t[0]) && !IsSpace(t[|t| - 1]);
    }
    TrimPadded([], t, []);
    assert [] + t + [] == t;
    assert !Locale.IsDigit(Trim(t)[0]);
  }

  /** `x.toLocaleString('id-ID')`. */
  function Format(x: Num): (r: string)
    ensures x.Fin? ==> Locale.RemoveDots(r) == Locale.Digits(x.n) && Locale.GroupedShape(r)
  {
    if x.Fin? then Locale.Group(x.n) else "NaN"
  }

  /** A numeric string amount converts to the number it spells, and so does a
      one-element array holding a number, whose text is that number's digits. */
  lemma NumberOfNumericText(n: nat)
    ensures ToNumber(Some(JStr(Locale.Digits(n)))) == Fin(n)
    ensures ToNumber(Some(JArr([JNum(n)]))) == Fin(n)
  {
    DigitsToNumber(n);
    ArrayOfNumberText(n);
  }

  lemma DigitsToNumber(n: nat)
    ensures StringToNumber(Locale.Digits(n)) == Fin(n)
  {
    DigitsUntrimmed(n);
    Locale.DigitsRoundTrip(n);
  }

  lemma DigitsUntrimmed(n: nat)
    ensures Trim(Locale.Digits(n)) == Locale.Digits(n)
  {
    var d := Locale.Digits(n);
    assert Trimmed(d) by {
      assert !IsSpace(d[0]) && !IsSpace(d[|d| - 1]);
    }
    TrimPadded([], d, []);
    assert [] + d + [] == d;
  }

  lemma ArrayOfNumberText(n: nat)
    ensures Text(JArr([JNum(n)])) == Locale.Digits(n)
  {
    var parts := seq(1, i requires 0 <= i < 1 => if [JNum(n)][i] == JNull then "" else Text([JNum(n)][i]));
    assert parts == [Locale.Digits(n)];
  }
}
