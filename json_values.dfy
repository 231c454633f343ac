/** The values `JSON.parse` produces, and the few JavaScript coercions the services apply to them. */
module JsonValues {
  import opened Wrappers
  import JsText

  /**
   * A parsed JSON value. Numbers are integers here: every identifier and
   * count the services read is one.
   */
  datatype Json =
    | JNull
    | JBool(b: bool)
    | JNumber(n: int)
    | JString(s: string)
    | JArray(elems: seq<Json>)
    | JObject(fields: map<string, Json>)

  /** JavaScript's ToBoolean is false for `null`, `false`, `0` and `""` (objects and arrays are truthy). */
  predicate Falsy(v: Json) {
    v == JNull || v == JBool(false) || v == JNumber(0) || v == JString("")
  }

  /** `typeof v[key] === 'number'`. */
  predicate HasNumber(v: Json, key: string) {
    v.JObject? && key in v.fields && v.fields[key].JNumber?
  }

  /** `typeof v[key] === 'string'`. */
  predicate HasString(v: Json, key: string) {
    v.JObject? && key in v.fields && v.fields[key].JString?
  }

  /** The record's `id` field when it is a number; `None` where `record.id` would be `undefined` or not a number. */
  function IdKey(v: Json): (r: Option<int>)
    ensures r.Some? <==> HasNumber(v, "id")
  {
    if HasNumber(v, "id") then Some(v.fields["id"].n) else None
  }

  /**
   * Whether ToPrimitive throws a `TypeError` on the value. A parsed object
   * with its own `toString` key hides the inherited method behind a value
   * that cannot be called, and its inherited `valueOf` returns the object
   * itself, so no primitive is found; an array is joined, which converts every
   * element that is not `null`.
   */
  predicate ConversionThrows(v: Json)
    decreases v
  {
    match v
    case JObject(fields) => "toString" in fields
    case JArray(elems) => exists i :: 0 <= i < |elems| && ConversionThrows(elems[i])
    case _ => false
  }

  /** The message of that `TypeError` (as V8 words it). */
  const ConversionError := "Cannot convert object to primitive value"

  /**
   * `String(v)`: how JavaScript turns a value into text (for a regular
   * expression test or a `+`), where the conversion does not throw.
   */
  function ToJsString(v: Json): string
    decreases v
  {
    match v
    case JNull => "null"
    case JBool(b) => if b then "true" else "false"
    case JNumber(n) => JsText.IntToString(n)
    case JString(s) => s
    case JArray(elems) => JoinElements(elems)
    case JObject(_) => "[object Object]"
  }

  /** `Array.prototype.join(',')`, where `null` elements print as the empty string. */
  function JoinElements(elems: seq<Json>): string
    decreases elems
  {
    if elems == [] then ""
    else
      var head := if elems[0] == JNull then "" else ToJsString(elems[0]);
      if |elems| == 1 then head else head + "," + JoinElements(elems[1..])
  }

  /**
   * ECMA-262 ToNumber of a parsed value (what `-` and `<` apply), `None` for
   * `NaN`: `null` is 0, booleans are 0 and 1, and arrays and objects go
   * through their text, as ToPrimitive does. Meaningful where the conversion
   * does not throw.
   */
  function ToNumber(v: Json): Option<int> {
    match v
    case JNull => Some(0)
    case JBool(b) => Some(if b then 1 else 0)
    case JNumber(n) => Some(n)
    case JString(s) => JsText.StringToNumber(s)
    case _ => JsText.StringToNumber(ToJsString(v))
  }

  /**
   * The text of an integer, alone or as the single element of an array,
   * converts to that integer; an empty array converts to 0.
   */
  lemma ToNumberOfText(n: int)
    ensures ToNumber(JString(JsText.IntToString(n))) == Some(n)
    ensures ToNumber(JArray([JNumber(n)])) == Some(n)
    ensures ToNumber(JArray([])) == Some(0)
  {
    JsText.StringToNumberOfIntToString(n);
    assert ToJsString(JArray([JNumber(n)])) == JsText.IntToString(n) by {
      assert JoinElements([JNumber(n)]) == ToJsString(JNumber(n));
    }
    JsText.StringToNumberOfBlank("");
  }

  /**
   * An object without its own `toString` converts to `NaN`: its text is
   * `[object Object]`. One with its own `toString` does not convert at all.
   */
  lemma ObjectIsNaN(fields: map<string, Json>)
    ensures "toString" !in fields ==> ToNumber(JObject(fields)) == None
    ensures "toString" in fields <==> ConversionThrows(JObject(fields))
  {
    var t := "[object Object]";
    JsText.TrimUnpadded(t);
    assert JsText.DigitValue(t[0], 10).None?;
  }
}
