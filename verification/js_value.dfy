/**
 * The JavaScript values the core inspects: what `JSON.parse` can produce, plus
 * `undefined` for absent properties. Numbers are integral.
 */
module JsValue {
  import opened Wrappers
  import opened JsNumber

  datatype Value =
    | Undefined
    | Null
    | Bool(b: bool)
    | Num(n: int)
    | Str(s: string)
    | Arr(items: seq<Value>)
    | Obj(props: map<string, Value>)

  /** What a `throw` in the core carries; `message` is the error's own text. */
  datatype JsError = TypeError(message: string)

  /** `String(err)` for a thrown error. */
  function ErrorString(e: JsError): string {
    "TypeError: " + e.message
  }

  /** The `typeof` operator; note that `typeof null` is "object". */
  function TypeOf(v: Value): string {
    match v
    case Undefined => "undefined"
    case Null => "object"
    case Bool(_) => "boolean"
    case Num(_) => "number"
    case Str(_) => "string"
    case Arr(_) => "object"
    case Obj(_) => "object"
  }

  /**
   * The property read `v[key]` for the property names the core reads ("type",
   * "data", "username", "settings"): own properties of plain objects. Arrays,
   * strings, booleans and numbers carry no property of those names; reading any
   * property of `null` or `undefined` throws.
   */
  function Get(v: Value, key: string): Result<Value, JsError> {
    match v
    case Undefined => Err(TypeError("Cannot read properties of undefined (reading '" + key + "')"))
    case Null => Err(TypeError("Cannot read properties of null (reading '" + key + "')"))
    case Obj(props) => Ok(if key in props then props[key] else Undefined)
    case _ => Ok(Undefined)
  }

  /** `null` or `undefined`: the values whose property reads throw. */
  predicate Nullish(v: Value) {
    v.Undefined? || v.Null?
  }

  /** ToBoolean, the test `&&`, `?:` and `if` apply. */
  predicate Truthy(v: Value) {
    match v
    case Undefined => false
    case Null => false
    case Bool(b) => b
    case Num(n) => n != 0
    case Str(s) => |s| > 0
    case _ => true
  }

  /**
   * `a === b` on primitives. Objects and arrays are compared by identity in
   * JavaScript, which values here do not carry; they are never equal.
   */
  predicate StrictEquals(a: Value, b: Value) {
    a == b && !a.Obj? && !a.Arr?
  }

  /** `Object.keys(v).length`; throws for `null` and `undefined`. */
  function KeyCount(v: Value): Result<nat, JsError> {
    match v
    case Undefined => Result<nat, JsError>.Err(TypeError("Cannot convert undefined or null to object"))
    case Null => Result<nat, JsError>.Err(TypeError("Cannot convert undefined or null to object"))
    case Obj(props) => Ok(|props|)
    case Arr(items) => Ok(|items|)
    case Str(s) => Ok(|s|)
    case _ => Ok(0)
  }

  /** The index-keyed properties `0 .. n-1` of an array or string. */
  function IndexProps(items: seq<Value>, n: nat): map<string, Value>
    requires n <= |items|
  {
    if n == 0 then map[] else IndexProps(items, n - 1)[NatToDecimal(n - 1) := items[n - 1]]
  }

  /** The own enumerable properties the spread `{...v}` copies. */
  function Spread(v: Value): map<string, Value> {
    match v
    case Obj(props) => props
    case Arr(items) => IndexProps(items, |items|)
    case Str(s) => IndexProps(seq(|s|, i requires 0 <= i < |s| => Str([s[i]])), |s|)
    case _ => map[]
  }

  /** `String(v)`, the conversion `parseInt` applies to its argument. */
  function ToJsString(v: Value): string
    decreases v, 1
  {
    match v
    case Undefined => "undefined"
    case Null => "null"
    case Bool(b) => if b then "true" else "false"
    case Num(n) => IntToDecimal(n)
    case Str(s) => s
    case Arr(items) => JoinElements(items)
    case Obj(_) => "[object Object]"
  }

  /** `Array.prototype.join(",")`: `null` and `undefined` elements print as "". */
  function JoinElements(items: seq<Value>): string
    decreases items, 0
  {
    if |items| == 0 then ""
    else
      var head := if items[0].Undefined? || items[0].Null? then "" else ToJsString(items[0]);
      if |items| == 1 then head else head + "," + JoinElements(items[1..])
  }
}
