/** JavaScript values as the JSON bodies, payloads and error envelopes of the
    system carry them, with the handful of JavaScript operators the source
    applies to them: truthiness, `??`, `||`, optional chaining and `String(x)`. */
module Json {
  import opened Decimal

  /** A JSON-shaped JavaScript value. Numbers are integers here. */
  datatype JsValue =
    | Undefined
    | Null
    | Bool(b: bool)
    | Num(n: int)
    | Str(s: string)
    | Arr(items: seq<JsValue>)
    | Obj(props: map<string, JsValue>)

  /** `v == null` in JavaScript's loose sense: null or undefined. */
  predicate Nullish(v: JsValue) {
    v.Undefined? || v.Null?
  }

  /** The JavaScript truth value of `v` (`!!v`). */
  predicate Truthy(v: JsValue) {
    match v
    case Undefined => false
    case Null => false
    case Bool(b) => b
    case Num(n) => n != 0
    case Str(s) => s != ""
    case Arr(_) => true
    case Obj(_) => true
  }

  /** `typeof v === 'object'`, which also holds of null. */
  predicate TypeofObject(v: JsValue) {
    v.Null? || v.Arr? || v.Obj?
  }

  /** `a ?? b` */
  function Coalesce(a: JsValue, b: JsValue): JsValue {
    if Nullish(a) then b else a
  }

  /** `a || b` */
  function Or(a: JsValue, b: JsValue): JsValue {
    if Truthy(a) then a else b
  }

  /** `o.key` on an object; a missing key reads as undefined. */
  function Get(o: map<string, JsValue>, key: string): JsValue {
    if key in o then o[key] else Undefined
  }

  /** `v?.key`: undefined when `v` is nullish; keys this system reads do
      not exist on strings, numbers, booleans or arrays. */
  function OptGet(v: JsValue, key: string): JsValue {
    match v
    case Obj(o) => Get(o, key)
    case _ => Undefined
  }

  /** `v?.[i]` */
  function OptIndex(v: JsValue, i: nat): JsValue {
    match v
    case Arr(items) => if i < |items| then items[i] else Undefined
    case Str(s) => if i < |s| then Str([s[i]]) else Undefined
    case Obj(o) => Get(o, NatToDecimal(i))
    case _ => Undefined
  }

  function IntToString(n: int): string {
    if n < 0 then "-" + NatToDecimal(-n) else NatToDecimal(n)
  }

  function JoinWithCommas(parts: seq<string>): string {
    if parts == [] then ""
    else if |parts| == 1 then parts[0]
    else parts[0] + "," + JoinWithCommas(parts[1..])
  }

  /** `String(v)`: arrays join their elements with commas, printing null
      and undefined elements as empty text; plain objects print as
      `[object Object]`. */
  function ToStr(v: JsValue): string
    decreases v
  {
    match v
    case Undefined => "undefined"
    case Null => "null"
    case Bool(b) => if b then "true" else "false"
    case Num(n) => IntToString(n)
    case Str(s) => s
    case Arr(items) =>
      JoinWithCommas(seq(|items|, i requires 0 <= i < |items| =>
        if Nullish(items[i]) then "" else ToStr(items[i])))
    case Obj(_) => "[object Object]"
  }
}
