/**
 * JSON values as the browser hands them to the page after `res.json()`
 * (JSON.parse), and the two JavaScript primitives the answer renderer
 * branches on: ToBoolean (section 7.1.2 of ECMA-262) and the `typeof`
 * operator (section 13.5.3 of ECMA-262, 2022 edition).
 */
module JsValue {

  datatype Option<+T> = None | Some(value: T)

  /** The TypeErrors the renderer can raise. */
  datatype TypeError =
    | CannotConvertNullToObject   // Object.keys / Object.values applied to null
    | CannotConvertToPrimitive    // String(obj) when obj's own "toString" is not a function

  /** A completion that either yields a value or throws a TypeError. */
  datatype Result<+T> = Ok(value: T) | Throw(error: TypeError)

  /** A decoded JSON value. Object members are kept exactly as they appear in
      the response text, in order and with repeated names; js_object.dfy turns
      them into the object's own properties. Numbers are the finite values the
      decoder produced. */
  datatype Json =
    | JNull
    | JBool(b: bool)
    | JNum(n: real)
    | JStr(s: string)
    | JArr(elems: seq<Json>)
    | JObj(members: seq<(string, Json)>)

  /** ToBoolean: null, false, +0/-0 and the empty string are falsy; every
      other value, every array and every object included, is truthy. */
  predicate Truthy(v: Json)
  {
    match v
    case JNull => false
    case JBool(b) => b
    case JNum(n) => n != 0.0
    case JStr(s) => s != ""
    case JArr(_) => true
    case JObj(_) => true
  }

  /** `!!x` for a property that may be missing: `undefined` (None) is falsy. */
  predicate PresentAndTruthy(a: Option<Json>)
  {
    a.Some? && Truthy(a.value)
  }

  /** A value is falsy exactly when it is one of the five falsy JSON values. */
  lemma FalsyValues(a: Option<Json>)
    ensures !PresentAndTruthy(a) <==>
      a in {None, Some(JNull), Some(JBool(false)), Some(JNum(0.0)), Some(JStr(""))}
  {
  }

  /** The `typeof` operator on a decoded value: null and arrays report
      "object", as plain objects do. */
  function TypeOf(v: Json): (t: string)
    ensures t == "object" <==> v.JNull? || v.JArr? || v.JObj?
  {
    match v
    case JNull => "object"
    case JBool(_) => "boolean"
    case JNum(_) => "number"
    case JStr(_) => "string"
    case JArr(_) => "object"
    case JObj(_) => "object"
  }
}
