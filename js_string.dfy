/**
 * `String(v)` on a decoded JSON value (ToString, section 7.1.17 of ECMA-262):
 * primitives convert directly; an array converts through
 * Array.prototype.toString, which joins its elements with "," and shows null
 * elements as ""; a plain object converts through ToPrimitive, which finds
 * Object.prototype.toString and yields "[object Object]" unless the object
 * has an own property named "toString". Such a property cannot hold a
 * function in decoded JSON, so ToPrimitive then falls through to valueOf,
 * which returns the object itself, and the conversion throws a TypeError.
 */
module JsString {
  import opened JsValue
  import opened JsObject

  /** `String(n)` for a number: double-precision formatting, left abstract. */
  type NumberFormat = real -> string

  function ToStr(v: Json, fmt: NumberFormat): (r: Result<string>)
    ensures v.JStr? ==> r == Ok(v.s)
    ensures r.Throw? ==> r.error == CannotConvertToPrimitive
    decreases v, 0
  {
    match v
    case JNull => Ok("null")
    case JBool(b) => Ok(if b then "true" else "false")
    case JNum(n) => Ok(fmt(n))
    case JStr(s) => Ok(s)
    case JArr(es) => Join(es, fmt)
    case JObj(ms) => if "toString" in KeysOf(ms) then Throw(CannotConvertToPrimitive) else Ok("[object Object]")
  }

  /** The text an array element contributes to Array.prototype.join. */
  function ElementText(e: Json, fmt: NumberFormat): (r: Result<string>)
    ensures r.Throw? ==> r.error == CannotConvertToPrimitive
    decreases e, 1
  {
    if e.JNull? then Ok("") else ToStr(e, fmt)
  }

  /** Array.prototype.join(",") over the elements, converting them in order
      and stopping at the first that throws. */
  function Join(es: seq<Json>, fmt: NumberFormat): (r: Result<string>)
    ensures r.Throw? ==> r.error == CannotConvertToPrimitive
    decreases es
  {
    if es == [] then Ok("")
    else
      match ElementText(es[0], fmt)
      case Throw(e) => Throw(e)
      case Ok(s) =>
        if |es| == 1 then Ok(s)
        else
          match Join(es[1..], fmt)
          case Throw(e) => Throw(e)
          case Ok(t) => Ok(s + "," + t)
  }

  /** A value whose conversion reaches an object with an own "toString":
      the object itself, or one nested anywhere inside an array. */
  predicate HidesToString(v: Json)
    decreases v
  {
    match v
    case JObj(ms) => "toString" in KeysOf(ms)
    case JArr(es) => exists i | 0 <= i < |es| :: HidesToString(es[i])
    case _ => false
  }

  /** String(v) throws exactly when v is, or contains inside arrays, an
      object with an own "toString" property. */
  lemma {:induction false} ToStrThrowsIff(v: Json, fmt: NumberFormat)
    ensures ToStr(v, fmt).Throw? <==> HidesToString(v)
    decreases v, 1
  {
    if v.JArr? {
      JoinThrowsIff(v.elems, fmt);
    }
  }

  lemma {:induction false} JoinThrowsIff(es: seq<Json>, fmt: NumberFormat)
    ensures Join(es, fmt).Throw? <==> exists i | 0 <= i < |es| :: HidesToString(es[i])
    decreases es
  {
    if es != [] {
      ToStrThrowsIff(es[0], fmt);
      JoinThrowsIff(es[1..], fmt);
      assert forall i | 1 <= i < |es| :: es[i] == es[1..][i - 1];
    }
  }

  /** An array of strings converts to its elements separated by commas; the
      empty array converts to "". */
  lemma {:induction false} JoinStrings(es: seq<Json>, fmt: NumberFormat, parts: seq<string>)
    requires |es| == |parts|
    requires forall i | 0 <= i < |es| :: es[i] == JStr(parts[i])
    ensures ToStr(JArr(es), fmt) == Ok(CommaJoined(parts))
    decreases es
  {
    if es != [] {
      assert ElementText(es[0], fmt) == Ok(parts[0]);
      if |es| > 1 {
        JoinStrings(es[1..], fmt, parts[1..]);
        assert ToStr(JArr(es[1..]), fmt) == Join(es[1..], fmt);
      }
    }
  }

  /** Join puts the elements' texts between commas: a null element
      contributes "", any other element its String. */
  lemma {:induction false} JoinTexts(es: seq<Json>, fmt: NumberFormat, texts: seq<string>)
    requires |es| == |texts|
    requires forall i | 0 <= i < |es| :: ElementText(es[i], fmt) == Ok(texts[i])
    ensures Join(es, fmt) == Ok(CommaJoined(texts))
    decreases es
  {
    if |es| > 1 {
      JoinTexts(es[1..], fmt, texts[1..]);
    }
  }

  /** A null inside an array shows as nothing between its commas. */
  lemma ExampleNullElement(fmt: NumberFormat)
    ensures ToStr(JArr([JNull, JNum(2.0)]), fmt) == Ok("," + fmt(2.0))
  {
    var texts := ["", fmt(2.0)];
    JoinTexts([JNull, JNum(2.0)], fmt, texts);
    assert CommaJoined(texts) == "" + "," + CommaJoined(texts[1..]);
    assert texts[1..] == [fmt(2.0)];
    assert "" + "," + fmt(2.0) == "," + fmt(2.0);
  }

  /** The parts separated by ","; no parts give "". */
  function CommaJoined(parts: seq<string>): string
  {
    if parts == [] then ""
    else if |parts| == 1 then parts[0]
    else parts[0] + "," + CommaJoined(parts[1..])
  }
}
