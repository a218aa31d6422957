/**
 * JavaScript values as they reach the sanitisation code: results of
 * `JSON.parse`, structured-cloned runtime messages, and query-string
 * parameters. Also the host operations the code calls but the model leaves
 * abstract.
 */
module Js {
  import opened Wrappers
  import opened JsNumber

  /**
   * A JavaScript value. Objects are plain data objects (as built by
   * `JSON.parse` or structured cloning): their own properties only, with the
   * ordinary prototype behind them. A property that is not present reads as
   * `undefined`.
   */
  datatype JValue =
    | JUndef
    | JNull
    | JBool(b: bool)
    | JNum(n: Num)
    | JStr(s: string)
    | JArr(elems: seq<JValue>)
    | JObj(props: map<string, JValue>)

  /** The part of a parsed URL (`new URL(href)`) that the core reads. */
  datatype Url = Url(
    /** `url.protocol`: the scheme, lower-cased, followed by `:` */
    protocol: string,
    /** `url.searchParams`: the decoded name/value pairs of the query, in order */
    searchParams: seq<(string, string)>)

  /**
   * The operations of the JavaScript host that the core calls but this model
   * does not define: each is a parameter of the functions that use it.
   */
  datatype Host = Host(
    /** `new URL(href)`: None when the constructor throws (the WHATWG URL parser) */
    parseUrl: string -> Option<Url>,
    /** `JSON.parse(text)`: None when it throws */
    parseJson: string -> Option<JValue>,
    /** StringToNumber for the strings `JsNumber.StringToNumber` does not decode itself */
    stringToNumber: string -> Num,
    /** Number::toString for the finite values `JsNumber.NumberToString` does not spell itself */
    numberToString: real -> string,
    /** `Array.prototype.toString` (element-wise join with commas): None when it throws */
    arrayToString: seq<JValue> -> Option<string>,
    /** the `NO_FAVICON` placeholder, defined outside the core */
    noFavicon: string,
    /** the `Messages.Restore` command tag, defined outside the core */
    restoreTag: string)

  /** `typeof v`. */
  function TypeOf(v: JValue): (r: string)
    ensures r == "object" <==> v.JNull? || v.JArr? || v.JObj?
    ensures r == "undefined" <==> v.JUndef?
    ensures r in {"undefined", "object", "boolean", "number", "string"}
  {
    match v
    case JUndef => "undefined"
    case JNull => "object"
    case JBool(_) => "boolean"
    case JNum(_) => "number"
    case JStr(_) => "string"
    case JArr(_) => "object"
    case JObj(_) => "object"
  }

  /** ToBoolean: what `if (v)`, `!v`, `&&` and `||` see. */
  predicate Truthy(v: JValue)
    ensures Truthy(v) ==> !Nullish(v)
    ensures v.JArr? || v.JObj? ==> Truthy(v)
    ensures v.JStr? ==> (Truthy(v) <==> v.s != "")
  {
    match v
    case JUndef => false
    case JNull => false
    case JBool(b) => b
    case JNum(n) => NumberToBoolean(n)
    case JStr(s) => s != ""
    case JArr(_) => true
    case JObj(_) => true
  }

  /** `null` or `undefined`: reading a property of one of these throws a TypeError. */
  predicate Nullish(v: JValue) {
    v.JUndef? || v.JNull?
  }

  /** `a || b`: the first operand if it is truthy, otherwise the second. */
  function Or(a: JValue, b: JValue): (r: JValue)
    ensures Truthy(r) <==> Truthy(a) || Truthy(b)
    ensures r == a || r == b
  {
    if Truthy(a) then a else b
  }

  /**
   * `v.key` for a non-nullish `v` and a key that no built-in prototype
   * defines (the model only reads such keys: url, summaryTime, counter,
   * favicon, days, date, summary, type, message): an own property of an
   * object, and `undefined` for every other value.
   */
  function Get(v: JValue, key: string): (r: JValue)
    requires !Nullish(v)
    ensures !v.JObj? ==> r == JUndef
    ensures v.JObj? ==> (key in v.props ==> r == v.props[key]) && (key !in v.props ==> r == JUndef)
  {
    match v
    case JObj(m) => if key in m then m[key] else JUndef
    case _ => JUndef
  }

  /**
   * `Number(v)`: None when it throws. A plain object converts through
   * `valueOf` (which returns the object itself, or is an own non-callable
   * property and is skipped) and then `toString`; an own `toString` property
   * is not callable, so that conversion throws, and otherwise the inherited
   * one gives "[object Object]", which is NaN. An array converts through its
   * `toString`, a comma-separated join that the host performs.
   */
  function ToNumber(host: Host, v: JValue): (r: Option<Num>)
    ensures !v.JArr? && !v.JObj? ==> r.Some?
    ensures v == JUndef ==> r == Some(NaN)
    ensures v == JNull ==> r == Some(Finite(0.0))
    ensures v.JNum? ==> r == Some(v.n)
    ensures v.JObj? ==> (r.None? <==> "toString" in v.props)
  {
    match v
    case JUndef => Some(NaN)
    case JNull => Some(Finite(0.0))
    case JBool(b) => Some(Finite(if b then 1.0 else 0.0))
    case JNum(n) => Some(n)
    case JStr(s) => Some(StringToNumber(s, host.stringToNumber))
    case JArr(elems) =>
      (match host.arrayToString(elems)
       case Some(t) => Some(StringToNumber(t, host.stringToNumber))
       case None => None)
    case JObj(m) => if "toString" in m then None else Some(NaN)
  }
}
