/**
 * The webhook payload and the choice of where the extractor reads from
 * (`extractBookingInfo`, server/bookingService.js lines 51-56).
 */
module Payload {
  import opened Optional

  /** A JSON value as the JSON body parser hands it over. */
  datatype Json =
    | JNull
    | JBool(b: bool)
    | JNum(n: real)
    | JStr(s: string)
    | JArr(items: seq<Json>)
    | JObj(fields: map<string, Json>)

  /** JavaScript truthiness of a JSON value (`undefined` is `None` and is falsy too). */
  predicate Truthy(v: Json) {
    match v
    case JNull => false
    case JBool(b) => b
    case JNum(n) => n != 0.0
    case JStr(s) => s != ""
    case JArr(_) => true
    case JObj(_) => true
  }

  predicate Present(v: Option<Json>) {
    v.Some? && Truthy(v.value)
  }

  /**
   * Property access `v.key` for the keys the extractor reads: the field of an object, and
   * `undefined` for every other non-null value (none of those keys is a property of strings,
   * numbers, booleans, arrays or of the object prototype). On `null` it would throw.
   */
  function Get(v: Json, key: string): (r: Option<Json>)
    requires v != JNull
    ensures r.Some? <==> v.JObj? && key in v.fields
    ensures r.Some? ==> r.value == v.fields[key]
  {
    match v
    case JObj(f) => if key in f then Some(f[key]) else None
    case _ => None
  }

  /** `a || b` where `a` may be `undefined`. */
  function Either(a: Option<Json>, b: Json): (r: Json)
    ensures Present(a) ==> r == a.value
    ensures !Present(a) ==> r == b
  {
    if Present(a) then a.value else b
  }

  /** Optional chaining `v.outer?.inner`. */
  function GetChained(v: Json, outer: string, inner: string): (r: Option<Json>)
    requires v != JNull
    ensures r.Some? <==>
      v.JObj? && outer in v.fields && v.fields[outer].JObj? && inner in v.fields[outer].fields
    ensures r.Some? ==> r.value == v.fields[outer].fields[inner]
  {
    match Get(v, outer)
    case None => None
    case Some(w) => if w == JNull then None else Get(w, inner)
  }

  /**
   * `x` is what `m.key || m.outer?.key || ''` evaluates to: the first truthy of the two
   * fields, and the empty string when neither is truthy.
   */
  predicate ReadFrom(x: Json, m: Json, key: string, outer: string)
    requires m != JNull
  {
    var direct := Get(m, key);
    var nested := GetChained(m, outer, key);
    (Present(direct) ==> x == direct.value)
    && (!Present(direct) && Present(nested) ==> x == nested.value)
    && (!Present(direct) && !Present(nested) ==> x == JStr(""))
  }

  /** What the extractor reads from the payload. */
  datatype Fields = Fields(transcript: Json, summary: Json, customerNumber: Option<Json>)

  /** The two payload shapes: fields under a truthy `message`, otherwise at the top level. */
  function Message(data: Json): (m: Json)
    requires data != JNull
    ensures m != JNull
    ensures Present(Get(data, "message")) ==> m == Get(data, "message").value
    ensures !Present(Get(data, "message")) ==> m == data
  {
    Either(Get(data, "message"), data)
  }

  /**
   * `message.transcript || message.artifact?.transcript || ''`, the same for the summary under
   * `analysis`, and `(message.customer || {}).number`. Reading `message` of a `null` payload
   * throws.
   */
  function Unwrap(data: Json): (r: Result<Fields, string>)
    ensures r.Failure? <==> data == JNull
    ensures r.Success? ==> Truthy(r.value.transcript) || r.value.transcript == JStr("")
    ensures r.Success? ==> Truthy(r.value.summary) || r.value.summary == JStr("")
    ensures r.Success? ==> ReadFrom(r.value.transcript, Message(data), "transcript", "artifact")
    ensures r.Success? ==> ReadFrom(r.value.summary, Message(data), "summary", "analysis")
    ensures r.Success? ==>
      var m := Message(data);
      (Present(Get(m, "customer")) ==> r.value.customerNumber == Get(Get(m, "customer").value, "number"))
      && (!Present(Get(m, "customer")) ==> r.value.customerNumber.None?)
  {
    if data == JNull then Failure("Cannot read properties of null (reading 'message')")
    else
      var message := Message(data);
      var transcript := Either(Get(message, "transcript"), Either(GetChained(message, "artifact", "transcript"), JStr("")));
      var summary := Either(Get(message, "summary"), Either(GetChained(message, "analysis", "summary"), JStr("")));
      var customer := Either(Get(message, "customer"), JObj(map[]));
      Success(Fields(transcript, summary, Get(customer, "number")))
  }

  /** Wrapping a payload in `message` changes nothing, as long as it has no truthy `message` of its own. */
  lemma WrapperTransparent(m: Json)
    requires Truthy(m)
    requires !Present(Get(m, "message"))
    ensures Unwrap(JObj(map["message" := m])) == Unwrap(m)
  {
    var wrapped := JObj(map["message" := m]);
    assert Get(wrapped, "message") == Some(m);
  }

  /** A non-empty top-level summary string is read in preference to `analysis.summary`. */
  lemma TopLevelSummaryFirst(data: Json, text: string)
    requires data != JNull && text != ""
    requires Get(Message(data), "summary") == Some(JStr(text))
    ensures Unwrap(data).Success? && Unwrap(data).value.summary == JStr(text)
  {
  }
}
