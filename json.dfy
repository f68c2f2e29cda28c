/**
 * Values that `JSON.parse` produces, and JavaScript truthiness. Numbers are
 * modelled as integers. `None` in an `Option<JsValue>` stands for `undefined`
 * (a property that is absent).
 */
module Json {
  import opened Wrappers

  datatype JsValue =
    | JNull
    | JBool(b: bool)
    | JNum(n: int)
    | JStr(s: string)
    | JArr(items: seq<JsValue>)
    | JObj(fields: map<string, JsValue>)

  /** The own properties of a JavaScript object. */
  type JsObject = map<string, JsValue>

  /** Reading `obj[key]`: `undefined` when the property is absent. */
  function Get(obj: JsObject, key: string): Option<JsValue> {
    if key in obj then Some(obj[key]) else None
  }

  /** JavaScript truthiness: `undefined`, `null`, `false`, `0` and `""` are falsy. */
  predicate Truthy(v: Option<JsValue>) {
    match v
    case None => false
    case Some(JNull) => false
    case Some(JBool(b)) => b
    case Some(JNum(n)) => n != 0
    case Some(JStr(s)) => s != ""
    case Some(JArr(_)) => true
    case Some(JObj(_)) => true
  }

  /** `Array.isArray(v)`. */
  predicate IsArray(v: Option<JsValue>) {
    v.Some? && v.value.JArr?
  }

  lemma ArraysAreTruthy(v: Option<JsValue>)
    ensures IsArray(v) ==> Truthy(v)
  {
  }
}
