/**
 * The values `json.loads` produces, and the two Python notions the
 * normalisers lean on: truthiness and `dict.get`.
 */
module Json {

  /**
   * A decoded JSON value. Objects are maps from key to value; the insertion
   * order that a Python dict keeps is not part of the model.
   */
  datatype JValue =
    | JNull
    | JBool(b: bool)
    | JNum(n: real)
    | JStr(s: string)
    | JArr(items: seq<JValue>)
    | JObj(fields: map<string, JValue>)

  /** Python's truth value of the decoded value (`bool(v)`). */
  predicate Truthy(v: JValue) {
    match v
    case JNull => false
    case JBool(b) => b
    case JNum(n) => n != 0.0
    case JStr(s) => s != ""
    case JArr(items) => items != []
    case JObj(fields) => fields != map[]
  }

  /** `d.get(key, default)` */
  function Get(d: map<string, JValue>, key: string, default: JValue): JValue {
    if key in d then d[key] else default
  }
}

/** Outcome types: an optional value and a value-or-error. */
module Outcomes {

  datatype Option<T> = None | Some(value: T)

  datatype Result<T, E> = Ok(value: T) | Err(error: E)
}
