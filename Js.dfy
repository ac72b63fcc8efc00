/** JavaScript values as the services receive them, and the two JavaScript
    tests the services apply to them: truthiness (`x || default`) and
    definedness (`x !== undefined`). */
module Js {

  /** A value taken from a request body. Numbers are integers here: amounts,
      ratings and dates are only stored, compared and sorted, never computed with. */
  datatype JsVal =
    | Undefined
    | Null
    | Bool(b: bool)
    | Num(n: int)
    | Str(s: string)
    | Arr(elems: seq<JsVal>)

  /** A request body; a key it does not hold reads as `undefined`. */
  type Object = map<string, JsVal>

  /** `const { key } = obj` */
  function Get(obj: Object, key: string): JsVal
  {
    if key in obj then obj[key] else Undefined
  }

  /** The five falsy values a JSON body can carry. */
  predicate Falsy(v: JsVal)
  {
    v == Undefined || v == Null || v == Bool(false) || v == Num(0) || v == Str("")
  }

  predicate Truthy(v: JsVal)
  {
    !Falsy(v)
  }

  /** `a || b` */
  function Or(a: JsVal, b: JsVal): JsVal
  {
    if Falsy(a) then b else a
  }

  /** The value a column receives from a query parameter: node-postgres sends
      `undefined` as NULL and every other value as it is. */
  function Stored(v: JsVal): (r: JsVal)
    ensures r != Undefined
    ensures v != Undefined ==> r == v
    ensures r == Null <==> v == Null || v == Undefined
  {
    if v == Undefined then Null else v
  }

  /** Defaulting with `||` replaces every falsy value, including the ones that
      `!== undefined` lets through: 0, "", false and an explicit null. */
  lemma OrReplacesFalsy(a: JsVal, d: JsVal)
    ensures Or(a, d) == d <==> Falsy(a) || a == d
    ensures a != Undefined && Falsy(a) && a != d ==> Or(a, d) != a
  {
  }
}

/** Outcomes of a service call. */
module Outcomes {

  datatype Option<T> = None | Some(value: T)

  /** The text routes compare an update failure against. */
  const NoFieldsMessage: string := "No fields to update"

  datatype Error =
    | NoFieldsToUpdate  // thrown by every partial update that was given no field
    | QueryFailed       // a statement the store rejected (for instance a foreign-key violation)
  {
    function Message(): (m: string)
      ensures m == NoFieldsMessage <==> this == NoFieldsToUpdate
    {
      match this
      case NoFieldsToUpdate => NoFieldsMessage
      case QueryFailed => "query failed"
    }
  }

  datatype Result<T> = Success(value: T) | Failure(error: Error)
}
