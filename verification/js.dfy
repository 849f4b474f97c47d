/** The fragment of JavaScript value semantics the application code relies on:
    `undefined`/`null`, integer numbers and strings, truthiness and the `||` operator.
 */
module Js {

  datatype Option<T> = None | Some(value: T)

  /** The outcome of a computation that may throw. */
  datatype Result<T, E> = Ok(value: T) | Err(error: E)

  /** A property that may be missing (`undefined`), explicitly `null`, or hold a value.
      The code distinguishes the first two with `!== undefined`, so they are kept apart here. */
  datatype Slot<T> = Absent | Nulled | Present(value: T)

  /** A scalar JavaScript value as it appears in request bodies, spreadsheet rows and stored
      documents. Numbers are integers; floating point, NaN and booleans are not modelled. */
  datatype Value = Undefined | Null | Num(n: int) | Str(s: string)

  /** JavaScript truthiness: `undefined`, `null`, `0` and `''` are falsy. */
  predicate Truthy(v: Value) {
    match v
    case Undefined => false
    case Null => false
    case Num(n) => n != 0
    case Str(s) => s != ""
  }

  /** JavaScript `a || b`: the first operand when it is truthy, otherwise the second. */
  function Or(a: Value, b: Value): Value {
    if Truthy(a) then a else b
  }

  /** `a || b || c` yields the first truthy operand, and the last one when none is truthy. */
  lemma OrChain(a: Value, b: Value, c: Value)
    ensures Truthy(a) ==> Or(a, Or(b, c)) == a
    ensures !Truthy(a) && Truthy(b) ==> Or(a, Or(b, c)) == b
    ensures !Truthy(a) && !Truthy(b) ==> Or(a, Or(b, c)) == c
  {
  }

  /** A truthy fallback makes `x || fallback` truthy. */
  lemma OrTruthyFallback(a: Value, b: Value)
    requires Truthy(b)
    ensures Truthy(Or(a, b))
  {
  }

  /** `arr[k]` for an integer key: the element, or `undefined` outside the array. */
  function At(arr: seq<Value>, k: int): Value {
    if 0 <= k < |arr| then arr[k] else Undefined
  }
}
