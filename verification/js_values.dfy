/** The JavaScript values the combinators of lib/flow.js look at, and the shape
    of a call to a completion callback. */
module JsValues {

  /** A JavaScript value, as far as the combinators can tell values apart.
      Numbers are integers: NaN and fractional numbers are not modelled.
      `Obj` stands for any object or function, identified by an opaque id. */
  datatype Js =
    | Undefined
    | Null
    | Bool(b: bool)
    | Num(n: int)
    | Str(s: string)
    | Arr(items: seq<Js>)
    | Obj(id: nat)

  /** JavaScript truthiness, the test behind `if (error)`. */
  predicate Truthy(v: Js) {
    match v
    case Undefined => false
    case Null => false
    case Bool(b) => b
    case Num(n) => n != 0
    case Str(s) => s != ""
    case Arr(_) => true
    case Obj(_) => true
  }

  /** The arguments of one call to a callback of shape `(error, data)`;
      an argument the caller leaves out reads as `Undefined`. */
  datatype Call = Call(error: Js, data: Js)

  /** A callback call that the combinators treat as a success: its error
      argument is falsy, whatever falsy value it is. */
  predicate Succeeds(c: Call) {
    !Truthy(c.error)
  }

  /** `callback(error)`: an error delivery without data. */
  function ErrorCall(e: Js): Call {
    Call(e, Undefined)
  }

  /** `callback(null, data)`: a success delivery. */
  function SuccessCall(data: Js): Call {
    Call(Null, data)
  }
}
