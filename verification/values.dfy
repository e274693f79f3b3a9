/** Values, locations and failures shared by every part of the router model. */
module Values {

  /** The JavaScript values the router stores and compares. `Undef` is
      `undefined`, kept explicit so that `=== undefined` tests are exact;
      numbers are modelled as integers. */
  datatype Value = Undef | Null | Bool(b: bool) | Num(n: int) | Str(s: string) | Obj(ref: nat)

  /** A location: the raw path segments plus a keyed bag of auxiliary state. */
  datatype Location = Location(path: seq<string>, state: map<string, Value>)

  /** `obj[key]` on a plain object: a key that is absent reads as `undefined`. */
  function Lookup(m: map<string, Value>, key: string): Value
  {
    if key in m then m[key] else Undef
  }

  datatype Option<+T> = None | Some(value: T)

  /** The thrown errors, distinguished by their cause only. */
  datatype Error =
    | Invalidated        // "This RoutesBuilder is already invalidated."
    | DoubleInherit      // "Cannot inherit already invalidated link"
    | NotAString         // assertString on a wildcard value
    | InvariantFailure   // a matching route's validator rejected the value
    | DepthExhausted     // the parent-route walk ran out of stack

  /** A value or the error the source would throw instead. */
  datatype Result<+T> = Success(value: T) | Failure(error: Error) {
    predicate IsFailure() { Failure? }

    function PropagateFailure<U>(): Result<U>
      requires Failure?
    {
      Failure(error)
    }

    function Extract(): T
      requires Success?
    {
      value
    }
  }

  /** The outcome of a check that either passes or throws. */
  datatype Outcome = Pass | Fail(error: Error) {
    predicate IsFailure() { Fail? }

    function PropagateFailure<U>(): Result<U>
      requires Fail?
    {
      Failure(error)
    }
  }
}
