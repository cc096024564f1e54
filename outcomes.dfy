/** Optional values, and the result of a computation that may throw.
    The modelled JavaScript throws in three ways, listed in `Exception`. */
module Outcomes {

  datatype Option<+T> = None | Some(value: T) {

    predicate IsFailure() {
      None?
    }

    function PropagateFailure<U>(): Option<U>
      requires None?
    {
      None
    }

    function Extract(): T
      requires Some?
    {
      value
    }
  }

  /** What the modelled code throws. */
  datatype Exception =
      /** A property read on `undefined` or `null`, or a call of a method the value lacks. */
    | TypeError(what: string)
      /** `makeQueryUrl`: the dotted route resolves to no endpoint. */
    | UnknownRoute(route: string)
      /** `withRouteParams`: placeholder `:name` of template `path` has no value. */
    | MissingRouteParam(name: string, path: string)

  /** A value, or the exception that was thrown instead. */
  datatype Result<+T> = Ok(value: T) | Throw(error: Exception) {

    predicate IsFailure() {
      Throw?
    }

    function PropagateFailure<U>(): Result<U>
      requires Throw?
    {
      Throw(error)
    }

    function Extract(): T
      requires Ok?
    {
      value
    }
  }
}
