/** The exceptions the renaming scripts raise or catch, as values. */
module Errors {

  /** One constructor per exception the core can raise. */
  datatype PyError =
    | InvalidDelimiter   // ValueError: delimiter outside "_", "-", " "
    | UnboundKeyword     // UnboundLocalError: the first keyword starts with a space, so `new` was never bound
    | GpsIndexError      // IndexError: a "GPS Position" value without a comma
    | CoordinateInvalid  // ValueError: `parse` could not read a coordinate
    | GeocodeFailed      // the reverse geocoder failed or found no address
    | ModelCallFailed    // the call to the model server failed
    | MalformedReply     // json.loads or the keyword-list validation rejected the reply
    | UndefinedName      // NameError

  /** A computation that either yields a value or raises one of the errors above. */
  datatype Result<T> = Ok(value: T) | Err(error: PyError) {
    predicate IsFailure() { Err? }

    function PropagateFailure<U>(): Result<U>
      requires Err?
    {
      Err(error)
    }

    function Extract(): T
      requires Ok?
    {
      value
    }
  }

  datatype Option<T> = None | Some(value: T)
}
