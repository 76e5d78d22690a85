/** Failure-carrying datatypes shared by the whole model.

    The source signals missing dictionary keys with `None` and failures with
    Python exceptions; the model uses `Option` for the former and `Result`
    for the latter. */
module Wrappers {

  /** A value that may be absent (a missing key, or `None`). */
  datatype Option<+T> = None | Some(value: T) {

    /** The value, or `default` when absent: Python's `d.get(key, default)`. */
    function GetOr(default: T): T {
      match this
      case Some(v) => v
      case None => default
    }
  }

  /** Either a value, or the exception the source raises instead. */
  datatype Result<+T, +E> = Success(value: T) | Failure(error: E) {

    /** Forgets the exception: what a caller that swallows it keeps. */
    function ToOption(): Option<T> {
      match this
      case Success(v) => Some(v)
      case Failure(_) => None
    }
  }

  /** The Python exception classes the modelled code can raise. */
  datatype Exception =
    | AttributeError   // a method called on `None` (`None.get(...)`)
    | TypeError        // arithmetic or comparison with `None`
    | ValueError       // `datetime(...)` with an out-of-range field, or an unparsable URL
    | FetchError       // a failure inside one of the network clients

  /** Truthiness of an optional integer: absent and `0` are both falsy. */
  predicate IntTruthy(o: Option<int>) {
    o.Some? && o.value != 0
  }

  /** Truthiness of an optional string: absent and `""` are both falsy. */
  predicate StrTruthy(o: Option<string>) {
    o.Some? && o.value != ""
  }
}
