/** Failures raised by the boundary-remapping routines, and the Result type that carries them. */
module Errors {

  datatype MapError =
    | InvalidRadialOrdering  // ValueError: r_outer < r_inner, mapping outwards is not supported
    | GridMismatch           // AssertionError: an axis length differs from the grid dimension it labels
    | IndexOutOfRange        // IndexError: a row or column that the grid does not have
    | LengthMismatch         // ValueError from numpy: paired arrays of different lengths
    | EmptySamples           // ValueError from numpy.interp: the array of sample points is empty
    | InvalidArgument        // AssertionError on a Carrington rotation number or a latitude
    | DataUnavailable        // AssertionError: the boundary-condition files could not be fetched

  datatype Result<+T> = Ok(value: T) | Err(error: MapError) {

    predicate IsFailure() {
      Err?
    }

    function PropagateFailure<U>(): Result<U>
      requires Err?
    {
      Err(error)
    }

    function Extract(): T
      requires Ok?
    {
      value
    }
  }
}
