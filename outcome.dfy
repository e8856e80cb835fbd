/** The error a Python call raises, where the modelled code raises one. */
module Outcome {

  datatype Error =
    | ZeroDivision      // `int / 0` raises ZeroDivisionError
    | ZeroRangeStep     // `range(start, stop, 0)` raises ValueError
    | NegativePadWidth  // `np.pad` with a negative pad width raises ValueError

  datatype Result<T> = Ok(value: T) | Err(error: Error)
}
