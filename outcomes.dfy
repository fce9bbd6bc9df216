/** The failures the calculator can raise, and a result type that carries them. */
module Outcomes {

  /** Each error aborts the operation that raised it; nothing is retried. */
  datatype Error =
    | TooFewPoints    // the interpolation table has fewer than two entries
    | BelowRange      // interpolation argument below the smallest key
    | AboveRange      // interpolation argument above the largest key
    | DivisionByZero  // a zero sweep rate in the sine-sweep cycle count
    | EmptySpectrum   // max/min over a spectrum without events

  datatype Result<+T> = Ok(value: T) | Err(error: Error)
}
