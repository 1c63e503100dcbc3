/** Option and Either, the stock optional-value and two-sided datatypes. `None` plays the part of
    JavaScript's `undefined` wherever the source tests `x === undefined` or
    `x ?? y`. */
module Wrappers {

  datatype Option<+T> = None | Some(value: T) {

    /** `this ?? default` */
    function GetOr(default: T): T {
      match this
      case Some(v) => v
      case None => default
    }
  }

  /** fp-ts `Either`, and the `Validation` io-ts decoders return: `Left` holds the failure. */
  datatype Either<+L, +R> = Left(left: L) | Right(right: R)
}
