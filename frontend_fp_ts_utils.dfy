/** `toEither` (data-frontend/src/fp-ts-utils.ts): an API call result as an fp-ts `Either`. */
module FrontendFpTsUtils {
  import opened Wrappers
  import opened JsValues

  /** `APICallResult`: success, a validation error of the response with its
      message thunk, or an error of the input the call was given. */
  datatype APICallResult<+T> =
    | APISuccess(data: T)
    | APIError(errorInfo: JsValue, getHumanReadableMessage: () -> string)
    | APIErrorInput(errorInfo: JsValue)

  /** `toEither(result)`: the data on the right, any failure, untouched, on the left. */
  function ToEither<T>(result: APICallResult<T>): (e: Either<APICallResult<T>, T>)
    ensures e.Right? <==> result.APISuccess?
    ensures e.Right? ==> e.right == result.data
    ensures e.Left? ==> e.left == result
  {
    if result.APISuccess? then Right(result.data) else Left(result)
  }

  /** The inverse direction: a success from the right, the failure itself from the left. */
  function FromEither<T>(e: Either<APICallResult<T>, T>): APICallResult<T> {
    match e
    case Right(data) => APISuccess(data)
    case Left(failure) => failure
  }

  /** `toEither` loses nothing. */
  lemma ToEitherRoundTrip<T>(result: APICallResult<T>)
    ensures FromEither(ToEither(result)) == result
  {
  }

  /** Every `Either` whose left side holds a failure comes from `toEither`. */
  lemma FromEitherRoundTrip<T>(e: Either<APICallResult<T>, T>)
    requires e.Left? ==> !e.left.APISuccess?
    ensures ToEither(FromEither(e)) == e
  {
  }
}
