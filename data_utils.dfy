/** `transformLibraryResultToModelResult` (data/src/utils.ts): an io-ts
    `Validation` as a tagged result with a lazy message. */
module DataUtils {
  import opened Wrappers
  import opened JsValues
  import opened DataProtocol
  import opened DataError

  function TransformLibraryResultToModelResult<T>(validation: Validation<T>, json: JsonRuntime): (r: DataResult<T>)
    ensures validation.Right? <==> r.Success?
    ensures validation.Left? <==> r.Error?
    ensures validation.Right? ==> r.data == validation.right
    ensures validation.Left? ==> r.errorInfo == validation.left
                                 && r.getHumanReadableMessage() == GetHumanReadableErrorMessage(validation.left, json)
  {
    match validation
    case Right(data) => Success(data)
    case Left(errors) => Error(errors, () => GetHumanReadableErrorMessage(errors, json))
  }

  /** The `Validation` a result was made from: its data or its error list.
      Results of the other kinds do not come from a `Validation`. */
  function LibraryResultOf<T>(r: DataResult<T>): Option<Validation<T>> {
    match r
    case Success(data) => Some(Right(data))
    case Error(errors, _) => Some(Left(errors))
    case _ => None
  }

  /** Nothing of the `Validation` is lost: it can be read back from the result. */
  lemma LibraryResultRoundTrip<T>(validation: Validation<T>, json: JsonRuntime)
    ensures LibraryResultOf(TransformLibraryResultToModelResult(validation, json)) == Some(validation)
  {
  }

  /** On the error side the adapter builds what `createErrorObject` builds. */
  lemma AdapterAgreesWithCreateErrorObject<T>(errors: seq<ValidationError>, json: JsonRuntime)
    ensures var r: DataResult<T> := TransformLibraryResultToModelResult(Left(errors), json);
            var c: DataResult<T> := CreateErrorObject(errors, json);
            Tag(r) == Tag(c) && r.errorInfo == c.errorInfo && r.getHumanReadableMessage() == c.getHumanReadableMessage()
  {
  }
}
