/** The result protocol of `@ty-ras/data` that the io-ts adapters produce
    and consume: io-ts validation errors, the tagged validator results and
    the helpers `exceptionAsValidationError` and `transitiveDataValidation`,
    whose code is in that other package and which the model takes as they
    are documented and exercised by the tests. */
module DataProtocol {
  import opened Wrappers
  import opened JsValues

  /** One step of an io-ts `Context`: the key, the name of the validator at that step, and the value seen there. */
  datatype ContextEntry = ContextEntry(key: string, typeName: string, actual: JsValue)

  /** An io-ts `ValidationError`. */
  datatype ValidationError = ValidationError(value: JsValue, context: seq<ContextEntry>, message: Option<string>)

  /** An io-ts `Validation`: the error list or the decoded value. */
  type Validation<+T> = Either<seq<ValidationError>, T>

  /** A `DataValidatorResult`, tagged by its `error` property:
      - `Success`: `{ error: "none", data }`;
      - `Error`: `{ error: "error", errorInfo, getHumanReadableMessage }` for io-ts errors;
      - `ExceptionError`: what `exceptionAsValidationError(x)` builds,
        `{ error: "error", errorInfo: x }` (its message thunk is not modelled);
      - `UnsupportedContentType`: `{ error: "unsupported-content-type", supportedContentTypes }`. */
  datatype DataResult<+T> =
    | Success(data: T)
    | Error(errorInfo: seq<ValidationError>, getHumanReadableMessage: () -> Outcome<string>)
    | ExceptionError(thrown: JsValue)
    | UnsupportedContentType(supportedContentTypes: seq<string>)

  /** The `error` tag of a result. */
  function Tag<T>(r: DataResult<T>): string {
    match r
    case Success(_) => "none"
    case Error(_, _) => "error"
    case ExceptionError(_) => "error"
    case UnsupportedContentType(_) => "unsupported-content-type"
  }

  /** A `DataValidator`: it may throw, as a decoder or encoder of the user may. */
  type DataValidator = JsValue -> Outcome<DataResult<JsValue>>

  /** A failed result handed on unchanged where a result of another data type is expected. */
  function PassFailure<A, B>(r: DataResult<A>): (p: DataResult<B>)
    requires !r.Success?
    ensures Tag(p) == Tag(r)
    ensures r.Error? ==> p == Error(r.errorInfo, r.getHumanReadableMessage)
    ensures r.ExceptionError? ==> p == ExceptionError(r.thrown)
    ensures r.UnsupportedContentType? ==> p == UnsupportedContentType(r.supportedContentTypes)
  {
    match r
    case Error(e, m) => Error(e, m)
    case ExceptionError(x) => ExceptionError(x)
    case UnsupportedContentType(cts) => UnsupportedContentType(cts)
  }

  /** `transitiveDataValidation(first, second)` applied: `second` runs on
      the data of a successful `first`, and a failed `first` is the result. */
  function TransitiveDataValidation(first: DataResult<JsValue>, second: DataValidator): (r: Outcome<DataResult<JsValue>>)
    ensures first.Success? ==> r == second(first.data)
    ensures !first.Success? ==> r == Returned(first)
  {
    if first.Success? then second(first.data) else Returned(first)
  }

  /** The short-circuit of a required item: `undefined` is answered with
      `exceptionAsValidationError(message)` without consulting `plain`, and
      every other value goes to `plain`. An optional item is `plain` itself. */
  function RequireDefined(required: bool, message: string, plain: DataValidator): (v: DataValidator)
    ensures !required ==> v == plain
    ensures required ==> forall x :: v(x) == if x == Undefined then Returned(ExceptionError(Str(message))) else plain(x)
  {
    if required then x => if x == Undefined then Returned(ExceptionError(Str(message))) else plain(x)
    else plain
  }
}
