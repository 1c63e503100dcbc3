/** `requestBody` and `responseBody` (data-backend/src/body-generic.ts):
    body validators for one supported content type. Reading the request
    stream is not modelled; a request is its content type and the text the
    stream was read into. */
module BodyGeneric {
  import opened Wrappers
  import opened JsValues
  import opened DataProtocol

  /** What the request validator is given, with the body already read into text. */
  datatype RequestInput = RequestInput(contentType: string, bodyText: string)

  /** The request validator and the native validators keyed by content type. */
  datatype RequestInputSpec<N> = RequestInputSpec(validator: RequestInput -> Outcome<DataResult<JsValue>>, contents: seq<(string, N)>)

  /** `DataValidatorResponseOutputSuccess`: the content type and the serialised text (`None` when `JSON.stringify` gives `undefined`). */
  datatype ResponseOutput = ResponseOutput(contentType: string, output: Option<string>)

  /** The response validator and the native validators keyed by content type. */
  datatype ResponseOutputSpec<N> = ResponseOutputSpec(validator: JsValue -> DataResult<ResponseOutput>, contents: seq<(string, N)>)

  /** The content-type gate. */
  predicate AcceptsContentType(contentType: string, supportedContentType: string, strictContentType: bool) {
    StartsWith(contentType, supportedContentType) || (!strictContentType && |contentType| == 0)
  }

  /** The first step of `jsonValidation`: empty text is `undefined`, other
      text is what `JSON.parse` makes of it, and a parse exception becomes an
      exception-error. */
  function ParseBody(bodyText: string, json: JsonRuntime): (r: DataResult<JsValue>)
    ensures |bodyText| == 0 ==> r == Success(Undefined)
    ensures |bodyText| > 0 && json.parse(bodyText).Returned? ==> r == Success(json.parse(bodyText).value)
    ensures |bodyText| > 0 && json.parse(bodyText).Threw? ==> r == ExceptionError(json.parse(bodyText).exception)
  {
    if |bodyText| > 0 then
      match json.parse(bodyText)
      case Returned(data) => Success(data)
      case Threw(e) => ExceptionError(e)
    else Success(Undefined)
  }

  /** The request validator of `requestBody`. */
  function RequestValidator(validator: DataValidator, supportedContentType: string, strictContentType: bool,
                            json: JsonRuntime, input: RequestInput): Outcome<DataResult<JsValue>>
  {
    if AcceptsContentType(input.contentType, supportedContentType, strictContentType) then
      TransitiveDataValidation(ParseBody(input.bodyText, json), validator)
    else Returned(UnsupportedContentType([supportedContentType]))
  }

  /** `requestBody(validatorNative, validator, supportedContentType, strictContentType)`. */
  function RequestBody<N>(validatorNative: N, validator: DataValidator, supportedContentType: string,
                          strictContentType: bool, json: JsonRuntime): (r: RequestInputSpec<N>)
    ensures r.contents == [(supportedContentType, validatorNative)]
    ensures forall input: RequestInput :: !AcceptsContentType(input.contentType, supportedContentType, strictContentType)
              ==> r.validator(input) == Returned(UnsupportedContentType([supportedContentType]))
    ensures forall input: RequestInput :: AcceptsContentType(input.contentType, supportedContentType, strictContentType) && |input.bodyText| == 0
              ==> r.validator(input) == validator(Undefined)
    ensures forall input: RequestInput :: AcceptsContentType(input.contentType, supportedContentType, strictContentType) && |input.bodyText| > 0
              ==> r.validator(input) == match json.parse(input.bodyText)
                                        case Returned(data) => validator(data)
                                        case Threw(e) => Returned(ExceptionError(e))
  {
    RequestInputSpec(input => RequestValidator(validator, supportedContentType, strictContentType, json, input),
                     [(supportedContentType, validatorNative)])
  }

  /** The response validator of `responseBody`. */
  function ResponseValidator(validator: DataValidator, supportedContentType: string, json: JsonRuntime, output: JsValue): DataResult<ResponseOutput> {
    match validator(output)
    case Threw(e) => ExceptionError(e)
    case Returned(result) =>
      if result.Success? then
        match json.stringify(result.data)
        case Returned(text) => Success(ResponseOutput(supportedContentType, text))
        case Threw(e) => ExceptionError(e)
      else PassFailure(result)
  }

  /** `responseBody(validation, validator, supportedContentType)`. */
  function ResponseBody<N>(validation: N, validator: DataValidator, supportedContentType: string, json: JsonRuntime): (r: ResponseOutputSpec<N>)
    ensures r.contents == [(supportedContentType, validation)]
    ensures forall output :: validator(output).Threw? ==> r.validator(output) == ExceptionError(validator(output).exception)
    ensures forall output :: validator(output).Returned? && validator(output).value.Success? ==>
              r.validator(output) == match json.stringify(validator(output).value.data)
                                     case Returned(text) => Success(ResponseOutput(supportedContentType, text))
                                     case Threw(e) => ExceptionError(e)
    ensures forall output :: validator(output).Returned? && !validator(output).value.Success? ==>
              r.validator(output) == PassFailure(validator(output).value)
  {
    ResponseOutputSpec(output => ResponseValidator(validator, supportedContentType, json, output), [(supportedContentType, validation)])
  }

  /** The gate: `application/json; charset=utf-8` passes a gate for
      `application/json`, and the empty content type passes only when not strict. */
  lemma GateExamples(supportedContentType: string, suffix: string)
    ensures AcceptsContentType(supportedContentType + suffix, supportedContentType, true)
    ensures AcceptsContentType("", supportedContentType, false)
    ensures supportedContentType != "" ==> !AcceptsContentType("", supportedContentType, true)
  {
    assert (supportedContentType + suffix)[..|supportedContentType|] == supportedContentType;
  }

  /** A rejected content type never reads the body, parses or validates:
      any two requests with that content type get the same answer. */
  lemma RejectedContentTypeIgnoresBody<N>(validatorNative: N, validator: DataValidator, supportedContentType: string,
                                          strictContentType: bool, json: JsonRuntime, a: RequestInput, b: RequestInput)
    requires a.contentType == b.contentType
    requires !AcceptsContentType(a.contentType, supportedContentType, strictContentType)
    ensures var r := RequestBody(validatorNative, validator, supportedContentType, strictContentType, json);
            r.validator(a) == r.validator(b) == Returned(UnsupportedContentType([supportedContentType]))
  {
  }

  /** An empty body is validated as `undefined` whatever `JSON.parse` would do. */
  lemma EmptyBodyNeverParses<N>(validatorNative: N, validator: DataValidator, supportedContentType: string,
                                strictContentType: bool, json1: JsonRuntime, json2: JsonRuntime, input: RequestInput)
    requires |input.bodyText| == 0
    requires AcceptsContentType(input.contentType, supportedContentType, strictContentType)
    ensures RequestBody(validatorNative, validator, supportedContentType, strictContentType, json1).validator(input)
            == RequestBody(validatorNative, validator, supportedContentType, strictContentType, json2).validator(input)
            == validator(Undefined)
  {
  }

  /** Text that fails to parse is an exception-error, whatever the validator. */
  lemma ParseFailureSkipsValidator<N>(validatorNative: N, validator1: DataValidator, validator2: DataValidator,
                                      supportedContentType: string, strictContentType: bool, json: JsonRuntime, input: RequestInput)
    requires |input.bodyText| > 0 && json.parse(input.bodyText).Threw?
    requires AcceptsContentType(input.contentType, supportedContentType, strictContentType)
    ensures RequestBody(validatorNative, validator1, supportedContentType, strictContentType, json).validator(input)
            == RequestBody(validatorNative, validator2, supportedContentType, strictContentType, json).validator(input)
            == Returned(ExceptionError(json.parse(input.bodyText).exception))
  {
  }

  /** A response validator's own failure is handed back with its tag and contents. */
  lemma ResponseFailureUnchanged<N>(validation: N, validator: DataValidator, supportedContentType: string, json: JsonRuntime, output: JsValue)
    requires validator(output).Returned? && !validator(output).value.Success?
    ensures var r := ResponseBody(validation, validator, supportedContentType, json).validator(output);
            var failure := validator(output).value;
            Tag(r) == Tag(failure)
            && (failure.Error? ==> r.Error? && r.errorInfo == failure.errorInfo && r.getHumanReadableMessage == failure.getHumanReadableMessage)
            && (failure.ExceptionError? ==> r == ExceptionError(failure.thrown))
            && (failure.UnsupportedContentType? ==> r == UnsupportedContentType(failure.supportedContentTypes))
  {
  }
}
