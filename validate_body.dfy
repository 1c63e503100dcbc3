/** `inputValidator` and `outputValidator` (data-backend/src/validate-body.ts):
    the JSON body validators built from io-ts decoders and encoders. */
module ValidateBody {
  import opened Wrappers
  import opened JsValues
  import opened DataProtocol
  import opened DataValidate
  import opened BodyGeneric

  /** `CONTENT_TYPE`: the only content type these validators support. */
  const ContentType := "application/json"

  /** The default of `strictContentType`. */
  const DefaultStrictContentType := false

  /** The request validator of `inputValidator`, written out as the source
      writes it rather than through `requestBody`. */
  function InputRequestValidator(validation: Decoder, strictContentType: bool, json: JsonRuntime, input: RequestInput): Outcome<DataResult<JsValue>> {
    if StartsWith(input.contentType, ContentType) || (!strictContentType && |input.contentType| == 0) then
      var parsed :=
        if |input.bodyText| > 0 then
          match json.parse(input.bodyText)
          case Returned(data) => Success(data)
          case Threw(e) => ExceptionError(e)
        else Success(Undefined);
      if parsed.Success? then FromDecoder(validation, json)(parsed.data) else Returned(parsed)
    else Returned(UnsupportedContentType([ContentType]))
  }

  /** `inputValidator(validation, strictContentType)`. */
  function InputValidator(validation: Decoder, strictContentType: bool, json: JsonRuntime): (r: RequestInputSpec<Decoder>)
    ensures r.contents == [(ContentType, validation)]
    ensures forall input: RequestInput :: !AcceptsContentType(input.contentType, ContentType, strictContentType)
              ==> r.validator(input) == Returned(UnsupportedContentType([ContentType]))
  {
    RequestInputSpec(input => InputRequestValidator(validation, strictContentType, json, input), [(ContentType, validation)])
  }

  /** `inputValidator` is `requestBody` with the plain validator of the
      decoder and `CONTENT_TYPE`: the same answer to every request. */
  lemma InputValidatorIsRequestBody(validation: Decoder, strictContentType: bool, json: JsonRuntime, input: RequestInput)
    ensures InputValidator(validation, strictContentType, json).validator(input)
            == RequestBody(validation, FromDecoder(validation, json), ContentType, strictContentType, json).validator(input)
    ensures InputValidator(validation, strictContentType, json).contents
            == RequestBody(validation, FromDecoder(validation, json), ContentType, strictContentType, json).contents
  {
  }

  /** Parsed JSON reaches the decoder, and what it answers is the result. */
  lemma ParsedBodyIsDecoded(validation: Decoder, strictContentType: bool, json: JsonRuntime, input: RequestInput)
    requires AcceptsContentType(input.contentType, ContentType, strictContentType)
    requires |input.bodyText| > 0 && json.parse(input.bodyText).Returned?
    ensures var r := InputValidator(validation, strictContentType, json).validator(input);
            var decoded := validation.decode(json.parse(input.bodyText).value);
            r.Returned?
            && (decoded.Right? ==> r.value == Success(decoded.right))
            && (decoded.Left? ==> r.value.Error? && r.value.errorInfo == decoded.left)
  {
    InputValidatorIsRequestBody(validation, strictContentType, json, input);
  }

  /** The response validator of `outputValidator`: the value is encoded and
      serialised with no `is` guard, and any exception becomes an exception-error. */
  function OutputResponseValidator(validation: Encoder, json: JsonRuntime, output: JsValue): DataResult<ResponseOutput> {
    match validation.encode(output)
    case Threw(e) => ExceptionError(e)
    case Returned(encoded) =>
      match json.stringify(encoded)
      case Returned(text) => Success(ResponseOutput(ContentType, text))
      case Threw(e) => ExceptionError(e)
  }

  /** `outputValidator(validation)`. */
  function OutputValidator(validation: Encoder, json: JsonRuntime): (r: ResponseOutputSpec<Encoder>)
    ensures r.contents == [(ContentType, validation)]
    ensures forall output :: validation.encode(output).Threw? ==> r.validator(output) == ExceptionError(validation.encode(output).exception)
    ensures forall output :: validation.encode(output).Returned? ==>
              r.validator(output) == match json.stringify(validation.encode(output).value)
                                     case Returned(text) => Success(ResponseOutput(ContentType, text))
                                     case Threw(e) => ExceptionError(e)
  {
    ResponseOutputSpec(output => OutputResponseValidator(validation, json, output), [(ContentType, validation)])
  }

  /** The guard is never asked: encoders that differ only in `is` give the same response. */
  lemma OutputIgnoresGuard(e1: Encoder, e2: Encoder, json: JsonRuntime, output: JsValue)
    requires e1.encode == e2.encode
    ensures OutputValidator(e1, json).validator(output) == OutputValidator(e2, json).validator(output)
  {
  }

  /** Where the guard accepts the value, `outputValidator` is `responseBody`
      over `fromEncoder` and `CONTENT_TYPE`. */
  lemma OutputValidatorIsGuardedResponseBody(validation: Encoder, json: JsonRuntime, output: JsValue)
    requires validation.guard(output)
    ensures OutputValidator(validation, json).validator(output)
            == ResponseBody(validation, FromEncoder(validation, json), ContentType, json).validator(output)
  {
  }

  /** Where the guard rejects the value and encoding succeeds, the two
      differ: `outputValidator` serialises, the guarded one reports an error. */
  lemma OutputValidatorSkipsGuard(validation: Encoder, json: JsonRuntime, output: JsValue)
    requires !validation.guard(output)
    requires validation.encode(output).Returned? && json.stringify(validation.encode(output).value).Returned?
    ensures OutputValidator(validation, json).validator(output).Success?
    ensures ResponseBody(validation, FromEncoder(validation, json), ContentType, json).validator(output).Error?
  {
  }
}
