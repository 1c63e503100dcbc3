/** `fromDecoder` and `fromEncoder` (data/src/validate.ts): io-ts decoders
    and encoders as validators of the uniform result protocol. */
module DataValidate {
  import opened Wrappers
  import opened JsValues
  import opened DataProtocol
  import opened DataError
  import opened DataUtils

  /** An io-ts decoder: its name and its `decode`. */
  datatype Decoder = Decoder(name: string, decode: JsValue -> Validation<JsValue>)

  /** An io-ts encoder: its name, its `is` (here `guard`) and its `encode`, which may throw. */
  datatype Encoder = Encoder(name: string, guard: JsValue -> bool, encode: JsValue -> Outcome<JsValue>)

  /** The message of a value the encoder's guard rejects. */
  const RejectedMessage := "Given value for input was not what the validator needed."

  /** The one error reported for a value the encoder's guard rejects: the
      value, a single root context step naming the encoder, and the fixed message. */
  function Rejection(e: Encoder, input: JsValue): (err: ValidationError)
    ensures err.value == input && err.message == Some(RejectedMessage)
    ensures err.context == [ContextEntry("", e.name, input)]
  {
    ValidationError(input, [ContextEntry("", e.name, input)], Some(RejectedMessage))
  }

  /** `fromDecoder(validation)`: the adapter applied to what `decode` returns. */
  function FromDecoder(d: Decoder, json: JsonRuntime): (v: DataValidator)
    ensures forall input :: v(input) == Returned(TransformLibraryResultToModelResult(d.decode(input), json))
  {
    input => Returned(TransformLibraryResultToModelResult(d.decode(input), json))
  }

  /** `fromEncoder(validation)`: a value the guard accepts is encoded (an
      exception of `encode` propagates); any other is rejected without encoding. */
  function FromEncoder(e: Encoder, json: JsonRuntime): (v: DataValidator)
    ensures forall input :: e.guard(input) && e.encode(input).Returned? ==> v(input) == Returned(Success(e.encode(input).value))
    ensures forall input :: e.guard(input) && e.encode(input).Threw? ==> v(input) == Threw(e.encode(input).exception)
    ensures forall input :: !e.guard(input) ==> v(input) == Returned(TransformLibraryResultToModelResult(Left([Rejection(e, input)]), json))
  {
    input =>
      if e.guard(input) then
        match e.encode(input)
        case Returned(encoded) => Returned(TransformLibraryResultToModelResult(Right(encoded), json))
        case Threw(x) => Threw(x)
      else Returned(TransformLibraryResultToModelResult(Left([Rejection(e, input)]), json))
  }

  /** The decoder's own errors and data come through verbatim. */
  lemma DecoderResultKept(d: Decoder, json: JsonRuntime, input: JsValue)
    ensures var r := FromDecoder(d, json)(input);
            r.Returned?
            && (d.decode(input).Right? ==> r.value == Success(d.decode(input).right))
            && (d.decode(input).Left? ==> r.value.Error? && r.value.errorInfo == d.decode(input).left
                                          && r.value.getHumanReadableMessage() == GetHumanReadableErrorMessage(d.decode(input).left, json))
  {
  }

  /** A rejected value's result does not depend on `encode`: encoders that
      differ only there reject it alike, so `encode` is not called. */
  lemma RejectionIgnoresEncode(e1: Encoder, e2: Encoder, json: JsonRuntime, input: JsValue)
    requires e1.name == e2.name && e1.guard == e2.guard
    requires !e1.guard(input)
    ensures FromEncoder(e1, json)(input) == FromEncoder(e2, json)(input)
  {
  }

  /** The rejection is one error with the fixed message, and it renders as that message. */
  lemma RejectionMessage(e: Encoder, json: JsonRuntime, input: JsValue)
    requires !e.guard(input)
    ensures var r := FromEncoder(e, json)(input);
            r.Returned? && r.value.Error? && |r.value.errorInfo| == 1
            && r.value.errorInfo[0] == ValidationError(input, [ContextEntry("", e.name, input)], Some(RejectedMessage))
            && r.value.getHumanReadableMessage() == Returned(RejectedMessage)
  {
    OwnMessagesRenderVerbatim([Rejection(e, input)], json);
    assert seq(1, i requires 0 <= i < 1 => [Rejection(e, input)][i].message.value) == [RejectedMessage];
  }
}
