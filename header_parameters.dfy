/** `headersValidator` and `responseHeadersValidator`
    (data-backend/src/header-parameters.ts): validators of request and
    response headers, with requiredness found by probing `undefined`. */
module HeaderParameters {
  import opened Wrappers
  import opened JsValues
  import opened Collections
  import opened DataProtocol
  import opened DataValidate
  import opened StringDecoding
  import opened StringEncoding

  /** `Header "${headerName}" is mandatory.` */
  function HeaderMandatory(headerName: string): string {
    "Header \"" + headerName + "\" is mandatory."
  }

  /** `headersValidator(validation)`: a header is required when its decoder
      rejects `undefined`; a missing required header is reported without
      consulting the decoder, anything else is decoded. */
  function HeadersValidator(validation: seq<(string, Decoder)>, json: JsonRuntime): (r: DecoderSpec)
    ensures Keys(r.metadata) == Keys(validation) && Keys(r.validators) == Keys(validation)
    ensures forall i :: 0 <= i < |validation| ==> r.metadata[i].1 == DecoderInfo(DecoderRequires(validation[i].1), validation[i].1)
    ensures forall i, x :: 0 <= i < |validation| ==>
              r.validators[i].1(x)
              == if DecoderRequires(validation[i].1) && x == Undefined
                 then Returned(ExceptionError(Str(HeaderMandatory(validation[i].0))))
                 else FromDecoder(validation[i].1, json)(x)
  {
    var finalValidators := TransformEntries(validation, (d: Decoder, key: string) => DecoderInfo(d.decode(Undefined).Left?, d));
    DecoderSpec(
      TransformEntries(finalValidators, (info: DecoderInfo, headerName: string) =>
        RequireDefined(info.required, HeaderMandatory(headerName), FromDecoder(info.decoder, json))),
      finalValidators)
  }

  /** The probe of `responseHeadersValidator`: the flag starts out `true`
      and is cleared once `encode(undefined)` returns; a throw leaves it set. */
  method ProbeRequired(e: Encoder) returns (isRequired: bool)
    ensures isRequired <==> e.encode(Undefined).Threw?
  {
    isRequired := true;
    match e.encode(Undefined) {
      case Returned(_) =>
        isRequired := false;
      case Threw(_) =>
    }
  }

  /** `responseHeadersValidator(validation)`: a header is required when its
      encoder throws on `undefined`; a missing required header is reported,
      anything else goes through the guarded encoder. */
  function ResponseHeadersValidator(validation: seq<(string, Encoder)>, json: JsonRuntime): (r: EncoderSpec)
    ensures Keys(r.metadata) == Keys(validation) && Keys(r.validators) == Keys(validation)
    ensures forall i :: 0 <= i < |validation| ==> r.metadata[i].1 == EncoderInfo(validation[i].1.encode(Undefined).Threw?, validation[i].1)
    ensures forall i, x :: 0 <= i < |validation| ==>
              r.validators[i].1(x)
              == if validation[i].1.encode(Undefined).Threw? && x == Undefined
                 then Returned(ExceptionError(Str(HeaderMandatory(validation[i].0))))
                 else FromEncoder(validation[i].1, json)(x)
  {
    var finalValidators := TransformEntries(validation, (e: Encoder, key: string) => EncoderInfo(e.encode(Undefined).Threw?, e));
    EncoderSpec(
      TransformEntries(finalValidators, (info: EncoderInfo, headerName: string) =>
        RequireDefined(info.required, HeaderMandatory(headerName), FromEncoder(info.encoder, json))),
      finalValidators)
  }

  /** The header message is the generic one with item name `Header`. */
  lemma HeaderMessageIsGeneric(headerName: string)
    ensures HeaderMandatory(headerName) == MandatoryMessage("Header", headerName)
  {
    assert "Header \"" == "Header" + " \"";
  }

  /** Request headers are the generic string decoder with item name `Header`:
      the same metadata, and validators that answer alike on every value. */
  lemma HeadersAreStringDecoder(validation: seq<(string, Decoder)>, json: JsonRuntime)
    ensures var h := HeadersValidator(validation, json);
            var s := StringDecoder(validation, "Header", json);
            h.metadata == s.metadata
            && |h.validators| == |s.validators|
            && forall i, x :: 0 <= i < |validation| ==> h.validators[i].0 == s.validators[i].0 && h.validators[i].1(x) == s.validators[i].1(x)
  {
    var h := HeadersValidator(validation, json);
    var s := StringDecoder(validation, "Header", json);
    assert Keys(h.metadata) == Keys(s.metadata);
    assert forall i :: 0 <= i < |validation| ==> h.metadata[i] == s.metadata[i];
    forall i, x | 0 <= i < |validation|
      ensures h.validators[i].0 == s.validators[i].0 && h.validators[i].1(x) == s.validators[i].1(x)
    {
      HeaderMessageIsGeneric(validation[i].0);
      assert Keys(h.validators)[i] == Keys(s.validators)[i];
    }
  }

  /** Response headers are the generic string encoder with item name
      `Header` exactly when, for every header, throwing on `undefined` and
      the guard rejecting `undefined` coincide; each header's requiredness
      differs otherwise. */
  lemma ResponseHeadersVersusStringEncoder(validation: seq<(string, Encoder)>, json: JsonRuntime, i: int)
    requires 0 <= i < |validation|
    ensures var h := ResponseHeadersValidator(validation, json);
            var s := StringEncoder(validation, "Header", json);
            (h.metadata[i].1 == s.metadata[i].1 <==> (validation[i].1.encode(Undefined).Threw? <==> !validation[i].1.guard(Undefined)))
            && (h.metadata[i].1 == s.metadata[i].1 ==> forall x :: h.validators[i].1(x) == s.validators[i].1(x))
  {
    HeaderMessageIsGeneric(validation[i].0);
  }

  /** An encoder whose `encode` returns its input, as `t.string`'s does,
      never throws on `undefined`, so its header is optional. */
  lemma IdentityEncoderIsOptional(key: string, name: string, guard: JsValue -> bool, json: JsonRuntime)
    ensures !ResponseHeadersValidator([(key, Encoder(name, guard, x => Returned(x)))], json).metadata[0].1.required
  {
  }
}
