/** `stringDecoder(validation, itemName)`, the generic decoder of named
    textual items (URL query parameters, headers) that `queryValidator` and
    `query` delegate to. Its file, string-decoder-generic.ts, is not part of
    this model; its behaviour is the one data-backend/src/__test__/url.spec.ts
    exercises, which is the pattern of `headersValidator`: an item is
    required when its decoder rejects `undefined`, and a missing required
    item is reported as `<itemName> "<key>" is mandatory.`. */
module StringDecoding {
  import opened Wrappers
  import opened JsValues
  import opened Collections
  import opened DataProtocol
  import opened DataValidate

  /** The metadata of one decoded item. */
  datatype DecoderInfo = DecoderInfo(required: bool, decoder: Decoder)

  /** The validators and the metadata, both keyed by item name. */
  datatype DecoderSpec = DecoderSpec(validators: seq<(string, DataValidator)>, metadata: seq<(string, DecoderInfo)>)

  /** `${itemName} "${key}" is mandatory.` */
  function MandatoryMessage(itemName: string, key: string): string {
    itemName + " \"" + key + "\" is mandatory."
  }

  /** Whether the item is required: its decoder rejects `undefined`. */
  predicate DecoderRequires(d: Decoder) {
    d.decode(Undefined).Left?
  }

  function StringDecoder(validation: seq<(string, Decoder)>, itemName: string, json: JsonRuntime): (r: DecoderSpec)
    ensures Keys(r.metadata) == Keys(validation) && Keys(r.validators) == Keys(validation)
    ensures forall i :: 0 <= i < |validation| ==> r.metadata[i].1 == DecoderInfo(DecoderRequires(validation[i].1), validation[i].1)
    ensures forall i, x :: 0 <= i < |validation| ==>
              r.validators[i].1(x)
              == if DecoderRequires(validation[i].1) && x == Undefined
                 then Returned(ExceptionError(Str(MandatoryMessage(itemName, validation[i].0))))
                 else FromDecoder(validation[i].1, json)(x)
  {
    var metadata := TransformEntries(validation, (d: Decoder, key: string) => DecoderInfo(DecoderRequires(d), d));
    DecoderSpec(
      TransformEntries(metadata, (info: DecoderInfo, key: string) =>
        RequireDefined(info.required, MandatoryMessage(itemName, key), FromDecoder(info.decoder, json))),
      metadata)
  }
}
