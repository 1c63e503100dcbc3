/** `stringEncoder(validation, itemName)` (data-backend/src/string-encoder.ts):
    encoders of named textual items. An item is required when its encoder's
    guard rejects `undefined`; a missing required item is reported as
    `<itemName> "<key>" is mandatory.`, any other value goes through
    `fromEncoder`. */
module StringEncoding {
  import opened Wrappers
  import opened JsValues
  import opened Collections
  import opened DataProtocol
  import opened DataValidate
  import opened StringDecoding

  /** The metadata of one encoded item. */
  datatype EncoderInfo = EncoderInfo(required: bool, encoder: Encoder)

  /** The validators and the metadata, both keyed by item name. */
  datatype EncoderSpec = EncoderSpec(validators: seq<(string, DataValidator)>, metadata: seq<(string, EncoderInfo)>)

  function StringEncoder(validation: seq<(string, Encoder)>, itemName: string, json: JsonRuntime): (r: EncoderSpec)
    ensures Keys(r.metadata) == Keys(validation) && Keys(r.validators) == Keys(validation)
    ensures forall i :: 0 <= i < |validation| ==> r.metadata[i].1 == EncoderInfo(!validation[i].1.guard(Undefined), validation[i].1)
    ensures forall i, x :: 0 <= i < |validation| ==>
              r.validators[i].1(x)
              == if !validation[i].1.guard(Undefined) && x == Undefined
                 then Returned(ExceptionError(Str(MandatoryMessage(itemName, validation[i].0))))
                 else FromEncoder(validation[i].1, json)(x)
  {
    var metadata := TransformEntries(validation, (e: Encoder, key: string) => EncoderInfo(!e.guard(Undefined), e));
    EncoderSpec(
      TransformEntries(metadata, (info: EncoderInfo, key: string) =>
        RequireDefined(info.required, MandatoryMessage(itemName, key), FromEncoder(info.encoder, json))),
      metadata)
  }

  /** An optional item's `undefined` is accepted by the guard and encoded:
      the result is what `encode(undefined)` returns. */
  lemma OptionalItemEncodesUndefined(validation: seq<(string, Encoder)>, itemName: string, json: JsonRuntime, i: int)
    requires 0 <= i < |validation|
    requires !StringEncoder(validation, itemName, json).metadata[i].1.required
    ensures var e := validation[i].1;
            var r := StringEncoder(validation, itemName, json).validators[i].1(Undefined);
            (e.encode(Undefined).Returned? ==> r == Returned(Success(e.encode(Undefined).value)))
            && (e.encode(Undefined).Threw? ==> r == Threw(e.encode(Undefined).exception))
  {
  }

  /** A required item's missing value is reported without touching its
      encoder: encoders under the same key with the same guard answer alike. */
  lemma MissingItemIgnoresEncoder(validation: seq<(string, Encoder)>, other: seq<(string, Encoder)>,
                                  itemName: string, json: JsonRuntime, i: int)
    requires |other| == |validation| && 0 <= i < |validation|
    requires other[i].0 == validation[i].0 && other[i].1.guard == validation[i].1.guard
    requires StringEncoder(validation, itemName, json).metadata[i].1.required
    ensures StringEncoder(validation, itemName, json).validators[i].1(Undefined)
            == StringEncoder(other, itemName, json).validators[i].1(Undefined)
            == Returned(ExceptionError(Str(MandatoryMessage(itemName, validation[i].0))))
  {
  }
}
