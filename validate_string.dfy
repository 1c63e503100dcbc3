/** `urlParameters` and `queryValidator` (data-backend/src/validate-string.ts). */
module ValidateString {
  import opened Wrappers
  import opened JsValues
  import opened Collections
  import opened DataProtocol
  import opened DataValidate
  import opened StringDecoding

  /** `URLParameterInfo`: a decoder alone, or a decoder with its own `regExp`. */
  datatype UrlParameterInfo = Plain(decoder: Decoder) | WithRegExp(decoder: Decoder, regExp: RegExp)

  /** The metadata of one URL parameter. */
  datatype UrlParameterMetadata = UrlParameterMetadata(decoder: Decoder, regExp: RegExp)

  /** The validators and the metadata of the URL parameters. */
  datatype UrlParametersSpec = UrlParametersSpec(validators: seq<(string, DataValidator)>, metadata: seq<(string, UrlParameterMetadata)>)

  /** The decoder of `info`: `info.decoder` when it has a `regExp`, else `info` itself. */
  function ExtractDecoder(info: UrlParameterInfo): (d: Decoder)
    ensures info.Plain? ==> info == Plain(d)
    ensures info.WithRegExp? ==> info == WithRegExp(d, info.regExp)
  {
    match info
    case Plain(d) => d
    case WithRegExp(d, _) => d
  }

  /** `urlParameters(validation)`; `defaultRegExp` is the value of
      `defaultParameterRegExp()`, which lives in the other package. URL
      parameters are never optional: there is no probe of `undefined` and no
      mandatory message, every value goes to the decoder. */
  function UrlParameters(validation: seq<(string, UrlParameterInfo)>, defaultRegExp: RegExp, json: JsonRuntime): (r: UrlParametersSpec)
    ensures Keys(r.validators) == Keys(validation) && Keys(r.metadata) == Keys(validation)
    ensures forall i, x :: 0 <= i < |validation| ==> r.validators[i].1(x) == FromDecoder(ExtractDecoder(validation[i].1), json)(x)
    ensures forall i :: 0 <= i < |validation| ==>
              r.metadata[i].1.decoder == ExtractDecoder(validation[i].1)
              && r.metadata[i].1.regExp == if validation[i].1.WithRegExp? then validation[i].1.regExp else defaultRegExp
  {
    UrlParametersSpec(
      TransformEntries(validation, (info: UrlParameterInfo, key: string) => FromDecoder(ExtractDecoder(info), json)),
      TransformEntries(validation, (info: UrlParameterInfo, key: string) =>
        UrlParameterMetadata(ExtractDecoder(info), if info.WithRegExp? then info.regExp else defaultRegExp)))
  }

  /** `queryValidator(validation)`: the generic string decoder with item name `Query`. */
  function QueryValidator(validation: seq<(string, Decoder)>, json: JsonRuntime): (r: DecoderSpec)
    ensures Keys(r.metadata) == Keys(validation) && Keys(r.validators) == Keys(validation)
    ensures forall i :: 0 <= i < |validation| ==> r.metadata[i].1 == DecoderInfo(DecoderRequires(validation[i].1), validation[i].1)
    ensures forall i, x :: 0 <= i < |validation| ==>
              r.validators[i].1(x)
              == if DecoderRequires(validation[i].1) && x == Undefined
                 then Returned(ExceptionError(Str("Query \"" + validation[i].0 + "\" is mandatory.")))
                 else FromDecoder(validation[i].1, json)(x)
  {
    var r := StringDecoder(validation, "Query", json);
    assert forall k :: MandatoryMessage("Query", k) == "Query \"" + k + "\" is mandatory." by {
      assert "Query" + " \"" == "Query \"";
    }
    r
  }

  /** Unlike headers and query parameters, a URL parameter's `undefined` is
      decoded like any other value, required or not. */
  lemma UrlParameterUndefinedIsDecoded(validation: seq<(string, UrlParameterInfo)>, defaultRegExp: RegExp, json: JsonRuntime, i: int)
    requires 0 <= i < |validation|
    ensures var r := UrlParameters(validation, defaultRegExp, json).validators[i].1(Undefined);
            var decoded := ExtractDecoder(validation[i].1).decode(Undefined);
            r.Returned? && (decoded.Right? <==> r.value.Success?) && (decoded.Left? ==> r.value.errorInfo == decoded.left)
  {
  }
}
