/** `urlParameter` and `query` (data-backend/src/url.ts). */
module Url {
  import opened Wrappers
  import opened JsValues
  import opened Collections
  import opened DataProtocol
  import opened DataValidate
  import opened StringDecoding

  /** The `URLParameterInfo` of the endpoint specification: the name, the
      pattern, the decoder and its plain validator. */
  datatype ParameterInfo = ParameterInfo(name: string, regExp: RegExp, decoder: Decoder, validator: DataValidator)

  /** `urlParameter(name, decoder, regExp)`; `defaultRegExp` is the value of `defaultParameterRegExp()`. */
  function UrlParameter(name: string, decoder: Decoder, regExp: Option<RegExp>, defaultRegExp: RegExp, json: JsonRuntime): (r: ParameterInfo)
    ensures r.name == name && r.decoder == decoder
    ensures r.regExp == if regExp.Some? then regExp.value else defaultRegExp
    ensures forall x :: r.validator(x) == FromDecoder(decoder, json)(x)
  {
    ParameterInfo(name, regExp.GetOr(defaultRegExp), decoder, FromDecoder(decoder, json))
  }

  /** `query(validation)`: the generic string decoder with item name `Query parameter`. */
  function Query(validation: seq<(string, Decoder)>, json: JsonRuntime): (r: DecoderSpec)
    ensures Keys(r.metadata) == Keys(validation) && Keys(r.validators) == Keys(validation)
    ensures forall i :: 0 <= i < |validation| ==> r.metadata[i].1 == DecoderInfo(DecoderRequires(validation[i].1), validation[i].1)
    ensures forall i, x :: 0 <= i < |validation| ==>
              r.validators[i].1(x)
              == if DecoderRequires(validation[i].1) && x == Undefined
                 then Returned(ExceptionError(Str("Query parameter \"" + validation[i].0 + "\" is mandatory.")))
                 else FromDecoder(validation[i].1, json)(x)
  {
    var r := StringDecoder(validation, "Query parameter", json);
    assert forall k :: MandatoryMessage("Query parameter", k) == "Query parameter \"" + k + "\" is mandatory." by {
      assert "Query parameter" + " \"" == "Query parameter \"";
    }
    r
  }

  /** A present query parameter is decoded, required or not. */
  lemma PresentQueryParameterIsDecoded(validation: seq<(string, Decoder)>, json: JsonRuntime, i: int, x: JsValue)
    requires 0 <= i < |validation| && x != Undefined
    ensures Query(validation, json).validators[i].1(x) == FromDecoder(validation[i].1, json)(x)
  {
  }
}
