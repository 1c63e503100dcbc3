/** `createStateValidatorFactory` (state/src/state-validator-factory.ts):
    the validator of the state an endpoint needs. The generic factory it
    narrows, `createStateValidatorFactoryGeneric`, is not part of this model;
    the model gives the validator the callback builds from the mandatory and
    the optional property names it is handed. */
module StateValidatorFactory {
  import opened Wrappers
  import opened JsValues
  import opened Collections
  import opened IoTs
  import opened DataProtocol
  import opened DataError
  import opened DataUtils

  /** `t.intersection([t.type(mandatory), t.partial(optional)])`, by its two lists of properties. */
  datatype CombinedValidator = CombinedValidator(mandatory: seq<Prop>, optional: seq<Prop>)

  /** The result of the state validator: `transformLibraryResultToModelResult`
      on success, and on failure the fields of `createErrorObject` plus `erroneousProperties`. */
  datatype StateResult =
    | StateSuccess(data: JsValue)
    | StateError(errorInfo: seq<ValidationError>, getHumanReadableMessage: () -> Outcome<string>, erroneousProperties: seq<string>)

  /** The properties of one part: each name with `validation[name].validation`. */
  function PartProps(validation: seq<(string, Validator)>, names: seq<string>): (ps: seq<Prop>)
    requires forall n :: n in names ==> n in Keys(validation)
    ensures |ps| == |names|
    ensures forall i :: 0 <= i < |names| ==> ps[i] == Prop(names[i], Lookup(validation, names[i]))
  {
    seq(|names|, i requires 0 <= i < |names| => Prop(names[i], Lookup(validation, names[i])))
  }

  /** The combined validator: mandatory names in the `t.type` part, optional names in the `t.partial` part. */
  function Combine(validation: seq<(string, Validator)>, mandatory: seq<string>, optional: seq<string>): (c: CombinedValidator)
    requires forall n :: n in mandatory ==> n in Keys(validation)
    requires forall n :: n in optional ==> n in Keys(validation)
    ensures Keys(PropsAsRecord(c.mandatory)) == mandatory && Keys(PropsAsRecord(c.optional)) == optional
    ensures forall i :: 0 <= i < |c.mandatory| ==> c.mandatory[i].validator == Lookup(validation, mandatory[i])
    ensures forall i :: 0 <= i < |c.optional| ==> c.optional[i].validator == Lookup(validation, optional[i])
  {
    CombinedValidator(PartProps(validation, mandatory), PartProps(validation, optional))
  }

  /** A property list as a record. */
  function PropsAsRecord(ps: seq<Prop>): (r: seq<(string, Validator)>)
    ensures |r| == |ps| && forall i :: 0 <= i < |ps| ==> r[i] == (ps[i].key, ps[i].validator)
  {
    seq(|ps|, i requires 0 <= i < |ps| => (ps[i].key, ps[i].validator))
  }

  /** `errors.flatMap((err) => err.context.map((ctx) => ctx.key))` */
  function ErroneousProperties(errors: seq<ValidationError>): seq<string>
    decreases |errors|
  {
    if errors == [] then []
    else
      var context := errors[0].context;
      seq(|context|, i requires 0 <= i < |context| => context[i].key) + ErroneousProperties(errors[1..])
  }

  /** The number of context steps over all errors. */
  function TotalContextLength(errors: seq<ValidationError>): nat
    decreases |errors|
  {
    if errors == [] then 0 else |errors[0].context| + TotalContextLength(errors[1..])
  }

  /** The state validator: the combined validator's `decode` (io-ts's, a parameter) and the result built from it. */
  function StateValidator(combined: CombinedValidator, decode: (CombinedValidator, JsValue) -> Validation<JsValue>,
                          json: JsonRuntime): (v: JsValue -> StateResult)
    ensures forall input :: decode(combined, input).Right? ==>
              v(input) == StateSuccess(TransformLibraryResultToModelResult(decode(combined, input), json).data)
    ensures forall input :: decode(combined, input).Left? ==>
              var errors := decode(combined, input).left;
              var created: DataResult<JsValue> := CreateErrorObject(errors, json);
              v(input).StateError? && v(input).errorInfo == created.errorInfo
              && v(input).getHumanReadableMessage() == created.getHumanReadableMessage()
              && v(input).erroneousProperties == ErroneousProperties(errors)
  {
    input =>
      match decode(combined, input)
      case Right(data) => StateSuccess(data)
      case Left(errors) =>
        var created: DataResult<JsValue> := CreateErrorObject(errors, json);
        StateError(created.errorInfo, created.getHumanReadableMessage, ErroneousProperties(errors))
  }

  /** One key per context step: duplicates and empty root keys are kept. */
  lemma {:induction false} ErroneousPropertiesLength(errors: seq<ValidationError>)
    ensures |ErroneousProperties(errors)| == TotalContextLength(errors)
    decreases |errors|
  {
    if errors != [] {
      ErroneousPropertiesLength(errors[1..]);
    }
  }

  /** A key is reported exactly when some context step of some error has it. */
  lemma {:induction false} ErroneousPropertiesMembers(errors: seq<ValidationError>, k: string)
    ensures k in ErroneousProperties(errors) <==>
            exists i, j :: 0 <= i < |errors| && 0 <= j < |errors[i].context| && errors[i].context[j].key == k
    decreases |errors|
  {
    if errors != [] {
      ErroneousPropertiesMembers(errors[1..], k);
      var head := ErroneousProperties(errors)[..|errors[0].context|];
      assert ErroneousProperties(errors) == head + ErroneousProperties(errors[1..]);
      if k in head {
        var j :| 0 <= j < |head| && head[j] == k;
        assert errors[0].context[j].key == k;
      }
      if exists i, j :: 0 <= i < |errors| && 0 <= j < |errors[i].context| && errors[i].context[j].key == k {
        var i, j :| 0 <= i < |errors| && 0 <= j < |errors[i].context| && errors[i].context[j].key == k;
        if i == 0 {
          assert head[j] == k;
        } else {
          assert errors[1..][i - 1] == errors[i];
        }
      }
    }
  }

  /** Errors reported for two inputs in turn report their keys in turn. */
  lemma {:induction false} ErroneousPropertiesConcat(a: seq<ValidationError>, b: seq<ValidationError>)
    ensures ErroneousProperties(a + b) == ErroneousProperties(a) + ErroneousProperties(b)
    decreases |a|
  {
    if a != [] {
      assert (a + b)[1..] == a[1..] + b;
      ErroneousPropertiesConcat(a[1..], b);
    } else {
      assert a + b == b;
    }
  }

  /** The failure renders as `getHumanReadableErrorMessage` of the decoder's errors. */
  lemma StateFailureMessage(combined: CombinedValidator, decode: (CombinedValidator, JsValue) -> Validation<JsValue>,
                            json: JsonRuntime, input: JsValue)
    requires decode(combined, input).Left?
    ensures StateValidator(combined, decode, json)(input).getHumanReadableMessage()
            == GetHumanReadableErrorMessage(decode(combined, input).left, json)
  {
  }
}
