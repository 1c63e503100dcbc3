/** The human-readable rendering of io-ts validation errors
    (data/src/error.ts), a copy of io-ts's `PathReporter`. Rendering can
    throw, because it calls `JSON.stringify`; an exception propagates. */
module DataError {
  import opened Wrappers
  import opened JsValues
  import opened DataProtocol

  /** The separator between the rendered errors. */
  const MessageSeparator := "  \n"

  /** `stringify(v)`: a function renders as its name, the non-finite numbers
      as `NaN`, `Infinity` and `-Infinity`, anything else as `JSON.stringify`
      renders it (`None` when that is `undefined`). */
  function Stringify(v: JsValue, json: JsonRuntime): (r: Outcome<Option<string>>)
    ensures v.Function? ==> r == Returned(Some(v.functionName))
    ensures v == Num(NaN) ==> r == Returned(Some("NaN"))
    ensures v == Num(PositiveInfinity) ==> r == Returned(Some("Infinity"))
    ensures v == Num(NegativeInfinity) ==> r == Returned(Some("-Infinity"))
    ensures !v.Function? && !(v.Num? && !v.n.Finite?) ==> r == json.stringify(v)
  {
    match v
    case Function(name) => Returned(Some(name))
    case Num(NaN) => Returned(Some("NaN"))
    case Num(PositiveInfinity) => Returned(Some("Infinity"))
    case Num(NegativeInfinity) => Returned(Some("-Infinity"))
    case _ => json.stringify(v)
  }

  /** One context step as `key: typeName`. */
  function ContextStep(c: ContextEntry): string {
    c.key + ": " + c.typeName
  }

  /** `getContextPath(context)`: the steps joined by `/`. */
  function GetContextPath(context: seq<ContextEntry>): (r: string)
    ensures context == [] ==> r == ""
    ensures |context| == 1 ==> r == context[0].key + ": " + context[0].typeName
  {
    Join(seq(|context|, i requires 0 <= i < |context| => ContextStep(context[i])), "/")
  }

  /** `getMessage(e)`: the error's own message when it has one, and otherwise
      `Invalid value <stringify(value)> supplied to <path>`. */
  function GetMessage(e: ValidationError, json: JsonRuntime): (r: Outcome<string>)
    ensures e.message.Some? ==> r == Returned(e.message.value)
    ensures e.message.None? && Stringify(e.value, json).Returned? ==>
              r == Returned("Invalid value " + TemplateText(Stringify(e.value, json).value) + " supplied to " + GetContextPath(e.context))
    ensures e.message.None? && Stringify(e.value, json).Threw? ==> r == Threw(Stringify(e.value, json).exception)
  {
    if e.message.Some? then Returned(e.message.value)
    else match Stringify(e.value, json)
      case Returned(text) => Returned("Invalid value " + TemplateText(text) + " supplied to " + GetContextPath(e.context))
      case Threw(x) => Threw(x)
  }

  /** `failure(errors)`, that is `errors.map(getMessage)`: every message in
      order, or the exception of the first error whose rendering throws. */
  function Failure(errors: seq<ValidationError>, json: JsonRuntime): (r: Outcome<seq<string>>)
    ensures r.Returned? <==> forall i :: 0 <= i < |errors| ==> GetMessage(errors[i], json).Returned?
    ensures r.Returned? ==> |r.value| == |errors| && forall i :: 0 <= i < |errors| ==> r.value[i] == GetMessage(errors[i], json).value
    ensures r.Threw? ==> exists i :: 0 <= i < |errors| && GetMessage(errors[i], json) == Threw(r.exception)
                                    && forall j :: 0 <= j < i ==> GetMessage(errors[j], json).Returned?
    decreases |errors|
  {
    if errors == [] then Returned([])
    else match GetMessage(errors[0], json)
      case Threw(x) => Threw(x)
      case Returned(m) =>
        match Failure(errors[1..], json)
        case Threw(x) => Threw(x)
        case Returned(ms) => Returned([m] + ms)
  }

  /** `getHumanReadableErrorMessage(error)`: the messages joined by `"  \n"`. */
  function GetHumanReadableErrorMessage(errors: seq<ValidationError>, json: JsonRuntime): (r: Outcome<string>)
    ensures errors == [] ==> r == Returned("")
  {
    match Failure(errors, json)
    case Returned(ms) => Returned(Join(ms, MessageSeparator))
    case Threw(x) => Threw(x)
  }

  /** `createErrorObject(errorInfo)`. */
  function CreateErrorObject<T>(errorInfo: seq<ValidationError>, json: JsonRuntime): (r: DataResult<T>)
    ensures Tag(r) == "error" && r.Error?
    ensures r.errorInfo == errorInfo
    ensures r.getHumanReadableMessage() == GetHumanReadableErrorMessage(errorInfo, json)
  {
    Error(errorInfo, () => GetHumanReadableErrorMessage(errorInfo, json))
  }

  /** When every error carries its own message, the rendering is those
      messages in order, joined; `JSON.stringify` is never consulted. */
  lemma OwnMessagesRenderVerbatim(errors: seq<ValidationError>, json: JsonRuntime)
    requires forall i :: 0 <= i < |errors| ==> errors[i].message.Some?
    ensures GetHumanReadableErrorMessage(errors, json)
            == Returned(Join(seq(|errors|, i requires 0 <= i < |errors| => errors[i].message.value), MessageSeparator))
  {
    var ms := Failure(errors, json).value;
    assert ms == seq(|errors|, i requires 0 <= i < |errors| => errors[i].message.value);
  }

  /** Appending an error appends its rendering after one more separator. */
  lemma {:induction false} RenderSnoc(errors: seq<ValidationError>, e: ValidationError, json: JsonRuntime)
    requires errors != []
    requires GetHumanReadableErrorMessage(errors, json).Returned? && GetMessage(e, json).Returned?
    ensures GetHumanReadableErrorMessage(errors + [e], json)
            == Returned(GetHumanReadableErrorMessage(errors, json).value + MessageSeparator + GetMessage(e, json).value)
  {
    var all := errors + [e];
    var ms := Failure(errors, json).value;
    assert Failure(all, json).Returned? by {
      forall i | 0 <= i < |all| ensures GetMessage(all[i], json).Returned? {
        if i < |errors| { assert all[i] == errors[i]; }
      }
    }
    assert Failure(all, json).value == ms + [GetMessage(e, json).value];
    JoinSnoc(ms, GetMessage(e, json).value, MessageSeparator);
  }

  /** Adding a step to the context appends `/key: typeName` to the path. */
  lemma ContextPathSnoc(context: seq<ContextEntry>, c: ContextEntry)
    requires context != []
    ensures GetContextPath(context + [c]) == GetContextPath(context) + "/" + c.key + ": " + c.typeName
  {
    var steps := seq(|context|, i requires 0 <= i < |context| => ContextStep(context[i]));
    var all := context + [c];
    assert seq(|all|, i requires 0 <= i < |all| => ContextStep(all[i])) == steps + [ContextStep(c)];
    JoinSnoc(steps, ContextStep(c), "/");
  }

  /** The rendering of a root-level decoding failure without a message,
      such as `t.number.decode("not-a-number")`: the value's JSON text and
      the root step, whose key is empty (`: number`). */
  lemma RootFailureMessage(v: JsValue, typeName: string, text: string, json: JsonRuntime)
    requires Stringify(v, json) == Returned(Some(text))
    ensures GetHumanReadableErrorMessage([ValidationError(v, [ContextEntry("", typeName, v)], None)], json)
            == Returned("Invalid value " + text + " supplied to " + (": " + typeName))
  {
    var e := ValidationError(v, [ContextEntry("", typeName, v)], None);
    assert "" + ": " + typeName == ": " + typeName;
    assert GetContextPath(e.context) == ": " + typeName;
    var m := "Invalid value " + text + " supplied to " + (": " + typeName);
    assert GetMessage(e, json) == Returned(m);
    assert [e][1..] == [];
    assert Failure([e][1..], json) == Returned([]);
    assert [m] + [] == [m];
    assert Failure([e], json) == Returned([m]);
  }
}
