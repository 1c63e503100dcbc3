/** The older validator-to-schema engine, `validationToSchema`
    (metadata-jsonschema/src/convert.ts). It differs from module Transform:
    the override sees only the validator; literals and keys carry no `type`;
    `undefined` and `void` have no schema; `ReadonlyArrayType` is transparent;
    unions and intersections never hoist a `type`; and the repository's own
    `PipeTransform` takes the schema of its string side. */
module Convert {
  import opened Wrappers
  import opened JsValues
  import opened JsonSchema
  import opened IoTs
  import opened MetadataCommon

  /** The arguments that stay the same at every depth. An absent `override`
      is the callback that always answers `None`. */
  datatype ConvertOptions = ConvertOptions(
    override: Validator -> Option<Schema>,
    fallback: FallbackValue,
    defaultFallback: Schema)

  /** `validationToSchema(validation, override, fallbackValue, topLevel)`:
      recursive calls pass `topLevel = false`. */
  function ValidationToSchema(v: Validator, o: ConvertOptions, topLevel: bool): Schema
    decreases Size(v), 1
  {
    match o.override(v)
    case Some(s) => s
    case None =>
      var produced :=
        if v.Untagged? then FromIoTypes(v)
        else match ConvertTagged(v, topLevel, o)
          case Some(s) => Some(FillDescription(s, v.name))
          case None => None;
      produced.GetOr(GetFallbackValue(v, o.fallback, o.defaultFallback))
  }

  /** `components.map(recursion)` */
  function ConvertAll(ts: seq<Validator>, o: ConvertOptions): (r: seq<Schema>)
    ensures |r| == |ts|
    decreases SizeAll(ts), 2
  {
    seq(|ts|, i requires 0 <= i < |ts| => ValidationToSchema(ts[i], o, false))
  }

  /** The `properties` of an object schema. */
  function ConvertProps(ps: seq<Prop>, o: ConvertOptions): (r: seq<Property>)
    ensures |r| == |ps|
    decreases SizeProps(ps), 2
  {
    seq(|ps|, i requires 0 <= i < |ps| => Property(ps[i].key, ValidationToSchema(ps[i].validator, o, false)))
  }

  /** The `switch (tag)` of `validationToSchema`; `None` is a `retVal` left `undefined`. */
  function ConvertTagged(v: Validator, topLevel: bool, o: ConvertOptions): Option<Schema>
    decreases Size(v), 0
  {
    match v
    case NullType(_) => Some(Typed(JsonNull))
    case StringType(_) => Some(Typed(JsonString))
    case NumberType(_) => Some(Typed(JsonNumber))
    case BooleanType(_) => Some(Typed(JsonBoolean))
    case AnyArrayType(_) => Some(Typed(JsonArray))
    case AnyDictionaryType(_) => Some(Typed(JsonObject))
    case LiteralType(_, value) => Some(EmptyObject.(constValue := Some(value)))
    case KeyofType(_, keys) => ConvertKeyOf(keys)
    case RefinementType(_, t) => Some(ValidationToSchema(t, o, false))
    case ReadonlyType(_, t) => Some(ValidationToSchema(t, o, false))
    case ReadonlyArrayType(_, t) => Some(ValidationToSchema(t, o, false))
    case ArrayType(_, t) => Some(ArraySchema(ValidationToSchema(t, o, false)))
    case InterfaceType(_, ps) => Some(ObjectWithProperties(ConvertProps(ps, o), false))
    case PartialType(_, ps) => Some(ObjectWithProperties(ConvertProps(ps, o), true))
    case DictionaryType(_, d, c) =>
      var s := Typed(JsonObject);
      Some(s.(propertyNames := Some(ValidationToSchema(d, o, false)),
              additionalProperties := Some(ValidationToSchema(c, o, false))))
    case UnionType(_, ts) => Some(ConvertUnion(ts, topLevel, o))
    case IntersectionType(_, ts) => Some(EmptyObject.(allOf := Some(ConvertAll(ts, o))))
    case TupleType(_, ts) => Some(TupleSchema(ConvertAll(ts, o)))
    case ExactType(_, t) => Some(CountExactProperties(ValidationToSchema(t, o, false)))
    case NeverType(_) => Some(Bool(false))
    case AnyType(_) => Some(Bool(true))
    case ObjectType(_) => Some(Typed(JsonObject))
    case PipeTransform(name, t) =>
      var s := ValidationToSchema(t, o, false);
      Some(if s.Obj? then s.(description := Some(name)) else s)
    case _ => None
  }

  /** The `UnionType` case: at the outermost call, components identical to
      `t.undefined` are dropped when there are any (a lone survivor
      unwrapped, else `anyOf` over the survivors); otherwise `anyOf` over all
      components; then the enum compression. */
  function ConvertUnion(ts: seq<Validator>, topLevel: bool, o: ConvertOptions): Schema
    decreases SizeAll(ts), 4
  {
    var components := FlattenUnions(ts);
    var nonUndefineds := RemoveCanonicalUndefined(components);
    var combined :=
      if topLevel && |nonUndefineds| != |components| then
        if |nonUndefineds| == 1 then ValidationToSchema(nonUndefineds[0], o, false)
        else EmptyObject.(anyOf := Some(ConvertAll(nonUndefineds, o)))
      else EmptyObject.(anyOf := Some(ConvertAll(components, o)));
    Compress(combined)
  }

  /** The `KeyofType` case: one key is a constant, several keys an
      enumeration in key order, and no keys no schema at all. */
  function ConvertKeyOf(keys: seq<string>): (r: Option<Schema>)
    ensures r.None? <==> |keys| == 0
    ensures |keys| == 1 ==> r == Some(EmptyObject.(constValue := Some(Str(keys[0]))))
    ensures |keys| > 1 ==>
              r.Some? && r.value.Obj? && r.value.enumValues.Some? && |r.value.enumValues.value| == |keys|
              && (forall i :: 0 <= i < |keys| ==> r.value.enumValues.value[i] == Str(keys[i]))
              && r.value.(enumValues := None) == EmptyObject
  {
    if |keys| == 1 then Some(EmptyObject.(constValue := Some(Str(keys[0]))))
    else if |keys| > 1 then Some(EmptyObject.(enumValues := Some(seq(|keys|, i requires 0 <= i < |keys| => Str(keys[i])))))
    else None
  }
}
