/** The current validator-to-schema engine, `transformToJSONSchema`
    (metadata-jsonschema/src/transform.ts). The JavaScript code builds fresh
    schema objects and then assigns `description`, `required`, `type` and
    `minProperties`/`maxProperties` on them; here each such assignment is a
    datatype update of the value just built. */
module Transform {
  import opened Wrappers
  import opened JsValues
  import opened JsonSchema
  import opened IoTs
  import opened Collections
  import opened MetadataCommon

  /** The arguments that stay the same at every depth. An absent `override`
      is the callback that always answers `None`. */
  datatype Options = Options(
    cutOffTopLevelUndefined: bool,
    override: (Validator, bool) -> Option<Schema>,
    fallback: FallbackValue,
    defaultFallback: Schema)

  /** Which combinator `tryGetCommonTypeName` builds. */
  datatype Combinator = AnyOf | AllOf

  /** `transformToJSONSchema`: the outermost call is the only one with `topLevel` set. */
  function TransformToJsonSchema(v: Validator, o: Options): Schema {
    Impl(true, v, o)
  }

  /** `transformToJSONSchemaImpl`: the override first; then tagged dispatch
      followed by the description fill, or the lookup of known untagged
      validators; and the fallback when neither produced a schema. */
  function Impl(topLevel: bool, v: Validator, o: Options): Schema
    decreases Size(v), 1
  {
    match o.override(v, o.cutOffTopLevelUndefined)
    case Some(s) => s
    case None =>
      var produced :=
        if v.Untagged? then FromIoTypes(v)
        else match Tagged(v, topLevel, o)
          case Some(s) => Some(FillDescription(s, v.name))
          case None => None;
      produced.GetOr(GetFallbackValue(v, o.fallback, o.defaultFallback))
  }

  /** `components.map(recursion)` */
  function ImplAll(ts: seq<Validator>, o: Options): (r: seq<Schema>)
    ensures |r| == |ts|
    decreases SizeAll(ts), 2
  {
    seq(|ts|, i requires 0 <= i < |ts| => Impl(false, ts[i], o))
  }

  /** The `properties` of an object schema: each prop's key with the schema of its validator. */
  function ImplProps(ps: seq<Prop>, o: Options): (r: seq<Property>)
    ensures |r| == |ps|
    decreases SizeProps(ps), 2
  {
    seq(|ps|, i requires 0 <= i < |ps| => Property(ps[i].key, Impl(false, ps[i].validator, o)))
  }

  /** `transformTagged`: the case split on `_tag`. `None` stands for the
      `undefined` of the tags the switch does not handle. */
  function Tagged(v: Validator, topLevel: bool, o: Options): Option<Schema>
    decreases Size(v), 0
  {
    match v
    case NullType(_) => Some(Typed(JsonNull))
    case UndefinedType(_, _) => Some(Typed(JsonNull))
    case VoidType(_) => Some(Typed(JsonNull))
    case StringType(_) => Some(Typed(JsonString))
    case NumberType(_) => Some(Typed(JsonNumber))
    case BooleanType(_) => Some(Typed(JsonBoolean))
    case AnyArrayType(_) => Some(Typed(JsonArray))
    case AnyDictionaryType(_) => Some(Typed(JsonObject))
    case LiteralType(_, value) => Some(TransformLiteral(value))
    case KeyofType(_, keys) => Some(TransformKeyOf(keys))
    case RefinementType(_, t) => Some(Impl(false, t, o))
    case ReadonlyType(_, t) => Some(Impl(false, t, o))
    case ArrayType(_, t) => Some(ArraySchema(Impl(false, t, o)))
    case ReadonlyArrayType(_, t) => Some(ArraySchema(Impl(false, t, o)))
    case InterfaceType(_, ps) => Some(ObjectWithProperties(ImplProps(ps, o), false))
    case PartialType(_, ps) => Some(ObjectWithProperties(ImplProps(ps, o), true))
    case DictionaryType(_, d, c) =>
      var s := Typed(JsonObject);
      Some(s.(propertyNames := Some(Impl(false, d, o)), additionalProperties := Some(Impl(false, c, o))))
    case UnionType(_, ts) => Some(TransformUnion(ts, topLevel, o))
    case IntersectionType(_, ts) => Some(CommonType(AllOf, ImplAll(ts, o)))
    case TupleType(_, ts) => Some(TupleSchema(ImplAll(ts, o)))
    case ExactType(_, t) => Some(CountExactProperties(Impl(false, t, o)))
    case NeverType(_) => Some(Bool(false))
    case AnyType(_) => Some(Bool(true))
    case ObjectType(_) => Some(Typed(JsonObject))
    case _ => None
  }

  /** The `UnionType` case: the flattened components, cut at the outermost
      call when `t.undefined` is among them, else `anyOf` over all of them;
      then the enum compression. */
  function TransformUnion(ts: seq<Validator>, topLevel: bool, o: Options): Schema
    decreases SizeAll(ts), 4
  {
    var components := FlattenUnions(ts);
    var top := if topLevel then TryTopLevel(components, o) else None;
    var combined := if top.Some? then top.value else CommonType(AnyOf, ImplAll(components, o));
    Compress(combined)
  }

  /** `tryTransformTopLevelSchema`: when some component is `t.undefined`
      itself, the other components alone make the schema (a lone survivor
      unwrapped); when none is, there is nothing to cut. */
  function TryTopLevel(components: seq<Validator>, o: Options): (r: Option<Schema>)
    ensures r.None? <==> CanonicalUndefined !in components
    decreases SizeAll(components), 3
  {
    var nonUndefineds := RemoveCanonicalUndefined(components);
    if |nonUndefineds| != |components| then
      if |nonUndefineds| == 1 then Some(Impl(false, nonUndefineds[0], o))
      else Some(CommonType(AnyOf, ImplAll(nonUndefineds, o)))
    else None
  }

  /** `transformKeyOf`: no keys accept nothing; one key is a string
      constant; several keys are a string enumeration in key order. */
  function TransformKeyOf(keys: seq<string>): (s: Schema)
    ensures |keys| == 0 <==> s == Bool(false)
    ensures |keys| == 1 ==>
              SingleTypeName(s) == Some(JsonString) && s.constValue == Some(Str(keys[0]))
              && s.(schemaType := None, constValue := None) == EmptyObject
    ensures |keys| > 1 ==>
              SingleTypeName(s) == Some(JsonString) && s.enumValues.Some?
              && |s.enumValues.value| == |keys| && (forall i :: 0 <= i < |keys| ==> s.enumValues.value[i] == Str(keys[i]))
              && s.(schemaType := None, enumValues := None) == EmptyObject
  {
    if |keys| == 0 then Bool(false)
    else
      var t := Typed(JsonString);
      if |keys| == 1 then t.(constValue := Some(Str(keys[0])))
      else t.(enumValues := Some(seq(|keys|, i requires 0 <= i < |keys| => Str(keys[i]))))
  }

  /** The JSON type of a literal, by its JavaScript `typeof`: a string, a number, or else a boolean. */
  function LiteralTypeName(value: JsValue): JsonType {
    if value.Str? then JsonString else if value.Num? then JsonNumber else JsonBoolean
  }

  /** `transformLiteral`: the literal as `const`, typed by its JavaScript type. */
  function TransformLiteral(value: JsValue): (s: Schema)
    ensures s.Obj? && s.constValue == Some(value)
    ensures value.Str? ==> SingleTypeName(s) == Some(JsonString)
    ensures value.Num? ==> SingleTypeName(s) == Some(JsonNumber)
    ensures value.Boolean? ==> SingleTypeName(s) == Some(JsonBoolean)
    ensures s.(schemaType := None, constValue := None) == EmptyObject
  {
    var t := Typed(LiteralTypeName(value));
    t.(constValue := Some(value))
  }

  /** The single type names of the schemas. */
  function TypeNames(schemas: seq<Schema>): (ns: seq<Option<JsonType>>)
    ensures |ns| == |schemas| && forall i :: 0 <= i < |schemas| ==> ns[i] == SingleTypeName(schemas[i])
  {
    seq(|schemas|, i requires 0 <= i < |schemas| => SingleTypeName(schemas[i]))
  }

  /** `tryGetCommonTypeName`: `{ anyOf }` or `{ allOf }` over the schemas,
      with `type` hoisted when the de-duplicated list of their single type
      names is exactly one defined name. */
  function CommonType(kind: Combinator, schemas: seq<Schema>): (r: Schema)
    ensures r.Obj?
    ensures r.anyOf == (if kind == AnyOf then Some(schemas) else None)
    ensures r.allOf == (if kind == AllOf then Some(schemas) else None)
    ensures r.schemaType.None? || r.schemaType.value.Single?
    ensures r.(schemaType := None, anyOf := None, allOf := None) == EmptyObject
  {
    var base := match kind
      case AnyOf => EmptyObject.(anyOf := Some(schemas))
      case AllOf => EmptyObject.(allOf := Some(schemas));
    var types := Uniq(TypeNames(schemas));
    if |types| == 1 && types[0].Some? then base.(schemaType := Some(Single(types[0].value))) else base
  }

  /** The type is hoisted to `t` exactly when there is at least one schema
      and every one of them has the single type `t`. */
  lemma HoistedTypeIff(kind: Combinator, schemas: seq<Schema>, t: JsonType)
    ensures CommonType(kind, schemas).schemaType == Some(Single(t))
            <==> |schemas| > 0 && forall i :: 0 <= i < |schemas| ==> SingleTypeName(schemas[i]) == Some(t)
  {
    var names := TypeNames(schemas);
    UniqSingleton(names, Some(t));
    var types := Uniq(names);
    if |types| == 1 && types[0].Some? {
      assert types == [types[0]];
    }
  }

  /** No type is hoisted as soon as two schemas disagree on their single type name. */
  lemma NoHoistOnDisagreement(kind: Combinator, schemas: seq<Schema>, i: nat, j: nat)
    requires i < |schemas| && j < |schemas|
    requires SingleTypeName(schemas[i]) != SingleTypeName(schemas[j])
    ensures CommonType(kind, schemas).schemaType.None?
  {
    var r := CommonType(kind, schemas);
    if r.schemaType.Some? {
      HoistedTypeIff(kind, schemas, r.schemaType.value.name);
    }
  }
}
