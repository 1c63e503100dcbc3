/** What `transformToJSONSchema` promises, proved about the model in
    module Transform. */
module TransformLemmas {
  import opened Wrappers
  import opened JsValues
  import opened JsonSchema
  import opened IoTs
  import opened Collections
  import opened MetadataCommon
  import opened Transform

  /** The override declines this validator, so the engine itself runs. */
  predicate NotOverridden(v: Validator, o: Options) {
    o.override(v, o.cutOffTopLevelUndefined).None?
  }

  /** `r` is exactly `{ type: t, description: name }`. */
  predicate TypedAndNamed(r: Schema, t: JsonType, name: string) {
    SingleTypeName(r) == Some(t) && r.description == Some(name)
    && r.(schemaType := None, description := None) == EmptyObject
  }

  /** A schema the override returns is the result, untouched: no dispatch,
      no recursion, no description. Every depth goes through `Impl`, so this
      holds at every depth. */
  lemma OverrideVerbatim(topLevel: bool, v: Validator, o: Options, s: Schema)
    requires o.override(v, o.cutOffTopLevelUndefined) == Some(s)
    ensures Impl(topLevel, v, o) == s
  {
  }

  /** The primitive tags, with the validator's name as description. */
  lemma PrimitiveTags(topLevel: bool, v: Validator, o: Options)
    requires NotOverridden(v, o)
    ensures v.NullType? || v.UndefinedType? || v.VoidType? ==> TypedAndNamed(Impl(topLevel, v, o), JsonNull, v.name)
    ensures v.StringType? ==> TypedAndNamed(Impl(topLevel, v, o), JsonString, v.name)
    ensures v.NumberType? ==> TypedAndNamed(Impl(topLevel, v, o), JsonNumber, v.name)
    ensures v.BooleanType? ==> TypedAndNamed(Impl(topLevel, v, o), JsonBoolean, v.name)
    ensures v.AnyArrayType? ==> TypedAndNamed(Impl(topLevel, v, o), JsonArray, v.name)
    ensures v.AnyDictionaryType? || v.ObjectType? ==> TypedAndNamed(Impl(topLevel, v, o), JsonObject, v.name)
    ensures v.NeverType? ==> Impl(topLevel, v, o) == Bool(false)
    ensures v.AnyType? ==> Impl(topLevel, v, o) == Bool(true)
  {
  }

  /** After tagged dispatch, an object schema without a description gets
      the validator's name, and one with a description keeps it; nothing
      else about the dispatched schema changes. */
  lemma DescriptionFilled(topLevel: bool, v: Validator, o: Options)
    requires NotOverridden(v, o) && !v.Untagged?
    requires Tagged(v, topLevel, o).Some?
    ensures var s := Tagged(v, topLevel, o).value;
            var r := Impl(topLevel, v, o);
            (s.Bool? ==> r == s)
            && (s.Obj? ==> r.(description := None) == s.(description := None)
                           && r.description == (if HasDescription(s) then s.description else Some(v.name)))
  {
  }

  /** `t.keyof`: no keys accept nothing; one key is a named string constant;
      several keys are a named string enumeration in key order. */
  lemma KeyofSchema(topLevel: bool, n: string, keys: seq<string>, o: Options)
    requires NotOverridden(KeyofType(n, keys), o)
    ensures var r := Impl(topLevel, KeyofType(n, keys), o);
            (|keys| == 0 <==> r == Bool(false))
            && (|keys| == 1 ==> SingleTypeName(r) == Some(JsonString) && r.constValue == Some(Str(keys[0])) && r.description == Some(n))
            && (|keys| > 1 ==> SingleTypeName(r) == Some(JsonString) && r.enumValues.Some? && |r.enumValues.value| == |keys|
                               && (forall i :: 0 <= i < |keys| ==> r.enumValues.value[i] == Str(keys[i])) && r.description == Some(n))
  {
    assert Tagged(KeyofType(n, keys), topLevel, o) == Some(TransformKeyOf(keys));
  }

  /** `t.literal(value)`: the value as `const`, typed by its JavaScript type. */
  lemma LiteralSchema(topLevel: bool, n: string, value: JsValue, o: Options)
    requires NotOverridden(LiteralType(n, value), o)
    ensures var r := Impl(topLevel, LiteralType(n, value), o);
            r.Obj? && r.constValue == Some(value) && r.description == Some(n)
            && SingleTypeName(r) == Some(LiteralTypeName(value))
            && r.(schemaType := None, constValue := None, description := None) == EmptyObject
  {
    assert Tagged(LiteralType(n, value), topLevel, o) == Some(TransformLiteral(value));
  }

  /** `t.type(props)` / `t.partial(props)`: one property per prop, in order,
      each with its validator's schema; `required` lists every key in order
      for `t.type` and is absent for `t.partial`. */
  lemma PropsSchema(topLevel: bool, v: Validator, o: Options)
    requires v.InterfaceType? || v.PartialType?
    requires NotOverridden(v, o)
    ensures var r := Impl(topLevel, v, o);
            SingleTypeName(r) == Some(JsonObject) && r.description == Some(v.name)
            && r.properties.Some? && |r.properties.value| == |v.props|
            && (forall i :: 0 <= i < |v.props| ==>
                  r.properties.value[i] == Property(v.props[i].key, Impl(false, v.props[i].validator, o)))
            && (v.InterfaceType? ==> r.required.Some? && |r.required.value| == |v.props|
                                     && forall i :: 0 <= i < |v.props| ==> r.required.value[i] == v.props[i].key)
            && (v.PartialType? ==> r.required.None?)
  {
    var ps := ImplProps(v.props, o);
    assert Tagged(v, topLevel, o) == Some(ObjectWithProperties(ps, v.PartialType?));
  }

  /** `t.record(domain, codomain)`: the key schema as `propertyNames` and the value schema as `additionalProperties`. */
  lemma DictionarySchema(topLevel: bool, n: string, domain: Validator, codomain: Validator, o: Options)
    requires NotOverridden(DictionaryType(n, domain, codomain), o)
    ensures var r := Impl(topLevel, DictionaryType(n, domain, codomain), o);
            SingleTypeName(r) == Some(JsonObject) && r.description == Some(n)
            && r.propertyNames == Some(Impl(false, domain, o))
            && r.additionalProperties == Some(Impl(false, codomain, o))
            && r.(schemaType := None, description := None, propertyNames := None, additionalProperties := None) == EmptyObject
  {
  }

  /** `t.array` and `t.readonlyArray`: an array whose every item has the element's schema. */
  lemma ArrayTypeSchema(topLevel: bool, v: Validator, o: Options)
    requires v.ArrayType? || v.ReadonlyArrayType?
    requires NotOverridden(v, o)
    ensures var r := Impl(topLevel, v, o);
            SingleTypeName(r) == Some(JsonArray) && r.description == Some(v.name)
            && r.items == Some(SingleItems(Impl(false, v.inner, o)))
            && r.(schemaType := None, description := None, items := None) == EmptyObject
  {
    assert Tagged(v, topLevel, o) == Some(ArraySchema(Impl(false, v.inner, o)));
  }

  /** `t.tuple(types)` of n positions: exactly n items, each position with its own schema. */
  lemma TupleTypeSchema(topLevel: bool, n: string, ts: seq<Validator>, o: Options)
    requires NotOverridden(TupleType(n, ts), o)
    ensures var r := Impl(topLevel, TupleType(n, ts), o);
            SingleTypeName(r) == Some(JsonArray) && r.description == Some(n)
            && r.minItems == Some(|ts|) && r.maxItems == Some(|ts|)
            && r.items.Some? && r.items.value.PositionalItems? && |r.items.value.schemas| == |ts|
            && forall i :: 0 <= i < |ts| ==> r.items.value.schemas[i] == Impl(false, ts[i], o)
  {
    assert Tagged(TupleType(n, ts), topLevel, o) == Some(TupleSchema(ImplAll(ts, o)));
  }

  /** `t.exact(t.type(props))`: the object schema of the props, with
      `minProperties` and `maxProperties` both the number of props. */
  lemma ExactInterfaceSchema(topLevel: bool, n: string, m: string, ps: seq<Prop>, o: Options)
    requires NotOverridden(ExactType(n, InterfaceType(m, ps)), o)
    requires NotOverridden(InterfaceType(m, ps), o)
    ensures var r := Impl(topLevel, ExactType(n, InterfaceType(m, ps)), o);
            SingleTypeName(r) == Some(JsonObject) && r.description == Some(if m == "" then n else m)
            && r.minProperties == Some(|ps|) && r.maxProperties == Some(|ps|)
            && r.required.Some? && |r.required.value| == |ps|
  {
    PropsSchema(false, InterfaceType(m, ps), o);
  }

  /** `t.refinement` and `t.readonly` are transparent: the wrapped
      validator's schema, named after the wrapper only if it had no description. */
  lemma TransparentWrappers(topLevel: bool, v: Validator, o: Options)
    requires v.RefinementType? || v.ReadonlyType?
    requires NotOverridden(v, o)
    ensures Impl(topLevel, v, o) == FillDescription(Impl(false, v.inner, o), v.name)
  {
  }

  /** The tags the switch does not handle, and untagged validators other
      than `DateFromISOString`, get the fallback value. */
  lemma UnhandledTakeFallback(topLevel: bool, v: Validator, o: Options)
    requires NotOverridden(v, o)
    requires v.UnknownType? || v.BigIntType? || v.RecursiveType? || v.FunctionType? || v.StrictType?
             || v.PipeTransform? || v.OtherTagged? || (v.Untagged? && !v.isDateFromISOString)
    ensures Impl(topLevel, v, o) == GetFallbackValue(v, o.fallback, o.defaultFallback)
  {
  }

  /** `DateFromISOString` is a string with the fixed description, which the name does not replace. */
  lemma DateFromIsoStringSchema(topLevel: bool, n: string, o: Options)
    requires NotOverridden(Untagged(n, true), o)
    ensures TypedAndNamed(Impl(topLevel, Untagged(n, true), o), JsonString, "Timestamp in ISO format.")
  {
  }

  /** The outermost flag changes nothing but unions. */
  lemma TopLevelOnlyMattersForUnions(v: Validator, o: Options)
    requires !v.UnionType?
    ensures Impl(true, v, o) == Impl(false, v, o)
  {
  }

  /** A union nested in a union is flattened away: the inner union's own
      name and override are never looked at, and the schema is that of one
      union over all branches. */
  lemma UnionOfUnions(topLevel: bool, n: string, before: seq<Validator>, m: string, inner: seq<Validator>,
                      after: seq<Validator>, o: Options)
    requires NotOverridden(UnionType(n, before + [UnionType(m, inner)] + after), o)
    requires NotOverridden(UnionType(n, before + inner + after), o)
    ensures Impl(topLevel, UnionType(n, before + [UnionType(m, inner)] + after), o)
            == Impl(topLevel, UnionType(n, before + inner + after), o)
  {
    var nested := before + [UnionType(m, inner)] + after;
    var flat := before + inner + after;
    FlattenNested(before, m, inner, after);
    SameComponentsSameUnion(n, nested, flat, topLevel, o);
  }

  /** A union's schema depends on its branches only through their flattening. */
  lemma SameComponentsSameUnion(n: string, ts1: seq<Validator>, ts2: seq<Validator>, topLevel: bool, o: Options)
    requires FlattenUnions(ts1) == FlattenUnions(ts2)
    requires NotOverridden(UnionType(n, ts1), o) && NotOverridden(UnionType(n, ts2), o)
    ensures Impl(topLevel, UnionType(n, ts1), o) == Impl(topLevel, UnionType(n, ts2), o)
  {
    UnionStep(n, ts1, topLevel, o);
    UnionStep(n, ts2, topLevel, o);
    assert TransformUnion(ts1, topLevel, o) == TransformUnion(ts2, topLevel, o);
  }

  /** A union not overridden is its `TransformUnion` schema, named. */
  lemma UnionStep(n: string, ts: seq<Validator>, topLevel: bool, o: Options)
    requires NotOverridden(UnionType(n, ts), o)
    ensures Impl(topLevel, UnionType(n, ts), o) == FillDescription(TransformUnion(ts, topLevel, o), n)
  {
    assert Tagged(UnionType(n, ts), topLevel, o) == Some(TransformUnion(ts, topLevel, o));
  }

  /** The outermost union with `t.undefined` among its (flattened)
      components and one other component: that component's schema alone. */
  lemma TopLevelUndefinedCut(n: string, ts: seq<Validator>, x: Validator, o: Options)
    requires NotOverridden(UnionType(n, ts), o)
    requires CanonicalUndefined in FlattenUnions(ts)
    requires RemoveCanonicalUndefined(FlattenUnions(ts)) == [x]
    ensures TransformToJsonSchema(UnionType(n, ts), o) == FillDescription(Compress(Impl(false, x, o)), n)
  {
    UnionStep(n, ts, true, o);
    CutLeavesSurvivor(FlattenUnions(ts), x, o);
  }

  /** `tryTransformTopLevelSchema` on components holding `t.undefined` and one survivor. */
  lemma CutLeavesSurvivor(components: seq<Validator>, x: Validator, o: Options)
    requires CanonicalUndefined in components
    requires RemoveCanonicalUndefined(components) == [x]
    ensures TryTopLevel(components, o) == Some(Impl(false, x, o))
  {
    var i :| 0 <= i < |components| && components[i] == CanonicalUndefined;
    assert |RemoveCanonicalUndefined(components)| != |components|;
  }

  /** The outermost union with `t.undefined` among its (flattened)
      components and no other or several others: `anyOf` over the
      survivors alone, in their order. */
  lemma TopLevelUndefinedAnyOf(n: string, ts: seq<Validator>, o: Options)
    requires NotOverridden(UnionType(n, ts), o)
    requires CanonicalUndefined in FlattenUnions(ts)
    requires |RemoveCanonicalUndefined(FlattenUnions(ts))| != 1
    ensures TransformToJsonSchema(UnionType(n, ts), o)
            == FillDescription(Compress(CommonType(AnyOf, ImplAll(RemoveCanonicalUndefined(FlattenUnions(ts)), o))), n)
  {
    UnionStep(n, ts, true, o);
    var c := FlattenUnions(ts);
    var i :| 0 <= i < |c| && c[i] == CanonicalUndefined;
    assert |RemoveCanonicalUndefined(c)| != |c|;
  }

  /** `t.union([t.string, t.number, t.undefined])` at the outermost call:
      `anyOf` over the string and the number schema, in that order, with no
      hoisted `type`, described by the union's name. */
  lemma StringNumberOptionalUnion(n: string, a: string, b: string, o: Options)
    requires a != "" && b != ""
    requires NotOverridden(UnionType(n, [StringType(a), NumberType(b), CanonicalUndefined]), o)
    requires NotOverridden(StringType(a), o) && NotOverridden(NumberType(b), o)
    ensures var r := TransformToJsonSchema(UnionType(n, [StringType(a), NumberType(b), CanonicalUndefined]), o);
            r == EmptyObject.(anyOf := Some([Impl(false, StringType(a), o), Impl(false, NumberType(b), o)]),
                              description := Some(n))
            && TypedAndNamed(r.anyOf.value[0], JsonString, a) && TypedAndNamed(r.anyOf.value[1], JsonNumber, b)
  {
    var s1 := Impl(false, StringType(a), o);
    var s2 := Impl(false, NumberType(b), o);
    SurvivorsOfOptionalPair(n, StringType(a), NumberType(b), o);
    StringAndNumberBranches(a, b, o);
    StringAndNumberAnyOf(s1, s2, a, b, n);
  }

  /** `t.union([x, y, t.undefined])` over two non-union survivors, at the outermost call. */
  lemma SurvivorsOfOptionalPair(n: string, x: Validator, y: Validator, o: Options)
    requires !x.UnionType? && !y.UnionType? && x != CanonicalUndefined && y != CanonicalUndefined
    requires NotOverridden(UnionType(n, [x, y, CanonicalUndefined]), o)
    ensures TransformToJsonSchema(UnionType(n, [x, y, CanonicalUndefined]), o)
            == FillDescription(Compress(CommonType(AnyOf, [Impl(false, x, o), Impl(false, y, o)])), n)
  {
    var ts := [x, y, CanonicalUndefined];
    NoUnionsFlattenToThemselves(ts);
    TwoSurviveUndefined(x, y);
    var survivors := RemoveCanonicalUndefined(FlattenUnions(ts));
    assert survivors == [x, y];
    TopLevelUndefinedAnyOf(n, ts, o);
    PairImplAll(x, y, o);
  }

  /** `[x, y].map(recursion)` */
  lemma PairImplAll(x: Validator, y: Validator, o: Options)
    ensures ImplAll([x, y], o) == [Impl(false, x, o), Impl(false, y, o)]
  {
  }

  /** The string and the number branch, each typed and named. */
  lemma StringAndNumberBranches(a: string, b: string, o: Options)
    requires a != "" && b != ""
    requires NotOverridden(StringType(a), o) && NotOverridden(NumberType(b), o)
    ensures TypedAndNamed(Impl(false, StringType(a), o), JsonString, a)
    ensures TypedAndNamed(Impl(false, NumberType(b), o), JsonNumber, b)
  {
    PrimitiveTags(false, StringType(a), o);
    PrimitiveTags(false, NumberType(b), o);
  }

  /** `[x, y, t.undefined]` filtered is `[x, y]`. */
  lemma TwoSurviveUndefined(x: Validator, y: Validator)
    requires x != CanonicalUndefined && y != CanonicalUndefined
    ensures RemoveCanonicalUndefined([x, y, CanonicalUndefined]) == [x, y]
  {
    var tail := [y] + [CanonicalUndefined];
    assert [x, y, CanonicalUndefined] == [x] + tail;
    RemoveCanonicalUndefinedSingleton(y);
    RemoveCanonicalUndefinedSingleton(CanonicalUndefined);
    RemoveCanonicalUndefinedConcat([y], [CanonicalUndefined]);
    assert RemoveCanonicalUndefined(tail) == [y];
    RemoveCanonicalUndefinedSingleton(x);
    RemoveCanonicalUndefinedConcat([x], tail);
  }

  /** A string and a number branch: `anyOf` over both, no `type`, no compression. */
  lemma StringAndNumberAnyOf(s1: Schema, s2: Schema, a: string, b: string, n: string)
    requires TypedAndNamed(s1, JsonString, a) && TypedAndNamed(s2, JsonNumber, b)
    ensures FillDescription(Compress(CommonType(AnyOf, [s1, s2])), n)
            == EmptyObject.(anyOf := Some([s1, s2]), description := Some(n))
  {
    NoHoistOnDisagreement(AnyOf, [s1, s2], 0, 1);
    PlainBranchBlocksCompression([s1, s2], 0);
  }

  /** `t.union([x, t.undefined])` at the outermost call is `x` itself, for a
      primitive `x` whose schema neither the override nor the name changes. */
  lemma OptionalPrimitiveIsPrimitive(n: string, x: Validator, o: Options)
    requires x.StringType? || x.NumberType? || x.BooleanType? || x.NullType?
    requires x.name != ""
    requires NotOverridden(UnionType(n, [x, CanonicalUndefined]), o)
    requires NotOverridden(x, o)
    ensures TransformToJsonSchema(UnionType(n, [x, CanonicalUndefined]), o) == TransformToJsonSchema(x, o)
  {
    var ts := [x, CanonicalUndefined];
    NoUnionsFlattenToThemselves(ts);
    assert RemoveCanonicalUndefined(ts) == [x] by {
      assert ts[1..] == [CanonicalUndefined];
      assert RemoveCanonicalUndefined([CanonicalUndefined]) == [];
    }
    TopLevelUndefinedCut(n, ts, x, o);
    PrimitiveTags(false, x, o);
    PrimitiveTags(true, x, o);
  }

  /** Below the outermost call, a union over non-union validators keeps
      every branch, `t.undefined` included: the branch of `t.undefined` is a
      `null` type, so no enum compression applies either. */
  lemma NestedUnionKeepsUndefined(n: string, ts: seq<Validator>, o: Options)
    requires forall i :: 0 <= i < |ts| ==> !ts[i].UnionType?
    requires CanonicalUndefined in ts
    requires NotOverridden(UnionType(n, ts), o)
    requires NotOverridden(CanonicalUndefined, o)
    ensures var r := Impl(false, UnionType(n, ts), o);
            r.Obj? && r.anyOf == Some(ImplAll(ts, o)) && |r.anyOf.value| == |ts|
  {
    NoUnionsFlattenToThemselves(ts);
    var i :| 0 <= i < |ts| && ts[i] == CanonicalUndefined;
    var branches := ImplAll(ts, o);
    PrimitiveTags(false, CanonicalUndefined, o);
    assert branches[i] == Impl(false, CanonicalUndefined, o);
    PlainBranchBlocksCompression(branches, i);
    UnionStep(n, ts, false, o);
  }

  /** A branch that is neither a constant nor an enumeration keeps an `anyOf` from being compressed. */
  lemma PlainBranchBlocksCompression(branches: seq<Schema>, i: int)
    requires 0 <= i < |branches|
    requires branches[i].Bool? || (branches[i].constValue.None? && branches[i].enumValues.None?)
    ensures Compress(CommonType(AnyOf, branches)) == CommonType(AnyOf, branches)
  {
    assert !ConstLike(branches[i]);
  }

  /** An intersection's `type` is hoisted to `t` exactly when it has at
      least one member and every member's schema has the single type `t`. */
  lemma IntersectionHoisting(topLevel: bool, n: string, ts: seq<Validator>, o: Options, t: JsonType)
    requires NotOverridden(IntersectionType(n, ts), o)
    ensures var r := Impl(topLevel, IntersectionType(n, ts), o);
            r.Obj? && r.allOf == Some(ImplAll(ts, o))
            && (SingleTypeName(r) == Some(t) <==> |ts| > 0 && forall i :: 0 <= i < |ts| ==> SingleTypeName(Impl(false, ts[i], o)) == Some(t))
  {
    var branches := ImplAll(ts, o);
    HoistedTypeIff(AllOf, branches, t);
    assert forall i :: 0 <= i < |ts| ==> branches[i] == Impl(false, ts[i], o);
  }

  /** Validators on which transform.ts's switch produces a schema at every node. */
  predicate Handled(v: Validator)
    decreases Size(v)
  {
    match v
    case UnknownType(_) => false
    case BigIntType(_) => false
    case RecursiveType(_) => false
    case FunctionType(_) => false
    case StrictType(_, _) => false
    case PipeTransform(_, _) => false
    case OtherTagged(_, _) => false
    case Untagged(_, isDate) => isDate
    case RefinementType(_, t) => Handled(t)
    case ReadonlyType(_, t) => Handled(t)
    case ArrayType(_, t) => Handled(t)
    case ReadonlyArrayType(_, t) => Handled(t)
    case ExactType(_, t) => Handled(t)
    case DictionaryType(_, d, c) => Handled(d) && Handled(c)
    case InterfaceType(_, ps) => forall i :: 0 <= i < |ps| ==> Handled(ps[i].validator)
    case PartialType(_, ps) => forall i :: 0 <= i < |ps| ==> Handled(ps[i].validator)
    case UnionType(_, ts) => forall i :: 0 <= i < |ts| ==> Handled(ts[i])
    case IntersectionType(_, ts) => forall i :: 0 <= i < |ts| ==> Handled(ts[i])
    case TupleType(_, ts) => forall i :: 0 <= i < |ts| ==> Handled(ts[i])
    case _ => true
  }

  /** Flattening keeps handledness: every component comes from a handled branch. */
  lemma {:induction false} FlattenHandled(ts: seq<Validator>)
    requires forall i :: 0 <= i < |ts| ==> Handled(ts[i])
    ensures forall j :: 0 <= j < |FlattenUnions(ts)| ==> Handled(FlattenUnions(ts)[j])
    decreases SizeAll(ts)
  {
    if ts != [] {
      var head := if ts[0].UnionType? then FlattenUnions(ts[0].types) else [ts[0]];
      if ts[0].UnionType? {
        FlattenHandled(ts[0].types);
      }
      FlattenHandled(ts[1..]);
      assert FlattenUnions(ts) == head + FlattenUnions(ts[1..]);
    }
  }

  /** The override never answers. */
  ghost predicate NeverOverrides(o: Options) {
    forall w, c :: o.override(w, c).None?
  }

  /** The fallback is consulted only where no schema is produced: on a
      validator whose every node is handled, and with an override that never
      answers, any other fallback gives the same schema. */
  lemma {:induction false} FallbackUnusedWhenHandled(topLevel: bool, v: Validator, o: Options, o2: Options)
    requires Handled(v)
    requires NeverOverrides(o)
    requires o2 == o.(fallback := o2.fallback, defaultFallback := o2.defaultFallback)
    ensures Impl(topLevel, v, o) == Impl(topLevel, v, o2)
    decreases Size(v), 1
  {
    assert NeverOverrides(o2);
    if !v.Untagged? {
      TaggedFallbackUnused(topLevel, v, o, o2);
    }
  }

  lemma {:induction false} TaggedFallbackUnused(topLevel: bool, v: Validator, o: Options, o2: Options)
    requires Handled(v) && !v.Untagged?
    requires NeverOverrides(o)
    requires o2 == o.(fallback := o2.fallback, defaultFallback := o2.defaultFallback)
    ensures Tagged(v, topLevel, o) == Tagged(v, topLevel, o2) && Tagged(v, topLevel, o).Some?
    decreases Size(v), 0
  {
    match v
    case RefinementType(_, t) => FallbackUnusedWhenHandled(false, t, o, o2);
    case ReadonlyType(_, t) => FallbackUnusedWhenHandled(false, t, o, o2);
    case ArrayType(_, t) => FallbackUnusedWhenHandled(false, t, o, o2);
    case ReadonlyArrayType(_, t) => FallbackUnusedWhenHandled(false, t, o, o2);
    case ExactType(_, t) => FallbackUnusedWhenHandled(false, t, o, o2);
    case DictionaryType(_, d, c) =>
      FallbackUnusedWhenHandled(false, d, o, o2);
      FallbackUnusedWhenHandled(false, c, o, o2);
    case InterfaceType(_, ps) => PropsFallbackUnused(ps, o, o2);
    case PartialType(_, ps) => PropsFallbackUnused(ps, o, o2);
    case UnionType(_, ts) => UnionFallbackUnused(ts, topLevel, o, o2);
    case IntersectionType(_, ts) => AllFallbackUnused(ts, o, o2);
    case TupleType(_, ts) => AllFallbackUnused(ts, o, o2);
    case _ =>
  }

  lemma {:induction false} UnionFallbackUnused(ts: seq<Validator>, topLevel: bool, o: Options, o2: Options)
    requires forall i :: 0 <= i < |ts| ==> Handled(ts[i])
    requires NeverOverrides(o)
    requires o2 == o.(fallback := o2.fallback, defaultFallback := o2.defaultFallback)
    ensures TransformUnion(ts, topLevel, o) == TransformUnion(ts, topLevel, o2)
    decreases SizeAll(ts), 4
  {
    var components := FlattenUnions(ts);
    FlattenHandled(ts);
    AllFallbackUnused(components, o, o2);
    if topLevel {
      var nonUndefineds := RemoveCanonicalUndefined(components);
      forall j | 0 <= j < |nonUndefineds| ensures Handled(nonUndefineds[j]) {
        assert nonUndefineds[j] in components;
      }
      AllFallbackUnused(nonUndefineds, o, o2);
      if |nonUndefineds| == 1 {
        FallbackUnusedWhenHandled(false, nonUndefineds[0], o, o2);
      }
      assert TryTopLevel(components, o) == TryTopLevel(components, o2);
    }
  }

  lemma {:induction false} AllFallbackUnused(ts: seq<Validator>, o: Options, o2: Options)
    requires forall i :: 0 <= i < |ts| ==> Handled(ts[i])
    requires NeverOverrides(o)
    requires o2 == o.(fallback := o2.fallback, defaultFallback := o2.defaultFallback)
    ensures ImplAll(ts, o) == ImplAll(ts, o2)
    decreases SizeAll(ts), 2
  {
    forall i | 0 <= i < |ts| ensures Impl(false, ts[i], o) == Impl(false, ts[i], o2) {
      FallbackUnusedWhenHandled(false, ts[i], o, o2);
    }
  }

  lemma {:induction false} PropsFallbackUnused(ps: seq<Prop>, o: Options, o2: Options)
    requires forall i :: 0 <= i < |ps| ==> Handled(ps[i].validator)
    requires NeverOverrides(o)
    requires o2 == o.(fallback := o2.fallback, defaultFallback := o2.defaultFallback)
    ensures ImplProps(ps, o) == ImplProps(ps, o2)
    decreases SizeProps(ps), 2
  {
    forall i | 0 <= i < |ps| ensures Impl(false, ps[i].validator, o) == Impl(false, ps[i].validator, o2) {
      FallbackUnusedWhenHandled(false, ps[i].validator, o, o2);
    }
  }
}
