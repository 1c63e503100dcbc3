/** What `validationToSchema` promises, proved about the model in module Convert. */
module ConvertLemmas {
  import opened Wrappers
  import opened JsValues
  import opened JsonSchema
  import opened IoTs
  import opened MetadataCommon
  import opened Convert

  /** The override declines this validator. */
  predicate Declined(v: Validator, o: ConvertOptions) {
    o.override(v).None?
  }

  /** The override is asked with the validator alone, and its schema is the result, untouched. */
  lemma ConvertOverrideVerbatim(v: Validator, o: ConvertOptions, topLevel: bool, s: Schema)
    requires o.override(v) == Some(s)
    ensures ValidationToSchema(v, o, topLevel) == s
  {
  }

  /** Only `NullType` is `{ type: "null" }`; `undefined`, `void` and the
      other unhandled tags, and unknown untagged validators, have no schema
      of their own and get the fallback value. */
  lemma ConvertNullAndFallback(v: Validator, o: ConvertOptions, topLevel: bool)
    requires Declined(v, o)
    ensures v.NullType? ==>
              var r := ValidationToSchema(v, o, topLevel);
              SingleTypeName(r) == Some(JsonNull) && r.description == Some(v.name)
              && r.(schemaType := None, description := None) == EmptyObject
    ensures v.UndefinedType? || v.VoidType? || v.UnknownType? || v.BigIntType? || v.StrictType?
            || v.RecursiveType? || v.FunctionType? || v.OtherTagged? || (v.Untagged? && !v.isDateFromISOString)
            ==> ValidationToSchema(v, o, topLevel) == GetFallbackValue(v, o.fallback, o.defaultFallback)
  {
  }

  /** A literal is `{ const: value }` and its name, with no `type`. */
  lemma ConvertLiteral(n: string, value: JsValue, o: ConvertOptions, topLevel: bool)
    requires Declined(LiteralType(n, value), o)
    ensures ValidationToSchema(LiteralType(n, value), o, topLevel)
            == EmptyObject.(constValue := Some(value), description := Some(n))
  {
  }

  /** `t.keyof`: one key is a named constant, several keys a named
      enumeration, both without `type`; no keys at all get the fallback. */
  lemma ConvertKeyofSchema(n: string, keys: seq<string>, o: ConvertOptions, topLevel: bool)
    requires Declined(KeyofType(n, keys), o)
    ensures var r := ValidationToSchema(KeyofType(n, keys), o, topLevel);
            (|keys| == 0 ==> r == GetFallbackValue(KeyofType(n, keys), o.fallback, o.defaultFallback))
            && (|keys| == 1 ==> r == EmptyObject.(constValue := Some(Str(keys[0])), description := Some(n)))
            && (|keys| > 1 ==> r.Obj? && r.schemaType.None? && r.enumValues.Some? && |r.enumValues.value| == |keys|
                               && (forall i :: 0 <= i < |keys| ==> r.enumValues.value[i] == Str(keys[i]))
                               && r.description == Some(n))
  {
    assert ConvertTagged(KeyofType(n, keys), topLevel, o) == ConvertKeyOf(keys);
  }

  /** `t.readonlyArray(t.string)` is the string schema itself, while
      `t.array(t.string)` is an array of strings: the older engine treats
      the read-only array as transparent. */
  lemma ReadonlyArrayIsTransparent(n: string, m: string, s: string, o: ConvertOptions, topLevel: bool)
    requires s != ""
    requires Declined(ReadonlyArrayType(n, StringType(s)), o) && Declined(ArrayType(m, StringType(s)), o)
    requires Declined(StringType(s), o)
    ensures SingleTypeName(ValidationToSchema(ReadonlyArrayType(n, StringType(s)), o, topLevel)) == Some(JsonString)
    ensures ValidationToSchema(ReadonlyArrayType(n, StringType(s)), o, topLevel) == ValidationToSchema(StringType(s), o, false)
    ensures SingleTypeName(ValidationToSchema(ArrayType(m, StringType(s)), o, topLevel)) == Some(JsonArray)
  {
    var inner := ValidationToSchema(StringType(s), o, false);
    assert ConvertTagged(StringType(s), false, o) == Some(Typed(JsonString));
    assert ConvertTagged(ReadonlyArrayType(n, StringType(s)), topLevel, o) == Some(inner);
    assert ConvertTagged(ArrayType(m, StringType(s)), topLevel, o) == Some(ArraySchema(inner));
  }

  /** A `Pipe` has its string side's schema, described by the pipe's own name
      whenever that schema is an object schema. */
  lemma PipeSchema(n: string, t: Validator, o: ConvertOptions, topLevel: bool)
    requires Declined(PipeTransform(n, t), o)
    ensures var inner := ValidationToSchema(t, o, false);
            var r := ValidationToSchema(PipeTransform(n, t), o, topLevel);
            (inner.Obj? ==> r == inner.(description := Some(n)))
            && (inner.Bool? ==> r == inner)
  {
  }

  /** The union case's schema, named. */
  lemma ConvertUnionStep(n: string, ts: seq<Validator>, o: ConvertOptions, topLevel: bool)
    requires Declined(UnionType(n, ts), o)
    ensures ValidationToSchema(UnionType(n, ts), o, topLevel) == FillDescription(ConvertUnion(ts, topLevel, o), n)
  {
    assert ConvertTagged(UnionType(n, ts), topLevel, o) == Some(ConvertUnion(ts, topLevel, o));
  }

  /** A union never gets a hoisted `type` unless the outermost cut leaves a
      single survivor, whose own schema is then used. */
  lemma ConvertUnionNeverHoists(n: string, ts: seq<Validator>, o: ConvertOptions, topLevel: bool)
    requires Declined(UnionType(n, ts), o)
    requires !topLevel || CanonicalUndefined !in FlattenUnions(ts) || |RemoveCanonicalUndefined(FlattenUnions(ts))| != 1
    ensures ValidationToSchema(UnionType(n, ts), o, topLevel).Obj?
    ensures ValidationToSchema(UnionType(n, ts), o, topLevel).schemaType.None?
  {
    ConvertUnionStep(n, ts, o, topLevel);
    var components := FlattenUnions(ts);
    if CanonicalUndefined in components {
      var i :| 0 <= i < |components| && components[i] == CanonicalUndefined;
      assert |RemoveCanonicalUndefined(components)| != |components|;
    }
  }

  /** Nested unions are flattened: the branches of an inner union count as the outer union's own. */
  lemma ConvertUnionOfUnions(n: string, before: seq<Validator>, m: string, inner: seq<Validator>,
                             after: seq<Validator>, o: ConvertOptions, topLevel: bool)
    requires Declined(UnionType(n, before + [UnionType(m, inner)] + after), o)
    requires Declined(UnionType(n, before + inner + after), o)
    ensures ValidationToSchema(UnionType(n, before + [UnionType(m, inner)] + after), o, topLevel)
            == ValidationToSchema(UnionType(n, before + inner + after), o, topLevel)
  {
    var nested := before + [UnionType(m, inner)] + after;
    var flat := before + inner + after;
    FlattenNested(before, m, inner, after);
    ConvertUnionStep(n, nested, o, topLevel);
    ConvertUnionStep(n, flat, o, topLevel);
    assert ConvertUnion(nested, topLevel, o) == ConvertUnion(flat, topLevel, o);
  }

  /** At the outermost call, `t.undefined` with one other component is that component's schema. */
  lemma ConvertTopLevelUndefinedCut(n: string, ts: seq<Validator>, x: Validator, o: ConvertOptions)
    requires Declined(UnionType(n, ts), o)
    requires CanonicalUndefined in FlattenUnions(ts)
    requires RemoveCanonicalUndefined(FlattenUnions(ts)) == [x]
    ensures ValidationToSchema(UnionType(n, ts), o, true) == FillDescription(Compress(ValidationToSchema(x, o, false)), n)
  {
    ConvertUnionStep(n, ts, o, true);
    var components := FlattenUnions(ts);
    var i :| 0 <= i < |components| && components[i] == CanonicalUndefined;
    assert |RemoveCanonicalUndefined(components)| != |components|;
  }

  /** At the outermost call, `t.undefined` with no other or several other
      components: `anyOf` over the survivors alone, in their order. */
  lemma ConvertTopLevelUndefinedAnyOf(n: string, ts: seq<Validator>, o: ConvertOptions)
    requires Declined(UnionType(n, ts), o)
    requires CanonicalUndefined in FlattenUnions(ts)
    requires |RemoveCanonicalUndefined(FlattenUnions(ts))| != 1
    ensures ValidationToSchema(UnionType(n, ts), o, true)
            == FillDescription(Compress(EmptyObject.(anyOf := Some(ConvertAll(RemoveCanonicalUndefined(FlattenUnions(ts)), o)))), n)
  {
    ConvertUnionStep(n, ts, o, true);
    var c := FlattenUnions(ts);
    var i :| 0 <= i < |c| && c[i] == CanonicalUndefined;
    assert |RemoveCanonicalUndefined(c)| != |c|;
  }

  /** Below the outermost call nothing is cut: `anyOf` lists every flattened component (before compression). */
  lemma ConvertNestedUnionKeepsAll(n: string, ts: seq<Validator>, o: ConvertOptions)
    requires Declined(UnionType(n, ts), o)
    ensures ValidationToSchema(UnionType(n, ts), o, false)
            == FillDescription(Compress(EmptyObject.(anyOf := Some(ConvertAll(FlattenUnions(ts), o)))), n)
  {
    ConvertUnionStep(n, ts, o, false);
  }

  /** An intersection is `allOf` over its members with no hoisted `type`. */
  lemma ConvertIntersection(n: string, ts: seq<Validator>, o: ConvertOptions, topLevel: bool)
    requires Declined(IntersectionType(n, ts), o)
    ensures var r := ValidationToSchema(IntersectionType(n, ts), o, topLevel);
            r.Obj? && r.schemaType.None? && r.allOf.Some? && |r.allOf.value| == |ts|
            && (forall i :: 0 <= i < |ts| ==> r.allOf.value[i] == ValidationToSchema(ts[i], o, false))
            && r.description == Some(n)
  {
    assert ConvertTagged(IntersectionType(n, ts), topLevel, o) == Some(EmptyObject.(allOf := Some(ConvertAll(ts, o))));
  }

  /** `t.tuple` of n positions: exactly n items, one schema per position. */
  lemma ConvertTuple(n: string, ts: seq<Validator>, o: ConvertOptions, topLevel: bool)
    requires Declined(TupleType(n, ts), o)
    ensures var r := ValidationToSchema(TupleType(n, ts), o, topLevel);
            SingleTypeName(r) == Some(JsonArray) && r.minItems == Some(|ts|) && r.maxItems == Some(|ts|)
            && r.items.Some? && r.items.value.PositionalItems? && |r.items.value.schemas| == |ts|
            && forall i :: 0 <= i < |ts| ==> r.items.value.schemas[i] == ValidationToSchema(ts[i], o, false)
  {
    assert ConvertTagged(TupleType(n, ts), topLevel, o) == Some(TupleSchema(ConvertAll(ts, o)));
  }

  /** `t.exact(t.type(props))`: `minProperties = maxProperties =` the number of props. */
  lemma ConvertExactInterface(n: string, m: string, ps: seq<Prop>, o: ConvertOptions, topLevel: bool)
    requires Declined(ExactType(n, InterfaceType(m, ps)), o) && Declined(InterfaceType(m, ps), o)
    ensures var r := ValidationToSchema(ExactType(n, InterfaceType(m, ps)), o, topLevel);
            SingleTypeName(r) == Some(JsonObject) && r.minProperties == Some(|ps|) && r.maxProperties == Some(|ps|)
            && r.required.Some? && |r.required.value| == |ps|
            && forall i :: 0 <= i < |ps| ==> r.required.value[i] == ps[i].key
  {
    var inner := ObjectWithProperties(ConvertProps(ps, o), false);
    assert ConvertTagged(InterfaceType(m, ps), false, o) == Some(inner);
    var named := ValidationToSchema(InterfaceType(m, ps), o, false);
    assert named == FillDescription(inner, m);
    assert ConvertTagged(ExactType(n, InterfaceType(m, ps)), topLevel, o) == Some(CountExactProperties(named));
  }
}
