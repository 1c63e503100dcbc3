/** The helpers of `@ty-ras/metadata-jsonschema` that both schema engines use
    but whose code lives in that other package: the fallback lookup, the
    lookup of known validators without `_tag`, and the compression of a union
    of constants into one `enum`. They are given here by the behaviour the
    engines' tests show. The two engines also share the `description` fill
    and the property count of exact objects; each is defined once here. */
module MetadataCommon {
  import opened Wrappers
  import opened JsValues
  import opened JsonSchema
  import opened IoTs

  /** `FallbackValueGeneric`: a fixed schema, or a callback that may decline by returning `undefined`. */
  datatype FallbackValue = FixedFallback(schema: Schema) | ComputedFallback(compute: Validator -> Option<Schema>)

  /** `getFallbackValue(validation, fallbackValue)`: the fixed schema, or the
      callback's answer, or (when the callback declines) the library's default
      fallback, which the model takes as the parameter `defaultFallback`. */
  function GetFallbackValue(v: Validator, fallback: FallbackValue, defaultFallback: Schema): Schema {
    match fallback
    case FixedFallback(s) => s
    case ComputedFallback(f) => f(v).GetOr(defaultFallback)
  }

  /** `transformFromIOTypes`: the one validator without `_tag` that is
      recognised, `DateFromISOString` of io-ts-types, becomes a string schema
      with a fixed description; every other one is not recognised. */
  function FromIoTypes(v: Validator): (r: Option<Schema>)
    ensures r.Some? <==> v.Untagged? && v.isDateFromISOString
    ensures r.Some? ==> SingleTypeName(r.value) == Some(JsonString) && r.value.description == Some("Timestamp in ISO format.")
                        && r.value.(schemaType := None, description := None) == EmptyObject
  {
    if v.Untagged? && v.isDateFromISOString then
      var s := Typed(JsonString);
      assert s.Obj?;
      Some(s.(description := Some("Timestamp in ISO format.")))
    else None
  }

  /** The description fill after tagged dispatch: an object schema whose
      `description` is missing or empty gets `name`; a boolean schema, or an
      object schema that already has a description, is left alone. No other
      keyword changes. */
  function FillDescription(s: Schema, name: string): (r: Schema)
    ensures r.Obj? <==> s.Obj?
    ensures s.Bool? || HasDescription(s) ==> r == s
    ensures s.Obj? ==> r.(description := None) == s.(description := None)
    ensures s.Obj? && !HasDescription(s) ==> r.description == Some(name)
  {
    if s.Obj? && !HasDescription(s) then s.(description := Some(name)) else s
  }

  /** The `ExactType` step: when the wrapped validator's schema is an object
      schema whose `type` is the string "object", `minProperties` and
      `maxProperties` are both set to the number of its `properties` (0 when
      it has none); any other schema is returned as it is. */
  function CountExactProperties(s: Schema): (r: Schema)
    ensures SingleTypeName(s) == Some(JsonObject) ==>
              var n := if s.properties.Some? then |s.properties.value| else 0;
              r == s.(minProperties := Some(n), maxProperties := Some(n))
    ensures SingleTypeName(s) != Some(JsonObject) ==> r == s
    ensures r.Obj? ==> SingleTypeName(r) == Some(JsonObject) ==> r.minProperties == r.maxProperties
  {
    if s.Obj? && s.schemaType == Some(Single(JsonObject)) then
      var n := if s.properties.Some? then |s.properties.value| else 0;
      s.(minProperties := Some(n), maxProperties := Some(n))
    else s
  }

  /** The `ArrayType` shape of both engines: `{ type: "array", items }`. */
  function ArraySchema(item: Schema): (s: Schema)
    ensures SingleTypeName(s) == Some(JsonArray) && s.items == Some(SingleItems(item))
    ensures s.(schemaType := None, items := None) == EmptyObject
  {
    var a := Typed(JsonArray);
    a.(items := Some(SingleItems(item)))
  }

  /** The `TupleType` shape of both engines: exactly as many elements as positions, each position with its own schema. */
  function TupleSchema(positions: seq<Schema>): (s: Schema)
    ensures SingleTypeName(s) == Some(JsonArray)
    ensures s.minItems == Some(|positions|) && s.maxItems == Some(|positions|)
    ensures s.items == Some(PositionalItems(positions))
    ensures s.(schemaType := None, minItems := None, maxItems := None, items := None) == EmptyObject
  {
    var a := Typed(JsonArray);
    a.(minItems := Some(|positions|), maxItems := Some(|positions|), items := Some(PositionalItems(positions)))
  }

  /** `makeObjectWithPropertiesSchema` (and the same shape written out in
      the older engine): an object schema with the given
      `properties`; unless the properties are optional, `required` lists every
      property name in order. */
  function ObjectWithProperties(properties: seq<Property>, propertiesAreOptional: bool): (s: Schema)
    ensures SingleTypeName(s) == Some(JsonObject) && s.properties == Some(properties)
    ensures propertiesAreOptional <==> s.required.None?
    ensures !propertiesAreOptional ==> s.required == Some(PropertyKeys(properties))
    ensures s.(schemaType := None, properties := None, required := None) == EmptyObject
  {
    var o := Typed(JsonObject);
    var withProperties := o.(properties := Some(properties));
    if propertiesAreOptional then withProperties
    else withProperties.(required := Some(PropertyKeys(properties)))
  }

  /** A branch that stands for a fixed list of values: an object schema with
      exactly one of `const` and `enum`, and otherwise at most a `type` and a
      `description`. */
  predicate ConstLike(b: Schema) {
    b.Obj? && (b.constValue.Some? != b.enumValues.Some?)
    && b.(schemaType := None, constValue := None, enumValues := None, description := None) == EmptyObject
  }

  /** The values a const-like branch stands for. */
  function BranchValues(b: Schema): seq<JsValue>
    requires ConstLike(b)
  {
    if b.constValue.Some? then [b.constValue.value] else b.enumValues.value
  }

  /** The values of all branches, in branch order. */
  function AllBranchValues(bs: seq<Schema>): seq<JsValue>
    requires forall i :: 0 <= i < |bs| ==> ConstLike(bs[i])
  {
    if bs == [] then [] else BranchValues(bs[0]) + AllBranchValues(bs[1..])
  }

  /** A value is listed exactly when some branch lists it. */
  lemma {:induction false} AllBranchValuesMembers(bs: seq<Schema>, x: JsValue)
    requires forall i :: 0 <= i < |bs| ==> ConstLike(bs[i])
    ensures x in AllBranchValues(bs) <==> exists i :: 0 <= i < |bs| && x in BranchValues(bs[i])
  {
    if bs != [] {
      AllBranchValuesMembers(bs[1..], x);
      if x in AllBranchValues(bs[1..]) {
        var j :| 0 <= j < |bs[1..]| && x in BranchValues(bs[1..][j]);
        assert x in BranchValues(bs[j + 1]);
      }
      if exists i :: 0 <= i < |bs| && x in BranchValues(bs[i]) {
        var i :| 0 <= i < |bs| && x in BranchValues(bs[i]);
        if i > 0 {
          assert bs[i] == bs[1..][i - 1];
        }
      }
    }
  }

  /** When every branch is a single `const`, the values are those constants, one per branch, in order. */
  lemma {:induction false} AllConstBranchValues(bs: seq<Schema>)
    requires forall i :: 0 <= i < |bs| ==> ConstLike(bs[i]) && bs[i].constValue.Some?
    ensures |AllBranchValues(bs)| == |bs|
    ensures forall i :: 0 <= i < |bs| ==> AllBranchValues(bs)[i] == bs[i].constValue.value
  {
    if bs != [] {
      AllConstBranchValues(bs[1..]);
    }
  }

  /** The schemas `tryToCompressUnionOfMaybeEnums` rewrites: object schemas
      whose `anyOf` is a non-empty list of const-like branches. */
  predicate Compressible(s: Schema) {
    s.Obj? && s.anyOf.Some? && |s.anyOf.value| > 0
    && forall i :: 0 <= i < |s.anyOf.value| ==> ConstLike(s.anyOf.value[i])
  }

  /** `tryToCompressUnionOfMaybeEnums`: an `anyOf` of constants becomes one
      `enum` listing every branch's values in order, and the `anyOf` goes;
      the other keywords (the hoisted `type`, `description`) stay. Any other
      schema is returned unchanged. The result is never compressible again,
      so the step is idempotent. */
  function Compress(s: Schema): (r: Schema)
    ensures Compressible(s) ==>
              r.Obj? && r.anyOf.None? && r.enumValues == Some(AllBranchValues(s.anyOf.value))
              && r.(enumValues := None) == s.(anyOf := None, enumValues := None)
    ensures !Compressible(s) ==> r == s
    ensures !Compressible(r)
  {
    if Compressible(s) then s.(anyOf := None, enumValues := Some(AllBranchValues(s.anyOf.value))) else s
  }

  lemma CompressIdempotent(s: Schema)
    ensures Compress(Compress(s)) == Compress(s)
  {
  }
}
