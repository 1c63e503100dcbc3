/** `createJsonSchemaFunctionality` and `getUndefinedPossibility`
    (metadata-jsonschema/src/functionality.ts): how the engine of module
    Transform is wired, with one override and one fallback, into the
    transformation of every entry point. The generic factory it feeds,
    `createJsonSchemaFunctionalityGeneric`, is not part of this model: the
    model gives the argument record handed to it. */
module Functionality {
  import opened Wrappers
  import opened JsonSchema
  import opened IoTs
  import opened Collections
  import opened MetadataCommon
  import opened Transform

  /** `OverrideGeneric`: asked with the validator and the cut-off flag; `None` declines. */
  type Override = (Validator, bool) -> Option<Schema>

  /** `SchemaTransformation`: the transform callback and the override it was built with. */
  datatype SchemaTransformation = SchemaTransformation(
    transform: (Validator, bool) -> Schema,
    override: Option<Override>)

  /** The arguments taken from `Input`; the other arguments are passed on unchanged and are not modelled. */
  datatype Input = Input(contentTypes: seq<string>, override: Option<Override>, fallbackValue: Option<FallbackValue>)

  /** What is handed to the generic factory. */
  datatype GenericArguments = GenericArguments(
    stringDecoder: SchemaTransformation,
    stringEncoder: SchemaTransformation,
    encoders: seq<(string, SchemaTransformation)>,
    decoders: seq<(string, SchemaTransformation)>)

  /** The override that always declines, standing for an absent one. */
  function Declines(v: Validator, cutOff: bool): Option<Schema> {
    None
  }

  /** The options every entry point passes to the engine. */
  function EngineOptions(input: Input, cutOffTopLevelUndefined: bool, defaultFallback: Schema): Options {
    Options(cutOffTopLevelUndefined, input.override.GetOr(Declines),
            input.fallbackValue.GetOr(FixedFallback(defaultFallback)), defaultFallback)
  }

  /** The one transformation every entry point gets:
      `transformToJSONSchema(validation, cutOffTopLevelUndefined, override, fallbackValue ?? getDefaultFallbackValue())`. */
  function EntryPoint(input: Input, defaultFallback: Schema): SchemaTransformation {
    SchemaTransformation(
      (v: Validator, cutOff: bool) => TransformToJsonSchema(v, EngineOptions(input, cutOff, defaultFallback)),
      input.override)
  }

  /** `common.arrayToRecord(keys, f)`: one entry per distinct key, at its first occurrence. */
  function ArrayToRecord<V>(keys: seq<string>, value: V): (r: seq<(string, V)>)
    ensures Keys(r) == Uniq(keys)
    ensures forall i :: 0 <= i < |r| ==> r[i].1 == value
  {
    var ks := Uniq(keys);
    seq(|ks|, i requires 0 <= i < |ks| => (ks[i], value))
  }

  /** `createJsonSchemaFunctionality`; `defaultFallback` is the value of
      `getDefaultFallbackValue()`, which lives in the other package. */
  function CreateJsonSchemaFunctionality(input: Input, defaultFallback: Schema): GenericArguments {
    var entry := EntryPoint(input, defaultFallback);
    GenericArguments(entry, entry, ArrayToRecord(input.contentTypes, entry), ArrayToRecord(input.contentTypes, entry))
  }

  /** `getUndefinedPossibility`: `false` unless the validator is an io-ts
      `Type` whose `is` accepts `undefined`; then `true` for `t.undefined`
      itself and `undefined` (here `None`) for any other. Whether it is a
      `Type` and what its `is` says of `undefined` are inputs; `t.undefined`
      itself is a `Type` that accepts `undefined`. */
  function GetUndefinedPossibility(v: Validator, isIoTsType: bool, acceptsUndefined: bool): (r: Option<bool>)
    requires v == CanonicalUndefined ==> isIoTsType && acceptsUndefined
    ensures r == Some(false) <==> !(isIoTsType && acceptsUndefined)
    ensures r == Some(true) <==> isIoTsType && acceptsUndefined && v == CanonicalUndefined
    ensures r.None? <==> isIoTsType && acceptsUndefined && v != CanonicalUndefined
  {
    if isIoTsType && acceptsUndefined then
      if v == CanonicalUndefined then Some(true) else None
    else Some(false)
  }

  /** `t.union([t.string, t.undefined])` accepts `undefined`, yet its possibility is `undefined`, not `true`. */
  lemma OptionalUnionPossibilityIsUnknown(n: string, s: string)
    ensures GetUndefinedPossibility(UnionType(n, [StringType(s), CanonicalUndefined]), true, true).None?
  {
  }

  /** Every entry point (string decoder, string encoder, and each content
      type's encoder and decoder) transforms with the same override and the
      fallback `fallbackValue ?? getDefaultFallbackValue()`, and carries that override. */
  lemma EntryPointsShareSettings(input: Input, defaultFallback: Schema, v: Validator, cutOff: bool)
    ensures var f := CreateJsonSchemaFunctionality(input, defaultFallback);
            var expected := TransformToJsonSchema(v, EngineOptions(input, cutOff, defaultFallback));
            f.stringDecoder.transform(v, cutOff) == expected && f.stringEncoder.transform(v, cutOff) == expected
            && f.stringDecoder.override == input.override && f.stringEncoder.override == input.override
            && (forall i :: 0 <= i < |f.encoders| ==> f.encoders[i].1.transform(v, cutOff) == expected && f.encoders[i].1.override == input.override)
            && (forall i :: 0 <= i < |f.decoders| ==> f.decoders[i].1.transform(v, cutOff) == expected && f.decoders[i].1.override == input.override)
  {
  }

  /** The `encoders` and `decoders` records are keyed by the content types, in order. */
  lemma {:induction false} RecordsKeyedByContentTypes(input: Input, defaultFallback: Schema)
    ensures var f := CreateJsonSchemaFunctionality(input, defaultFallback);
            Keys(f.encoders) == Uniq(input.contentTypes) && Keys(f.decoders) == Uniq(input.contentTypes)
            && forall c :: c in Keys(f.encoders) <==> c in input.contentTypes
  {
    UniqMembers(input.contentTypes);
  }

  /** `t.unknown` has no schema of its own: it gets the override's answer,
      failing that the given fallback's, failing that the default. */
  lemma UnknownUsesOverrideThenFallback(input: Input, defaultFallback: Schema, n: string, cutOff: bool)
    ensures var r := CreateJsonSchemaFunctionality(input, defaultFallback).stringDecoder.transform(UnknownType(n), cutOff);
            var answer := if input.override.Some? then input.override.value(UnknownType(n), cutOff) else None;
            r == if answer.Some? then answer.value
                 else if input.fallbackValue.Some? then GetFallbackValue(UnknownType(n), input.fallbackValue.value, defaultFallback)
                 else defaultFallback
  {
    var o := EngineOptions(input, cutOff, defaultFallback);
    assert Tagged(UnknownType(n), true, o).None?;
    if input.override.None? {
      assert o.override(UnknownType(n), cutOff) == Declines(UnknownType(n), cutOff);
    }
  }

  /** Without an override, `t.string` is
      `{ type: "string", description: <name> }` whatever the fallback. */
  lemma StringIgnoresFallback(input: Input, defaultFallback: Schema, n: string, cutOff: bool)
    requires input.override.None?
    ensures var r := CreateJsonSchemaFunctionality(input, defaultFallback).stringDecoder.transform(StringType(n), cutOff);
            SingleTypeName(r) == Some(JsonString) && r.description == Some(n)
            && r.(schemaType := None, description := None) == EmptyObject
  {
    var o := EngineOptions(input, cutOff, defaultFallback);
    assert o.override(StringType(n), cutOff) == Declines(StringType(n), cutOff);
    assert Tagged(StringType(n), true, o) == Some(Typed(JsonString));
  }
}
