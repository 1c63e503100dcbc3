# ty-ras/data-io-ts in Dafny

This project models the pure core of the io-ts bindings of the TyRAS
framework and proves what that core promises. It has two halves.

**Validator to JSON Schema.** An io-ts validator is a closed datatype,
`IoTs.Validator`, with one constructor per `_tag` and the shared `t.undefined`
object told apart by a flag, because the code compares it by identity. A JSON
Schema (draft-07) is `JsonSchema.Schema`: a boolean schema, or an object schema
with `type`, `const`, `enum`, `items`, `properties`, `required`,
`propertyNames`, `additionalProperties`, the four size bounds, `anyOf`, `allOf`
and `description`. Two engines map one to the other:
- `Transform` is the current engine (`transformToJSONSchema`);
- `Convert` is the older one (`validationToSchema`).

Both engines cover the override-first rule, the case split over the tags,
union flattening, the outermost-only removal of `t.undefined`, type hoisting
(current engine only), exact-object counting, the `description` fill and the
fallback. `Functionality` wires the current engine into every entry point of
`createJsonSchemaFunctionality` and models `getUndefinedPossibility`.
`EnginesAgree` proves that the two engines agree at every depth on the tags
they treat alike.

**Validation results.** This half covers:
- the io-ts error rendering (`DataError`);
- the adapter from `Validation` to the tagged result (`DataUtils`);
- the decoder and encoder wrappers (`DataValidate`);
- the header, query and URL-parameter validators, with required items found
  by probing `undefined`;
- the request and response body validators (content-type gate, empty body,
  JSON parse);
- the state validator with its `erroneousProperties`;
- the front-end `toEither`.

Decoders, encoders, `JSON.parse` and `JSON.stringify` are parameters:
- closures in the model;
- an exception is the `Threw` case of `JsValues.Outcome`;
- `undefined` is `Undefined`, or `None` where the source tests `=== undefined`.

JavaScript records are ordered key/value lists, in `Object.keys` order.

## Where the model follows the code rather than the tests
- `getUndefinedPossibility` gives `undefined` (here `None`) for any validator other than `t.undefined` that accepts `undefined`. Test functionality.spec.ts:16 expects `true` for `t.union([t.string, t.undefined])`. `Functionality.OptionalUnionPossibilityIsUnknown` states the code's answer.
- `outputValidator` has no `is` guard: it encodes whatever it is given. Test validate-body.spec.ts:78-93 expects the guard. `ValidateBody.OutputIgnoresGuard` and `ValidateBody.OutputValidatorSkipsGuard` state what the code does.
- `responseHeadersValidator` marks a header required only when `encode(undefined)` throws. `t.string`'s `encode` returns its input, so the code makes that header optional. Test header-parameters.spec.ts:49-54 expects it to be required. `HeaderParameters.IdentityEncoderIsOptional` states the code's answer.
- `cutOffTopLevelUndefined` is only handed to the override in transform.ts. The removal of `t.undefined` from a union depends only on the outermost-call flag (transform.ts:138), and so it does in the model.
- `ReadonlyArrayType` is an array schema in transform.ts, but in convert.ts it is the wrapped element's schema (convert.ts:104-110).

## Model

| member | source | states |
|---|---|---|
| Transform.ImplAll | metadata-jsonschema/src/transform.ts:142 | one schema per component, in order: `components.map(recursion)` keeps the length |
| Transform.TransformKeyOf | metadata-jsonschema/src/transform.ts:272-288 | no keys is `false`; one key is `{type: "string", const: key}`; more keys are `{type: "string", enum: keys}` in key order, nothing else set |
| Transform.TransformLiteral | metadata-jsonschema/src/transform.ts:290-300 | `const` is the value and `type` is its JavaScript type (string, number or boolean); no other keyword |
| Transform.TypeNames | metadata-jsonschema/src/transform.ts:306-310 | each schema maps to its single `type` string, or to nothing when it is boolean or has none |
| Transform.CommonType | metadata-jsonschema/src/transform.ts:302-318 | the schemas go under `anyOf` or `allOf` as asked; any `type` set is a single one; no other keyword |
| Transform.HoistedTypeIff | metadata-jsonschema/src/transform.ts:311-316 | `type` is hoisted to `t` exactly when there is at least one schema and every schema has the single type `t` |
| Transform.NoHoistOnDisagreement | metadata-jsonschema/src/transform.ts:314 | two schemas with different single types mean no `type` is hoisted |
| TransformLemmas.OverrideVerbatim | metadata-jsonschema/src/transform.ts:54-69 | an override's schema is the result as it is, at any depth: no dispatch, no recursion, no description |
| TransformLemmas.PrimitiveTags | metadata-jsonschema/src/transform.ts:78-175 | Null/Undefined/Void are `null`; String, Number and Boolean map one to one; AnyArray is `array`; AnyDictionary/Object are `object`; Never is `false`; Any is `true`; all named after the validator |
| TransformLemmas.DescriptionFilled | metadata-jsonschema/src/transform.ts:59-64 | after dispatch, an object schema without a (non-empty) description gets the name; a boolean or described schema is untouched; nothing else changes |
| TransformLemmas.KeyofSchema | metadata-jsonschema/src/transform.ts:272-288 | `t.keyof` with 0 keys is `false`; with 1 key it is the named string constant; with more it is the named string enum in key order |
| TransformLemmas.LiteralSchema | metadata-jsonschema/src/transform.ts:290-300 | `t.literal(v)` is `{type: typeof v, const: v}` named after the validator |
| TransformLemmas.PropsSchema | metadata-jsonschema/src/transform.ts:233-251 | interface and partial: one property per prop, in order, with the prop's schema; `required` lists all names in order for the interface and is absent for partial |
| TransformLemmas.DictionarySchema | metadata-jsonschema/src/transform.ts:124-128 | a record is an object whose `propertyNames` is the domain's schema and whose `additionalProperties` is the codomain's |
| TransformLemmas.ArrayTypeSchema | metadata-jsonschema/src/transform.ts:115-119 | array and read-only array are `{type: "array", items: <element schema>}` named after the validator, with no other keyword |
| TransformLemmas.TupleTypeSchema | metadata-jsonschema/src/transform.ts:150-155 | a tuple of n is an array with `minItems = maxItems = n` and n positional item schemas |
| TransformLemmas.ExactInterfaceSchema | metadata-jsonschema/src/transform.ts:156-164 | exact over an interface sets `minProperties = maxProperties =` the number of props |
| TransformLemmas.TransparentWrappers | metadata-jsonschema/src/transform.ts:106-108 | refinement and readonly produce the wrapped validator's schema, named after the wrapper only when it has no description |
| TransformLemmas.UnhandledTakeFallback | metadata-jsonschema/src/transform.ts:47-70 | the unhandled tags (Unknown, BigInt, Recursive, Function, Strict, PipeTransform, any other) and untagged validators other than DateFromISOString get the fallback value |
| TransformLemmas.DateFromIsoStringSchema | metadata-jsonschema/src/transform.ts:214-219 | DateFromISOString is `{type: "string", description: "Timestamp in ISO format."}` |
| TransformLemmas.TopLevelOnlyMattersForUnions | metadata-jsonschema/src/transform.ts:129-145 | the outermost-call flag changes the result only for unions |
| TransformLemmas.UnionOfUnions | metadata-jsonschema/src/transform.ts:130-136 | a union nested in a union gives the same schema as the flattened union |
| TransformLemmas.SameComponentsSameUnion | metadata-jsonschema/src/transform.ts:130-144 | a union's schema depends on its members only through their flattening |
| TransformLemmas.UnionStep | metadata-jsonschema/src/transform.ts:129-145 | an unoverridden union is its union schema, named |
| TransformLemmas.TopLevelUndefinedCut | metadata-jsonschema/src/transform.ts:253-266 | at the outermost call, a union of `t.undefined` and one other component is that component's schema, compressed and named |
| Transform.TryTopLevel | metadata-jsonschema/src/transform.ts:253-266 | there is a top-level schema exactly when some component is `t.undefined` itself |
| TransformLemmas.TopLevelUndefinedAnyOf | metadata-jsonschema/src/transform.ts:253-266 | at the outermost call, a union with `t.undefined` and zero or several other components is `anyOf` over the survivors in order, type hoisted, compressed and named |
| TransformLemmas.StringNumberOptionalUnion | metadata-jsonschema/src/__test__/transform.spec.ts:171-179 | `t.union([t.string, t.number, t.undefined])` is `{anyOf: [string schema, number schema], description: <name>}` with no `type` |
| TransformLemmas.OptionalPrimitiveIsPrimitive | metadata-jsonschema/src/transform.ts:259-263 | `t.union([x, t.undefined])` at the outermost call is `x`'s schema when `x` is a primitive |
| TransformLemmas.NestedUnionKeepsUndefined | metadata-jsonschema/src/transform.ts:138-142 | below the outermost call nothing is cut: every component, `t.undefined` included, stays in `anyOf` |
| TransformLemmas.IntersectionHoisting | metadata-jsonschema/src/transform.ts:146-149 | an intersection is `allOf` over its members, with `type` hoisted exactly when all members share one type |
| TransformLemmas.FlattenHandled | metadata-jsonschema/src/transform.ts:130-136 | flattening a union keeps every component handled by the switch |
| TransformLemmas.FallbackUnusedWhenHandled | metadata-jsonschema/src/transform.ts:69 | with no override answering, on a validator whose every node the switch handles, any fallback gives the same schema |
| TransformLemmas.TaggedFallbackUnused | metadata-jsonschema/src/transform.ts:72-177 | the same for the tagged dispatch, case by case |
| TransformLemmas.UnionFallbackUnused | metadata-jsonschema/src/transform.ts:129-145 | the same for the union case |
| TransformLemmas.AllFallbackUnused | metadata-jsonschema/src/transform.ts:142-154 | the same for a list of members |
| TransformLemmas.PropsFallbackUnused | metadata-jsonschema/src/transform.ts:238-245 | the same for a props list |
| IoTs.FlattenUnions | metadata-jsonschema/src/transform.ts:130-136 | no flattened component is a union, and flattening never grows the measure |
| IoTs.FlattenConcat | metadata-jsonschema/src/__test__/transform.spec.ts:262-287 | flattening distributes over concatenation |
| IoTs.FlattenIdempotent | metadata-jsonschema/src/__test__/transform.spec.ts:262-287 | flattening twice is flattening once |
| IoTs.NoUnionsFlattenToThemselves | metadata-jsonschema/src/__test__/transform.spec.ts:262-287 | a list with no unions is its own flattening |
| IoTs.FlattenNested | metadata-jsonschema/src/__test__/transform.spec.ts:262-287 | nesting a union inside a union changes nothing once flattened |
| IoTs.FlattenSingleUnion | metadata-jsonschema/src/__test__/transform.spec.ts:262-287 | a lone union flattens to the flattening of its members |
| IoTs.RemoveCanonicalUndefined | metadata-jsonschema/src/transform.ts:259-260 | no survivor is `t.undefined`; a value survives exactly when it is in the list and is not `t.undefined`; nothing is removed exactly when none is there |
| IoTs.RemoveCanonicalUndefinedConcat | metadata-jsonschema/src/transform.ts:259 | the filter distributes over concatenation, so it keeps order and multiplicity |
| IoTs.RemoveCanonicalUndefinedSingleton | metadata-jsonschema/src/transform.ts:259 | one element is dropped exactly when it is `t.undefined` |
| MetadataCommon.FromIoTypes | metadata-jsonschema/src/transform.ts:210-221 | only DateFromISOString is recognised, as a string schema with the fixed description |
| MetadataCommon.FillDescription | metadata-jsonschema/src/transform.ts:59-64 | a boolean schema or one with a description is unchanged; otherwise only `description` changes, to the name |
| MetadataCommon.CountExactProperties | metadata-jsonschema/src/transform.ts:156-163 | an `object`-typed schema gets `minProperties = maxProperties = |properties|` (0 when absent); any other is unchanged |
| MetadataCommon.ArraySchema | metadata-jsonschema/src/transform.ts:115-119 | `{type: "array", items}` and nothing else |
| MetadataCommon.TupleSchema | metadata-jsonschema/src/transform.ts:150-155 | `type` array, `minItems = maxItems =` the number of positions, positional `items` |
| MetadataCommon.ObjectWithProperties | metadata-jsonschema/src/transform.ts:233-251 | `type` object, the given `properties`, and `required` listing every name in order unless the properties are optional |
| MetadataCommon.AllBranchValuesMembers | metadata-jsonschema/src/__test__/transform.spec.ts:80-87 | a value is in the compressed enum exactly when some branch lists it |
| MetadataCommon.AllConstBranchValues | metadata-jsonschema/src/__test__/transform.spec.ts:201-208 | a union of single constants is compressed to those constants, one per branch, in order |
| MetadataCommon.Compress | metadata-jsonschema/src/__test__/transform.spec.ts:80-87 | an `anyOf` of constant branches becomes one `enum` of all their values, the rest kept; anything else is unchanged; the result is never compressible again |
| MetadataCommon.CompressIdempotent | metadata-jsonschema/src/transform.ts:144 | compressing twice is compressing once |
| Convert.ConvertAll | metadata-jsonschema/src/convert.ts:189 | one schema per member, in order |
| Convert.ConvertProps | metadata-jsonschema/src/convert.ts:127-135 | one property per prop, in order |
| Convert.ConvertKeyOf | metadata-jsonschema/src/convert.ts:89-103 | no schema exactly when there are no keys; one key is `{const: key}`; more keys are `{enum: keys}` in order; no `type` |
| ConvertLemmas.ConvertOverrideVerbatim | metadata-jsonschema/src/convert.ts:15-16 | the override is asked with the validator alone, and its schema is the result as it is |
| ConvertLemmas.ConvertNullAndFallback | metadata-jsonschema/src/convert.ts:21-265 | only Null is `{type: "null"}`; Undefined, Void, Unknown, BigInt, Strict, Recursive, Function and other tags, and unknown untagged validators, get the fallback |
| ConvertLemmas.ConvertLiteral | metadata-jsonschema/src/convert.ts:83-88 | a literal is `{const: value}` named, with no `type` |
| ConvertLemmas.ConvertKeyofSchema | metadata-jsonschema/src/convert.ts:89-103 | 0 keys give the fallback; 1 key a named const; more keys a named enum, none typed |
| ConvertLemmas.ReadonlyArrayIsTransparent | metadata-jsonschema/src/convert.ts:104-124 | a read-only array of strings is the string schema itself, while an array of strings is an `array` |
| ConvertLemmas.PipeSchema | metadata-jsonschema/src/convert.ts:249-256 | a pipe has its string side's schema with `description` replaced by the pipe's name (if it is an object schema) |
| ConvertLemmas.ConvertUnionStep | metadata-jsonschema/src/convert.ts:162-194 | an unoverridden union is its union schema, named |
| ConvertLemmas.ConvertUnionNeverHoists | metadata-jsonschema/src/convert.ts:179-191 | a union schema never gets a `type` unless the outermost cut leaves a lone survivor |
| ConvertLemmas.ConvertUnionOfUnions | metadata-jsonschema/src/convert.ts:164-172 | nested unions are flattened |
| ConvertLemmas.ConvertTopLevelUndefinedCut | metadata-jsonschema/src/convert.ts:173-185 | at the outermost call, `t.undefined` with one other component is that component's schema |
| ConvertLemmas.ConvertTopLevelUndefinedAnyOf | metadata-jsonschema/src/convert.ts:173-185 | at the outermost call, `t.undefined` with zero or several other components is `anyOf` over the survivors in order, compressed and named |
| ConvertLemmas.ConvertNestedUnionKeepsAll | metadata-jsonschema/src/convert.ts:162-194 | below the outermost call every component stays in `anyOf` |
| ConvertLemmas.ConvertIntersection | metadata-jsonschema/src/convert.ts:195-201 | an intersection is `allOf` of its members, no `type` |
| ConvertLemmas.ConvertTuple | metadata-jsonschema/src/convert.ts:202-211 | a tuple of n has `minItems = maxItems = n` and n positional items |
| ConvertLemmas.ConvertExactInterface | metadata-jsonschema/src/convert.ts:212-221 | exact over an interface has `minProperties = maxProperties =` the number of props, and `required` lists every prop name in order |
| EnginesAgree.EnginesAgreeOnSharedFragment | metadata-jsonschema/src/convert.ts:7-266 | on validators built from the tags both engines treat alike, with the same override answers and fallback, the two engines give the same schema at every depth |
| EnginesAgree.TaggedAgree | metadata-jsonschema/src/convert.ts:20-257 | the same for the two case splits |
| EnginesAgree.AllAgree | metadata-jsonschema/src/convert.ts:208 | the same for a list of members |
| EnginesAgree.PropsAgree | metadata-jsonschema/src/convert.ts:125-152 | the same for a props list |
| EnginesAgree.EnginesDifferOnUndefined | metadata-jsonschema/src/convert.ts:244-248 | on `t.undefined` the current engine gives `{type: "null", description: "undefined"}` and the older one the fallback value; so with fallback `true` they differ |
| Functionality.ArrayToRecord | metadata-jsonschema/src/functionality.ts:53-78 | keyed by the distinct content types in first-occurrence order, every value the same |
| Functionality.GetUndefinedPossibility | metadata-jsonschema/src/functionality.ts:112-119 | `false` exactly when the validator is not a Type or rejects `undefined`; `true` exactly for the canonical `t.undefined`; `undefined` exactly for any other that accepts `undefined` |
| Functionality.OptionalUnionPossibilityIsUnknown | metadata-jsonschema/src/functionality.ts:115-118 | `t.union([t.string, t.undefined])` gets `undefined`, not `true` |
| Functionality.EntryPointsShareSettings | metadata-jsonschema/src/functionality.ts:31-78 | every entry point transforms with the given override and `fallbackValue ?? default`, and carries that override |
| Functionality.RecordsKeyedByContentTypes | metadata-jsonschema/src/functionality.ts:53-78 | `encoders` and `decoders` are keyed exactly by the content types |
| Functionality.UnknownUsesOverrideThenFallback | metadata-jsonschema/src/__test__/functionality.spec.ts:56-97 | `t.unknown` gets the override's answer, else the given fallback's, else the default |
| Functionality.StringIgnoresFallback | metadata-jsonschema/src/__test__/functionality.spec.ts:56-97 | without an override, `t.string` is its typed, named schema whatever the fallback |
| DataError.Stringify | data/src/error.ts:53-64 | a function gives its name; NaN, positive and negative infinity give `NaN`, `Infinity`, `-Infinity`; anything else is `JSON.stringify` |
| DataError.GetContextPath | data/src/error.ts:65-67 | the context steps `key: typeName` joined by `/`; an empty context is `""`; one step is `key: typeName` |
| DataError.GetMessage | data/src/error.ts:47-52 | an error's own message verbatim; otherwise `Invalid value <stringify(value)> supplied to <path>`, or the stringify exception |
| DataError.Failure | data/src/error.ts:46 | every error's rendering in order exactly when each renders; otherwise the exception of the first error that throws |
| DataError.GetHumanReadableErrorMessage | data/src/error.ts:19-20 | an empty error list renders as `""` |
| DataError.CreateErrorObject | data/src/error.ts:31-37 | tag `error`, `errorInfo` unchanged, and a thunk returning `getHumanReadableErrorMessage(errorInfo)` |
| DataProtocol.RequireDefined | data-backend/src/header-parameters.ts:30-37 | a required item answers `undefined` with an exception-error holding the message, without consulting the plain validator, and hands every other value to it; an optional item is the plain validator |
| DataError.OwnMessagesRenderVerbatim | data/src/error.ts:19-52 | errors that all carry messages render as those messages in order joined by `"  \n"` |
| DataError.RenderSnoc | data/src/error.ts:19-46 | one more error appends the separator and its rendering |
| DataError.ContextPathSnoc | data/src/error.ts:65-67 | one more context step appends `/key: typeName` |
| DataError.RootFailureMessage | data/src/__test__/error.spec.ts:9-19 | a root-level failure with empty key renders as `Invalid value <json> supplied to : <type>` |
| DataUtils.TransformLibraryResultToModelResult | data/src/utils.ts:13-26 | `Right` becomes `{none, data}`, `Left` becomes `{error, errorInfo}` with the same list and a thunk rendering it; the tag depends only on the side |
| DataUtils.LibraryResultRoundTrip | data/src/utils.ts:16-25 | the `Validation` can be read back from the result |
| DataUtils.AdapterAgreesWithCreateErrorObject | data/src/utils.ts:21-25 | the error side is what `createErrorObject` builds |
| DataValidate.Rejection | data/src/validate.ts:52-69 | the rejection error holds the value, one root context step naming the encoder, and the fixed message |
| DataValidate.FromDecoder | data/src/validate.ts:29-34 | the validator answers the adapter applied to `decode(input)` |
| DataValidate.FromEncoder | data/src/validate.ts:41-70 | an accepted value is encoded (a throw propagates); a rejected one gives the single rejection error |
| DataValidate.DecoderResultKept | data/src/validate.ts:29-34 | the decoder's data or error list comes through verbatim |
| DataValidate.RejectionIgnoresEncode | data/src/validate.ts:47-52 | when `is` fails the result does not depend on `encode` |
| DataValidate.RejectionMessage | data/src/validate.ts:52-69 | the rejection is one error whose rendering is the fixed message |
| StringDecoding.StringDecoder | data-backend/src/__test__/url.spec.ts:8-42 | metadata and validators keep the input keys; required exactly when `decode(undefined)` fails; a missing required item gives `<itemName> "<key>" is mandatory.`; everything else is decoded |
| HeaderParameters.HeadersValidator | data-backend/src/header-parameters.ts:5-45 | metadata and validators keep the keys; required exactly when `decode(undefined)` is Left; a missing required header gives `Header "<name>" is mandatory.` without decoding; everything else is the plain decoder's result |
| HeaderParameters.ProbeRequired | data-backend/src/header-parameters.ts:58-64 | the flag is set exactly when `encode(undefined)` throws |
| HeaderParameters.ResponseHeadersValidator | data-backend/src/header-parameters.ts:47-93 | required exactly when `encode(undefined)` throws; a missing required header gives the mandatory message; present values go through the guarded encoder |
| HeaderParameters.HeaderMessageIsGeneric | data-backend/src/header-parameters.ts:34 | the header message is the generic mandatory message with item name `Header` |
| HeaderParameters.HeadersAreStringDecoder | data-backend/src/header-parameters.ts:13-44 | request headers are the generic string decoder with item name `Header` |
| HeaderParameters.ResponseHeadersVersusStringEncoder | data-backend/src/header-parameters.ts:57-66 | response headers match the string encoder exactly where throwing on `undefined` and rejecting it coincide |
| HeaderParameters.IdentityEncoderIsOptional | data-backend/src/header-parameters.ts:57-66 | an encoder that returns its input (as `t.string`'s does) makes the header optional |
| StringEncoding.StringEncoder | data-backend/src/string-encoder.ts:20-60 | keys kept; required exactly when `is(undefined)` fails; a missing required item gives `<itemName> "<key>" is mandatory.`; everything else goes through `fromEncoder` |
| StringEncoding.OptionalItemEncodesUndefined | data-backend/src/string-encoder.ts:33-51 | an optional item's `undefined` is `encode(undefined)` |
| StringEncoding.MissingItemIgnoresEncoder | data-backend/src/string-encoder.ts:44-49 | a missing required item's result does not depend on `encode` |
| BodyGeneric.ParseBody | data-backend/src/body-generic.ts:16-36 | empty text is `undefined`; other text is its parse, or an exception-error on a parse throw |
| BodyGeneric.RequestBody | data-backend/src/body-generic.ts:6-61 | contents is the one supported type; a rejected content type is unsupported-content-type; empty text validates `undefined`; a parse throw is an exception-error; parsed text gets the validator's answer |
| BodyGeneric.ResponseBody | data-backend/src/body-generic.ts:63-100 | contents is the one supported type; a success is serialised under the supported type; a failure is handed back; a throw is an exception-error |
| DataProtocol.PassFailure | data-backend/src/body-generic.ts:88-90 | a failed result is handed on under another data type with the same tag and the same error list, message thunk, thrown value or supported content types |
| BodyGeneric.GateExamples | data-backend/src/body-generic.ts:40-41 | a type that starts with the supported one passes; the empty type passes only when not strict |
| BodyGeneric.RejectedContentTypeIgnoresBody | data-backend/src/body-generic.ts:50-53 | a rejected content type gives the same answer whatever the body |
| BodyGeneric.EmptyBodyNeverParses | data-backend/src/body-generic.ts:27-33 | an empty body never reaches `JSON.parse` |
| BodyGeneric.ParseFailureSkipsValidator | data-backend/src/body-generic.ts:18-26 | text that fails to parse never reaches the validator |
| BodyGeneric.ResponseFailureUnchanged | data-backend/src/body-generic.ts:88-90 | a validator failure is returned with its tag and contents |
| ValidateBody.InputValidator | data-backend/src/validate-body.ts:9-59 | contents maps only `application/json` to the decoder; a rejected content type lists `[application/json]` |
| ValidateBody.InputValidatorIsRequestBody | data-backend/src/validate-body.ts:9-59 | `inputValidator` gives `requestBody`'s answer with the plain decoder and `application/json` for every request |
| ValidateBody.ParsedBodyIsDecoded | data-backend/src/validate-body.ts:14-34 | parsed JSON is decoded and the decoder's data or errors are the result |
| ValidateBody.OutputValidator | data-backend/src/validate-body.ts:61-86 | contents maps only `application/json` to the encoder; the value is encoded and serialised under `application/json`; a throw is an exception-error |
| ValidateBody.OutputIgnoresGuard | data-backend/src/validate-body.ts:67-79 | the result does not depend on `is` |
| ValidateBody.OutputValidatorIsGuardedResponseBody | data-backend/src/validate-body.ts:61-86 | where `is` holds, it is `responseBody` over `fromEncoder` |
| ValidateBody.OutputValidatorSkipsGuard | data-backend/src/validate-body.ts:67-76 | where `is` fails, it still serialises, unlike the guarded validator |
| ValidateString.ExtractDecoder | data-backend/src/validate-string.ts:15-22 | the decoder of the info: `info.decoder` with a regExp, else the info itself |
| ValidateString.UrlParameters | data-backend/src/validate-string.ts:6-25 | keys kept; every value goes to the plain decoder, with no mandatory short-circuit; metadata `regExp` is the given one, else the default |
| ValidateString.QueryValidator | data-backend/src/validate-string.ts:27-32 | the string decoder with item name `Query`: metadata and validators keep the keys; metadata holds the decoder and `required` exactly when `decode(undefined)` fails; a missing required item gives `Query "<key>" is mandatory.`; every other value, `undefined` of an optional item included, is decoded |
| ValidateString.UrlParameterUndefinedIsDecoded | data-backend/src/validate-string.ts:14-16 | `undefined` is decoded like any other value |
| Url.UrlParameter | data-backend/src/url.ts:7-16 | name and decoder unchanged, `regExp` the given one else the default, validator the plain decoder |
| Url.Query | data-backend/src/url.ts:18-23 | the string decoder with item name `Query parameter`: metadata and validators keep the keys; metadata holds the decoder and `required` exactly when `decode(undefined)` fails; a missing required item gives `Query parameter "<name>" is mandatory.`; every other value is decoded |
| Url.PresentQueryParameterIsDecoded | data-backend/src/url.ts:18-23 | a present query parameter is decoded |
| StateValidatorFactory.PartProps | state/src/state-validator-factory.ts:25-42 | each name with `validation[name].validation`, in order |
| StateValidatorFactory.Combine | state/src/state-validator-factory.ts:25-42 | mandatory names in the `t.type` part, optional names in the `t.partial` part, each with its own validator |
| StateValidatorFactory.StateValidator | state/src/state-validator-factory.ts:43-55 | success is the adapter's data; failure has `createErrorObject`'s error list and message plus `erroneousProperties` |
| StateValidatorFactory.ErroneousPropertiesLength | state/src/state-validator-factory.ts:51-53 | one key per context step, duplicates and root keys kept |
| StateValidatorFactory.ErroneousPropertiesMembers | state/src/state-validator-factory.ts:51-53 | a key is reported exactly when some context step has it |
| StateValidatorFactory.ErroneousPropertiesConcat | state/src/state-validator-factory.ts:51-53 | keys follow error order |
| StateValidatorFactory.StateFailureMessage | state/src/state-validator-factory.ts:50 | the failure renders as `getHumanReadableErrorMessage` of the errors |
| FrontendFpTsUtils.ToEither | data-frontend/src/fp-ts-utils.ts:13-18 | a success's data on the right exactly when the tag is `none`; any other result, untouched, on the left |
| FrontendFpTsUtils.ToEitherRoundTrip | data-frontend/src/fp-ts-utils.ts:18 | nothing is lost |
| FrontendFpTsUtils.FromEitherRoundTrip | data-frontend/src/fp-ts-utils.ts:18 | every `Either` with a failure on the left comes from `toEither` |

## Left out
- Reading the request stream (`rawbody`, `await`) is asynchronous I/O. A request is its content type and the text already read.
- data-backend/src/body.ts only delegates to the body helpers, which are modelled directly.
- io-ts internals: how `decode`, `is` and `encode` behave, and how validators are named. Names and validator behaviour are inputs, and the state validator's combined `decode` is a parameter.
- `JSON.parse` and `JSON.stringify` are partial functions given as parameters. Cyclic values and deep recursion are out of scope.
- Floats: a number is finite, NaN or plus/minus infinity, with no arithmetic.
- data/src/instance-of.ts, data/src/pipe.ts, data/src/string.ts and data/src/fp-ts-utils.ts are not part of this model. A Pipe is only its name and its string side.
- data-frontend/src/api-call.ts and the type-only files have no logic to model.
- string-decoder-generic.ts is not part of this model. `StringDecoding.StringDecoder` follows the behaviour in url.spec.ts, which is `headersValidator`'s pattern.
- `exceptionAsValidationError`, `transitiveDataValidation`, `getFallbackValue`, `getDefaultFallbackValue`, `defaultParameterRegExp`, `flattenDeepStructures`, `tryToCompressUnionOfMaybeEnums` and `arrayToRecord` live in other packages:
  - they are given as their tests show them;
  - the default fallback schema and the default URL pattern are parameters;
  - the message thunk of `exceptionAsValidationError` is not modelled.
- `plainValidator` and `plainValidatorEncoder` are taken to be `fromDecoder` and `fromEncoder`. The bypass flag some tests pass to `plainValidatorEncoder` does not exist in the code shown.
- `createJsonSchemaFunctionalityGeneric` and `createStateValidatorFactoryGeneric` are not part of this model. The model gives the arguments handed to them, and the pass-through `args` are not modelled.
- Aliasing is not modelled: the source mutates schema objects in place, and an override or fallback may return the same object twice. Record updates on fresh values stand for those mutations.
- Distinct keys: props records, property records and the state's mandatory and optional name lists are assumed to have distinct keys, so a later duplicate cannot overwrite an earlier one.
- RecursiveType has no child: both engines send it to the fallback, so its body never matters.
- Transform.TransformToJsonSchema, Transform.Impl, Transform.Tagged, Transform.TransformUnion, Convert.ValidationToSchema, Convert.ConvertTagged and Convert.ConvertUnion carry no contract of their own; what they promise is stated by the lemmas in TransformLemmas, ConvertLemmas and EnginesAgree.
- Functionality.CreateJsonSchemaFunctionality and Functionality.EntryPoint carry no contract of their own; `Functionality.EntryPointsShareSettings`, `Functionality.RecordsKeyedByContentTypes`, `Functionality.UnknownUsesOverrideThenFallback` and `Functionality.StringIgnoresFallback` state what they build.
- StateValidatorFactory.ErroneousProperties carries no contract of its own; `StateValidatorFactory.ErroneousPropertiesLength`, `StateValidatorFactory.ErroneousPropertiesMembers` and `StateValidatorFactory.ErroneousPropertiesConcat` state it.
- IoTs.UndefinedType: identity with the shared `t.undefined` object is modelled as equality with `IoTs.CanonicalUndefined`; an `UndefinedType(n, true)` with another name is an ordinary instance.
