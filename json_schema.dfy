/** JSON Schema values as the engines build them: a boolean schema
    (section 4.3.2 of JSON Schema Core, draft-07) or an object schema
    holding the draft-07 validation keywords the engines use: `type`,
    `enum`, `const` (sections 6.1.1-6.1.3 of JSON Schema Validation, draft-07), the array keywords `items`,
    `maxItems`, `minItems` (6.4), the object keywords `maxProperties`,
    `minProperties`, `required`, `properties`, `additionalProperties`,
    `propertyNames` (6.5), `allOf`, `anyOf` (6.7.1-6.7.2) and `description`
    (10.1). A JavaScript object whose key is absent is `None` here. */
module JsonSchema {
  import opened Wrappers
  import opened JsValues

  /** The primitive type names of JSON Schema Validation (draft-07), section 6.1.1. */
  datatype JsonType = JsonNull | JsonBoolean | JsonObject | JsonArray | JsonNumber | JsonString | JsonInteger

  /** The value of `type`: one name (a string) or several (an array). */
  datatype TypeKeyword = Single(name: JsonType) | Several(names: seq<JsonType>)

  /** The value of `items`: one schema for every element, or one per position. */
  datatype Items = SingleItems(schema: Schema) | PositionalItems(schemas: seq<Schema>)

  /** One entry of `properties`. */
  datatype Property = Property(key: string, schema: Schema)

  datatype Schema =
    | Bool(accepts: bool)
    | Obj(
        schemaType: Option<TypeKeyword>,
        constValue: Option<JsValue>,
        enumValues: Option<seq<JsValue>>,
        items: Option<Items>,
        properties: Option<seq<Property>>,
        required: Option<seq<string>>,
        propertyNames: Option<Schema>,
        additionalProperties: Option<Schema>,
        minItems: Option<nat>,
        maxItems: Option<nat>,
        minProperties: Option<nat>,
        maxProperties: Option<nat>,
        anyOf: Option<seq<Schema>>,
        allOf: Option<seq<Schema>>,
        description: Option<string>)

  /** The object schema `{}`. */
  const EmptyObject: Schema := Obj(None, None, None, None, None, None, None, None, None, None, None, None, None, None, None)

  /** `makeTypedSchema(type)`: `{ type }`; further keywords are added with a datatype update. */
  function Typed(t: JsonType): (s: Schema)
    ensures s.Obj? && s.schemaType == Some(Single(t)) && s.(schemaType := None) == EmptyObject
  {
    EmptyObject.(schemaType := Some(Single(t)))
  }

  /** The single type name of a schema, when its `type` is one string
      (`typeof s === "object" && typeof s.type === "string"`). */
  function SingleTypeName(s: Schema): (r: Option<JsonType>)
    ensures r.Some? <==> s.Obj? && s.schemaType.Some? && s.schemaType.value.Single?
    ensures r.Some? ==> s.schemaType == Some(Single(r.value))
  {
    if s.Obj? && s.schemaType.Some? && s.schemaType.value.Single? then Some(s.schemaType.value.name) else None
  }

  /** The keys of a `properties` list, in order (`Object.keys`). */
  function PropertyKeys(ps: seq<Property>): (ks: seq<string>)
    ensures |ks| == |ps| && forall i :: 0 <= i < |ps| ==> ks[i] == ps[i].key
  {
    seq(|ps|, i requires 0 <= i < |ps| => ps[i].key)
  }

  /** JavaScript truthiness of `schema.description`: absent and "" are both falsy. */
  predicate HasDescription(s: Schema) {
    s.Obj? && s.description.Some? && s.description.value != ""
  }
}
