/** The io-ts validators the schema engines walk, as a closed datatype with
    one constructor per `_tag` the engines examine. Every constructor has the
    validator's `name`. Only the structure matters here: how io-ts decodes,
    checks and encodes values belongs to the library.

    Per the engines' own case split (transform.ts:179-208, convert.ts:268-298):
    children are kept where an engine recurses into them. A `RecursiveType`
    carries no child, since both engines hand it to the fallback, and a
    cyclic structure cannot be a datatype value. */
module IoTs {
  import opened JsValues

  /** One entry of a props object: a property name and its validator. */
  datatype Prop = Prop(key: string, validator: Validator)

  datatype Validator =
    | NullType(name: string)
      /** `canonical` tells the one shared `t.undefined` object apart from
          any other `UndefinedType` instance; the engines compare by identity.
          Only the value `CanonicalUndefined` stands for the shared object: an
          `UndefinedType(n, true)` with another name is just another instance. */
    | UndefinedType(name: string, canonical: bool)
    | VoidType(name: string)
    | UnknownType(name: string)
    | StringType(name: string)
    | NumberType(name: string)
    | BigIntType(name: string)
    | BooleanType(name: string)
    | AnyArrayType(name: string)
    | AnyDictionaryType(name: string)
      /** `t.literal(value)`; io-ts allows a string, number or boolean here. */
    | LiteralType(name: string, value: JsValue)
      /** `t.keyof(keys)`: the keys of the object, in `Object.keys` order. */
    | KeyofType(name: string, keys: seq<string>)
    | RefinementType(name: string, inner: Validator)
    | RecursiveType(name: string)
    | ArrayType(name: string, inner: Validator)
      /** `t.type(props)`; `props` lists the entries of the props object (distinct keys). */
    | InterfaceType(name: string, props: seq<Prop>)
    | PartialType(name: string, props: seq<Prop>)
    | DictionaryType(name: string, domain: Validator, codomain: Validator)
    | UnionType(name: string, types: seq<Validator>)
    | IntersectionType(name: string, types: seq<Validator>)
    | TupleType(name: string, types: seq<Validator>)
    | ReadonlyType(name: string, inner: Validator)
    | ReadonlyArrayType(name: string, inner: Validator)
    | ExactType(name: string, inner: Validator)
    | FunctionType(name: string)
    | NeverType(name: string)
    | AnyType(name: string)
    | ObjectType(name: string)
    | StrictType(name: string, props: seq<Prop>)
      /** The repository's own `Pipe` class (data/src/pipe.ts:3-15), tag "PipeTransform";
          its name is the name of the transform. */
    | PipeTransform(name: string, stringType: Validator)
      /** Any other `_tag`, such as the "StringPipe" of data/src/string.ts. */
    | OtherTagged(name: string, tag: string)
      /** A validator object without `_tag`, such as io-ts-types' `DateFromISOString`. */
    | Untagged(name: string, isDateFromISOString: bool)

  /** The shared `t.undefined` object. */
  const CanonicalUndefined: Validator := UndefinedType("undefined", true)

  /** A measure that every child of a validator is below. */
  function Size(v: Validator): (n: nat)
    ensures n >= 1
  {
    match v
    case RefinementType(_, t) => 1 + Size(t)
    case ArrayType(_, t) => 1 + Size(t)
    case ReadonlyType(_, t) => 1 + Size(t)
    case ReadonlyArrayType(_, t) => 1 + Size(t)
    case ExactType(_, t) => 1 + Size(t)
    case PipeTransform(_, t) => 1 + Size(t)
    case DictionaryType(_, d, c) => 1 + Size(d) + Size(c)
    case InterfaceType(_, ps) => 1 + SizeProps(ps)
    case PartialType(_, ps) => 1 + SizeProps(ps)
    case StrictType(_, ps) => 1 + SizeProps(ps)
    case UnionType(_, ts) => 1 + SizeAll(ts)
    case IntersectionType(_, ts) => 1 + SizeAll(ts)
    case TupleType(_, ts) => 1 + SizeAll(ts)
    case _ => 1
  }

  /** The summed size of a list of validators; each member is within it. */
  function SizeAll(ts: seq<Validator>): (n: nat)
    ensures forall i :: 0 <= i < |ts| ==> Size(ts[i]) <= n
  {
    if ts == [] then 0 else Size(ts[0]) + SizeAll(ts[1..])
  }

  /** The summed size of the validators of a props list. */
  function SizeProps(ps: seq<Prop>): (n: nat)
    ensures forall i :: 0 <= i < |ps| ==> Size(ps[i].validator) <= n
  {
    if ps == [] then 0
    else
      Size(ps[0].validator) + SizeProps(ps[1..])
  }

  lemma {:induction false} SizeAllConcat(a: seq<Validator>, b: seq<Validator>)
    ensures SizeAll(a + b) == SizeAll(a) + SizeAll(b)
  {
    if a == [] {
      assert a + b == b;
    } else {
      assert (a + b)[1..] == a[1..] + b;
      SizeAllConcat(a[1..], b);
    }
  }

  /** `flattenDeepStructures` with a union's members as the children: every
      union in the list is replaced, recursively, by its members, in order.
      The result holds no union, and it is no larger than its input. */
  function FlattenUnions(ts: seq<Validator>): (r: seq<Validator>)
    ensures forall i :: 0 <= i < |r| ==> !r[i].UnionType?
    ensures SizeAll(r) <= SizeAll(ts)
    decreases SizeAll(ts)
  {
    if ts == [] then []
    else
      var head := if ts[0].UnionType? then FlattenUnions(ts[0].types) else [ts[0]];
      var tail := FlattenUnions(ts[1..]);
      SizeAllConcat(head, tail);
      assert [ts[0]][1..] == [];
      head + tail
  }

  /** Flattening distributes over concatenation. */
  lemma {:induction false} FlattenConcat(a: seq<Validator>, b: seq<Validator>)
    ensures FlattenUnions(a + b) == FlattenUnions(a) + FlattenUnions(b)
    decreases |a|
  {
    if a == [] {
      assert a + b == b;
    } else {
      assert (a + b)[0] == a[0];
      assert (a + b)[1..] == a[1..] + b;
      FlattenConcat(a[1..], b);
    }
  }

  /** Flattening twice is flattening once: the pass is idempotent. */
  lemma {:induction false} FlattenIdempotent(ts: seq<Validator>)
    ensures FlattenUnions(FlattenUnions(ts)) == FlattenUnions(ts)
    decreases |ts|
  {
    if ts != [] {
      var r := FlattenUnions(ts);
      NoUnionsFlattenToThemselves(r);
    }
  }

  /** A list without unions is its own flattening. */
  lemma {:induction false} NoUnionsFlattenToThemselves(ts: seq<Validator>)
    requires forall i :: 0 <= i < |ts| ==> !ts[i].UnionType?
    ensures FlattenUnions(ts) == ts
    decreases |ts|
  {
    if ts != [] {
      NoUnionsFlattenToThemselves(ts[1..]);
      assert [ts[0]] + ts[1..] == ts;
    }
  }

  /** Nesting a union inside a union changes nothing once flattened:
      `[a, Union(bs)] ++ rest` flattens like `[a] ++ bs ++ rest`. */
  lemma {:induction false} FlattenNested(before: seq<Validator>, n: string, inner: seq<Validator>, after: seq<Validator>)
    ensures FlattenUnions(before + [UnionType(n, inner)] + after) == FlattenUnions(before + inner + after)
  {
    var u := UnionType(n, inner);
    calc {
      FlattenUnions(before + [u] + after);
      { FlattenConcat(before + [u], after); }
      FlattenUnions(before + [u]) + FlattenUnions(after);
      { FlattenConcat(before, [u]); FlattenSingleUnion(n, inner); }
      FlattenUnions(before) + FlattenUnions(inner) + FlattenUnions(after);
      { FlattenConcat(before, inner); }
      FlattenUnions(before + inner) + FlattenUnions(after);
      { FlattenConcat(before + inner, after); }
      FlattenUnions(before + inner + after);
    }
  }

  lemma FlattenSingleUnion(n: string, inner: seq<Validator>)
    ensures FlattenUnions([UnionType(n, inner)]) == FlattenUnions(inner)
  {
    assert [UnionType(n, inner)][1..] == [];
  }

  /** The list with every element identical to `t.undefined` removed
      (`components.filter((element) => element !== t.undefined)`). */
  function RemoveCanonicalUndefined(ts: seq<Validator>): (r: seq<Validator>)
    ensures |r| <= |ts|
    ensures SizeAll(r) <= SizeAll(ts)
    ensures forall i :: 0 <= i < |r| ==> r[i] != CanonicalUndefined
    ensures (|r| == |ts|) <==> (forall i :: 0 <= i < |ts| ==> ts[i] != CanonicalUndefined)
    ensures forall x :: x in r <==> x in ts && x != CanonicalUndefined
  {
    if ts == [] then []
    else
      var tail := RemoveCanonicalUndefined(ts[1..]);
      assert forall x :: x in ts <==> x == ts[0] || x in ts[1..];
      if ts[0] == CanonicalUndefined then tail
      else
        assert [ts[0]] + tail == [ts[0]] + tail;
        SizeAllConcat([ts[0]], tail);
        assert [ts[0]][1..] == [];
        [ts[0]] + tail
  }

  /** The filter keeps the order and the multiplicity of what it keeps: it
      distributes over concatenation. */
  lemma {:induction false} RemoveCanonicalUndefinedConcat(a: seq<Validator>, b: seq<Validator>)
    ensures RemoveCanonicalUndefined(a + b) == RemoveCanonicalUndefined(a) + RemoveCanonicalUndefined(b)
    decreases |a|
  {
    if a != [] {
      assert (a + b)[0] == a[0];
      assert (a + b)[1..] == a[1..] + b;
      RemoveCanonicalUndefinedConcat(a[1..], b);
    } else {
      assert a + b == b;
    }
  }

  /** On one element the filter drops `t.undefined` and keeps anything else. */
  lemma RemoveCanonicalUndefinedSingleton(x: Validator)
    ensures RemoveCanonicalUndefined([x]) == if x == CanonicalUndefined then [] else [x]
  {
    assert [x][1..] == [];
  }
}
