/** The two schema engines side by side: on validators built only from
    tags that both treat alike, the current engine (Transform) and the older
    one (Convert) produce the same schema at every depth, given the same
    override answers and the same fallback. Each engine is thereby a
    reference definition for the other on that fragment. */
module EnginesAgree {
  import opened Wrappers
  import opened JsonSchema
  import opened IoTs
  import opened MetadataCommon
  import opened Transform
  import opened Convert

  /** Validators whose every node has a tag on which the two case splits agree.
      Left out are the tags where they differ: literals and keys (`type`),
      `undefined`/`void`, read-only arrays, unions and intersections
      (hoisting), and pipes. */
  predicate SharedFragment(v: Validator)
    decreases Size(v)
  {
    match v
    case LiteralType(_, _) => false
    case KeyofType(_, _) => false
    case UndefinedType(_, _) => false
    case VoidType(_) => false
    case ReadonlyArrayType(_, _) => false
    case UnionType(_, _) => false
    case IntersectionType(_, _) => false
    case PipeTransform(_, _) => false
    case RefinementType(_, t) => SharedFragment(t)
    case ReadonlyType(_, t) => SharedFragment(t)
    case ArrayType(_, t) => SharedFragment(t)
    case ExactType(_, t) => SharedFragment(t)
    case DictionaryType(_, d, c) => SharedFragment(d) && SharedFragment(c)
    case InterfaceType(_, ps) => forall i :: 0 <= i < |ps| ==> SharedFragment(ps[i].validator)
    case PartialType(_, ps) => forall i :: 0 <= i < |ps| ==> SharedFragment(ps[i].validator)
    case TupleType(_, ts) => forall i :: 0 <= i < |ts| ==> SharedFragment(ts[i])
    case _ => true
  }

  /** Both engines get the same answer from their overrides and share the fallback. */
  ghost predicate SameSettings(to: Options, co: ConvertOptions) {
    (forall w :: to.override(w, to.cutOffTopLevelUndefined) == co.override(w))
    && to.fallback == co.fallback && to.defaultFallback == co.defaultFallback
  }

  lemma {:induction false} EnginesAgreeOnSharedFragment(topLevel: bool, v: Validator, to: Options, co: ConvertOptions)
    requires SharedFragment(v)
    requires SameSettings(to, co)
    ensures Impl(topLevel, v, to) == ValidationToSchema(v, co, topLevel)
    decreases Size(v), 1
  {
    if co.override(v).None? && !v.Untagged? {
      TaggedAgree(topLevel, v, to, co);
    }
  }

  lemma {:induction false} TaggedAgree(topLevel: bool, v: Validator, to: Options, co: ConvertOptions)
    requires SharedFragment(v) && !v.Untagged?
    requires SameSettings(to, co)
    ensures Tagged(v, topLevel, to) == ConvertTagged(v, topLevel, co)
    decreases Size(v), 0
  {
    match v
    case RefinementType(_, t) => EnginesAgreeOnSharedFragment(false, t, to, co);
    case ReadonlyType(_, t) => EnginesAgreeOnSharedFragment(false, t, to, co);
    case ArrayType(_, t) => EnginesAgreeOnSharedFragment(false, t, to, co);
    case ExactType(_, t) => EnginesAgreeOnSharedFragment(false, t, to, co);
    case DictionaryType(_, d, c) =>
      EnginesAgreeOnSharedFragment(false, d, to, co);
      EnginesAgreeOnSharedFragment(false, c, to, co);
    case InterfaceType(_, ps) => PropsAgree(ps, to, co);
    case PartialType(_, ps) => PropsAgree(ps, to, co);
    case TupleType(_, ts) => AllAgree(ts, to, co);
    case _ =>
  }

  lemma {:induction false} AllAgree(ts: seq<Validator>, to: Options, co: ConvertOptions)
    requires forall i :: 0 <= i < |ts| ==> SharedFragment(ts[i])
    requires SameSettings(to, co)
    ensures ImplAll(ts, to) == ConvertAll(ts, co)
    decreases SizeAll(ts), 2
  {
    forall i | 0 <= i < |ts| ensures Impl(false, ts[i], to) == ValidationToSchema(ts[i], co, false) {
      EnginesAgreeOnSharedFragment(false, ts[i], to, co);
    }
  }

  lemma {:induction false} PropsAgree(ps: seq<Prop>, to: Options, co: ConvertOptions)
    requires forall i :: 0 <= i < |ps| ==> SharedFragment(ps[i].validator)
    requires SameSettings(to, co)
    ensures ImplProps(ps, to) == ConvertProps(ps, co)
    decreases SizeProps(ps), 2
  {
    forall i | 0 <= i < |ps| ensures Impl(false, ps[i].validator, to) == ValidationToSchema(ps[i].validator, co, false) {
      EnginesAgreeOnSharedFragment(false, ps[i].validator, to, co);
    }
  }

  /** Outside the fragment they differ: `t.undefined` is `{ type: "null" }`
      named `undefined` for the current engine and the fallback for the
      older one, so the two disagree whenever the fallback is `true`. */
  lemma EnginesDifferOnUndefined(to: Options, co: ConvertOptions)
    requires SameSettings(to, co)
    requires co.override(CanonicalUndefined).None?
    ensures var r := Impl(true, CanonicalUndefined, to);
            SingleTypeName(r) == Some(JsonNull) && r.description == Some("undefined")
            && r.(schemaType := None, description := None) == EmptyObject
    ensures ValidationToSchema(CanonicalUndefined, co, true) == GetFallbackValue(CanonicalUndefined, co.fallback, co.defaultFallback)
    ensures co.fallback == FixedFallback(Bool(true)) ==>
              Impl(true, CanonicalUndefined, to) != ValidationToSchema(CanonicalUndefined, co, true)
  {
    assert to.override(CanonicalUndefined, to.cutOffTopLevelUndefined).None?;
    assert Tagged(CanonicalUndefined, true, to) == Some(Typed(JsonNull));
  }
}
