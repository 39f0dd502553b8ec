/**
 JSON values, the JSON Schema keywords the wire-schema compiler handles, and the meaning of a schema:
 which values it admits. The meaning follows JSON Schema draft 2020-12: Core sections 10.2.1.2 (anyOf),
 10.2.1.3 (oneOf), 10.3.2 (properties, additionalProperties) and 11.3 (unevaluatedProperties), Validation
 section 6. It is the reference every rewrite of the compiler is proved against.
 */
module Schemas {
  import opened Wrappers

  datatype Json =
    | Null
    | Bool(b: bool)
    | Num(n: real)
    | Str(s: string)
    | Arr(elems: seq<Json>)
    | Obj(members: map<string, Json>)

  datatype TypeName = TObject | TArray | TString | TInteger | TNumber | TBoolean | TNull | TOther(name: string)

  /** The `type` keyword: absent, one name, or a list of names. */
  datatype TypeKw = NoType | One(t: TypeName) | Many(ts: seq<TypeName>)

  datatype Prop = Prop(name: string, sub: Schema)
  datatype Props = NoProps | Props(ps: seq<Prop>)
  datatype Branches = NoBranches | Branches(bs: seq<Schema>)
  datatype Sub = NoSub | Sub(s: Schema)

  /**
   A schema document: a boolean schema, a node standing for a schema another generated module exports, or
   an object with one field per keyword. `inert` names the annotation keywords (and `default`) present;
   `others` names every keyword the compiler does not model.
   */
  datatype Schema =
    | Truth(admits: bool)
    | Imported(inner: Schema)
    | Node(
        types: TypeKw,
        properties: Props,
        required: Option<seq<string>>,
        additional: Sub,
        unevaluated: Sub,
        items: Sub,
        oneOf: Branches,
        anyOf: Branches,
        constant: Option<Json>,
        enum: Option<seq<Json>>,
        minimum: Option<real>,
        maximum: Option<real>,
        minItems: Option<real>,
        minLength: Option<nat>,
        maxLength: Option<nat>,
        pattern: Option<string>,
        format: Option<string>,
        inert: set<string>,
        others: set<string>)

  /** The schema `{}`, which constrains nothing. */
  const Any: Schema :=
    Node(NoType, NoProps, None, NoSub, NoSub, NoSub, NoBranches, NoBranches, None, None, None, None, None,
         None, None, None, None, {}, {})

  const Closed: Sub := Sub(Truth(false))
  const Open: Sub := Sub(Truth(true))

  /**
   What the standard leaves to the reader: when a pattern matches a string, what a string format means, and
   what a keyword outside the modelled ones demands. Every theorem holds for all of these.
   */
  datatype Env = Env(
    matches: (string, string) -> bool,
    format: (string, string) -> bool,
    extra: (string, Json) -> bool)

  // ---- Property lists ----------------------------------------------------------

  predicate Declares(ps: seq<Prop>, k: string) {
    exists i :: 0 <= i < |ps| && ps[i].name == k
  }

  function Lookup(ps: seq<Prop>, k: string): (r: Schema)
    requires Declares(ps, k)
    ensures exists i :: 0 <= i < |ps| && ps[i] == Prop(k, r)
  {
    if ps[0].name == k then ps[0].sub else Lookup(ps[1..], k)
  }

  /** The declared properties; none when the keyword is absent. */
  function PropsOf(s: Schema): seq<Prop>
    requires s.Node?
  {
    if s.properties.Props? then s.properties.ps else []
  }

  function RequiredOf(s: Schema): seq<string>
    requires s.Node?
  {
    if s.required.Some? then s.required.value else []
  }

  /** `{...props, [k]: s}` for a declared `k`: its schema is replaced where it stands. */
  function Retyped(ps: seq<Prop>, k: string, s: Schema): seq<Prop> {
    seq(|ps|, i requires 0 <= i < |ps| => if ps[i].name == k then Prop(k, s) else ps[i])
  }

  lemma {:induction false} RetypedLookup(ps: seq<Prop>, k: string, s: Schema, j: string)
    ensures Declares(Retyped(ps, k, s), j) <==> Declares(ps, j)
    ensures Declares(ps, j) ==> Lookup(Retyped(ps, k, s), j) == if j == k then s else Lookup(ps, j)
  {
    var qs := Retyped(ps, k, s);
    assert forall i :: 0 <= i < |ps| ==> qs[i].name == ps[i].name;
    if ps == [] {
    } else {
      assert qs[1..] == Retyped(ps[1..], k, s);
      RetypedLookup(ps[1..], k, s, j);
    }
  }

  // ---- Meaning -----------------------------------------------------------------

  function TypeList(t: TypeKw): seq<TypeName> {
    match t
    case NoType => []
    case One(x) => [x]
    case Many(xs) => xs
  }

  predicate IsType(t: TypeName, v: Json) {
    match t
    case TObject => v.Obj?
    case TArray => v.Arr?
    case TString => v.Str?
    case TInteger => v.Num? && v.n == v.n.Floor as real
    case TNumber => v.Num?
    case TBoolean => v.Bool?
    case TNull => v.Null?
    case TOther(_) => false
  }

  predicate TypeOk(t: TypeKw, v: Json) {
    t.NoType? || exists x :: x in TypeList(t) && IsType(x, v)
  }

  /** The constraints of a node that look at the value itself and not into it. */
  predicate LeafOk(env: Env, s: Schema, v: Json)
    requires s.Node?
  {
    && TypeOk(s.types, v)
    && (s.constant.Some? ==> v == s.constant.value)
    && (s.enum.Some? ==> v in s.enum.value)
    && (v.Num? && s.minimum.Some? ==> s.minimum.value <= v.n)
    && (v.Num? && s.maximum.Some? ==> v.n <= s.maximum.value)
    && (v.Arr? && s.minItems.Some? ==> s.minItems.value <= |v.elems| as real)
    && (v.Str? && s.minLength.Some? ==> s.minLength.value <= |v.s|)
    && (v.Str? && s.maxLength.Some? ==> |v.s| <= s.maxLength.value)
    && (v.Str? && s.pattern.Some? ==> env.matches(s.pattern.value, v.s))
    && (v.Str? && s.format.Some? ==> env.format(s.format.value, v.s))
    && (v.Obj? && s.required.Some? ==> forall k :: k in s.required.value ==> k in v.members)
    && (forall kw :: kw in s.others ==> env.extra(kw, v))
  }

  /** Whether the schema admits the value. */
  predicate Admits(env: Env, s: Schema, v: Json)
    decreases s, 2
  {
    if s.Truth? then s.admits
    else if s.Imported? then Admits(env, s.inner, v)
    else
      && LeafOk(env, s, v)
      && (v.Arr? ==> ItemsOk(env, s, v.elems))
      && (v.Obj? ==> MembersOk(env, s, v.members))
      && (s.anyOf.Branches? ==> SomeBranch(env, s, v))
      && (s.oneOf.Branches? ==> ExactlyOne(env, s, v))
      && (v.Obj? && s.unevaluated.Sub? ==> RestOk(env, s, v))
  }

  predicate ItemsOk(env: Env, s: Schema, vs: seq<Json>)
    requires s.Node?
    decreases s, 1
  {
    s.items.Sub? ==> forall i :: 0 <= i < |vs| ==> Admits(env, s.items.s, vs[i])
  }

  /** `properties` and `additionalProperties`: a declared member meets its schema, any other the closing one. */
  predicate MembersOk(env: Env, s: Schema, ms: map<string, Json>)
    requires s.Node?
    decreases s, 1
  {
    forall k :: k in ms ==>
      if Declares(PropsOf(s), k) then Admits(env, Lookup(PropsOf(s), k), ms[k])
      else s.additional.Sub? ==> Admits(env, s.additional.s, ms[k])
  }

  predicate SomeBranch(env: Env, s: Schema, v: Json)
    requires s.Node? && s.anyOf.Branches?
    decreases s, 1
  {
    exists i :: 0 <= i < |s.anyOf.bs| && Admits(env, s.anyOf.bs[i], v)
  }

  predicate ExactlyOne(env: Env, s: Schema, v: Json)
    requires s.Node? && s.oneOf.Branches?
    decreases s, 1
  {
    && (exists i :: 0 <= i < |s.oneOf.bs| && Admits(env, s.oneOf.bs[i], v))
    && (forall i, j :: 0 <= i < j < |s.oneOf.bs| ==>
          !(Admits(env, s.oneOf.bs[i], v) && Admits(env, s.oneOf.bs[j], v)))
  }

  /** `unevaluatedProperties`, over the members no other keyword of the node evaluated. */
  predicate RestOk(env: Env, s: Schema, v: Json)
    requires s.Node? && v.Obj? && s.unevaluated.Sub?
    decreases s, 1
  {
    forall k :: k in v.members && !Evaluates(env, s, v, k) ==> Admits(env, s.unevaluated.s, v.members[k])
  }

  /** Whether a keyword of this node other than `unevaluatedProperties` evaluates member `k` of `v`. */
  predicate Evaluates(env: Env, s: Schema, v: Json, k: string)
    requires s.Node?
    decreases s, 0
  {
    || Declares(PropsOf(s), k)
    || s.additional.Sub?
    || (s.anyOf.Branches? &&
        exists b :: b in s.anyOf.bs && Admits(env, b, v) && EvaluatesWithin(env, b, v, k))
    || (s.oneOf.Branches? &&
        exists b :: b in s.oneOf.bs && Admits(env, b, v) && EvaluatesWithin(env, b, v, k))
  }

  predicate EvaluatesWithin(env: Env, s: Schema, v: Json, k: string)
    decreases s, 1
  {
    if s.Truth? then false
    else if s.Imported? then EvaluatesWithin(env, s.inner, v, k)
    else s.unevaluated.Sub? || Evaluates(env, s, v, k)
  }

  // ---- Reading an admitted object ------------------------------------------------

  lemma MemberAdmitted(env: Env, s: Schema, v: Json, k: string)
    requires s.Node? && v.Obj? && Admits(env, s, v) && k in v.members
    ensures Declares(PropsOf(s), k) ==> Admits(env, Lookup(PropsOf(s), k), v.members[k])
    ensures !Declares(PropsOf(s), k) && s.additional.Sub? ==> Admits(env, s.additional.s, v.members[k])
  {
    assert MembersOk(env, s, v.members);
  }

  lemma RequiredPresent(env: Env, s: Schema, v: Json, k: string)
    requires s.Node? && v.Obj? && Admits(env, s, v) && k in RequiredOf(s)
    ensures k in v.members
  {
    assert LeafOk(env, s, v);
  }

  lemma OnlyObjects(env: Env, s: Schema, v: Json)
    requires s.Node? && TypeList(s.types) == [TObject] && Admits(env, s, v)
    ensures v.Obj?
  {
    var t :| t in TypeList(s.types) && IsType(t, v);
  }
}
