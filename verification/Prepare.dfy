/**
 `prepare`: the fail-closed canonicalisation of a Rust-emitted schema. It strips what does not constrain a
 value, refuses what the emitter could not enforce, and rewrites a discriminated `oneOf` to `anyOf`. The
 result admits exactly the values its input admits.
 */
module Prepare {
  import opened Wrappers
  import opened Schemas
  import opened Discriminated

  /** The rule a refusal cites; `Form` and `Shape` are the refusals that cite none. */
  datatype Rule = Form | Shape | G1 | G3 | G4 | G5

  // ---- The placement rules -----------------------------------------------------

  predicate Supported(s: Schema)
    requires s.Node?
  {
    s.others == {} && s.unevaluated.NoSub? && s.minLength.None? && s.maxLength.None? && s.pattern.None?
  }

  predicate NumericOrNull(types: seq<TypeName>) {
    && (TInteger in types || TNumber in types)
    && TString !in types && TBoolean !in types
  }

  predicate IntegerOrNull(types: seq<TypeName>) {
    TInteger in types && forall t :: t in types ==> t == TInteger || t == TNull
  }

  /** `format`, the numeric bounds and `minItems` sit only where their reading is enforced (G5). */
  predicate WellPlaced(s: Schema)
    requires s.Node?
  {
    var types := TypeList(s.types);
    && s.types != Many([])
    && (forall t :: t in types ==> !t.TOther?)
    && (s.format.Some? ==> IntegerOrNull(types))
    && (s.minimum.Some? || s.maximum.Some? ==> NumericOrNull(types))
    && (s.minItems.Some? ==>
          TArray in types && s.minItems.value >= 0.0 && s.minItems.value == s.minItems.value.Floor as real)
  }

  /** An object claim, made by the type or by any object-shaped keyword. */
  predicate Objectish(s: Schema)
    requires s.Node?
  {
    s.properties.Props? || s.required.Some? || s.additional.Sub? || TObject in TypeList(s.types)
  }

  predicate Arrayish(s: Schema)
    requires s.Node?
  {
    s.items.Sub? || TArray in TypeList(s.types)
  }

  function NonNull(types: seq<TypeName>): (r: seq<TypeName>)
    ensures forall t :: t in r <==> t in types && t != TNull
  {
    if types == [] then []
    else (if types[0] == TNull then [] else [types[0]]) + NonNull(types[1..])
  }

  /** Whether a keyword other than the two combinators survives the stripping. */
  predicate HasOtherKeywords(s: Schema)
    requires s.Node?
  {
    || !s.types.NoType? || Objectish(s) || s.items.Sub? || s.constant.Some? || s.enum.Some?
    || s.minimum.Some? || s.maximum.Some? || s.minItems.Some?
  }

  predicate Distinct(vs: seq<Json>) {
    forall i, j :: 0 <= i < j < |vs| ==> vs[i] != vs[j]
  }

  /** const and enum are string literals, alone or on a plain string node, never both (G5). */
  predicate LiteralsOk(s: Schema)
    requires s.Node?
  {
    var types := TypeList(s.types);
    && (s.constant.Some? ==> s.constant.value.Str?)
    && (s.enum.Some? ==>
          s.enum.value != [] && Distinct(s.enum.value) && forall v :: v in s.enum.value ==> v.Str?)
    && (s.constant.Some? || s.enum.Some? ==> types == [] || types == [TString])
    && !(s.constant.Some? && s.enum.Some?)
  }

  // ---- The pass ----------------------------------------------------------------

  function Prepare(s: Schema): (r: Result<Schema, Rule>)
    decreases s, 0
  {
    if s.Truth? then (if s.admits then Ok(Any) else Err(Form))
    else if s.Imported? then Err(G5)
    else if "$ref" in s.others then Err(G4)
    else if !Supported(s) || !WellPlaced(s) then Err(G5)
    else if Objectish(s) && (TypeList(s.types) != [TObject] || s.additional != Closed) then Err(G1)
    else
      var ps :- if s.properties.Props? then PrepareProps(s.properties.ps) else Ok([]);
      if exists k :: k in RequiredOf(s) && !Declares(PropsOf(s), k) then Err(Shape)
      else if Arrayish(s) && (NonNull(TypeList(s.types)) != [TArray] || !s.items.Sub? || s.items.s.Truth?) then Err(G5)
      else
        var items :- PrepareSub(s.items);
        if (s.oneOf.Branches? || s.anyOf.Branches?) && (HasOtherKeywords(s) || (s.oneOf.Branches? && s.anyOf.Branches?))
        then Err(G5)
        else
          var any :- PrepareBranches(s.anyOf);
          var one :- PrepareBranches(s.oneOf);
          Finished(s, ps, items, any, one)
  }

  /** The node with its prepared parts: a discriminated `oneOf` becomes `anyOf` (G3), and literals are strings. */
  function Finished(s: Schema, ps: seq<Prop>, items: Sub, any: Branches, one: Branches): (r: Result<Schema, Rule>)
    requires s.Node?
  {
    if one.Branches? && FindTag(one.bs, StringTag).None? then Err(G3)
    else if !LiteralsOk(s) then Err(G5)
    else
      Ok(s.(properties := if Objectish(s) then Props(ps) else NoProps,
            items := items,
            oneOf := NoBranches,
            anyOf := if one.Branches? then one else any,
            format := None,
            inert := {}))
  }

  function PrepareProps(ps: seq<Prop>): (r: Result<seq<Prop>, Rule>)
    ensures r.Ok? ==> |r.value| == |ps|
    ensures r.Ok? ==> forall i :: 0 <= i < |ps| ==>
      r.value[i].name == ps[i].name && Prepare(ps[i].sub) == Ok(r.value[i].sub)
    decreases ps, 1
  {
    if ps == [] then Ok([])
    else
      var sub :- Prepare(ps[0].sub);
      var rest :- PrepareProps(ps[1..]);
      Ok([Prop(ps[0].name, sub)] + rest)
  }

  function PrepareAll(bs: seq<Schema>): (r: Result<seq<Schema>, Rule>)
    ensures r.Ok? ==> |r.value| == |bs|
    ensures r.Ok? ==> forall i :: 0 <= i < |bs| ==> Prepare(bs[i]) == Ok(r.value[i])
    decreases bs, 1
  {
    if bs == [] then Ok([])
    else
      var b :- Prepare(bs[0]);
      var rest :- PrepareAll(bs[1..]);
      Ok([b] + rest)
  }

  /** An empty union claims nothing, so it is refused. */
  function PrepareBranches(b: Branches): (r: Result<Branches, Rule>)
    decreases b, 1
  {
    if b.NoBranches? then Ok(NoBranches)
    else if b.bs == [] then Err(G5)
    else
      var bs :- PrepareAll(b.bs);
      Ok(Branches(bs))
  }

  function PrepareSub(s: Sub): (r: Result<Sub, Rule>)
    decreases s, 1
  {
    if s.NoSub? then Ok(NoSub)
    else
      var t :- Prepare(s.s);
      Ok(Sub(t))
  }

  // ---- The pass as the source runs it ------------------------------------------

  /** The source's recursion with its loops over properties and branches computes `Prepare`. */
  method PrepareNode(s: Schema) returns (r: Result<Schema, Rule>)
    ensures r == Prepare(s)
    decreases s, 0
  {
    if s.Truth? {
      return if s.admits then Ok(Any) else Err(Form);
    }
    if s.Imported? { return Err(G5); }
    if "$ref" in s.others { return Err(G4); }
    if !Supported(s) || !WellPlaced(s) { return Err(G5); }
    var out := s.(format := None, inert := {});
    if Objectish(s) {
      if TypeList(s.types) != [TObject] || s.additional != Closed { return Err(G1); }
      var ps: seq<Prop> := [];
      if s.properties.Props? {
        var prepared := PrepareEachProp(s.properties.ps);
        if prepared.Err? { return Err(prepared.error); }
        ps := prepared.value;
      }
      out := out.(properties := Props(ps));
      if exists k :: k in RequiredOf(s) && !Declares(PropsOf(s), k) { return Err(Shape); }
    }
    if Arrayish(s) {
      if NonNull(TypeList(s.types)) != [TArray] { return Err(G5); }
      if !s.items.Sub? || s.items.s.Truth? { return Err(G5); }
      var item := PrepareNode(s.items.s);
      if item.Err? { return Err(item.error); }
      out := out.(items := Sub(item.value));
    }
    if s.oneOf.Branches? || s.anyOf.Branches? {
      if HasOtherKeywords(s) || (s.oneOf.Branches? && s.anyOf.Branches?) { return Err(G5); }
      var branches := if s.oneOf.Branches? then s.oneOf.bs else s.anyOf.bs;
      if branches == [] { return Err(G5); }
      var prepared := PrepareEachBranch(branches);
      if prepared.Err? { return Err(prepared.error); }
      if s.oneOf.Branches? {
        var tag := AssertDiscriminated(prepared.value, StringTag);
        if tag.None? { return Err(G3); }
      }
      out := out.(anyOf := Branches(prepared.value), oneOf := NoBranches);
    }
    if !LiteralsOk(s) { return Err(G5); }
    return Ok(out);
  }

  /** The outcome once `done` has been prepared and `rest` is the outcome of what is left. */
  function After<T>(done: seq<T>, rest: Result<seq<T>, Rule>): (r: Result<seq<T>, Rule>)
    ensures done == [] ==> r == rest
    ensures rest == Ok([]) ==> r == Ok(done)
  {
    assert rest.Ok? && done == [] ==> done + rest.value == rest.value;
    assert rest.Ok? && rest.value == [] ==> done + rest.value == done;
    if rest.Ok? then Ok(done + rest.value) else rest
  }

  lemma AfterStep<T>(done: seq<T>, x: T, rest: Result<seq<T>, Rule>)
    ensures After(done, After([x], rest)) == After(done + [x], rest)
  {
    if rest.Ok? {
      assert done + ([x] + rest.value) == done + [x] + rest.value;
    }
  }

  method PrepareEachProp(ps: seq<Prop>) returns (r: Result<seq<Prop>, Rule>)
    ensures r == PrepareProps(ps)
    decreases ps, 1
  {
    var out: seq<Prop> := [];
    assert ps[0..] == ps;
    for i := 0 to |ps|
      invariant PrepareProps(ps) == After(out, PrepareProps(ps[i..]))
    {
      assert ps[i..][0] == ps[i] && ps[i..][1..] == ps[i + 1..];
      var sub := PrepareNode(ps[i].sub);
      if sub.Err? { return Err(sub.error); }
      var next := Prop(ps[i].name, sub.value);
      AfterStep(out, next, PrepareProps(ps[i + 1..]));
      out := out + [next];
    }
    return Ok(out);
  }

  method PrepareEachBranch(bs: seq<Schema>) returns (r: Result<seq<Schema>, Rule>)
    ensures r == PrepareAll(bs)
    decreases bs, 1
  {
    var out: seq<Schema> := [];
    assert bs[0..] == bs;
    for i := 0 to |bs|
      invariant PrepareAll(bs) == After(out, PrepareAll(bs[i..]))
    {
      assert bs[i..][0] == bs[i] && bs[i..][1..] == bs[i + 1..];
      var b := PrepareNode(bs[i]);
      if b.Err? { return Err(b.error); }
      AfterStep(out, b.value, PrepareAll(bs[i + 1..]));
      out := out + [b.value];
    }
    return Ok(out);
  }

  // ---- prepare preserves meaning -----------------------------------------------

  /** Rewriting every property schema keeps which names are declared and commutes with looking one up. */
  lemma {:induction false} PreparedLookup(ps: seq<Prop>, qs: seq<Prop>, k: string)
    requires PrepareProps(ps) == Ok(qs)
    ensures Declares(ps, k) == Declares(qs, k)
    ensures Declares(ps, k) ==> Prepare(Lookup(ps, k)) == Ok(Lookup(qs, k))
  {
    if Declares(ps, k) {
      var i :| 0 <= i < |ps| && ps[i].name == k;
      assert qs[i].name == k;
    }
    if Declares(qs, k) {
      var i :| 0 <= i < |qs| && qs[i].name == k;
      assert ps[i].name == k;
      if ps[0].name != k {
        var rest := PrepareProps(ps[1..]).value;
        assert qs == [qs[0]] + rest && qs[1..] == rest;
        assert ps[1..][i - 1].name == k;
        PreparedLookup(ps[1..], rest, k);
      }
    }
  }

  /** The prepared schema admits exactly the values its input admits, at every depth. */
  lemma {:induction false} PreparePreservesMeaning(env: Env, s: Schema, p: Schema, v: Json)
    requires Prepare(s) == Ok(p)
    ensures Admits(env, s, v) <==> Admits(env, p, v)
    decreases s
  {
    if s.Node? {
      StrippedLeaf(env, s, p, v);
      if v.Arr? { PreparedItems(env, s, p, v.elems); }
      if v.Obj? { PreparedMembers(env, s, p, v.members); }
      if s.anyOf.Branches? { PreparedAnyOf(env, s, p, v); }
      if s.oneOf.Branches? { PreparedOneOf(env, s, p, v); }
    }
  }

  /** Annotations and an integer's width format constrain no value that the types let through. */
  lemma StrippedLeaf(env: Env, s: Schema, p: Schema, v: Json)
    requires s.Node? && Supported(s) && WellPlaced(s)
    requires p.Node? && p == s.(properties := p.properties, items := p.items, oneOf := p.oneOf,
                                anyOf := p.anyOf, format := None, inert := {})
    ensures LeafOk(env, s, v) <==> LeafOk(env, p, v)
  {
  }

  lemma {:induction false} PreparedMembers(env: Env, s: Schema, p: Schema, ms: map<string, Json>)
    requires s.Node? && Prepare(s) == Ok(p)
    ensures MembersOk(env, s, ms) <==> MembersOk(env, p, ms)
    decreases s, 0
  {
    var qs := PrepareProps(PropsOf(s)).value;
    assert PropsOf(p) == qs;
    forall k | k in ms
      ensures Declares(PropsOf(s), k) == Declares(PropsOf(p), k)
      ensures Declares(PropsOf(s), k) ==>
        (Admits(env, Lookup(PropsOf(s), k), ms[k]) <==> Admits(env, Lookup(qs, k), ms[k]))
    {
      PreparedLookup(PropsOf(s), qs, k);
      if Declares(PropsOf(s), k) {
        PreparePreservesMeaning(env, Lookup(PropsOf(s), k), Lookup(qs, k), ms[k]);
      }
    }
  }

  lemma {:induction false} PreparedItems(env: Env, s: Schema, p: Schema, vs: seq<Json>)
    requires s.Node? && Prepare(s) == Ok(p)
    ensures ItemsOk(env, s, vs) <==> ItemsOk(env, p, vs)
    decreases s, 0
  {
    if s.items.Sub? {
      forall i | 0 <= i < |vs| ensures Admits(env, s.items.s, vs[i]) <==> Admits(env, p.items.s, vs[i]) {
        PreparePreservesMeaning(env, s.items.s, p.items.s, vs[i]);
      }
    }
  }

  lemma {:induction false} PreparedBranch(env: Env, bs: seq<Schema>, qs: seq<Schema>, i: nat, v: Json)
    requires PrepareAll(bs) == Ok(qs) && i < |bs|
    ensures Admits(env, bs[i], v) <==> Admits(env, qs[i], v)
    decreases bs, 0
  {
    PreparePreservesMeaning(env, bs[i], qs[i], v);
  }

  lemma {:induction false} PreparedAnyOf(env: Env, s: Schema, p: Schema, v: Json)
    requires s.Node? && p.Node? && s.anyOf.Branches? && p.anyOf.Branches?
    requires PrepareAll(s.anyOf.bs) == Ok(p.anyOf.bs)
    ensures SomeBranch(env, s, v) <==> SomeBranch(env, p, v)
    decreases s, 0
  {
    forall i | 0 <= i < |s.anyOf.bs| ensures Admits(env, s.anyOf.bs[i], v) <==> Admits(env, p.anyOf.bs[i], v) {
      PreparedBranch(env, s.anyOf.bs, p.anyOf.bs, i, v);
    }
  }

  /** A discriminated `oneOf` means what the `anyOf` of its prepared branches means (rule G3). */
  lemma {:induction false} PreparedOneOf(env: Env, s: Schema, p: Schema, v: Json)
    requires s.Node? && p.Node? && s.oneOf.Branches? && p.anyOf.Branches?
    requires PrepareAll(s.oneOf.bs) == Ok(p.anyOf.bs)
    requires FindTag(p.anyOf.bs, StringTag).Some?
    ensures ExactlyOne(env, s, v) <==> SomeBranch(env, p, v)
    decreases s, 0
  {
    var bs, qs := s.oneOf.bs, p.anyOf.bs;
    forall i | 0 <= i < |bs| ensures Admits(env, bs[i], v) <==> Admits(env, qs[i], v) {
      PreparedBranch(env, bs, qs, i, v);
    }
    AtMostOne(env, qs, v);
    OneIsSome(env, s, p, v);
  }

  /** Where branches mean the same and at most one admits the value, exactly one is some. */
  lemma OneIsSome(env: Env, s: Schema, p: Schema, v: Json)
    requires s.Node? && p.Node? && s.oneOf.Branches? && p.anyOf.Branches? && |s.oneOf.bs| == |p.anyOf.bs|
    requires forall i :: 0 <= i < |s.oneOf.bs| ==> (Admits(env, s.oneOf.bs[i], v) <==> Admits(env, p.anyOf.bs[i], v))
    requires forall i, j :: 0 <= i < j < |p.anyOf.bs| ==>
      !(Admits(env, p.anyOf.bs[i], v) && Admits(env, p.anyOf.bs[j], v))
    ensures ExactlyOne(env, s, v) <==> SomeBranch(env, p, v)
  {
    if SomeBranch(env, p, v) {
      var i :| 0 <= i < |p.anyOf.bs| && Admits(env, p.anyOf.bs[i], v);
      assert Admits(env, s.oneOf.bs[i], v);
    }
  }

  /** A discriminated union (rule G3) never admits a value through two branches. */
  lemma AtMostOne(env: Env, bs: seq<Schema>, v: Json)
    requires FindTag(bs, StringTag).Some?
    ensures forall i, j :: 0 <= i < j < |bs| ==> !(Admits(env, bs[i], v) && Admits(env, bs[j], v))
  {
    forall i, j | 0 <= i < j < |bs| && Admits(env, bs[i], v) && Admits(env, bs[j], v) ensures false {
      AtMostOneBranch(env, bs, FindTag(bs, StringTag).value, StringTag, v, i, j);
    }
  }

  // ---- The canonical form ------------------------------------------------------

  predicate IsUnion(s: Schema) {
    s.Node? && s.anyOf.Branches? && s == Any.(anyOf := s.anyOf)
  }

  predicate IsObject(s: Schema) {
    && s.Node? && s.properties.Props?
    && s == Any.(types := s.types, properties := s.properties, required := s.required, additional := Closed)
    && TypeList(s.types) == [TObject]
    && forall k :: k in RequiredOf(s) ==> Declares(s.properties.ps, k)
  }

  predicate IsArray(s: Schema) {
    && s.Node? && s.items.Sub?
    && s == Any.(types := s.types, items := s.items, minItems := s.minItems)
    && NonNull(TypeList(s.types)) == [TArray]
  }

  predicate IsScalar(s: Schema) {
    && s.Node?
    && s == Any.(types := s.types, constant := s.constant, enum := s.enum,
                 minimum := s.minimum, maximum := s.maximum)
    && LiteralsOk(s) && (s.constant.Some? || s.enum.Some? ==> s.types != Many([]))
    && TObject !in TypeList(s.types) && TArray !in TypeList(s.types)
    && (s.minimum.Some? || s.maximum.Some? ==> NumericOrNull(TypeList(s.types)))
  }

  /** Every node is exactly one of a union, a closed object, an array or a scalar, at every depth. */
  predicate Canonical(s: Schema)
    decreases s
  {
    || (IsUnion(s) && forall b :: b in s.anyOf.bs ==> Canonical(b))
    || (IsObject(s) && forall p :: p in s.properties.ps ==> Canonical(p.sub))
    || (IsArray(s) && Canonical(s.items.s))
    || IsScalar(s)
  }

  /** The canonical forms with nothing left to refuse: no empty union, every keyword in its place. */
  predicate Settled(s: Schema)
    decreases s
  {
    || (IsUnion(s) && s.anyOf.bs != [] && forall b :: b in s.anyOf.bs ==> Settled(b))
    || (IsObject(s) && forall p :: p in s.properties.ps ==> Settled(p.sub))
    || (IsArray(s) && WellPlaced(s) && Settled(s.items.s))
    || (IsScalar(s) && WellPlaced(s))
  }

  lemma {:induction false} SettledIsCanonical(s: Schema)
    requires Settled(s)
    ensures Canonical(s)
    decreases s
  {
    if IsUnion(s) {
      forall b | b in s.anyOf.bs ensures Canonical(b) { SettledIsCanonical(b); }
    } else if IsObject(s) {
      forall p | p in s.properties.ps ensures Canonical(p.sub) { SettledIsCanonical(p.sub); }
    } else if IsArray(s) {
      SettledIsCanonical(s.items.s);
    } else {
      assert IsScalar(s);
    }
  }

  /** What `prepare` does not refuse, it settles: every object closed, no `oneOf` left, nothing misplaced. */
  lemma {:induction false} PreparedIsSettled(s: Schema, p: Schema)
    requires Prepare(s) == Ok(p)
    ensures Settled(p)
    decreases s, 1
  {
    if s.Truth? {
      assert p == Any && IsScalar(p);
    } else if s.anyOf.Branches? {
      PreparedAllSettled(s.anyOf.bs, p.anyOf.bs);
      assert IsUnion(p);
    } else if s.oneOf.Branches? {
      PreparedAllSettled(s.oneOf.bs, p.anyOf.bs);
      assert IsUnion(p);
    } else if Objectish(s) {
      PreparedObjectSettled(s, p);
    } else if Arrayish(s) {
      PreparedIsSettled(s.items.s, p.items.s);
      assert TArray in TypeList(s.types) && IsArray(p) && WellPlaced(p);
    } else {
      assert IsScalar(p) && WellPlaced(p);
    }
  }

  lemma {:induction false} PreparedObjectSettled(s: Schema, p: Schema)
    requires Prepare(s) == Ok(p) && s.Node? && Objectish(s) && s.anyOf.NoBranches? && s.oneOf.NoBranches?
    ensures Settled(p)
    decreases s, 0
  {
    forall q | q in p.properties.ps ensures Settled(q.sub) {
      var i :| 0 <= i < |p.properties.ps| && p.properties.ps[i] == q;
      PreparedIsSettled(s.properties.ps[i].sub, q.sub);
    }
    forall k | k in RequiredOf(s) ensures Declares(p.properties.ps, k) {
      PreparedLookup(PropsOf(s), p.properties.ps, k);
    }
    assert TObject in TypeList(s.types) && IsObject(p);
  }

  lemma {:induction false} PreparedAllSettled(bs: seq<Schema>, qs: seq<Schema>)
    requires PrepareAll(bs) == Ok(qs)
    ensures forall q :: q in qs ==> Settled(q)
    decreases bs, 0
  {
    forall q | q in qs ensures Settled(q) {
      var i :| 0 <= i < |qs| && qs[i] == q;
      PreparedIsSettled(bs[i], q);
    }
  }

  lemma PreparedIsCanonical(s: Schema, p: Schema)
    requires Prepare(s) == Ok(p)
    ensures Canonical(p)
  {
    PreparedIsSettled(s, p);
    SettledIsCanonical(p);
  }

  // ---- What prepare leaves alone -----------------------------------------------

  lemma {:induction false} SettledIsFixed(s: Schema)
    requires Settled(s)
    ensures Prepare(s) == Ok(s)
    decreases s, 1
  {
    if IsUnion(s) {
      SettledAllFixed(s.anyOf.bs);
    } else if IsObject(s) {
      SettledPropsFixed(s.properties.ps);
      ObjectFixed(s);
    } else if IsArray(s) {
      SettledIsFixed(s.items.s);
      ArrayFixed(s);
    } else {
      assert IsScalar(s);
    }
  }

  lemma ObjectFixed(s: Schema)
    requires IsObject(s) && PrepareProps(s.properties.ps) == Ok(s.properties.ps)
    ensures Prepare(s) == Ok(s)
  {
    assert NonNull(TypeList(s.types)) == NonNull([TObject]) && WellPlaced(s);
  }

  lemma ArrayFixed(s: Schema)
    requires IsArray(s) && WellPlaced(s) && Prepare(s.items.s) == Ok(s.items.s)
    ensures Prepare(s) == Ok(s)
  {
    assert TArray in NonNull(TypeList(s.types)) && TObject !in NonNull(TypeList(s.types));
    assert PrepareSub(s.items) == Ok(s.items);
  }

  lemma {:induction false} SettledAllFixed(bs: seq<Schema>)
    requires forall b :: b in bs ==> Settled(b)
    ensures PrepareAll(bs) == Ok(bs)
    decreases bs, 0
  {
    if bs == [] {
      assert PrepareAll(bs) == Ok([]);
    } else {
      SettledIsFixed(bs[0]);
      SettledAllFixed(bs[1..]);
      assert bs == [bs[0]] + bs[1..];
    }
  }

  lemma {:induction false} SettledPropsFixed(ps: seq<Prop>)
    requires forall p :: p in ps ==> Settled(p.sub)
    ensures PrepareProps(ps) == Ok(ps)
    decreases ps, 0
  {
    if ps == [] {
      assert PrepareProps(ps) == Ok([]);
    } else {
      assert ps[0] in ps;
      SettledIsFixed(ps[0].sub);
      SettledPropsFixed(ps[1..]);
      assert ps == [Prop(ps[0].name, ps[0].sub)] + ps[1..];
    }
  }

  /** A prepared schema is its own preparation. */
  lemma PrepareIdempotent(s: Schema, p: Schema)
    requires Prepare(s) == Ok(p)
    ensures Prepare(p) == Ok(p)
  {
    PreparedIsSettled(s, p);
    SettledIsFixed(p);
  }

  /** The schemas `prepare` accepts unchanged are exactly the settled ones, so it refuses nothing of that form. */
  lemma FixedPoints(s: Schema)
    ensures Prepare(s) == Ok(s) <==> Settled(s)
  {
    if Settled(s) { SettledIsFixed(s); }
    if Prepare(s) == Ok(s) { PreparedIsSettled(s, s); }
  }
}
