/**
 Which schemas `prepare` accepts, what it makes of them, and which rule a refusal cites, each said of the schema's
 own keywords. A Rust-emitted schema spells its prepared form: annotations and integer widths beside the keywords,
 `true` for `{}`, an object without `properties` for one with none, and a discriminated `oneOf` for an `anyOf`.
 */
module PrepareExact {
  import opened Wrappers
  import opened Schemas
  import opened Discriminated
  import opened Prepare

  // ---- What prepare makes of a schema --------------------------------------------

  ghost predicate SpellsProps(s: Props, p: Props)
    decreases s, 0
  {
    if s.NoProps? then p.NoProps? || p == Props([])
    else p.Props? && |p.ps| == |s.ps| && forall i :: 0 <= i < |s.ps| ==>
      p.ps[i].name == s.ps[i].name && Spells(s.ps[i].sub, p.ps[i].sub)
  }

  ghost predicate SpellsItems(s: Sub, p: Sub)
    decreases s, 0
  {
    if s.NoSub? then p.NoSub? else p.Sub? && !s.s.Truth? && Spells(s.s, p.s)
  }

  ghost predicate SpellsAll(bs: seq<Schema>, qs: seq<Schema>)
    decreases bs, 0
  {
    |qs| == |bs| && forall i :: 0 <= i < |bs| ==> Spells(bs[i], qs[i])
  }

  /** A union is spelled by either combinator; by `oneOf` only if some key tells its branches apart (G3). */
  ghost predicate SpellsUnion(s: Schema, p: Branches)
    requires s.Node?
    decreases s, 0
  {
    if s.oneOf.Branches? then
      && s.anyOf.NoBranches? && p.Branches? && SpellsAll(s.oneOf.bs, p.bs)
      && exists k :: Discriminates(p.bs, k, StringTag)
    else if s.anyOf.Branches? then p.Branches? && SpellsAll(s.anyOf.bs, p.bs)
    else p.NoBranches?
  }

  /** `s` spells the prepared schema `p`, at every depth. */
  ghost predicate Spells(s: Schema, p: Schema)
    decreases s, 1
  {
    if s.Truth? then s.admits && p == Any
    else if s.Imported? then false
    else
      && p.Node? && Supported(s) && (s.format.Some? ==> IntegerOrNull(TypeList(s.types)))
      && p == s.(properties := p.properties, items := p.items, oneOf := NoBranches, anyOf := p.anyOf,
                 format := None, inert := {})
      && SpellsProps(s.properties, p.properties)
      && SpellsItems(s.items, p.items)
      && SpellsUnion(s, p.anyOf)
  }

  lemma {:induction false} PreparedSpells(s: Schema, p: Schema)
    requires Prepare.Prepare(s) == Ok(p)
    ensures Spells(s, p)
    decreases s, 1
  {
    if s.Node? {
      if s.properties.Props? {
        forall i | 0 <= i < |s.properties.ps| ensures Spells(s.properties.ps[i].sub, p.properties.ps[i].sub) {
          PreparedSpells(s.properties.ps[i].sub, p.properties.ps[i].sub);
        }
      }
      if s.items.Sub? { PreparedSpells(s.items.s, p.items.s); }
      if s.anyOf.Branches? { PreparedAllSpell(s.anyOf.bs, p.anyOf.bs); }
      if s.oneOf.Branches? { PreparedAllSpell(s.oneOf.bs, p.anyOf.bs); }
    }
  }

  lemma {:induction false} PreparedAllSpell(bs: seq<Schema>, qs: seq<Schema>)
    requires PrepareAll(bs) == Ok(qs)
    ensures SpellsAll(bs, qs)
    decreases bs, 0
  {
    forall i | 0 <= i < |bs| ensures Spells(bs[i], qs[i]) { PreparedSpells(bs[i], qs[i]); }
  }

  lemma {:induction false} SpelledPrepares(s: Schema, p: Schema)
    requires Spells(s, p) && Settled(p)
    ensures Prepare.Prepare(s) == Ok(p)
    decreases s, 2
  {
    if s.Node? {
      if IsUnion(p) {
        SpelledUnion(s, p);
      } else if IsObject(p) {
        SpelledObject(s, p);
      } else if IsArray(p) {
        SpelledPrepares(s.items.s, p.items.s);
        SpelledArray(s, p);
      } else {
        SpelledScalar(s, p);
      }
    }
  }

  lemma {:induction false} SpelledUnion(s: Schema, p: Schema)
    requires s.Node? && Spells(s, p) && Settled(p) && IsUnion(p)
    ensures Prepare.Prepare(s) == Ok(p)
    decreases s, 1
  {
    assert s == Any.(oneOf := s.oneOf, anyOf := s.anyOf, inert := s.inert);
    assert p == Any.(anyOf := p.anyOf) && p.anyOf.bs != [];
    if s.oneOf.Branches? {
      SpelledAll(s.oneOf.bs, p.anyOf.bs);
      assert PrepareBranches(s.oneOf) == Ok(p.anyOf);
      var k :| Discriminates(p.anyOf.bs, k, StringTag);
      OneOfFinished(s, p.anyOf.bs, k);
      OneOfNode(s, p.anyOf.bs);
    } else {
      SpelledAll(s.anyOf.bs, p.anyOf.bs);
      AnyOfNode(s, p.anyOf.bs);
    }
  }

  lemma OneOfNode(s: Schema, qs: seq<Schema>)
    requires s.Node? && s.oneOf.Branches? && s == Any.(oneOf := s.oneOf, inert := s.inert)
    requires PrepareBranches(s.oneOf) == Ok(Branches(qs))
    requires Finished(s, [], NoSub, NoBranches, Branches(qs)).Ok?
    ensures Prepare.Prepare(s) == Finished(s, [], NoSub, NoBranches, Branches(qs))
  {
    BareNode(s);
  }

  lemma OneOfFinished(s: Schema, qs: seq<Schema>, k: string)
    requires s.Node? && s.oneOf.Branches? && s == Any.(oneOf := s.oneOf, inert := s.inert)
    requires qs != [] && Discriminates(qs, k, StringTag)
    ensures Finished(s, [], NoSub, NoBranches, Branches(qs)) == Ok(Any.(anyOf := Branches(qs)))
  {
    BareNode(s);
  }

  /** A node that carries a combinator alone has nothing else to refuse. */
  lemma BareNode(s: Schema)
    requires s.Node? && s == Any.(oneOf := s.oneOf, anyOf := s.anyOf, inert := s.inert)
    ensures "$ref" !in s.others && Supported(s) && WellPlaced(s) && !Objectish(s) && !Arrayish(s)
    ensures RequiredOf(s) == [] && !HasOtherKeywords(s) && LiteralsOk(s) && PrepareSub(s.items) == Ok(NoSub)
  {
  }

  lemma AnyOfNode(s: Schema, qs: seq<Schema>)
    requires s.Node? && s.anyOf.Branches? && s == Any.(anyOf := s.anyOf, inert := s.inert)
    requires PrepareAll(s.anyOf.bs) == Ok(qs) && qs != []
    ensures Prepare.Prepare(s) == Ok(Any.(anyOf := Branches(qs)))
  {
    assert PrepareBranches(s.anyOf) == Ok(Branches(qs));
  }

  lemma {:induction false} SpelledObject(s: Schema, p: Schema)
    requires s.Node? && Spells(s, p) && Settled(p) && IsObject(p)
    ensures Prepare.Prepare(s) == Ok(p)
    decreases s, 1
  {
    if s.properties.Props? { SpelledProps(s.properties.ps, p.properties.ps); }
    forall k | k in RequiredOf(s) ensures Declares(PropsOf(s), k) {
      assert Declares(p.properties.ps, k);
      var i :| 0 <= i < |p.properties.ps| && p.properties.ps[i].name == k;
      assert s.properties.ps[i].name == k;
    }
    ObjectNode(s, p.properties.ps);
  }

  /** A closed object whose required names it declares is refused only for its properties. */
  lemma ObjectNode(s: Schema, qs: seq<Prop>)
    requires s.Node? && TypeList(s.types) == [TObject]
    requires s == Any.(types := s.types, properties := s.properties, required := s.required, additional := Closed,
                       inert := s.inert)
    requires forall k :: k in RequiredOf(s) ==> Declares(PropsOf(s), k)
    requires PrepareProps(PropsOf(s)) == Ok(qs)
    ensures Prepare.Prepare(s) == Ok(s.(properties := Props(qs), inert := {}))
  {
    assert Objectish(s) && !Arrayish(s) && WellPlaced(s) && LiteralsOk(s);
  }

  lemma SpelledArray(s: Schema, p: Schema)
    requires s.Node? && s.items.Sub? && Spells(s, p) && Settled(p) && IsArray(p)
    requires Prepare.Prepare(s.items.s) == Ok(p.items.s)
    ensures Prepare.Prepare(s) == Ok(p)
  {
    assert TArray in NonNull(TypeList(s.types)) && TObject !in NonNull(TypeList(s.types));
    assert PrepareSub(s.items) == Ok(p.items);
  }

  lemma SpelledScalar(s: Schema, p: Schema)
    requires s.Node? && Spells(s, p) && Settled(p) && IsScalar(p)
    ensures Prepare.Prepare(s) == Ok(p)
  {
  }

  lemma AllStep(bs: seq<Schema>, q: Schema, rest: seq<Schema>)
    requires bs != [] && Prepare.Prepare(bs[0]) == Ok(q) && PrepareAll(bs[1..]) == Ok(rest)
    ensures PrepareAll(bs) == Ok([q] + rest)
  {
  }

  lemma {:induction false} SpelledAll(bs: seq<Schema>, qs: seq<Schema>)
    requires SpellsAll(bs, qs) && forall q :: q in qs ==> Settled(q)
    ensures PrepareAll(bs) == Ok(qs)
    decreases bs, 0
  {
    if bs == [] {
      assert qs == [];
    } else {
      assert qs[0] in qs;
      SpelledPrepares(bs[0], qs[0]);
      forall i | 0 <= i < |bs[1..]| ensures Spells(bs[1..][i], qs[1..][i]) {
        assert bs[1..][i] == bs[i + 1] && qs[1..][i] == qs[i + 1];
      }
      SpelledAll(bs[1..], qs[1..]);
      AllStep(bs, qs[0], qs[1..]);
      assert qs == [qs[0]] + qs[1..];
    }
  }

  lemma PropsStep(ps: seq<Prop>, q: Schema, rest: seq<Prop>)
    requires ps != [] && Prepare.Prepare(ps[0].sub) == Ok(q) && PrepareProps(ps[1..]) == Ok(rest)
    ensures PrepareProps(ps) == Ok([Prop(ps[0].name, q)] + rest)
  {
  }

  lemma {:induction false} SpelledProps(ps: seq<Prop>, qs: seq<Prop>)
    requires |qs| == |ps| && forall q :: q in qs ==> Settled(q.sub)
    requires forall i :: 0 <= i < |ps| ==> qs[i].name == ps[i].name && Spells(ps[i].sub, qs[i].sub)
    ensures PrepareProps(ps) == Ok(qs)
    decreases ps, 0
  {
    if ps == [] {
      assert qs == [];
    } else {
      assert qs[0] in qs;
      SpelledPrepares(ps[0].sub, qs[0].sub);
      forall i | 0 <= i < |ps[1..]|
        ensures qs[1..][i].name == ps[1..][i].name && Spells(ps[1..][i].sub, qs[1..][i].sub)
      {
        assert ps[1..][i] == ps[i + 1] && qs[1..][i] == qs[i + 1];
      }
      SpelledProps(ps[1..], qs[1..]);
      PropsStep(ps, qs[0].sub, qs[1..]);
      assert qs == [Prop(ps[0].name, qs[0].sub)] + qs[1..];
    }
  }

  /** Preparing gives `p` exactly when `p` is settled and the schema spells it. */
  lemma PrepareExactly(s: Schema, p: Schema)
    ensures Prepare.Prepare(s) == Ok(p) <==> Spells(s, p) && Settled(p)
  {
    if Prepare.Prepare(s) == Ok(p) {
      PreparedSpells(s, p);
      PreparedIsSettled(s, p);
    }
    if Spells(s, p) && Settled(p) { SpelledPrepares(s, p); }
  }

  /** The rewrite of rule G3: a settled union that a key discriminates is what its `oneOf` spelling prepares to. */
  lemma OneOfPrepares(u: Schema, k: string, notes: set<string>)
    requires Settled(u) && IsUnion(u) && Discriminates(u.anyOf.bs, k, StringTag)
    ensures Prepare.Prepare(u.(anyOf := NoBranches, oneOf := u.anyOf, inert := notes)) == Ok(u)
  {
    SettledIsFixed(u);
    PreparedSpells(u, u);
    SpelledPrepares(u.(anyOf := NoBranches, oneOf := u.anyOf, inert := notes), u);
  }

  /** Annotations on any settled node, and a width on an integer one, prepare away. */
  lemma NotesPrepare(p: Schema, notes: set<string>, width: Option<string>)
    requires Settled(p) && (width.Some? ==> IntegerOrNull(TypeList(p.types)))
    ensures Prepare.Prepare(p.(inert := notes, format := width)) == Ok(p)
  {
    SettledIsFixed(p);
    PreparedSpells(p, p);
    SpelledPrepares(p.(inert := notes, format := width), p);
  }

  // ---- Which schemas it accepts ---------------------------------------------------

  /** The node without what `prepare` strips. */
  function Stripped(s: Schema): Schema
    requires s.Node?
  {
    s.(format := None, inert := {})
  }

  predicate IsAnyOf(t: Schema) {
    t.Node? && t.anyOf.Branches? && t.anyOf.bs != [] && t == Any.(anyOf := t.anyOf)
  }

  predicate IsOneOf(t: Schema) {
    t.Node? && t.oneOf.Branches? && t.oneOf.bs != [] && t == Any.(oneOf := t.oneOf)
  }

  /** An object that says so, is closed, and requires only what it declares. */
  predicate IsClosedObject(t: Schema) {
    && t.Node? && TypeList(t.types) == [TObject]
    && t == Any.(types := t.types, properties := t.properties, required := t.required, additional := Closed)
    && forall k :: k in RequiredOf(t) ==> Declares(PropsOf(t), k)
  }

  predicate KnownTypes(t: TypeKw) {
    t != Many([]) && forall x :: x in TypeList(t) ==> !x.TOther?
  }

  predicate IsCount(n: Option<real>) {
    n.Some? ==> n.value >= 0.0 && n.value == n.value.Floor as real
  }

  /** One of the five forms a Rust type emits, with every keyword in its place, at every depth. */
  ghost predicate Acceptable(s: Schema)
    decreases s
  {
    if s.Truth? then s.admits
    else if s.Imported? then false
    else
      var t := Stripped(s);
      && (s.format.Some? ==> IntegerOrNull(TypeList(s.types)))
      && (|| (IsAnyOf(t) && forall b :: b in s.anyOf.bs ==> Acceptable(b))
          || (IsOneOf(t) && (forall b :: b in s.oneOf.bs ==> Acceptable(b))
              && exists k :: Discriminates(s.oneOf.bs, k, StringTag))
          || (IsClosedObject(t) && (s.properties.Props? ==> forall p :: p in s.properties.ps ==> Acceptable(p.sub)))
          || (IsArray(t) && IsCount(t.minItems) && !s.items.s.Truth? && Acceptable(s.items.s))
          || (IsScalar(t) && KnownTypes(t.types)))
  }

  /** Preparing keeps which key discriminates, and by which consts. */
  lemma SpelledTag(b: Schema, q: Schema, k: string)
    requires Spells(b, q)
    ensures Tags(b, k, StringTag) <==> Tags(q, k, StringTag)
    ensures Tags(b, k, StringTag) ==> TagOf(b, k, StringTag) == TagOf(q, k, StringTag)
  {
    if b.Node? && b.properties.Props? { SpelledLookup(b.properties.ps, q.properties.ps, k); }
  }

  lemma {:induction false} SpelledLookup(ps: seq<Prop>, qs: seq<Prop>, k: string)
    requires SpellsProps(Props(ps), Props(qs))
    ensures Declares(ps, k) <==> Declares(qs, k)
    ensures Declares(ps, k) ==> Spells(Lookup(ps, k), Lookup(qs, k))
    decreases |ps|
  {
    if ps == [] {
    } else {
      assert SpellsProps(Props(ps[1..]), Props(qs[1..])) by {
        forall i | 0 <= i < |ps[1..]|
          ensures qs[1..][i].name == ps[1..][i].name && Spells(ps[1..][i].sub, qs[1..][i].sub)
        {
          assert ps[1..][i] == ps[i + 1] && qs[1..][i] == qs[i + 1];
        }
      }
      SpelledLookup(ps[1..], qs[1..], k);
      Rest(ps, k);
      Rest(qs, k);
    }
  }

  lemma Rest(ps: seq<Prop>, k: string)
    requires ps != []
    ensures Declares(ps, k) <==> ps[0].name == k || Declares(ps[1..], k)
  {
    if i :| 0 <= i < |ps| && ps[i].name == k { assert i > 0 ==> ps[1..][i - 1].name == k; }
    if i :| 0 <= i < |ps[1..]| && ps[1..][i].name == k { assert ps[i + 1].name == k; }
  }

  lemma SpelledTags(bs: seq<Schema>, qs: seq<Schema>, k: string)
    requires SpellsAll(bs, qs)
    ensures Discriminates(bs, k, StringTag) <==> Discriminates(qs, k, StringTag)
  {
    forall i | 0 <= i < |bs|
      ensures Tags(bs[i], k, StringTag) <==> Tags(qs[i], k, StringTag)
      ensures Tags(bs[i], k, StringTag) ==> TagOf(bs[i], k, StringTag) == TagOf(qs[i], k, StringTag)
    {
      SpelledTag(bs[i], qs[i], k);
    }
  }

  lemma {:induction false} SpelledAcceptable(s: Schema, p: Schema)
    requires Spells(s, p) && Settled(p)
    ensures Acceptable(s)
    decreases s, 1
  {
    if s.Node? {
      if IsUnion(p) {
        UnionAcceptable(s, p);
      } else if IsObject(p) {
        ObjectAcceptable(s, p);
      } else if IsArray(p) {
        SpelledAcceptable(s.items.s, p.items.s);
        assert IsArray(Stripped(s)) && IsCount(s.minItems);
      } else {
        assert IsScalar(Stripped(s)) && KnownTypes(s.types);
      }
    }
  }

  lemma {:induction false} UnionAcceptable(s: Schema, p: Schema)
    requires s.Node? && Spells(s, p) && Settled(p) && IsUnion(p)
    ensures Acceptable(s)
    decreases s, 0
  {
    if s.oneOf.Branches? {
      AllAcceptable(s.oneOf.bs, p.anyOf.bs);
      var k :| Discriminates(p.anyOf.bs, k, StringTag);
      SpelledTags(s.oneOf.bs, p.anyOf.bs, k);
      assert IsOneOf(Stripped(s));
    } else {
      AllAcceptable(s.anyOf.bs, p.anyOf.bs);
      assert IsAnyOf(Stripped(s));
    }
  }

  lemma {:induction false} AllAcceptable(bs: seq<Schema>, qs: seq<Schema>)
    requires SpellsAll(bs, qs) && forall q :: q in qs ==> Settled(q)
    ensures forall b :: b in bs ==> Acceptable(b)
    decreases bs, 0
  {
    forall b | b in bs ensures Acceptable(b) {
      var i :| 0 <= i < |bs| && bs[i] == b;
      assert qs[i] in qs;
      SpelledAcceptable(b, qs[i]);
    }
  }

  lemma {:induction false} ObjectAcceptable(s: Schema, p: Schema)
    requires s.Node? && Spells(s, p) && Settled(p) && IsObject(p)
    ensures Acceptable(s)
    decreases s, 0
  {
    if s.properties.Props? {
      forall q | q in s.properties.ps ensures Acceptable(q.sub) {
        var i :| 0 <= i < |s.properties.ps| && s.properties.ps[i] == q;
        assert p.properties.ps[i] in p.properties.ps;
        SpelledAcceptable(q.sub, p.properties.ps[i].sub);
      }
      forall k | k in RequiredOf(s) ensures Declares(s.properties.ps, k) {
        SpelledLookup(s.properties.ps, p.properties.ps, k);
      }
    }
    assert IsClosedObject(Stripped(s));
  }

  lemma {:induction false} AcceptablePrepares(s: Schema)
    requires Acceptable(s)
    ensures Prepare.Prepare(s).Ok?
    decreases s, 1
  {
    if s.Node? {
      var t := Stripped(s);
      if IsAnyOf(t) {
        AcceptableAll(s.anyOf.bs);
        AnyOfNode(s, PrepareAll(s.anyOf.bs).value);
      } else if IsOneOf(t) {
        OneOfAccepted(s);
      } else if IsClosedObject(t) {
        if s.properties.Props? { AcceptableProps(s.properties.ps); }
        assert PropsOf(t) == PropsOf(s) && RequiredOf(t) == RequiredOf(s);
        ObjectNode(s, PrepareProps(PropsOf(s)).value);
      } else if IsArray(t) {
        AcceptablePrepares(s.items.s);
        ArrayNode(s);
      } else {
        ScalarNode(s);
      }
    }
  }

  lemma {:induction false} OneOfAccepted(s: Schema)
    requires Acceptable(s) && s.Node? && IsOneOf(Stripped(s))
    ensures Prepare.Prepare(s).Ok?
    decreases s, 0
  {
    var bs := s.oneOf.bs;
    AcceptableAll(bs);
    var qs := PrepareAll(bs).value;
    PreparedAllSpell(bs, qs);
    var k :| Discriminates(bs, k, StringTag);
    SpelledTags(bs, qs, k);
    OneOfFinished(s, qs, k);
    OneOfNode(s, qs);
  }

  lemma ArrayNode(s: Schema)
    requires s.Node? && IsArray(Stripped(s)) && IsCount(s.minItems) && s.format.None?
    requires !s.items.s.Truth? && Prepare.Prepare(s.items.s).Ok?
    ensures Prepare.Prepare(s).Ok?
  {
    assert TArray in NonNull(TypeList(s.types)) && TObject !in NonNull(TypeList(s.types));
    assert PrepareSub(s.items).Ok?;
  }

  lemma ScalarNode(s: Schema)
    requires s.Node? && IsScalar(Stripped(s)) && KnownTypes(s.types)
    requires s.format.Some? ==> IntegerOrNull(TypeList(s.types))
    ensures Prepare.Prepare(s).Ok?
  {
  }

  lemma {:induction false} AcceptableAll(bs: seq<Schema>)
    requires forall b :: b in bs ==> Acceptable(b)
    ensures PrepareAll(bs).Ok?
    decreases bs, 0
  {
    if bs == [] {
    } else {
      assert bs[0] in bs;
      AcceptablePrepares(bs[0]);
      AcceptableAll(bs[1..]);
    }
  }

  lemma {:induction false} AcceptableProps(ps: seq<Prop>)
    requires forall p :: p in ps ==> Acceptable(p.sub)
    ensures PrepareProps(ps).Ok?
    decreases ps, 0
  {
    if ps == [] {
    } else {
      assert ps[0] in ps;
      AcceptablePrepares(ps[0].sub);
      AcceptableProps(ps[1..]);
    }
  }

  /** `prepare` accepts exactly the schemas of these forms. */
  lemma AcceptsExactly(s: Schema)
    ensures Prepare.Prepare(s).Ok? <==> Acceptable(s)
  {
    if Prepare.Prepare(s).Ok? {
      var p := Prepare.Prepare(s).value;
      PreparedSpells(s, p);
      PreparedIsSettled(s, p);
      SpelledAcceptable(s, p);
    }
    if Acceptable(s) { AcceptablePrepares(s); }
  }

  // ---- Which rule a refusal cites --------------------------------------------------

  /** A keyword the emitter could not enforce where it stands. */
  predicate Misplaced(s: Schema) {
    if !s.Node? then s.Imported?
    else
      || !Supported(s) || !WellPlaced(s) || !LiteralsOk(s)
      || (Arrayish(s) && (NonNull(TypeList(s.types)) != [TArray] || !s.items.Sub? || s.items.s.Truth?))
      || ((s.oneOf.Branches? || s.anyOf.Branches?) && HasOtherKeywords(s))
      || (s.oneOf.Branches? && (s.anyOf.Branches? || s.oneOf.bs == []))
      || (s.anyOf.Branches? && s.anyOf.bs == [])
  }

  /** What each rule says of the node it refuses. */
  ghost predicate Breaks(s: Schema, r: Rule) {
    match r
    case Form => s == Truth(false)
    case G4 => s.Node? && "$ref" in s.others
    case G1 => s.Node? && Objectish(s) && (TypeList(s.types) != [TObject] || s.additional != Closed)
    case Shape => s.Node? && exists k :: k in RequiredOf(s) && !Declares(PropsOf(s), k)
    case G3 => s.Node? && s.oneOf.Branches? && forall k :: !Discriminates(s.oneOf.bs, k, StringTag)
    case G5 => Misplaced(s)
  }

  ghost predicate BreaksWithin(s: Schema, r: Rule)
    decreases s
  {
    if !s.Node? then Breaks(s, r)
    else
      || Breaks(s, r)
      || (s.properties.Props? && exists p :: p in s.properties.ps && BreaksWithin(p.sub, r))
      || (s.items.Sub? && BreaksWithin(s.items.s, r))
      || (s.anyOf.Branches? && exists b :: b in s.anyOf.bs && BreaksWithin(b, r))
      || (s.oneOf.Branches? && exists b :: b in s.oneOf.bs && BreaksWithin(b, r))
  }

  /** A refusal cites a rule that some node of the schema breaks. */
  lemma {:induction false} RefusalCites(s: Schema, r: Rule)
    requires Prepare.Prepare(s) == Err(r)
    ensures BreaksWithin(s, r)
    decreases s, 1
  {
    if s.Node? {
      if s.properties.Props? && PrepareProps(s.properties.ps) == Err(r) {
        PropRefused(s.properties.ps, r);
      } else if s.items.Sub? && Prepare.Prepare(s.items.s) == Err(r) {
        RefusalCites(s.items.s, r);
      } else if s.anyOf.Branches? && PrepareAll(s.anyOf.bs) == Err(r) {
        BranchRefused(s.anyOf.bs, r);
      } else if s.oneOf.Branches? && PrepareAll(s.oneOf.bs) == Err(r) {
        BranchRefused(s.oneOf.bs, r);
      } else {
        OwnFault(s, r);
      }
    }
  }

  /** If no part of the node is refused with the rule, the node breaks it itself. */
  lemma OwnFault(s: Schema, r: Rule)
    requires s.Node? && Prepare.Prepare(s) == Err(r)
    requires s.properties.Props? ==> PrepareProps(s.properties.ps) != Err(r)
    requires s.items.Sub? ==> Prepare.Prepare(s.items.s) != Err(r)
    requires s.anyOf.Branches? ==> PrepareAll(s.anyOf.bs) != Err(r)
    requires s.oneOf.Branches? ==> PrepareAll(s.oneOf.bs) != Err(r)
    ensures Breaks(s, r)
  {
    if s.oneOf.Branches? && s.oneOf.bs != [] && PrepareAll(s.oneOf.bs).Ok? {
      FinishedFault(s, PrepareAll(s.oneOf.bs).value, r);
    }
  }

  lemma FinishedFault(s: Schema, qs: seq<Schema>, r: Rule)
    requires s.Node? && s.oneOf.Branches? && s.oneOf.bs != [] && PrepareAll(s.oneOf.bs) == Ok(qs)
    ensures forall ps, items, any :: Finished(s, ps, items, any, Branches(qs)) == Err(r) ==> Breaks(s, r)
  {
    TagMissing(s.oneOf.bs, qs);
  }

  lemma TagMissing(bs: seq<Schema>, qs: seq<Schema>)
    requires PrepareAll(bs) == Ok(qs)
    ensures bs != [] && FindTag(qs, StringTag).None? ==> forall k :: !Discriminates(bs, k, StringTag)
  {
    PreparedAllSpell(bs, qs);
    forall k ensures Discriminates(bs, k, StringTag) <==> Discriminates(qs, k, StringTag) { SpelledTags(bs, qs, k); }
  }

  lemma {:induction false} PropRefused(ps: seq<Prop>, r: Rule)
    requires PrepareProps(ps) == Err(r)
    ensures exists p :: p in ps && BreaksWithin(p.sub, r)
    decreases ps, 0
  {
    if Prepare.Prepare(ps[0].sub).Err? {
      RefusalCites(ps[0].sub, r);
      assert ps[0] in ps;
    } else {
      PropRefused(ps[1..], r);
    }
  }

  lemma {:induction false} BranchRefused(bs: seq<Schema>, r: Rule)
    requires PrepareAll(bs) == Err(r)
    ensures exists b :: b in bs && BreaksWithin(b, r)
    decreases bs, 0
  {
    if Prepare.Prepare(bs[0]).Err? {
      RefusalCites(bs[0], r);
      assert bs[0] in bs;
    } else {
      BranchRefused(bs[1..], r);
    }
  }
}
