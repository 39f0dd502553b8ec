/**
 What the asymmetry pass means. `Demands` reads a prepared schema, the reader rules and the table directly
 against a value, without building a schema: an optional member has no null arm, a named path has its changes,
 a split frame has the arm its discriminant selects. The pass compiles exactly that.
 */
module Demanded {
  import opened Wrappers
  import opened Schemas
  import opened Discriminated
  import opened Prepare
  import opened Asymmetry
  import opened OkSplits
  import opened Narrowing

  ghost predicate Demands(env: Env, s: Schema, path: string, table: Table, v: Json)
    decreases EntriesFrom(table, |path|), Height(s), 2, 0
  {
    if s.Truth? then s.admits
    else
      FewerEntries(table, |path|, |path| + 1);
      if path in table then
        var changed := ApplyChanges(s, table[path]);
        changed.Ok? && DemandsInside(env, changed.value, path, table, v) && SplitsHold(table[path], v)
      else DemandsInside(env, s, path, table, v)
  }

  ghost predicate DemandsInside(env: Env, s: Schema, path: string, table: Table, v: Json)
    decreases EntriesFrom(table, |path| + 1), Height(s), 1, 0
  {
    if !s.Node? then Admits(env, s, v)
    else
      && LeafOk(env, s, v)
      && (v.Arr? && s.items.Sub? ==> forall i :: 0 <= i < |v.elems| ==> DemandsItem(env, s, path, table, v.elems[i]))
      && (v.Obj? ==> forall k :: k in v.members ==> DemandsMember(env, s, path, table, k, v.members[k]))
      && (s.anyOf.Branches? ==> DemandsSome(env, s.anyOf.bs, 0, path, table, v))
  }

  ghost predicate DemandsItem(env: Env, s: Schema, path: string, table: Table, v: Json)
    requires s.Node? && s.items.Sub?
    decreases EntriesFrom(table, |path| + 1), Height(s), 0, 0
  {
    FewerEntries(table, |path| + 1, |ItemsPath(path)|);
    Demands(env, s.items.s, ItemsPath(path), table, v)
  }

  ghost predicate DemandsMember(env: Env, s: Schema, path: string, table: Table, k: string, v: Json)
    requires s.Node?
    decreases EntriesFrom(table, |path| + 1), Height(s), 0, 0
  {
    if Declares(PropsOf(s), k) then DemandsField(env, PropsOf(s), RequiredOf(s), path, table, k, v)
    else s.additional.Sub? ==> Admits(env, s.additional.s, v)
  }

  /** The first declaration of the name, without its null arm where the name is optional. */
  ghost predicate DemandsField(env: Env, ps: seq<Prop>, required: seq<string>, path: string, table: Table,
                               k: string, v: Json)
    decreases EntriesFrom(table, |path| + 1), HeightOfProps(ps), 3, |ps|
  {
    if ps == [] then false
    else if ps[0].name == k then
      DroppedHeight(ps[0].sub);
      FewerEntries(table, |path| + 1, |PropPath(path, k)|);
      Demands(env, Field(ps[0], required), PropPath(path, k), table, v)
    else DemandsField(env, ps[1..], required, path, table, k, v)
  }

  ghost predicate DemandsSome(env: Env, bs: seq<Schema>, n: nat, path: string, table: Table, v: Json)
    decreases EntriesFrom(table, |path| + 1), HeightOfAll(bs), 3, |bs|
  {
    if bs == [] then false
    else
      FewerEntries(table, |path| + 1, |AnyPath(path, n)|);
      Demands(env, bs[0], AnyPath(path, n), table, v) || DemandsSome(env, bs[1..], n + 1, path, table, v)
  }

  /** The discriminant selects an arm, and the value carries what that arm requires and nothing it forbids. */
  predicate SplitHolds(c: Change, v: Json)
    requires c.OkSplit?
  {
    && v.Obj? && c.discriminant in v.members && v.members[c.discriminant].Bool? && |c.arms| == 2
    && Fits(Selected(c.arms, v.members[c.discriminant].b), v.members)
  }

  ghost predicate SplitsHold(changes: seq<Change>, v: Json) {
    forall c :: c in changes && c.OkSplit? ==> SplitHolds(c, v)
  }

  // ---- The pass compiles it --------------------------------------------------------

  lemma {:induction false} SplitsMean(env: Env, s: Schema, changes: seq<Change>, path: string, out: Schema, v: Json)
    requires s.Node? && ApplyOkSplits(s, changes, path) == Ok(out)
    requires s.types == One(TObject) && s.properties.Props? ==> IsFrame(s) && PlainBooleans(s.properties.ps)
    ensures Admits(env, out, v) <==> Admits(env, s, v) && SplitsHold(changes, v)
    decreases |changes|
  {
    if changes == [] {
      assert out == s;
    } else if changes[0].OkSplit? {
      var next := ApplyOkSplit(s, changes[0].discriminant, changes[0].arms, path).value;
      OkSplitExact(env, s, changes[0].discriminant, changes[0].arms, path, next, v);
      SplitsMean(env, next, changes[1..], path, out, v);
      assert SplitsHold(changes, v) <==> SplitHolds(changes[0], v) && SplitsHold(changes[1..], v);
    } else {
      SplitsMean(env, s, changes[1..], path, out, v);
      assert SplitsHold(changes, v) <==> SplitsHold(changes[1..], v);
    }
  }

  /** The walked schema admits a value exactly when the reader demands allow it, at every depth. */
  lemma {:induction false} VisitMeans(env: Env, s: Schema, path: string, table: Table, out: Visited, v: Json)
    requires Canonical(s) && Visit(s, path, table, false) == Ok(out)
    ensures Admits(env, out.schema, v) <==> Demands(env, s, path, table, v)
    decreases EntriesFrom(table, |path|), Height(s), 2, 0
  {
    FewerEntries(table, |path|, |path| + 1);
    if path in table {
      var changed := ApplyChanges(s, table[path]).value;
      var inner := VisitInside(changed, path, table, false).value;
      ChangesReady(s, table[path], changed);
      InsideMeans(env, changed, path, table, inner, v);
      InsideFrame(changed, path, table, false, inner);
      if inner.schema.Node? {
        SplitsMean(env, inner.schema, table[path], path, out.schema, v);
      } else {
        NoSplits(inner.schema, table[path], path, out.schema, v);
      }
    } else {
      InsideMeans(env, s, path, table, out, v);
    }
  }

  lemma {:induction false} NoSplits(s: Schema, changes: seq<Change>, path: string, out: Schema, v: Json)
    requires !s.Node? && ApplyOkSplits(s, changes, path) == Ok(out)
    ensures out == s && SplitsHold(changes, v)
    decreases |changes|
  {
    if changes == [] {
      assert out == s;
    } else {
      NoSplits(s, changes[1..], path, out, v);
    }
  }

  lemma {:induction false} InsideMeans(env: Env, s: Schema, path: string, table: Table, out: Visited, v: Json)
    requires WalkReady(s) && VisitInside(s, path, table, false) == Ok(out)
    ensures Admits(env, out.schema, v) <==> DemandsInside(env, s, path, table, v)
    decreases EntriesFrom(table, |path| + 1), Height(s), 1, 0
  {
    if s.Node? {
      if IsUnion(s) {
        UnionCompiles(env, s, path, table, out, v);
      } else if IsObject(s) {
        ObjectCompiles(env, s, path, table, out, v);
      } else if IsArray(s) {
        ArrayCompiles(env, s, path, table, out, v);
      } else {
        LeafCompiles(env, s, path, table, out, v);
      }
    }
  }

  lemma LeafCompiles(env: Env, s: Schema, path: string, table: Table, out: Visited, v: Json)
    requires IsScalar(s) || IsBoundedString(s)
    requires VisitInside(s, path, table, false) == Ok(out)
    ensures Admits(env, out.schema, v) <==> DemandsInside(env, s, path, table, v)
  {
    assert out.schema == s;
  }

  lemma {:induction false} UnionCompiles(env: Env, s: Schema, path: string, table: Table, out: Visited, v: Json)
    requires IsUnion(s) && Canonical(s) && VisitInside(s, path, table, false) == Ok(out)
    ensures Admits(env, out.schema, v) <==> DemandsInside(env, s, path, table, v)
    decreases EntriesFrom(table, |path| + 1), Height(s), 0, 0
  {
    var any := VisitAll(s.anyOf.bs, 0, path, table, false).value;
    assert out.schema == Any.(anyOf := Branches(any.bs));
    UnionMeans(env, out.schema, v);
    AllMean(env, s.anyOf.bs, 0, path, table, any, v);
  }

  lemma {:induction false} ArrayCompiles(env: Env, s: Schema, path: string, table: Table, out: Visited, v: Json)
    requires IsArray(s) && Canonical(s) && VisitInside(s, path, table, false) == Ok(out)
    ensures Admits(env, out.schema, v) <==> DemandsInside(env, s, path, table, v)
    decreases EntriesFrom(table, |path| + 1), Height(s), 0, 0
  {
    FewerEntries(table, |path| + 1, |ItemsPath(path)|);
    var items := Visit(s.items.s, ItemsPath(path), table, false).value;
    assert out.schema == s.(items := Sub(items.schema));
    if v.Arr? {
      forall i | 0 <= i < |v.elems|
        ensures Admits(env, items.schema, v.elems[i]) <==> DemandsItem(env, s, path, table, v.elems[i])
      {
        VisitMeans(env, s.items.s, ItemsPath(path), table, items, v.elems[i]);
      }
    }
  }

  lemma {:induction false} ObjectCompiles(env: Env, s: Schema, path: string, table: Table, out: Visited, v: Json)
    requires IsObject(s) && Canonical(s) && VisitInside(s, path, table, false) == Ok(out)
    ensures Admits(env, out.schema, v) <==> DemandsInside(env, s, path, table, v)
    decreases EntriesFrom(table, |path| + 1), Height(s), 0, 0
  {
    var props := VisitProps(s.properties.ps, RequiredOf(s), path, table, false).value;
    assert out.schema == s.(properties := Props(props.ps));
    if v.Obj? {
      forall k | k in v.members
        ensures Declares(props.ps, k) <==> Declares(s.properties.ps, k)
        ensures Declares(s.properties.ps, k) ==>
          (Admits(env, Lookup(props.ps, k), v.members[k]) <==> DemandsMember(env, s, path, table, k, v.members[k]))
      {
        PropsMean(env, s.properties.ps, RequiredOf(s), path, table, props, k, v.members[k]);
      }
      assert MembersOk(env, out.schema, v.members) <==>
        forall k :: k in v.members ==> DemandsMember(env, s, path, table, k, v.members[k]);
    }
  }

  lemma {:induction false} PropsMean(env: Env, ps: seq<Prop>, required: seq<string>, path: string, table: Table,
                                     out: VisitedProps, k: string, v: Json)
    requires forall p :: p in ps ==> Canonical(p.sub)
    requires VisitProps(ps, required, path, table, false) == Ok(out)
    ensures Declares(out.ps, k) <==> Declares(ps, k)
    ensures Declares(ps, k) ==>
      (Admits(env, Lookup(out.ps, k), v) <==> DemandsField(env, ps, required, path, table, k, v))
    decreases EntriesFrom(table, |path| + 1), HeightOfProps(ps), 3, |ps|
  {
    if ps == [] {
      assert out.ps == [];
    } else {
      var field, at := Field(ps[0], required), PropPath(path, ps[0].name);
      var first := Visit(field, at, table, false).value;
      var rest := VisitProps(ps[1..], required, path, table, false).value;
      assert ps[0] in ps && out.ps[0] == Prop(ps[0].name, first.schema) && out.ps[1..] == rest.ps;
      DropNullCanonical(ps[0].sub);
      DroppedHeight(ps[0].sub);
      FewerEntries(table, |path| + 1, |at|);
      VisitMeans(env, field, at, table, first, v);
      PropsMean(env, ps[1..], required, path, table, rest, k, v);
      Headed(ps, k);
      Headed(out.ps, k);
    }
  }

  lemma {:induction false} AllMean(env: Env, bs: seq<Schema>, n: nat, path: string, table: Table,
                                   out: VisitedAll, v: Json)
    requires forall b :: b in bs ==> Canonical(b)
    requires VisitAll(bs, n, path, table, false) == Ok(out)
    ensures (exists i :: 0 <= i < |out.bs| && Admits(env, out.bs[i], v)) <==> DemandsSome(env, bs, n, path, table, v)
    decreases EntriesFrom(table, |path| + 1), HeightOfAll(bs), 3, |bs|
  {
    if bs == [] {
      assert out.bs == [];
    } else {
      var first := Visit(bs[0], AnyPath(path, n), table, false).value;
      var rest := VisitAll(bs[1..], n + 1, path, table, false).value;
      assert bs[0] in bs && out.bs == [first.schema] + rest.bs;
      FewerEntries(table, |path| + 1, |AnyPath(path, n)|);
      VisitMeans(env, bs[0], AnyPath(path, n), table, first, v);
      AllMean(env, bs[1..], n + 1, path, table, rest, v);
      SomeOf(env, first.schema, rest.bs, v);
    }
  }

  lemma SomeOf(env: Env, b: Schema, bs: seq<Schema>, v: Json)
    ensures (exists i :: 0 <= i < |[b] + bs| && Admits(env, ([b] + bs)[i], v)) <==>
      Admits(env, b, v) || exists i :: 0 <= i < |bs| && Admits(env, bs[i], v)
  {
    var all := [b] + bs;
    if i :| 0 <= i < |all| && Admits(env, all[i], v) {
      assert i > 0 ==> all[i] == bs[i - 1];
    }
    if Admits(env, b, v) { assert all[0] == b; }
    if i :| 0 <= i < |bs| && Admits(env, bs[i], v) { assert all[i + 1] == bs[i]; }
  }

  /** The enforced validator admits exactly what the reader demands of the prepared schema. */
  lemma EnforcedMeans(env: Env, rust: Schema, base: Schema, table: Table, enforced: Schema, v: Json)
    requires Prepare.Prepare(rust) == Ok(base) && ApplyAsymmetries(base, table, false) == Ok(enforced)
    ensures Admits(env, enforced, v) <==> Demands(env, base, "$", table, v)
  {
    PreparedIsCanonical(rust, base);
    VisitMeans(env, base, "$", table, Visit(base, "$", table, false).value, v);
  }

  // ---- What an entry demands -------------------------------------------------------

  predicate InBounds(env: Env, c: Change, v: Json)
    requires c.StringChange?
  {
    && v.Str?
    && (c.minLength.Some? ==> c.minLength.value <= |v.s|)
    && (c.maxLength.Some? ==> |v.s| <= c.maxLength.value)
    && (c.pattern.Some? ==> env.matches(c.pattern.value, v.s))
  }

  /** A string entry leaves a plain string with its bounds. */
  lemma StringEntry(env: Env, path: string, table: Table, c: Change, v: Json)
    requires c.StringChange? && path in table && table[path] == [c]
    ensures Demands(env, StringNode, path, table, v) <==> InBounds(env, c, v)
  {
    var changed := StringNode.(minLength := c.minLength, maxLength := c.maxLength, pattern := c.pattern);
    assert [c][1..] == [] && ApplyChanges(changed, []) == Ok(changed);
    assert ApplyChanges(StringNode, [c]) == Ok(changed);
    assert SplitsHold([c], v);
    assert TypeOk(changed.types, v) <==> v.Str? by {
      if v.Str? { assert IsType(TString, v) && TString in TypeList(changed.types); }
    }
  }

  /** A generated entry replaces the node by the other module's schema. */
  lemma GeneratedEntry(env: Env, s: Schema, path: string, table: Table, schema: Schema, v: Json)
    requires s.Node? && path in table && table[path] == [GeneratedSchema(schema)]
    ensures Demands(env, s, path, table, v) <==> Admits(env, schema, v)
  {
    var c := GeneratedSchema(schema);
    assert [c][1..] == [] && ApplyChanges(Imported(schema), []) == Ok(Imported(schema));
    assert ApplyChanges(s, [c]) == Ok(Imported(schema));
    assert SplitsHold([c], v);
  }

  /** A string arm admits every string beside what the numeric node admits. */
  lemma ArmEntry(env: Env, s: Schema, path: string, table: Table, v: Json)
    requires IsScalar(s) && (s.types == One(TInteger) || s.types == One(TNumber))
    requires path in table && table[path] == [StringArm]
    requires AnyPath(path, 0) !in table && AnyPath(path, 1) !in table
    ensures Demands(env, s, path, table, v) <==> v.Str? || Admits(env, s, v)
  {
    var union := Any.(anyOf := Branches([s, StringNode]));
    assert [StringArm][1..] == [] && ApplyChanges(union, []) == Ok(union);
    assert ApplyChanges(s, [StringArm]) == Ok(union);
    assert SplitsHold([StringArm], v);
    ScalarDemands(env, s, AnyPath(path, 0), table, v);
    ScalarDemands(env, StringNode, AnyPath(path, 1), table, v);
    TwoDemands(env, s, StringNode, path, table, v);
    StringMeans(env, v);
  }

  lemma TwoDemands(env: Env, a: Schema, b: Schema, path: string, table: Table, v: Json)
    ensures DemandsSome(env, [a, b], 0, path, table, v) <==>
      Demands(env, a, AnyPath(path, 0), table, v) || Demands(env, b, AnyPath(path, 1), table, v)
  {
    assert [a, b][1..] == [b] && [b][1..] == [];
    assert DemandsSome(env, [b], 1, path, table, v) <==> Demands(env, b, AnyPath(path, 1), table, v);
  }

  lemma StringMeans(env: Env, v: Json)
    ensures Admits(env, StringNode, v) <==> v.Str?
  {
    if v.Str? { assert IsType(TString, v) && TString in TypeList(StringNode.types); }
  }

  /** A scalar that no entry names is demanded as it stands. */
  lemma ScalarDemands(env: Env, s: Schema, path: string, table: Table, v: Json)
    requires IsScalar(s) && path !in table
    ensures Demands(env, s, path, table, v) <==> Admits(env, s, v)
  {
    if v.Obj? {
      forall k | k in v.members ensures DemandsMember(env, s, path, table, k, v.members[k]) {
        assert PropsOf(s) == [];
      }
      assert MembersOk(env, s, v.members);
    }
  }
}
