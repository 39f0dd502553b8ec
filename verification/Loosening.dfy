/**
 The loose form of the asymmetry pass. Loose is never lax: it is the strict pass followed by opening every
 object, it admits all that the strict form admits, and from any value it admits, deleting undeclared members
 alone leaves a value the strict form admits.
 */
module Loosening {
  import opened Wrappers
  import opened Schemas
  import opened Discriminated
  import opened Prepare
  import opened Asymmetry
  import opened OkSplits
  import opened Narrowing

  // ---- Opening every object ----------------------------------------------------

  function Loosen(s: Schema): Schema
    decreases s, 0
  {
    if s.Truth? || s.Imported? then s
    else
      s.(properties := if s.properties.Props? then Props(LoosenProps(s.properties.ps)) else NoProps,
         additional := if s.properties.Props? then Open else s.additional,
         items := if s.items.Sub? then Sub(Loosen(s.items.s)) else NoSub,
         anyOf := if s.anyOf.Branches? then Branches(LoosenAll(s.anyOf.bs)) else NoBranches)
  }

  function LoosenProps(ps: seq<Prop>): (r: seq<Prop>)
    ensures |r| == |ps|
    ensures forall i :: 0 <= i < |ps| ==> r[i] == Prop(ps[i].name, Loosen(ps[i].sub))
    decreases ps, 1
  {
    if ps == [] then [] else [Prop(ps[0].name, Loosen(ps[0].sub))] + LoosenProps(ps[1..])
  }

  function LoosenAll(bs: seq<Schema>): (r: seq<Schema>)
    ensures |r| == |bs|
    ensures forall i :: 0 <= i < |bs| ==> r[i] == Loosen(bs[i])
    decreases bs, 1
  {
    if bs == [] then [] else [Loosen(bs[0])] + LoosenAll(bs[1..])
  }

  lemma {:induction false} LoosenLookup(ps: seq<Prop>, k: string)
    ensures Declares(LoosenProps(ps), k) <==> Declares(ps, k)
    ensures Declares(ps, k) ==> Lookup(LoosenProps(ps), k) == Loosen(Lookup(ps, k))
  {
    var qs := LoosenProps(ps);
    assert forall i :: 0 <= i < |ps| ==> qs[i].name == ps[i].name;
    if ps == [] {
    } else {
      assert qs[1..] == LoosenProps(ps[1..]);
      LoosenLookup(ps[1..], k);
    }
  }

  // ---- The loose pass is the strict pass, opened ---------------------------------

  function Opened(r: Result<Visited, TableRule>): Result<Visited, TableRule> {
    if r.Ok? then Ok(Visited(Loosen(r.value.schema), r.value.consumed)) else r
  }

  lemma LoosenRetyped(ps: seq<Prop>, k: string, s: Schema)
    ensures LoosenProps(Retyped(ps, k, s)) == Retyped(LoosenProps(ps), k, Loosen(s))
  {
  }

  lemma {:induction false} LoosenForbid(ps: seq<Prop>, required: seq<string>, forbidden: seq<string>)
    ensures var r := Forbid(ps, required, forbidden);
      Forbid(LoosenProps(ps), required, forbidden) == if r.Ok? then Ok(LoosenProps(r.value)) else r
    decreases |forbidden|
  {
    if forbidden == [] {
    } else {
      LoosenLookup(ps, forbidden[0]);
      LoosenRetyped(ps, forbidden[0], Truth(false));
      LoosenForbid(Retyped(ps, forbidden[0], Truth(false)), required, forbidden[1..]);
    }
  }

  lemma LoosenArm(s: Schema, discriminant: string, arm: Arm)
    requires s.Node? && s.properties.Props?
    ensures var r := ArmOf(s, discriminant, arm);
      ArmOf(Loosen(s), discriminant, arm) == if r.Ok? then Ok(Loosen(r.value)) else r
  {
    var tagged := BooleanNode.(constant := Some(Bool(arm.when)));
    var required := AddNames(AddNames([], RequiredOf(s)), arm.required);
    LoosenRetyped(s.properties.ps, discriminant, tagged);
    LoosenForbid(Retyped(s.properties.ps, discriminant, tagged), required, arm.forbidden);
    forall k | k in arm.required
      ensures Declares(LoosenProps(s.properties.ps), k) <==> Declares(s.properties.ps, k)
    {
      LoosenLookup(s.properties.ps, k);
    }
  }

  lemma LoosenCanSplit(s: Schema, discriminant: string, arms: seq<Arm>, path: string)
    ensures CanSplit(Loosen(s), discriminant, arms, path) <==> CanSplit(s, discriminant, arms, path)
  {
    if s.Node? && s.properties.Props? { LoosenLookup(s.properties.ps, discriminant); }
  }

  lemma LoosenSplit(s: Schema, discriminant: string, arms: seq<Arm>, path: string)
    ensures var r := ApplyOkSplit(s, discriminant, arms, path);
      ApplyOkSplit(Loosen(s), discriminant, arms, path) == if r.Ok? then Ok(Loosen(r.value)) else r
  {
    LoosenCanSplit(s, discriminant, arms, path);
    if CanSplit(s, discriminant, arms, path) {
      var first, second := ArmOf(s, discriminant, arms[0]), ArmOf(s, discriminant, arms[1]);
      LoosenArm(s, discriminant, arms[0]);
      LoosenArm(s, discriminant, arms[1]);
      if first.Ok? && second.Ok? { LoosenTwo(first.value, second.value); }
    }
  }

  lemma LoosenTwo(a: Schema, b: Schema)
    ensures Loosen(Any.(anyOf := Branches([a, b]))) == Any.(anyOf := Branches([Loosen(a), Loosen(b)]))
  {
    assert LoosenAll([a, b]) == [Loosen(a), Loosen(b)];
  }

  lemma {:induction false} LoosenSplits(s: Schema, changes: seq<Change>, path: string)
    ensures var r := ApplyOkSplits(s, changes, path);
      ApplyOkSplits(Loosen(s), changes, path) == if r.Ok? then Ok(Loosen(r.value)) else r
    decreases |changes|
  {
    if changes == [] {
    } else {
      if changes[0].OkSplit? {
        LoosenSplit(s, changes[0].discriminant, changes[0].arms, path);
        var next := ApplyOkSplit(s, changes[0].discriminant, changes[0].arms, path);
        if next.Ok? { LoosenSplits(next.value, changes[1..], path); }
      } else {
        LoosenSplits(s, changes[1..], path);
      }
    }
  }

  /** The loose pass is the strict pass with every object it walked opened. */
  lemma {:induction false} LooseVisit(s: Schema, path: string, table: Table)
    ensures Visit(s, path, table, true) == Opened(Visit(s, path, table, false))
    decreases EntriesFrom(table, |path|), Height(s), 2, 0
  {
    FewerEntries(table, |path|, |path| + 1);
    if path in table {
      var changed := ApplyChanges(s, table[path]);
      if changed.Ok? {
        LooseInside(changed.value, path, table);
        var inner := VisitInside(changed.value, path, table, false);
        if inner.Ok? { LoosenSplits(inner.value.schema, table[path], path); }
      }
    } else {
      LooseInside(s, path, table);
    }
  }

  lemma LoosenAssembled(s: Schema, ps: seq<Prop>, items: Schema, bs: seq<Schema>)
    requires s.Node?
    ensures Assembled(s, LoosenProps(ps), Loosen(items), LoosenAll(bs), true)
         == Loosen(Assembled(s, ps, items, bs, false))
  {
  }

  function PropsInside(s: Schema, path: string, table: Table, loose: bool): Result<VisitedProps, TableRule>
    requires s.Node?
  {
    if s.properties.Props? then VisitProps(s.properties.ps, RequiredOf(s), path, table, loose)
    else Ok(VisitedProps([], {}))
  }

  function ItemsInside(s: Schema, path: string, table: Table, loose: bool): Result<Visited, TableRule>
    requires s.Node?
  {
    if s.items.Sub? && !s.items.s.Truth? then Visit(s.items.s, ItemsPath(path), table, loose)
    else Ok(Visited(Any, {}))
  }

  function AnyInside(s: Schema, path: string, table: Table, loose: bool): Result<VisitedAll, TableRule>
    requires s.Node?
  {
    if s.anyOf.Branches? then VisitAll(s.anyOf.bs, 0, path, table, loose) else Ok(VisitedAll([], {}))
  }

  /** The walk below a node, by its three parts. */
  lemma InsideParts(s: Schema, path: string, table: Table, loose: bool)
    requires s.Node?
    ensures var ps, items, any :=
        PropsInside(s, path, table, loose), ItemsInside(s, path, table, loose), AnyInside(s, path, table, loose);
      VisitInside(s, path, table, loose) ==
        if ps.Err? then Err(ps.error)
        else if items.Err? then items
        else if any.Err? then Err(any.error)
        else Ok(Visited(Assembled(s, ps.value.ps, items.value.schema, any.value.bs, loose),
                        ps.value.consumed + items.value.consumed + any.value.consumed))
  {
  }

  lemma {:induction false} LooseInside(s: Schema, path: string, table: Table)
    ensures VisitInside(s, path, table, true) == Opened(VisitInside(s, path, table, false))
    decreases EntriesFrom(table, |path| + 1), Height(s), 1, 1
  {
    if s.Node? {
      InsideParts(s, path, table, false);
      InsideParts(s, path, table, true);
      LooseParts(s, path, table);
      var ps, items := PropsInside(s, path, table, false), ItemsInside(s, path, table, false);
      var any := AnyInside(s, path, table, false);
      if ps.Ok? && items.Ok? && any.Ok? { LoosenAssembled(s, ps.value.ps, items.value.schema, any.value.bs); }
    }
  }

  lemma {:induction false} LooseParts(s: Schema, path: string, table: Table)
    requires s.Node?
    ensures var r := PropsInside(s, path, table, false);
      PropsInside(s, path, table, true) ==
        if r.Ok? then Ok(VisitedProps(LoosenProps(r.value.ps), r.value.consumed)) else r
    ensures ItemsInside(s, path, table, true) == Opened(ItemsInside(s, path, table, false))
    ensures var r := AnyInside(s, path, table, false);
      AnyInside(s, path, table, true) == if r.Ok? then Ok(VisitedAll(LoosenAll(r.value.bs), r.value.consumed)) else r
    decreases EntriesFrom(table, |path| + 1), Height(s), 1, 0
  {
    FewerEntries(table, |path| + 1, |ItemsPath(path)|);
    if s.properties.Props? { LooseProps(s.properties.ps, RequiredOf(s), path, table); }
    if s.items.Sub? && !s.items.s.Truth? { LooseVisit(s.items.s, ItemsPath(path), table); }
    if s.anyOf.Branches? { LooseAll(s.anyOf.bs, 0, path, table); }
  }

  lemma {:induction false} LooseProps(ps: seq<Prop>, required: seq<string>, path: string, table: Table)
    ensures var r := VisitProps(ps, required, path, table, false);
      VisitProps(ps, required, path, table, true) ==
        if r.Ok? then Ok(VisitedProps(LoosenProps(r.value.ps), r.value.consumed)) else r
    decreases EntriesFrom(table, |path| + 1), HeightOfProps(ps), 3, |ps|
  {
    if ps == [] {
    } else {
      var at := PropPath(path, ps[0].name);
      DroppedHeight(ps[0].sub);
      FewerEntries(table, |path| + 1, |at|);
      LooseVisit(Field(ps[0], required), at, table);
      LooseProps(ps[1..], required, path, table);
      var r := VisitProps(ps, required, path, table, false);
      if r.Ok? { assert r.value.ps[1..] == VisitProps(ps[1..], required, path, table, false).value.ps; }
    }
  }

  lemma {:induction false} LooseAll(bs: seq<Schema>, n: nat, path: string, table: Table)
    ensures var r := VisitAll(bs, n, path, table, false);
      VisitAll(bs, n, path, table, true) ==
        if r.Ok? then Ok(VisitedAll(LoosenAll(r.value.bs), r.value.consumed)) else r
    decreases EntriesFrom(table, |path| + 1), HeightOfAll(bs), 3, |bs|
  {
    if bs == [] {
    } else {
      FewerEntries(table, |path| + 1, |AnyPath(path, n)|);
      LooseVisit(bs[0], AnyPath(path, n), table);
      LooseAll(bs[1..], n + 1, path, table);
      var r := VisitAll(bs, n, path, table, false);
      if r.Ok? { assert r.value.bs[1..] == VisitAll(bs[1..], n + 1, path, table, false).value.bs; }
    }
  }

  // ---- The form of an enforced schema --------------------------------------------

  predicate ShapedObject(s: Schema) {
    && s.Node? && s.properties.Props? && TypeList(s.types) == [TObject]
    && s == Any.(types := s.types, properties := s.properties, required := s.required, additional := Closed)
    && forall k :: k in RequiredOf(s) ==> Declares(s.properties.ps, k)
  }

  predicate ShapedArray(s: Schema) {
    s.Node? && s.items.Sub? && s == Any.(types := s.types, items := s.items, minItems := s.minItems)
  }

  predicate ShapedLeaf(s: Schema) {
    && s.Node? && s.properties.NoProps? && s.items.NoSub? && s.anyOf.NoBranches? && s.oneOf.NoBranches?
    && s.additional.NoSub? && s.unevaluated.NoSub?
  }

  /** A strict schema whose every node is a union, a closed object, an array or a leaf. */
  predicate Shaped(s: Schema)
    decreases s
  {
    || s.Truth? || s.Imported?
    || (IsUnion(s) && forall b :: b in s.anyOf.bs ==> Shaped(b))
    || (ShapedObject(s) && forall p :: p in s.properties.ps ==> Shaped(p.sub))
    || (ShapedArray(s) && Shaped(s.items.s))
    || ShapedLeaf(s)
  }

  lemma {:induction false} ShapedForbid(ps: seq<Prop>, required: seq<string>, forbidden: seq<string>, out: seq<Prop>)
    requires Forbid(ps, required, forbidden) == Ok(out) && forall p :: p in ps ==> Shaped(p.sub)
    ensures forall p :: p in out ==> Shaped(p.sub)
    decreases |forbidden|
  {
    if forbidden == [] {
    } else {
      ShapedForbid(Retyped(ps, forbidden[0], Truth(false)), required, forbidden[1..], out);
    }
  }

  lemma ShapedArm(s: Schema, discriminant: string, arm: Arm, out: Schema)
    requires Shaped(s) && ShapedObject(s) && ArmOf(s, discriminant, arm) == Ok(out)
    ensures Shaped(out)
  {
    var tagged := BooleanNode.(constant := Some(Bool(arm.when)));
    assert ShapedLeaf(tagged);
    var ps := Retyped(s.properties.ps, discriminant, tagged);
    assert forall p :: p in s.properties.ps ==> Shaped(p.sub);
    assert forall p :: p in ps ==> Shaped(p.sub);
    ShapedForbid(ps, RequiredOf(out), arm.forbidden, out.properties.ps);
    forall k | k in RequiredOf(out) ensures Declares(out.properties.ps, k) {
      RetypedLookup(s.properties.ps, discriminant, tagged, k);
      ForbidMeans(ps, RequiredOf(out), arm.forbidden, k);
    }
  }

  lemma {:induction false} ShapedSplits(s: Schema, changes: seq<Change>, path: string, out: Schema)
    requires Shaped(s) && ApplyOkSplits(s, changes, path) == Ok(out)
    ensures Shaped(out)
    decreases |changes|
  {
    if changes == [] {
    } else {
      if changes[0].OkSplit? {
        var next := ApplyOkSplit(s, changes[0].discriminant, changes[0].arms, path).value;
        ShapedArm(s, changes[0].discriminant, changes[0].arms[0], next.anyOf.bs[0]);
        ShapedArm(s, changes[0].discriminant, changes[0].arms[1], next.anyOf.bs[1]);
        ShapedSplits(next, changes[1..], path, out);
      } else {
        ShapedSplits(s, changes[1..], path, out);
      }
    }
  }

  /** The three stages of a visit at a table entry. */
  lemma EntryStages(s: Schema, path: string, table: Table, out: Visited) returns (changed: Schema, inner: Visited)
    requires s.Node? && path in table && Visit(s, path, table, false) == Ok(out)
    ensures ApplyChanges(s, table[path]) == Ok(changed) && VisitInside(changed, path, table, false) == Ok(inner)
    ensures ApplyOkSplits(inner.schema, table[path], path) == Ok(out.schema)
    ensures EntriesFrom(table, |path| + 1) < EntriesFrom(table, |path|)
  {
    FewerEntries(table, |path|, |path| + 1);
    changed := ApplyChanges(s, table[path]).value;
    inner := VisitInside(changed, path, table, false).value;
  }

  lemma {:induction false} VisitShaped(s: Schema, path: string, table: Table, out: Visited)
    requires Canonical(s) && Visit(s, path, table, false) == Ok(out)
    ensures Shaped(out.schema)
    decreases EntriesFrom(table, |path|), Height(s), 2, 1
  {
    if s.Node? && path in table {
      var changed, inner := EntryStages(s, path, table, out);
      EntryShaped(s, path, table, changed, inner, out.schema);
    } else if s.Node? {
      FewerEntries(table, |path|, |path| + 1);
      InsideShaped(s, path, table, out);
    }
  }

  lemma {:induction false} EntryShaped(s: Schema, path: string, table: Table, changed: Schema, inner: Visited,
                                       out: Schema)
    requires WalkReady(s) && path in table && ApplyChanges(s, table[path]) == Ok(changed)
    requires VisitInside(changed, path, table, false) == Ok(inner)
    requires ApplyOkSplits(inner.schema, table[path], path) == Ok(out)
    requires EntriesFrom(table, |path| + 1) < EntriesFrom(table, |path|)
    ensures Shaped(out)
    decreases EntriesFrom(table, |path|), Height(s), 2, 0
  {
    ChangesReady(s, table[path], changed);
    InsideShaped(changed, path, table, inner);
    ShapedSplits(inner.schema, table[path], path, out);
  }

  lemma {:induction false} InsideShaped(s: Schema, path: string, table: Table, out: Visited)
    requires WalkReady(s) && VisitInside(s, path, table, false) == Ok(out)
    ensures Shaped(out.schema)
    decreases EntriesFrom(table, |path| + 1), Height(s), 1, 1
  {
    if s.Node? {
      InsideParts(s, path, table, false);
      if IsUnion(s) {
        UnionShaped(s, path, table, AnyInside(s, path, table, false).value, out.schema);
      } else if IsObject(s) {
        ObjectShaped(s, path, table, PropsInside(s, path, table, false).value, out.schema);
      } else if IsArray(s) {
        ArrayShaped(s, path, table, ItemsInside(s, path, table, false).value, out.schema);
      } else {
        assert ShapedLeaf(out.schema);
      }
    }
  }

  lemma {:induction false} UnionShaped(s: Schema, path: string, table: Table, any: VisitedAll, out: Schema)
    requires WalkReady(s) && IsUnion(s) && AnyInside(s, path, table, false) == Ok(any)
    requires out == s.(anyOf := Branches(any.bs))
    ensures Shaped(out)
    decreases EntriesFrom(table, |path| + 1), Height(s), 1, 0
  {
    AllShaped(s.anyOf.bs, 0, path, table, any);
    assert IsUnion(out);
  }

  lemma {:induction false} ArrayShaped(s: Schema, path: string, table: Table, items: Visited, out: Schema)
    requires WalkReady(s) && IsArray(s) && ItemsInside(s, path, table, false) == Ok(items)
    requires out == s.(items := if s.items.s.Truth? then s.items else Sub(items.schema))
    ensures Shaped(out)
    decreases EntriesFrom(table, |path| + 1), Height(s), 1, 0
  {
    if !s.items.s.Truth? {
      FewerEntries(table, |path| + 1, |ItemsPath(path)|);
      VisitShaped(s.items.s, ItemsPath(path), table, items);
    }
    assert ShapedArray(out);
  }

  lemma {:induction false} ObjectShaped(s: Schema, path: string, table: Table, props: VisitedProps, out: Schema)
    requires WalkReady(s) && IsObject(s) && PropsInside(s, path, table, false) == Ok(props)
    requires out == s.(properties := Props(props.ps))
    ensures Shaped(out)
    decreases EntriesFrom(table, |path| + 1), Height(s), 1, 0
  {
    PropsShaped(s.properties.ps, RequiredOf(s), path, table, props);
    assert ShapedObject(out);
  }

  lemma {:induction false} PropsShaped(ps: seq<Prop>, required: seq<string>, path: string, table: Table,
                                       out: VisitedProps)
    requires (forall p :: p in ps ==> Canonical(p.sub)) && VisitProps(ps, required, path, table, false) == Ok(out)
    ensures forall p :: p in out.ps ==> Shaped(p.sub)
    ensures forall k :: Declares(ps, k) ==> Declares(out.ps, k)
    decreases EntriesFrom(table, |path| + 1), HeightOfProps(ps), 3, |ps|
  {
    if ps == [] {
    } else {
      var field, at := Field(ps[0], required), PropPath(path, ps[0].name);
      assert ps[0] in ps;
      DropNullCanonical(ps[0].sub);
      DroppedHeight(ps[0].sub);
      FewerEntries(table, |path| + 1, |at|);
      VisitShaped(field, at, table, Visit(field, at, table, false).value);
      PropsShaped(ps[1..], required, path, table, VisitProps(ps[1..], required, path, table, false).value);
      forall k | Declares(ps, k) ensures Declares(out.ps, k) {
        Headed(ps, k);
        Headed(out.ps, k);
        assert out.ps[1..] == VisitProps(ps[1..], required, path, table, false).value.ps;
      }
    }
  }

  lemma {:induction false} AllShaped(bs: seq<Schema>, n: nat, path: string, table: Table, out: VisitedAll)
    requires (forall b :: b in bs ==> Canonical(b)) && VisitAll(bs, n, path, table, false) == Ok(out)
    ensures forall b :: b in out.bs ==> Shaped(b)
    decreases EntriesFrom(table, |path| + 1), HeightOfAll(bs), 3, |bs|
  {
    if bs == [] {
    } else {
      assert bs[0] in bs;
      FewerEntries(table, |path| + 1, |AnyPath(path, n)|);
      VisitShaped(bs[0], AnyPath(path, n), table, Visit(bs[0], AnyPath(path, n), table, false).value);
      AllShaped(bs[1..], n + 1, path, table, VisitAll(bs[1..], n + 1, path, table, false).value);
    }
  }

  // ---- Loose admits more ---------------------------------------------------------

  /** Opening the objects of a schema never refuses what it admitted. */
  lemma {:induction false} LoosenWidens(env: Env, s: Schema, v: Json)
    requires Shaped(s) && Admits(env, s, v)
    ensures Admits(env, Loosen(s), v)
    decreases s
  {
    var l := Loosen(s);
    if IsUnion(s) {
      UnionMeans(env, s, v);
      var i :| 0 <= i < |s.anyOf.bs| && Admits(env, s.anyOf.bs[i], v);
      assert s.anyOf.bs[i] in s.anyOf.bs;
      LoosenWidens(env, s.anyOf.bs[i], v);
      assert l.anyOf.bs[i] == Loosen(s.anyOf.bs[i]);
      UnionMeans(env, l, v);
    } else if ShapedObject(s) {
      OnlyObjects(env, s, v);
      forall k | k in v.members && Declares(PropsOf(l), k) ensures Admits(env, Lookup(PropsOf(l), k), v.members[k]) {
        LoosenLookup(s.properties.ps, k);
        MemberAdmitted(env, s, v, k);
        ShapedMember(s, k);
        LoosenWidens(env, Lookup(s.properties.ps, k), v.members[k]);
      }
      assert LeafOk(env, s, v) && MembersOk(env, l, v.members);
    } else if ShapedArray(s) {
      if v.Arr? {
        assert ItemsOk(env, s, v.elems);
        forall i | 0 <= i < |v.elems| ensures Admits(env, l.items.s, v.elems[i]) {
          LoosenWidens(env, s.items.s, v.elems[i]);
        }
      }
      assert LeafOk(env, s, v);
    }
  }

  lemma ShapedMember(s: Schema, k: string)
    requires Shaped(s) && ShapedObject(s) && Declares(s.properties.ps, k)
    ensures Shaped(Lookup(s.properties.ps, k))
  {
    var i :| 0 <= i < |s.properties.ps| && s.properties.ps[i] == Prop(k, Lookup(s.properties.ps, k));
    assert s.properties.ps[i] in s.properties.ps;
  }

  // ---- Deleting undeclared members ------------------------------------------------

  /** The value with every member its object node does not declare deleted, at every depth. */
  function Prune(env: Env, s: Schema, v: Json): Json
    decreases s, 0
  {
    if s.Truth? || s.Imported? then v
    else if s.anyOf.Branches? then PruneBy(env, s.anyOf.bs, v)
    else if s.properties.Props? && v.Obj? then
      Obj(map k | k in v.members && Declares(s.properties.ps, k) ::
            Prune(env, Lookup(s.properties.ps, k), v.members[k]))
    else if s.items.Sub? && v.Arr? then
      Arr(seq(|v.elems|, i requires 0 <= i < |v.elems| => Prune(env, s.items.s, v.elems[i])))
    else v
  }

  /** By the first branch that admits the value. */
  function PruneBy(env: Env, bs: seq<Schema>, v: Json): Json
    decreases bs, 1
  {
    if bs == [] then v
    else if Admits(env, bs[0], v) then Prune(env, bs[0], v)
    else PruneBy(env, bs[1..], v)
  }

  /** `w` is `v` with members deleted, and nothing else changed. */
  predicate Reduced(v: Json, w: Json)
    decreases w
  {
    match (v, w)
    case (Obj(ms), Obj(ns)) => forall k :: k in ns ==> k in ms && Reduced(ms[k], ns[k])
    case (Arr(xs), Arr(ys)) => |xs| == |ys| && forall i :: 0 <= i < |ys| ==> Reduced(xs[i], ys[i])
    case (_, _) => v == w
  }

  lemma {:induction false} ReducedSelf(v: Json)
    ensures Reduced(v, v)
  {
    match v
    case Obj(ms) => forall k | k in ms ensures Reduced(ms[k], ms[k]) { ReducedSelf(ms[k]); }
    case Arr(xs) => forall i | 0 <= i < |xs| ensures Reduced(xs[i], xs[i]) { ReducedSelf(xs[i]); }
    case _ =>
  }

  /** Pruning deletes members and changes nothing else. */
  lemma {:induction false} PruneReduces(env: Env, s: Schema, v: Json)
    ensures Reduced(v, Prune(env, s, v))
    decreases s, 0
  {
    if s.Node? && s.anyOf.Branches? {
      PruneByReduces(env, s.anyOf.bs, v);
    } else if s.Node? && s.properties.Props? && v.Obj? {
      var w := Prune(env, s, v);
      forall k | k in w.members ensures Reduced(v.members[k], w.members[k]) {
        PruneReduces(env, Lookup(s.properties.ps, k), v.members[k]);
      }
    } else if s.Node? && s.items.Sub? && v.Arr? {
      forall i | 0 <= i < |v.elems| ensures Reduced(v.elems[i], Prune(env, s.items.s, v.elems[i])) {
        PruneReduces(env, s.items.s, v.elems[i]);
      }
    } else {
      ReducedSelf(v);
    }
  }

  lemma {:induction false} PruneByReduces(env: Env, bs: seq<Schema>, v: Json)
    ensures Reduced(v, PruneBy(env, bs, v))
    decreases bs, 1
  {
    if bs == [] {
      ReducedSelf(v);
    } else if Admits(env, bs[0], v) {
      PruneReduces(env, bs[0], v);
    } else {
      PruneByReduces(env, bs[1..], v);
    }
  }

  /** From a value the loose form admits, deleting undeclared members leaves one the strict form admits. */
  lemma {:induction false} PruneRestores(env: Env, s: Schema, v: Json)
    requires Shaped(s) && Admits(env, Loosen(s), v)
    ensures Admits(env, s, Prune(env, Loosen(s), v))
    decreases s, 1
  {
    var l := Loosen(s);
    if IsUnion(s) {
      UnionMeans(env, l, v);
      assert l.anyOf.bs == LoosenAll(s.anyOf.bs);
      var j :| 0 <= j < |l.anyOf.bs| && Admits(env, l.anyOf.bs[j], v);
      assert Admits(env, LoosenAll(s.anyOf.bs)[j], v);
      var i := PruneByRestores(env, s.anyOf.bs, v);
      UnionMeans(env, s, Prune(env, l, v));
    } else if ShapedObject(s) {
      PruneObjectRestores(env, s, v);
    } else if ShapedArray(s) {
      PruneArrayRestores(env, s, v);
    }
  }

  lemma {:induction false} PruneByRestores(env: Env, bs: seq<Schema>, v: Json) returns (i: nat)
    requires forall b :: b in bs ==> Shaped(b)
    requires exists j :: 0 <= j < |bs| && Admits(env, LoosenAll(bs)[j], v)
    ensures i < |bs| && Admits(env, bs[i], PruneBy(env, LoosenAll(bs), v))
    decreases bs, 1
  {
    assert bs[0] in bs;
    var ls := LoosenAll(bs);
    assert ls[0] == Loosen(bs[0]);
    if Admits(env, ls[0], v) {
      PruneRestores(env, bs[0], v);
      i := 0;
    } else {
      assert ls[1..] == LoosenAll(bs[1..]);
      var j :| 0 <= j < |bs| && Admits(env, ls[j], v);
      assert LoosenAll(bs[1..])[j - 1] == ls[j];
      var rest := PruneByRestores(env, bs[1..], v);
      i := rest + 1;
    }
  }

  lemma {:induction false} PruneObjectRestores(env: Env, s: Schema, v: Json)
    requires Shaped(s) && ShapedObject(s) && Admits(env, Loosen(s), v)
    ensures Admits(env, s, Prune(env, Loosen(s), v))
    decreases s, 0
  {
    var l := Loosen(s);
    OnlyObjects(env, l, v);
    var w := Prune(env, l, v);
    forall k | k in w.members ensures Declares(PropsOf(s), k) && Admits(env, Lookup(PropsOf(s), k), w.members[k]) {
      LoosenLookup(s.properties.ps, k);
      MemberAdmitted(env, l, v, k);
      ShapedMember(s, k);
      PruneRestores(env, Lookup(s.properties.ps, k), v.members[k]);
    }
    forall k | k in RequiredOf(s) ensures k in w.members {
      LoosenLookup(s.properties.ps, k);
      RequiredPresent(env, l, v, k);
    }
    assert IsType(TObject, w) && TObject in TypeList(s.types);
    assert MembersOk(env, s, w.members);
  }

  lemma {:induction false} PruneArrayRestores(env: Env, s: Schema, v: Json)
    requires Shaped(s) && ShapedArray(s) && Admits(env, Loosen(s), v)
    ensures Admits(env, s, Prune(env, Loosen(s), v))
    decreases s, 0
  {
    var l, w := Loosen(s), Prune(env, Loosen(s), v);
    assert LeafOk(env, l, v);
    if v.Arr? {
      assert ItemsOk(env, l, v.elems);
      forall i | 0 <= i < |w.elems| ensures Admits(env, s.items.s, w.elems[i]) {
        PruneRestores(env, s.items.s, v.elems[i]);
      }
      ArrayLeaf(env, s, v, w);
    } else {
      assert w == v;
      if v.Obj? { assert MembersOk(env, s, v.members); }
    }
  }

  /** An array node looks at no more of an array than its length. */
  lemma ArrayLeaf(env: Env, s: Schema, v: Json, w: Json)
    requires ShapedArray(s) && v.Arr? && w.Arr? && |v.elems| == |w.elems| && LeafOk(env, Loosen(s), v)
    ensures LeafOk(env, s, w)
  {
    assert forall t :: IsType(t, v) <==> IsType(t, w);
  }

  // ---- The loose reading is the strict reading after pruning -----------------------

  lemma {:induction false} PruneByNone(env: Env, bs: seq<Schema>, v: Json)
    requires forall i :: 0 <= i < |bs| ==> !Admits(env, bs[i], v)
    ensures PruneBy(env, bs, v) == v
    decreases |bs|
  {
    if bs == [] {
    } else {
      assert forall i :: 0 <= i < |bs[1..]| ==> bs[1..][i] == bs[i + 1];
      PruneByNone(env, bs[1..], v);
    }
  }

  /** If pruning leaves a value the strict form admits, the loose form admitted the value. */
  lemma {:induction false} PrunedIsLoose(env: Env, s: Schema, v: Json)
    requires Shaped(s) && Admits(env, s, Prune(env, Loosen(s), v))
    ensures Admits(env, Loosen(s), v)
    decreases s, 1
  {
    var l := Loosen(s);
    if IsUnion(s) {
      UnionMeans(env, l, v);
      if forall i :: 0 <= i < |l.anyOf.bs| ==> !Admits(env, l.anyOf.bs[i], v) {
        PruneByNone(env, l.anyOf.bs, v);
        LoosenWidens(env, s, v);
      }
    } else if ShapedObject(s) && v.Obj? {
      PrunedObjectIsLoose(env, s, v);
    } else if ShapedArray(s) && v.Arr? {
      PrunedArrayIsLoose(env, s, v);
    } else {
      LoosenWidens(env, s, v);
    }
  }

  lemma {:induction false} PrunedObjectIsLoose(env: Env, s: Schema, v: Json)
    requires Shaped(s) && ShapedObject(s) && v.Obj? && Admits(env, s, Prune(env, Loosen(s), v))
    ensures Admits(env, Loosen(s), v)
    decreases s, 0
  {
    var l, w := Loosen(s), Prune(env, Loosen(s), v);
    assert LeafOk(env, s, w) && IsType(TObject, v) && TObject in TypeList(l.types);
    forall k | k in v.members && Declares(l.properties.ps, k)
      ensures Admits(env, Lookup(l.properties.ps, k), v.members[k])
    {
      LoosenLookup(s.properties.ps, k);
      MemberAdmitted(env, s, w, k);
      ShapedMember(s, k);
      PrunedIsLoose(env, Lookup(s.properties.ps, k), v.members[k]);
    }
    assert MembersOk(env, l, v.members);
  }

  lemma {:induction false} PrunedArrayIsLoose(env: Env, s: Schema, v: Json)
    requires Shaped(s) && ShapedArray(s) && v.Arr? && Admits(env, s, Prune(env, Loosen(s), v))
    ensures Admits(env, Loosen(s), v)
    decreases s, 0
  {
    var l, w := Loosen(s), Prune(env, Loosen(s), v);
    assert LeafOk(env, s, w) && ItemsOk(env, s, w.elems);
    forall i | 0 <= i < |v.elems| ensures Admits(env, l.items.s, v.elems[i]) {
      assert w.elems[i] == Prune(env, l.items.s, v.elems[i]) && l.items.s == Loosen(s.items.s);
      PrunedIsLoose(env, s.items.s, v.elems[i]);
    }
    assert forall t :: IsType(t, v) <==> IsType(t, w);
  }

  // ---- Deleting nothing that is declared ------------------------------------------

  /** A value both branches read is one the earlier, loose, does not prune. */
  ghost predicate Harmless(env: Env, a: Schema, b: Schema) {
    forall v :: Admits(env, Loosen(a), v) && Admits(env, b, v) ==> Prune(env, Loosen(a), v) == v
  }

  ghost predicate Apart(env: Env, bs: seq<Schema>) {
    forall i, j :: 0 <= i < j < |bs| ==> Harmless(env, bs[i], bs[j])
  }

  lemma ApartTail(env: Env, bs: seq<Schema>)
    requires Apart(env, bs) && bs != []
    ensures Apart(env, bs[1..])
  {
    forall i, j | 0 <= i < j < |bs[1..]| ensures Harmless(env, bs[1..][i], bs[1..][j]) {
      assert bs[1..][i] == bs[i + 1] && bs[1..][j] == bs[j + 1];
    }
  }

  /** Every union of the schema, at every depth, keeps its branches apart. */
  ghost predicate Determinate(env: Env, s: Schema)
    decreases s
  {
    if s.Truth? || s.Imported? then true
    else
      && (s.anyOf.Branches? ==>
            && (forall b :: b in s.anyOf.bs ==> Determinate(env, b))
            && Apart(env, s.anyOf.bs))
      && (s.properties.Props? ==> forall p :: p in s.properties.ps ==> Determinate(env, p.sub))
      && (s.items.Sub? ==> Determinate(env, s.items.s))
  }

  /** Object branches that pass rule R4 read no value twice, loose or strict. */
  lemma DiscriminatedIsDeterminate(env: Env, bs: seq<Schema>, k: string, i: nat, j: nat, v: Json)
    requires Discriminates(bs, k, AnyTag) && i < |bs| && j < |bs| && i != j
    ensures !(Admits(env, Loosen(bs[i]), v) && Admits(env, bs[j], v))
  {
    if Admits(env, Loosen(bs[i]), v) && Admits(env, bs[j], v) {
      LoosenTag(bs[i], k);
      TagPinned(env, Loosen(bs[i]), k, AnyTag, v);
      TagPinned(env, bs[j], k, AnyTag, v);
    }
  }

  lemma LoosenTag(b: Schema, k: string)
    requires Tags(b, k, AnyTag)
    ensures Tags(Loosen(b), k, AnyTag) && TagOf(Loosen(b), k, AnyTag) == TagOf(b, k, AnyTag)
  {
    LoosenLookup(b.properties.ps, k);
  }

  function ObjectBranches(bs: seq<Schema>): seq<Schema> {
    if bs == [] then []
    else (if IsObjectBranch(bs[0]) then [bs[0]] else []) + ObjectBranches(bs[1..])
  }

  /** The leaf branches of a branch, nested unions flattened. */
  function LeavesOf(b: Schema): seq<Schema>
    decreases b, 0
  {
    if b.Node? && b.anyOf.Branches? then Leaves(b.anyOf.bs) else [b]
  }

  function Leaves(bs: seq<Schema>): seq<Schema>
    decreases bs, 1
  {
    if bs == [] then [] else LeavesOf(bs[0]) + Leaves(bs[1..])
  }

  /** Nothing inside it has members to prune. */
  predicate ObjectFree(s: Schema)
    decreases s
  {
    s.Node? ==>
      && s.properties.NoProps?
      && (s.items.Sub? ==> ObjectFree(s.items.s))
      && (s.anyOf.Branches? ==> forall b :: b in s.anyOf.bs ==> ObjectFree(b))
  }

  /** The schema names its types, and this is none of them. */
  predicate Lacks(b: Schema, t: TypeName) {
    b.Node? && !b.types.NoType? && t !in TypeList(b.types)
  }

  /** An earlier leaf cannot prune what a later one reads, given that object leaves are discriminated. */
  predicate Tells(a: Schema, b: Schema) {
    || ObjectFree(a)
    || (IsObjectBranch(a) && (IsObjectBranch(b) || Lacks(b, TObject)))
    || (ShapedArray(a) && Lacks(b, TArray))
  }

  /** The flattened branches pass R4, and what R4 does not look at is told apart by type. */
  predicate LeavesTold(ls: seq<Schema>) {
    && (forall i, j :: 0 <= i < j < |ls| ==> Tells(ls[i], ls[j]))
    && (|ObjectBranches(ls)| > 1 ==> FindTag(ObjectBranches(ls), AnyTag).Some?)
  }

  /** Every union of the schema, its nested unions flattened, has its leaves told apart. */
  predicate UnionsTold(s: Schema)
    decreases s
  {
    if s.Truth? || s.Imported? then true
    else
      && (s.anyOf.Branches? ==> LeavesTold(Leaves(s.anyOf.bs)) && forall b :: b in s.anyOf.bs ==> UnionsTold(b))
      && (s.properties.Props? ==> forall p :: p in s.properties.ps ==> UnionsTold(p.sub))
      && (s.items.Sub? ==> UnionsTold(s.items.s))
  }

  /** Leaves of two branches are two places in the flattened list. */
  lemma {:induction false} LeavesApart(bs: seq<Schema>, i: nat, m: nat, j: nat, n: nat) returns (p: nat, q: nat)
    requires i < j < |bs| && m < |LeavesOf(bs[i])| && n < |LeavesOf(bs[j])|
    ensures p < q < |Leaves(bs)| && Leaves(bs)[p] == LeavesOf(bs[i])[m] && Leaves(bs)[q] == LeavesOf(bs[j])[n]
    decreases |bs|
  {
    var first := LeavesOf(bs[0]);
    if i == 0 {
      q := LeafAt(bs[1..], j - 1, n);
      p, q := m, |first| + q;
    } else {
      p, q := LeavesApart(bs[1..], i - 1, m, j - 1, n);
      p, q := |first| + p, |first| + q;
    }
  }

  lemma {:induction false} LeafAt(bs: seq<Schema>, j: nat, n: nat) returns (q: nat)
    requires j < |bs| && n < |LeavesOf(bs[j])|
    ensures q < |Leaves(bs)| && Leaves(bs)[q] == LeavesOf(bs[j])[n]
    decreases |bs|
  {
    if j == 0 {
      q := n;
    } else {
      q := LeafAt(bs[1..], j - 1, n);
      q := |LeavesOf(bs[0])| + q;
    }
  }

  /** What a branch admits, one of its leaves admits. */
  lemma {:induction false} StrictLeaf(env: Env, b: Schema, v: Json) returns (n: nat)
    requires Shaped(b) && Admits(env, b, v)
    ensures n < |LeavesOf(b)| && Admits(env, LeavesOf(b)[n], v)
    decreases b
  {
    if IsUnion(b) {
      UnionMeans(env, b, v);
      var j :| 0 <= j < |b.anyOf.bs| && Admits(env, b.anyOf.bs[j], v);
      var m := StrictLeaf(env, b.anyOf.bs[j], v);
      n := LeafAt(b.anyOf.bs, j, m);
    } else {
      n := 0;
    }
  }

  /** A loose branch prunes as the first of its leaves that reads the value. */
  lemma {:induction false} LooseLeaf(env: Env, b: Schema, v: Json) returns (m: nat)
    requires Shaped(b) && Admits(env, Loosen(b), v)
    ensures m < |LeavesOf(b)| && Admits(env, Loosen(LeavesOf(b)[m]), v)
    ensures Prune(env, Loosen(b), v) == Prune(env, Loosen(LeavesOf(b)[m]), v)
    decreases b, 0
  {
    if IsUnion(b) {
      var l := Loosen(b);
      assert l == Any.(anyOf := Branches(LoosenAll(b.anyOf.bs)));
      UnionMeans(env, l, v);
      m := LooseLeafAmong(env, b.anyOf.bs, v);
    } else {
      m := 0;
    }
  }

  lemma {:induction false} LooseLeafAmong(env: Env, bs: seq<Schema>, v: Json) returns (m: nat)
    requires forall b :: b in bs ==> Shaped(b)
    requires exists i :: 0 <= i < |bs| && Admits(env, LoosenAll(bs)[i], v)
    ensures m < |Leaves(bs)| && Admits(env, Loosen(Leaves(bs)[m]), v)
    ensures PruneBy(env, LoosenAll(bs), v) == Prune(env, Loosen(Leaves(bs)[m]), v)
    decreases bs, 1
  {
    var ls := LoosenAll(bs);
    assert ls[0] == Loosen(bs[0]) && bs[0] in bs;
    if Admits(env, ls[0], v) {
      m := LooseLeaf(env, bs[0], v);
    } else {
      assert ls[1..] == LoosenAll(bs[1..]);
      var i :| 0 <= i < |bs| && Admits(env, ls[i], v);
      assert LoosenAll(bs[1..])[i - 1] == ls[i];
      m := LooseLeafAmong(env, bs[1..], v);
      m := |LeavesOf(bs[0])| + m;
    }
  }

  lemma {:induction false} ObjectFreeFixed(env: Env, s: Schema, v: Json)
    requires ObjectFree(s)
    ensures Prune(env, Loosen(s), v) == v
    decreases s, 0
  {
    if s.Node? {
      if s.anyOf.Branches? {
        ObjectFreeAllFixed(env, s.anyOf.bs, v);
      } else if s.items.Sub? && v.Arr? {
        forall i | 0 <= i < |v.elems| ensures Prune(env, Loosen(s.items.s), v.elems[i]) == v.elems[i] {
          ObjectFreeFixed(env, s.items.s, v.elems[i]);
        }
        assert Prune(env, Loosen(s), v).elems == v.elems;
      }
    }
  }

  lemma {:induction false} ObjectFreeAllFixed(env: Env, bs: seq<Schema>, v: Json)
    requires forall b :: b in bs ==> ObjectFree(b)
    ensures PruneBy(env, LoosenAll(bs), v) == v
    decreases bs, 1
  {
    if bs == [] {
    } else {
      assert bs[0] in bs && LoosenAll(bs)[0] == Loosen(bs[0]) && LoosenAll(bs)[1..] == LoosenAll(bs[1..]);
      ObjectFreeFixed(env, bs[0], v);
      ObjectFreeAllFixed(env, bs[1..], v);
    }
  }

  /** Two object branches of a list are two places in the filtered list. */
  lemma {:induction false} FilteredApart(bs: seq<Schema>, i: nat, j: nat) returns (m: nat, n: nat)
    requires i < j < |bs| && IsObjectBranch(bs[i]) && IsObjectBranch(bs[j])
    ensures m < n < |ObjectBranches(bs)| && ObjectBranches(bs)[m] == bs[i] && ObjectBranches(bs)[n] == bs[j]
    decreases |bs|
  {
    var rest := ObjectBranches(bs[1..]);
    if i == 0 {
      n := Filtered(bs[1..], j - 1);
      assert ObjectBranches(bs) == [bs[0]] + rest;
      m, n := 0, n + 1;
    } else {
      m, n := FilteredApart(bs[1..], i - 1, j - 1);
      if IsObjectBranch(bs[0]) {
        assert ObjectBranches(bs) == [bs[0]] + rest;
        m, n := m + 1, n + 1;
      } else {
        assert ObjectBranches(bs) == rest;
      }
    }
  }

  lemma {:induction false} Filtered(bs: seq<Schema>, i: nat) returns (m: nat)
    requires i < |bs| && IsObjectBranch(bs[i])
    ensures m < |ObjectBranches(bs)| && ObjectBranches(bs)[m] == bs[i]
    decreases |bs|
  {
    var rest := ObjectBranches(bs[1..]);
    if i == 0 {
      assert ObjectBranches(bs) == [bs[0]] + rest;
      m := 0;
    } else {
      m := Filtered(bs[1..], i - 1);
      if IsObjectBranch(bs[0]) {
        assert ObjectBranches(bs) == [bs[0]] + rest;
        m := m + 1;
      } else {
        assert ObjectBranches(bs) == rest;
      }
    }
  }

  lemma LooseBranchTakesObjects(env: Env, b: Schema, v: Json)
    requires IsObjectBranch(b) && Admits(env, Loosen(b), v)
    ensures v.Obj?
  {
    OnlyObjects(env, Loosen(b), v);
  }

  lemma LacksRefuses(env: Env, b: Schema, t: TypeName, v: Json)
    requires Lacks(b, t) && ((t.TObject? && v.Obj?) || (t.TArray? && v.Arr?))
    ensures !Admits(env, b, v)
  {
    assert !TypeOk(b.types, v);
  }

  /** The argument at two leaves. */
  lemma ToldLeavesFixed(env: Env, ls: seq<Schema>, p: nat, q: nat, v: Json)
    requires LeavesTold(ls) && p < q < |ls| && Admits(env, Loosen(ls[p]), v) && Admits(env, ls[q], v)
    ensures Prune(env, Loosen(ls[p]), v) == v
  {
    var a, b := ls[p], ls[q];
    assert Tells(a, b);
    if ObjectFree(a) {
      ObjectFreeFixed(env, a, v);
    } else if IsObjectBranch(a) {
      LooseBranchTakesObjects(env, a, v);
      if IsObjectBranch(b) {
        var m, n := FilteredApart(ls, p, q);
        var os := ObjectBranches(ls);
        DiscriminatedIsDeterminate(env, os, FindTag(os, AnyTag).value, m, n, v);
      } else {
        LacksRefuses(env, b, TObject, v);
      }
    } else if v.Arr? {
      LacksRefuses(env, b, TArray, v);
    }
  }

  /** The emitter's check on unions is what keeps the loose reading determinate. */
  lemma {:induction false} ToldIsDeterminate(env: Env, s: Schema)
    requires Shaped(s) && UnionsTold(s)
    ensures Determinate(env, s)
    decreases s
  {
    if IsUnion(s) {
      forall b | b in s.anyOf.bs ensures Determinate(env, b) { ToldIsDeterminate(env, b); }
      ToldApart(env, s.anyOf.bs);
    } else if ShapedObject(s) {
      forall p | p in s.properties.ps ensures Determinate(env, p.sub) { ToldIsDeterminate(env, p.sub); }
    } else if ShapedArray(s) {
      ToldIsDeterminate(env, s.items.s);
    }
  }

  lemma ToldPairFixed(env: Env, bs: seq<Schema>, i: nat, j: nat, v: Json)
    requires LeavesTold(Leaves(bs)) && i < j < |bs| && Shaped(bs[i]) && Shaped(bs[j])
    requires Admits(env, Loosen(bs[i]), v) && Admits(env, bs[j], v)
    ensures Prune(env, Loosen(bs[i]), v) == v
  {
    var m := LooseLeaf(env, bs[i], v);
    var n := StrictLeaf(env, bs[j], v);
    var p, q := LeavesApart(bs, i, m, j, n);
    ToldLeavesFixed(env, Leaves(bs), p, q, v);
  }

  lemma ToldApart(env: Env, bs: seq<Schema>)
    requires LeavesTold(Leaves(bs)) && forall b :: b in bs ==> Shaped(b)
    ensures Apart(env, bs)
  {
    forall i, j | 0 <= i < j < |bs| ensures Harmless(env, bs[i], bs[j]) {
      forall v | Admits(env, Loosen(bs[i]), v) && Admits(env, bs[j], v)
        ensures Prune(env, Loosen(bs[i]), v) == v
      {
        ToldPairFixed(env, bs, i, j, v);
      }
    }
  }

  /** Pruning deletes nothing from a value the strict form admits. */
  lemma {:induction false} PruneFixesStrict(env: Env, s: Schema, v: Json)
    requires Shaped(s) && Determinate(env, s) && Admits(env, s, v)
    ensures Prune(env, Loosen(s), v) == v
    decreases s, 1
  {
    var l := Loosen(s);
    if IsUnion(s) {
      UnionMeans(env, s, v);
      var j :| 0 <= j < |s.anyOf.bs| && Admits(env, s.anyOf.bs[j], v);
      PruneByFixes(env, s.anyOf.bs, v, j);
    } else if ShapedObject(s) {
      PruneFixesObject(env, s, v);
    } else if ShapedArray(s) && v.Arr? {
      assert ItemsOk(env, s, v.elems);
      forall i | 0 <= i < |v.elems| ensures Prune(env, l.items.s, v.elems[i]) == v.elems[i] {
        PruneFixesStrict(env, s.items.s, v.elems[i]);
      }
      assert Prune(env, l, v).elems == v.elems;
    }
  }

  lemma {:induction false} PruneFixesObject(env: Env, s: Schema, v: Json)
    requires Shaped(s) && ShapedObject(s) && Determinate(env, s) && Admits(env, s, v)
    ensures Prune(env, Loosen(s), v) == v
    decreases s, 0
  {
    OnlyObjects(env, s, v);
    var ls := LoosenProps(s.properties.ps);
    forall k | k in v.members ensures Declares(ls, k) && Prune(env, Lookup(ls, k), v.members[k]) == v.members[k] {
      PruneFixesMember(env, s, v, k);
    }
    PruneOfFixed(env, Loosen(s), v);
  }

  lemma {:induction false} PruneFixesMember(env: Env, s: Schema, v: Json, k: string)
    requires Shaped(s) && ShapedObject(s) && Determinate(env, s)
    requires v.Obj? && k in v.members && Admits(env, s, v)
    ensures var ls := LoosenProps(s.properties.ps);
      Declares(ls, k) && Prune(env, Lookup(ls, k), v.members[k]) == v.members[k]
    decreases s, 0, 0
  {
    MemberAdmitted(env, s, v, k);
    LoosenLookup(s.properties.ps, k);
    ShapedMember(s, k);
    DeterminateMember(env, s, k);
    PruneFixesStrict(env, Lookup(s.properties.ps, k), v.members[k]);
  }

  lemma PruneOfFixed(env: Env, l: Schema, v: Json)
    requires l.Node? && l.properties.Props? && l.anyOf.NoBranches? && v.Obj?
    requires forall k :: k in v.members ==>
      Declares(l.properties.ps, k) && Prune(env, Lookup(l.properties.ps, k), v.members[k]) == v.members[k]
    ensures Prune(env, l, v) == v
  {
    assert Prune(env, l, v).members == v.members;
  }

  lemma DeterminateMember(env: Env, s: Schema, k: string)
    requires s.Node? && s.properties.Props? && Determinate(env, s) && Declares(s.properties.ps, k)
    ensures Determinate(env, Lookup(s.properties.ps, k))
  {
    var i :| 0 <= i < |s.properties.ps| && s.properties.ps[i] == Prop(k, Lookup(s.properties.ps, k));
    assert s.properties.ps[i] in s.properties.ps;
  }

  lemma {:induction false} PruneByFixes(env: Env, bs: seq<Schema>, v: Json, j: nat)
    requires forall b :: b in bs ==> Shaped(b) && Determinate(env, b)
    requires Apart(env, bs) && j < |bs| && Admits(env, bs[j], v)
    ensures PruneBy(env, LoosenAll(bs), v) == v
    decreases bs, 2
  {
    assert bs[0] in bs;
    if j == 0 {
      LoosenWidens(env, bs[0], v);
      PruneFixesStrict(env, bs[0], v);
    } else if Admits(env, Loosen(bs[0]), v) {
      assert Harmless(env, bs[0], bs[j]);
    } else {
      assert bs[1..][j - 1] == bs[j] && forall b :: b in bs[1..] ==> b in bs;
      ApartTail(env, bs);
      PruneByFixes(env, bs[1..], v, j - 1);
    }
    PruneByFirst(env, bs, v);
  }

  /** One step of the choice among loose branches. */
  lemma PruneByFirst(env: Env, bs: seq<Schema>, v: Json)
    requires bs != []
    ensures PruneBy(env, LoosenAll(bs), v) ==
      if Admits(env, Loosen(bs[0]), v) then Prune(env, Loosen(bs[0]), v) else PruneBy(env, LoosenAll(bs[1..]), v)
  {
    var ls := LoosenAll(bs);
    assert ls[0] == Loosen(bs[0]) && ls[1..] == LoosenAll(bs[1..]);
  }

  /** Where unions are determinate the strict form is exactly the loose form on values pruning leaves alone. */
  lemma StrictIsLooseUnpruned(env: Env, s: Schema, v: Json)
    requires Shaped(s) && Determinate(env, s)
    ensures Admits(env, s, v) <==> Admits(env, Loosen(s), v) && Prune(env, Loosen(s), v) == v
  {
    if Admits(env, s, v) {
      LoosenWidens(env, s, v);
      PruneFixesStrict(env, s, v);
    } else if Admits(env, Loosen(s), v) {
      PruneRestores(env, s, v);
    }
  }

  /** So for an enforced schema whose unions are told apart, strict is exactly loose with nothing to prune. */
  lemma StrictIsLooseForToldUnions(env: Env, rust: Schema, base: Schema, table: Table, v: Json)
    requires Prepare.Prepare(rust) == Ok(base) && ApplyAsymmetries(base, table, false).Ok?
    requires UnionsTold(ApplyAsymmetries(base, table, false).value)
    ensures ApplyAsymmetries(base, table, true).Ok?
    ensures var loose := ApplyAsymmetries(base, table, true).value;
      Admits(env, ApplyAsymmetries(base, table, false).value, v) <==>
        Admits(env, loose, v) && Prune(env, loose, v) == v
  {
    PreparedIsCanonical(rust, base);
    LooseVisit(base, "$", table);
    var strict := Visit(base, "$", table, false).value;
    VisitShaped(base, "$", table, strict);
    ToldIsDeterminate(env, strict.schema);
    StrictIsLooseUnpruned(env, strict.schema, v);
  }

  const BareObject: Schema := Any.(types := One(TObject), properties := Props([]), additional := Closed)
  const BareUnion: Schema := Any.(anyOf := Branches([BareObject, Any]))

  /** The generators take the union as it stands. */
  lemma BareUnionPrepares()
    ensures Prepare.Prepare(BareUnion) == Ok(BareUnion)
  {
    var bs := [BareObject, Any];
    assert TypeList(BareObject.types) == [TObject] && TypeList(Any.types) == [];
    assert PrepareProps([]) == Ok([]);
    assert Prepare.Prepare(BareObject) == Ok(BareObject);
    assert Prepare.Prepare(Any) == Ok(Any);
    assert bs[1..] == [Any] && [Any][1..] == [];
    assert PrepareAll([Any]) == Ok([Any] + []) && [Any] + [] == [Any];
    assert PrepareAll(bs) == Ok([BareObject] + [Any]) && [BareObject] + [Any] == bs;
  }

  lemma BareUnionVisits()
    ensures Visit(BareUnion, "$", map[], false) == Ok(Visited(BareUnion, {}))
  {
    var bs, t: Table := [BareObject, Any], map[];
    assert Visit(BareObject, AnyPath("$", 0), t, false) == Ok(Visited(BareObject, {}));
    assert Visit(Any, AnyPath("$", 1), t, false) == Ok(Visited(Any, {}));
    assert bs[1..] == [Any] && [Any][1..] == [];
    assert VisitAll([Any], 1, "$", t, false) == Ok(VisitedAll([Any] + [], {})) && [Any] + [] == [Any];
    assert VisitAll(bs, 0, "$", t, false) == Ok(VisitedAll([BareObject] + [Any], {}));
    assert [BareObject] + [Any] == bs;
  }

  /** R4 alone would not do: beside one object, an untyped branch takes objects that the loose reading prunes. */
  lemma UntypedBranchPrunes(env: Env) returns (s: Schema, v: Json)
    ensures Prepare.Prepare(s) == Ok(s) && ApplyAsymmetries(s, map[], false) == Ok(s)
    ensures IsUnion(s) && |ObjectBranches(Leaves(s.anyOf.bs))| == 1
    ensures ApplyAsymmetries(s, map[], true).Ok?
    ensures var loose := ApplyAsymmetries(s, map[], true).value;
      Admits(env, s, v) && Admits(env, loose, v) && Prune(env, loose, v) != v
  {
    s, v := BareUnion, Obj(map["x" := Null]);
    BareUnionPrepares();
    BareUnionVisits();
    LooseVisit(s, "$", map[]);
    BareLeaves();
    BareUnionPrunes(env, v);
  }

  lemma BareLeaves()
    ensures |ObjectBranches(Leaves([BareObject, Any]))| == 1
  {
    var bs := [BareObject, Any];
    assert bs[1..] == [Any] && [Any][1..] == [] && Leaves([Any]) == [Any] + [];
    assert Leaves(bs) == [BareObject] + [Any] && ([BareObject] + [Any])[1..] == [Any];
    assert ObjectBranches([Any]) == [] + [];
  }

  lemma BareUnionPrunes(env: Env, v: Json)
    requires v == Obj(map["x" := Null])
    ensures Admits(env, BareUnion, v) && Admits(env, Loosen(BareUnion), v) && Prune(env, Loosen(BareUnion), v) != v
  {
    var bs := [BareObject, Any];
    assert Admits(env, bs[1], v);
    UnionMeans(env, BareUnion, v);
    assert ShapedObject(BareObject) && ShapedLeaf(Any);
    LoosenWidens(env, BareUnion, v);
    var l := Loosen(BareObject);
    assert l.properties.ps == [] && IsType(TObject, v) && TObject in TypeList(l.types);
    assert Admits(env, l, v) by { assert MembersOk(env, l, v.members); }
    PruneByFirst(env, bs, v);
    assert "x" !in Prune(env, l, v).members;
  }

  // ---- The theorem over the pipeline ----------------------------------------------

  /**
   For every prepared schema and every table, the loose pass succeeds exactly when the strict one does, admits all
   that it admits, and admits a value exactly when the strict one admits what pruning leaves of it.
   */
  lemma LooseNeverLax(env: Env, rust: Schema, base: Schema, table: Table, v: Json)
    requires Prepare.Prepare(rust) == Ok(base)
    ensures var strict, loose := ApplyAsymmetries(base, table, false), ApplyAsymmetries(base, table, true);
      && strict.Ok? == loose.Ok?
      && (strict.Ok? ==>
            && (Admits(env, strict.value, v) ==> Admits(env, loose.value, v))
            && Reduced(v, Prune(env, loose.value, v))
            && (Admits(env, loose.value, v) <==> Admits(env, strict.value, Prune(env, loose.value, v))))
  {
    PreparedIsCanonical(rust, base);
    LooseVisit(base, "$", table);
    var visited := Visit(base, "$", table, false);
    if visited.Ok? {
      var strict := visited.value.schema;
      VisitShaped(base, "$", table, visited.value);
      if Admits(env, strict, v) { LoosenWidens(env, strict, v); }
      PruneReduces(env, Loosen(strict), v);
      if Admits(env, Loosen(strict), v) { PruneRestores(env, strict, v); }
      if Admits(env, strict, Prune(env, Loosen(strict), v)) { PrunedIsLoose(env, strict, v); }
    }
  }
}
