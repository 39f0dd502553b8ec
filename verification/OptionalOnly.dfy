/**
 The reader rule `optional-only` by itself. `Reads` says it of a prepared schema and a value, without a table and
 without building a schema: an optional member is never read through its null arm, everything else is read as it
 stands. The pass without a table never refuses, and the validator it emits admits exactly what `Reads` allows.
 */
module OptionalOnly {
  import opened Wrappers
  import opened Schemas
  import opened Prepare
  import opened Asymmetry
  import opened Narrowing
  import opened Demanded

  ghost predicate Reads(env: Env, s: Schema, v: Json)
    decreases s, 1
  {
    if !s.Node? then Admits(env, s, v)
    else
      && LeafOk(env, s, v)
      && (v.Arr? && s.items.Sub? ==> forall i :: 0 <= i < |v.elems| ==> Reads(env, s.items.s, v.elems[i]))
      && (v.Obj? ==> forall k :: k in v.members ==> ReadsMember(env, s, k, v.members[k]))
      && (s.anyOf.Branches? ==> exists i :: 0 <= i < |s.anyOf.bs| && Reads(env, s.anyOf.bs[i], v))
  }

  ghost predicate ReadsMember(env: Env, s: Schema, k: string, v: Json)
    requires s.Node?
    decreases s, 0
  {
    if Declares(PropsOf(s), k) then ReadsField(env, Lookup(PropsOf(s), k), k in RequiredOf(s), v)
    else s.additional.Sub? ==> Admits(env, s.additional.s, v)
  }

  /** A required property as it stands, an optional one beside its null arm. */
  ghost predicate ReadsField(env: Env, s: Schema, required: bool, v: Json)
    decreases s, 3
  {
    if required then Reads(env, s, v) else ReadsBesideNull(env, s, v)
  }

  ghost predicate ReadsBesideNull(env: Env, s: Schema, v: Json)
    decreases s, 2
  {
    if s.Node? && s.types.Many? && TNull in s.types.ts then Reads(env, s, v) && v != Null
    else if s.Node? && s.anyOf.Branches? then
      exists i :: 0 <= i < |s.anyOf.bs| && !IsNullBranch(s.anyOf.bs[i]) && Reads(env, s.anyOf.bs[i], v)
    else Reads(env, s, v)
  }

  // ---- Dropping the null arm reads beside it ----------------------------------------

  lemma UnionReads(env: Env, s: Schema, v: Json)
    requires IsUnion(s)
    ensures Reads(env, s, v) <==> exists i :: 0 <= i < |s.anyOf.bs| && Reads(env, s.anyOf.bs[i], v)
  {
    if v.Obj? { assert forall k :: k in v.members ==> ReadsMember(env, s, k, v.members[k]); }
  }

  lemma DroppedReads(env: Env, s: Schema, v: Json)
    requires Canonical(s)
    ensures Reads(env, DropNullArm(s), v) <==> ReadsBesideNull(env, s, v)
  {
    if s.types.Many? && TNull in s.types.ts {
      DroppedTypeCanonical(s);
      DroppedTypes(s);
      DroppedTypeOk(s, v);
      RetypedReads(env, s, DropNullArm(s), v);
    } else if s.anyOf.Branches? {
      DroppedBranchReads(env, s, v);
    }
  }

  lemma RetypedReads(env: Env, s: Schema, d: Schema, v: Json)
    requires (IsArray(s) || IsScalar(s)) && d.Node? && d == s.(types := d.types)
    requires TypeOk(d.types, v) <==> TypeOk(s.types, v) && v != Null
    ensures Reads(env, d, v) <==> Reads(env, s, v) && v != Null
  {
    if v.Obj? {
      assert forall k :: k in v.members ==>
        ReadsMember(env, s, k, v.members[k]) && ReadsMember(env, d, k, v.members[k]);
    }
  }

  /** What dropping the null branches leaves: the union of the others, or the one other by itself. */
  lemma DroppedUnion(s: Schema)
    requires IsUnion(s)
    ensures var rest := NonNullBranches(s.anyOf.bs);
      DropNullArm(s) == Any.(anyOf := Branches(rest)) || rest == [DropNullArm(s)]
  {
    var rest := NonNullBranches(s.anyOf.bs);
    if |rest| == |s.anyOf.bs| { NothingDropped(s.anyOf.bs); }
  }

  lemma LeftReads(env: Env, rest: seq<Schema>, d: Schema, v: Json)
    requires d == Any.(anyOf := Branches(rest)) || rest == [d]
    ensures Reads(env, d, v) <==> exists i :: 0 <= i < |rest| && Reads(env, rest[i], v)
  {
    if rest == [d] {
      assert rest[0] == d;
    } else {
      UnionReads(env, d, v);
    }
  }

  lemma DroppedBranchReads(env: Env, s: Schema, v: Json)
    requires IsUnion(s)
    ensures Reads(env, DropNullArm(s), v) <==> ReadsBesideNull(env, s, v)
  {
    var rest := NonNullBranches(s.anyOf.bs);
    DroppedUnion(s);
    LeftReads(env, rest, DropNullArm(s), v);
    KeptReads(env, s.anyOf.bs, rest, v);
  }

  lemma KeptReads(env: Env, bs: seq<Schema>, rest: seq<Schema>, v: Json)
    requires rest == NonNullBranches(bs)
    ensures (exists i :: 0 <= i < |rest| && Reads(env, rest[i], v)) <==>
      exists i :: 0 <= i < |bs| && !IsNullBranch(bs[i]) && Reads(env, bs[i], v)
  {
    if i :| 0 <= i < |rest| && Reads(env, rest[i], v) {
      assert rest[i] in rest && rest[i] in bs;
    }
    if i :| 0 <= i < |bs| && !IsNullBranch(bs[i]) && Reads(env, bs[i], v) {
      assert bs[i] in rest;
    }
  }

  // ---- The demands without a table --------------------------------------------------

  lemma {:induction false} DemandsReads(env: Env, s: Schema, path: string, v: Json)
    requires Canonical(s)
    ensures Demands(env, s, path, map[], v) <==> Reads(env, s, v)
    decreases Height(s), 0, 1
  {
    if IsUnion(s) {
      SomeReads(env, s.anyOf.bs, 0, path, v);
      UnionReads(env, s, v);
      if v.Obj? { assert forall k :: k in v.members ==> DemandsMember(env, s, path, map[], k, v.members[k]); }
    } else if IsObject(s) {
      if v.Obj? {
        forall k | k in v.members
          ensures DemandsMember(env, s, path, map[], k, v.members[k]) <==> ReadsMember(env, s, k, v.members[k])
        {
          FieldReads(env, s.properties.ps, RequiredOf(s), path, k, v.members[k]);
        }
      }
    } else if IsArray(s) {
      ArrayReads(env, s, path, v);
    } else {
      ScalarReads(env, s, path, v);
    }
  }

  lemma ScalarReads(env: Env, s: Schema, path: string, v: Json)
    requires IsScalar(s)
    ensures Demands(env, s, path, map[], v) <==> Reads(env, s, v)
  {
    if v.Obj? {
      forall k | k in v.members
        ensures DemandsMember(env, s, path, map[], k, v.members[k]) && ReadsMember(env, s, k, v.members[k])
      {
        assert PropsOf(s) == [];
      }
    }
  }

  lemma {:induction false} ArrayReads(env: Env, s: Schema, path: string, v: Json)
    requires IsArray(s) && Canonical(s)
    ensures Demands(env, s, path, map[], v) <==> Reads(env, s, v)
    decreases Height(s), 0, 0
  {
    if v.Obj? {
      forall k | k in v.members
        ensures DemandsMember(env, s, path, map[], k, v.members[k]) && ReadsMember(env, s, k, v.members[k])
      {
        assert PropsOf(s) == [];
      }
    } else if v.Arr? {
      forall i | 0 <= i < |v.elems|
        ensures DemandsItem(env, s, path, map[], v.elems[i]) <==> Reads(env, s.items.s, v.elems[i])
      {
        DemandsReads(env, s.items.s, ItemsPath(path), v.elems[i]);
      }
    }
  }

  lemma {:induction false} FieldReads(env: Env, ps: seq<Prop>, required: seq<string>, path: string, k: string, v: Json)
    requires forall p :: p in ps ==> Canonical(p.sub)
    ensures Declares(ps, k) ==>
      (DemandsField(env, ps, required, path, map[], k, v) <==> ReadsField(env, Lookup(ps, k), k in required, v))
    decreases HeightOfProps(ps), 1, |ps|
  {
    if ps == [] {
    } else if ps[0].name == k {
      assert ps[0] in ps;
      DropNullCanonical(ps[0].sub);
      DroppedHeight(ps[0].sub);
      DemandsReads(env, Field(ps[0], required), PropPath(path, k), v);
      DroppedReads(env, ps[0].sub, v);
    } else {
      Headed(ps, k);
      FieldReads(env, ps[1..], required, path, k, v);
    }
  }

  lemma {:induction false} SomeReads(env: Env, bs: seq<Schema>, n: nat, path: string, v: Json)
    requires forall b :: b in bs ==> Canonical(b)
    ensures DemandsSome(env, bs, n, path, map[], v) <==> exists i :: 0 <= i < |bs| && Reads(env, bs[i], v)
    decreases HeightOfAll(bs), 1, |bs|
  {
    if bs == [] {
    } else {
      assert bs[0] in bs;
      DemandsReads(env, bs[0], AnyPath(path, n), v);
      SomeReads(env, bs[1..], n + 1, path, v);
      if i :| 0 <= i < |bs| && Reads(env, bs[i], v) { assert i > 0 ==> bs[1..][i - 1] == bs[i]; }
      if i :| 0 <= i < |bs[1..]| && Reads(env, bs[1..][i], v) { assert bs[i + 1] == bs[1..][i]; }
    }
  }

  // ---- The pass without a table -----------------------------------------------------

  lemma {:induction false} NoEntryVisits(s: Schema, path: string, loose: bool)
    ensures Visit(s, path, map[], loose).Ok? && Visit(s, path, map[], loose).value.consumed == {}
    decreases Height(s), 0, 0
  {
    if s.Node? {
      if s.properties.Props? { NoEntryProps(s.properties.ps, RequiredOf(s), path, loose); }
      if s.items.Sub? && !s.items.s.Truth? { NoEntryVisits(s.items.s, ItemsPath(path), loose); }
      if s.anyOf.Branches? { NoEntryAll(s.anyOf.bs, 0, path, loose); }
    }
  }

  lemma {:induction false} NoEntryProps(ps: seq<Prop>, required: seq<string>, path: string, loose: bool)
    ensures var r := VisitProps(ps, required, path, map[], loose); r.Ok? && r.value.consumed == {}
    decreases HeightOfProps(ps), 1, |ps|
  {
    if ps == [] {
    } else {
      DroppedHeight(ps[0].sub);
      NoEntryVisits(Field(ps[0], required), PropPath(path, ps[0].name), loose);
      NoEntryProps(ps[1..], required, path, loose);
    }
  }

  lemma {:induction false} NoEntryAll(bs: seq<Schema>, n: nat, path: string, loose: bool)
    ensures var r := VisitAll(bs, n, path, map[], loose); r.Ok? && r.value.consumed == {}
    decreases HeightOfAll(bs), 1, |bs|
  {
    if bs == [] {
    } else {
      NoEntryVisits(bs[0], AnyPath(path, n), loose);
      NoEntryAll(bs[1..], n + 1, path, loose);
    }
  }

  /** Without a table both passes succeed, and the enforced validator reads every value by the rule, at every depth. */
  lemma EnforcedReads(env: Env, rust: Schema, base: Schema, v: Json)
    requires Prepare.Prepare(rust) == Ok(base)
    ensures ApplyAsymmetries(base, map[], false).Ok? && ApplyAsymmetries(base, map[], true).Ok?
    ensures Admits(env, ApplyAsymmetries(base, map[], false).value, v) <==> Reads(env, base, v)
  {
    NoEntryVisits(base, "$", false);
    NoEntryVisits(base, "$", true);
    PreparedIsCanonical(rust, base);
    DemandsReads(env, base, "$", v);
    EnforcedMeans(env, rust, base, map[], ApplyAsymmetries(base, map[], false).value, v);
  }

  // ---- With a table -------------------------------------------------------------------

  /**
   Whatever the table does elsewhere, an optional member whose own entries only narrow is never admitted through its
   null arm: the enforced frame admits it only as something the property admits beside null.
   */
  lemma OptionalBesideNull(env: Env, rust: Schema, base: Schema, table: Table, enforced: Schema, k: string, v: Json)
    requires Prepare.Prepare(rust) == Ok(base) && IsObject(base) && ApplyAsymmetries(base, table, false) == Ok(enforced)
    requires "$" in table ==> forall c :: c in table["$"] ==> c.OkSplit?
    requires Declares(base.properties.ps, k) && k !in RequiredOf(base) && NarrowUnder(table, PropPath("$", k))
    requires Admits(env, enforced, v) && v.Obj? && k in v.members
    ensures AdmitsBesideNull(env, Lookup(base.properties.ps, k), v.members[k])
    ensures !AdmitsBesideNull(env, Lookup(base.properties.ps, k), Null) ==> v.members[k] != Null
  {
    PreparedIsCanonical(rust, base);
    EnforcedMeans(env, rust, base, table, enforced, v);
    if "$" in table { OnlySplits(base, table["$"]); }
    assert DemandsMember(env, base, "$", table, k, v.members[k]);
    assert VisitInside(base, "$", table, false).Ok?;
    MemberBesideNull(env, base, table, k, v.members[k]);
  }

  lemma MemberBesideNull(env: Env, base: Schema, table: Table, k: string, x: Json)
    requires Canonical(base) && IsObject(base) && VisitInside(base, "$", table, false).Ok?
    requires Declares(base.properties.ps, k) && k !in RequiredOf(base) && NarrowUnder(table, PropPath("$", k))
    requires DemandsMember(env, base, "$", table, k, x)
    ensures AdmitsBesideNull(env, Lookup(base.properties.ps, k), x)
  {
    var ps, required := base.properties.ps, RequiredOf(base);
    var props := VisitProps(ps, required, "$", table, false).value;
    PropsMean(env, ps, required, "$", table, props, k, x);
    WalkedLookup(ps, required, "$", table, props, k);
    var p := Prop(k, Lookup(ps, k));
    assert p in ps;
    FieldMeans(env, p, required, x);
    VisitNarrows(env, Field(p, required), PropPath("$", k), table,
                 Visit(Field(p, required), PropPath("$", k), table, false).value, x);
  }

  lemma {:induction false} OnlySplits(s: Schema, changes: seq<Change>)
    requires forall c :: c in changes ==> c.OkSplit?
    ensures ApplyChanges(s, changes) == Ok(s)
    decreases |changes|
  {
    if changes == [] {
    } else {
      assert changes[0] in changes;
      OnlySplits(s, changes[1..]);
    }
  }
}
