/**
 The asymmetry pass over a prepared schema (`applyAsymmetries`): at each table entry's path its changes, on
 every optional property the dropped null arm, on every object the loose form when asked, and on a whole
 frame the split on a boolean discriminant.
 */
module Asymmetry {
  import opened Wrappers
  import opened Schemas
  import opened Discriminated
  import opened Prepare

  datatype Arm = Arm(when: bool, required: seq<string>, forbidden: seq<string>)

  datatype Change =
    | StringChange(minLength: Option<nat>, maxLength: Option<nat>, pattern: Option<string>)
    | StringArm
    | TagUnion
    | GeneratedSchema(schema: Schema)
    | OkSplit(discriminant: string, arms: seq<Arm>)

  /** A table: the changes at each path of one frame. */
  type Table = map<string, seq<Change>>

  datatype TableRule = A1 | A3

  const StringNode: Schema := Any.(types := One(TString))
  const BooleanNode: Schema := Any.(types := One(TBoolean))

  // ---- dropNullArm -------------------------------------------------------------

  predicate IsNullBranch(b: Schema) {
    b.Node? && b.types == One(TNull)
  }

  function NonNullBranches(bs: seq<Schema>): (r: seq<Schema>)
    ensures forall b :: b in r <==> b in bs && !IsNullBranch(b)
    ensures |r| <= |bs|
  {
    if bs == [] then []
    else (if IsNullBranch(bs[0]) then [] else [bs[0]]) + NonNullBranches(bs[1..])
  }

  function DropNullArm(s: Schema): Schema {
    if s.Truth? || s.Imported? then s
    else if s.types.Many? && TNull in s.types.ts then
      var rest := NonNull(s.types.ts);
      s.(types := if |rest| == 1 then One(rest[0]) else Many(rest))
    else if s.anyOf.Branches? && |NonNullBranches(s.anyOf.bs)| != |s.anyOf.bs| then
      var rest := NonNullBranches(s.anyOf.bs);
      if |rest| == 1 && !rest[0].Truth? then rest[0] else s.(anyOf := Branches(rest))
    else s
  }

  // ---- applyChange -------------------------------------------------------------

  /** The names of a branch other than its tag. */
  function OtherProps(ps: seq<Prop>, tag: string): (r: seq<Prop>)
    ensures forall p :: p in r <==> p in ps && p.name != tag
  {
    if ps == [] then []
    else (if ps[0].name == tag then [] else [ps[0]]) + OtherProps(ps[1..], tag)
  }

  /** The one content field of a `{tag, content}` variant, both required. */
  function ContentOf(b: Schema, tag: string): (r: Option<Prop>)
    ensures r.Some? ==> b.Node? && r.value in PropsOf(b) && r.value.name != tag
    ensures r.Some? ==> multiset(RequiredOf(b)) == multiset{tag, r.value.name}
    ensures r.Some? ==> forall p :: p in PropsOf(b) && p.name != tag ==> p == r.value
  {
    if !b.Node? then None
    else
      var others := OtherProps(PropsOf(b), tag);
      if |others| == 1 && multiset(RequiredOf(b)) == multiset{tag, others[0].name} then
        assert others[0] in others;
        Some(others[0])
      else None
  }

  function TagValues(bs: seq<Schema>, tag: string): (r: seq<Json>)
    requires forall i :: 0 <= i < |bs| ==> Tags(bs[i], tag, StringTag)
    ensures |r| == |bs|
    ensures forall i :: 0 <= i < |bs| ==> bs[i].Node? && TagOf(bs[i], tag, StringTag) == Some(r[i])
  {
    seq(|bs|, i requires 0 <= i < |bs| && Tags(bs[i], tag, StringTag) => TagOf(bs[i], tag, StringTag).value)
  }

  /** One object whose tag is an enum of the variants' tags, when they share one content field and schema. */
  function CollapseTagUnion(s: Schema): Result<Schema, TableRule> {
    if !IsUnion(s) || |s.anyOf.bs| < 2 then Err(A1)
    else
      var bs := s.anyOf.bs;
      var tag := FindTag(bs, StringTag);
      if tag.None? then Err(A1)
      else
        var content := ContentOf(bs[0], tag.value);
        if content.None? || exists i :: 0 <= i < |bs| && ContentOf(bs[i], tag.value) != content then Err(A1)
        else Ok(EnumObject(tag.value, TagValues(bs, tag.value), content.value))
  }

  function EnumObject(tag: string, values: seq<Json>, content: Prop): Schema {
    Any.(types := One(TObject),
         properties := Props([Prop(tag, StringNode.(enum := Some(values))), content]),
         required := Some([tag, content.name]),
         additional := Closed)
  }

  /** The variants' tags, gathered into a set in order. */
  method GatherTags(bs: seq<Schema>, tag: string) returns (values: seq<Json>)
    requires Discriminates(bs, tag, StringTag)
    ensures values == TagValues(bs, tag)
  {
    values := [];
    for i := 0 to |bs|
      invariant |values| == i
      invariant forall j :: 0 <= j < i ==> TagOf(bs[j], tag, StringTag) == Some(values[j])
    {
      assert Tags(bs[i], tag, StringTag);
      var value := TagOf(bs[i], tag, StringTag).value;
      if value !in values { values := values + [value]; }
    }
  }

  /** The content field the variants share, if each has one and all agree with the first. */
  method ShareContent(bs: seq<Schema>, tag: string) returns (content: Option<Prop>)
    requires bs != []
    ensures content.Some? ==> forall i :: 0 <= i < |bs| ==> ContentOf(bs[i], tag) == content
    ensures content.None? ==>
      ContentOf(bs[0], tag).None? || exists i :: 0 <= i < |bs| && ContentOf(bs[i], tag) != ContentOf(bs[0], tag)
  {
    content := None;
    for i := 0 to |bs|
      invariant content.Some? <==> i > 0
      invariant forall j :: 0 <= j < i ==> ContentOf(bs[j], tag) == content
    {
      var own := ContentOf(bs[i], tag);
      assert i > 0 ==> ContentOf(bs[0], tag) == content;
      if own.None? { return None; }
      if content.None? { content := own; } else if content != own { return None; }
    }
  }

  method CollapseVariants(s: Schema) returns (r: Result<Schema, TableRule>)
    ensures r == CollapseTagUnion(s)
  {
    if !IsUnion(s) || |s.anyOf.bs| < 2 { return Err(A1); }
    var tag := FindTag(s.anyOf.bs, StringTag);
    if tag.None? { return Err(A1); }
    var content := ShareContent(s.anyOf.bs, tag.value);
    if content.None? { return Err(A1); }
    var values := GatherTags(s.anyOf.bs, tag.value);
    return Ok(EnumObject(tag.value, values, content.value));
  }

  function ApplyChange(s: Schema, change: Change): (r: Result<Schema, TableRule>)
    ensures r.Ok? && !change.GeneratedSchema? ==> r.value.Node?
  {
    if !s.Node? then Err(A1)
    else match change
      case StringChange(lo, hi, pattern) =>
        if s != StringNode then Err(A1)
        else Ok(StringNode.(minLength := lo, maxLength := hi, pattern := pattern))
      case StringArm =>
        if s.types != One(TInteger) && s.types != One(TNumber) then Err(A1)
        else Ok(Any.(anyOf := Branches([s, StringNode])))
      case TagUnion => CollapseTagUnion(s)
      case GeneratedSchema(schema) => Ok(Imported(schema))
      case OkSplit(_, _) => Err(A3)
  }

  /** An entry's changes in order, its ok-splits left for after the field changes. */
  function ApplyChanges(s: Schema, changes: seq<Change>): Result<Schema, TableRule>
    decreases |changes|
  {
    if changes == [] then Ok(s)
    else if changes[0].OkSplit? then ApplyChanges(s, changes[1..])
    else
      var next :- ApplyChange(s, changes[0]);
      ApplyChanges(next, changes[1..])
  }

  // ---- applyOkSplit ------------------------------------------------------------

  /** A set in insertion order, extended. */
  function AddNames(names: seq<string>, more: seq<string>): (r: seq<string>)
    ensures forall k :: k in r <==> k in names || k in more
    decreases |more|
  {
    if more == [] then names
    else AddNames(if more[0] in names then names else names + [more[0]], more[1..])
  }

  /** The forbidden fields become `false` schemas; one that is undeclared or required is refused. */
  function Forbid(ps: seq<Prop>, required: seq<string>, forbidden: seq<string>): Result<seq<Prop>, TableRule>
    decreases |forbidden|
  {
    if forbidden == [] then Ok(ps)
    else if !Declares(ps, forbidden[0]) || forbidden[0] in required then Err(A3)
    else Forbid(Retyped(ps, forbidden[0], Truth(false)), required, forbidden[1..])
  }

  function ArmOf(s: Schema, discriminant: string, arm: Arm): Result<Schema, TableRule>
    requires s.Node? && s.properties.Props?
  {
    var ps := Retyped(s.properties.ps, discriminant, BooleanNode.(constant := Some(Bool(arm.when))));
    var required := AddNames(AddNames([], RequiredOf(s)), arm.required);
    if exists k :: k in arm.required && !Declares(s.properties.ps, k) then Err(A3)
    else
      var armProps :- Forbid(ps, required, arm.forbidden);
      Ok(s.(properties := Props(armProps), required := Some(required)))
  }

  /** A whole object frame with a required boolean discriminant, and one arm for each of its values. */
  predicate CanSplit(s: Schema, discriminant: string, arms: seq<Arm>, path: string) {
    && path == "$" && s.Node? && s.types == One(TObject) && s.properties.Props?
    && Declares(s.properties.ps, discriminant) && discriminant in RequiredOf(s)
    && (var d := Lookup(s.properties.ps, discriminant); d.Node? && d.types == One(TBoolean))
    && |arms| == 2 && arms[0].when != arms[1].when
  }

  function ApplyOkSplit(s: Schema, discriminant: string, arms: seq<Arm>, path: string): Result<Schema, TableRule> {
    if !CanSplit(s, discriminant, arms, path) then Err(A3)
    else
      var first :- ArmOf(s, discriminant, arms[0]);
      var second :- ArmOf(s, discriminant, arms[1]);
      Ok(Any.(anyOf := Branches([first, second])))
  }

  /** An arm's required fields join the frame's, each a declared one. */
  method RequireFields(props: seq<Prop>, required: seq<string>, more: seq<string>) returns (r: Option<seq<string>>)
    ensures r.Some? <==> forall k :: k in more ==> Declares(props, k)
    ensures r.Some? ==> r.value == AddNames(required, more)
  {
    var names := required;
    assert more[0..] == more;
    for i := 0 to |more|
      invariant AddNames(required, more) == AddNames(names, more[i..])
      invariant forall k :: k in more[..i] ==> Declares(props, k)
    {
      assert more[i..][0] == more[i] && more[i..][1..] == more[i + 1..];
      if !Declares(props, more[i]) { return None; }
      if more[i] !in names { names := names + [more[i]]; }
    }
    assert more[..|more|] == more;
    return Some(names);
  }

  /** An arm's forbidden fields become `false`, each a declared field that is not required. */
  method ForbidFields(props: seq<Prop>, start: seq<Prop>, required: seq<string>, forbidden: seq<string>)
    returns (r: Result<seq<Prop>, TableRule>)
    requires |start| == |props| && forall j :: 0 <= j < |props| ==> start[j].name == props[j].name
    ensures r == Forbid(start, required, forbidden)
  {
    var armProps := start;
    assert forbidden[0..] == forbidden;
    for i := 0 to |forbidden|
      invariant Forbid(start, required, forbidden) == Forbid(armProps, required, forbidden[i..])
      invariant |armProps| == |props| && forall j :: 0 <= j < |props| ==> armProps[j].name == props[j].name
    {
      assert forbidden[i..][0] == forbidden[i] && forbidden[i..][1..] == forbidden[i + 1..];
      SameNames(props, armProps, forbidden[i]);
      if !Declares(props, forbidden[i]) || forbidden[i] in required { return Err(A3); }
      armProps := Retyped(armProps, forbidden[i], Truth(false));
    }
    return Ok(armProps);
  }

  method BuildArm(s: Schema, discriminant: string, arm: Arm) returns (r: Result<Schema, TableRule>)
    requires s.Node? && s.properties.Props?
    ensures r == ArmOf(s, discriminant, arm)
  {
    var props := s.properties.ps;
    var armProps := Retyped(props, discriminant, BooleanNode.(constant := Some(Bool(arm.when))));
    var required := RequireFields(props, AddNames([], RequiredOf(s)), arm.required);
    if required.None? { return Err(A3); }
    var forbid :- ForbidFields(props, armProps, required.value, arm.forbidden);
    return Ok(s.(properties := Props(forbid), required := required));
  }

  lemma SameNames(ps: seq<Prop>, qs: seq<Prop>, k: string)
    requires |qs| == |ps| && forall j :: 0 <= j < |ps| ==> qs[j].name == ps[j].name
    ensures Declares(qs, k) <==> Declares(ps, k)
  {
    if Declares(ps, k) {
      var i :| 0 <= i < |ps| && ps[i].name == k;
      assert qs[i].name == k;
    }
  }

  function ApplyOkSplits(s: Schema, changes: seq<Change>, path: string): Result<Schema, TableRule>
    decreases |changes|
  {
    if changes == [] then Ok(s)
    else if changes[0].OkSplit? then
      var next :- ApplyOkSplit(s, changes[0].discriminant, changes[0].arms, path);
      ApplyOkSplits(next, changes[1..], path)
    else ApplyOkSplits(s, changes[1..], path)
  }

  // ---- The walk ----------------------------------------------------------------

  /** How deep a schema nests through the positions the walk enters. */
  ghost function Height(s: Schema): nat {
    if s.Truth? || s.Imported? then 0
    else
      var p := if s.properties.Props? then HeightOfProps(s.properties.ps) else 0;
      var i := if s.items.Sub? then Height(s.items.s) else 0;
      var a := if s.anyOf.Branches? then HeightOfAll(s.anyOf.bs) else 0;
      1 + p + i + a
  }

  ghost function HeightOfProps(ps: seq<Prop>): (h: nat)
    ensures forall p :: p in ps ==> Height(p.sub) <= h
  {
    if ps == [] then 0 else Height(ps[0].sub) + HeightOfProps(ps[1..])
  }

  ghost function HeightOfAll(bs: seq<Schema>): (h: nat)
    ensures forall b :: b in bs ==> Height(b) <= h
  {
    if bs == [] then 0 else Height(bs[0]) + HeightOfAll(bs[1..])
  }

  lemma {:induction false} DroppedBranchesHeight(bs: seq<Schema>)
    ensures HeightOfAll(NonNullBranches(bs)) <= HeightOfAll(bs)
  {
    if bs == [] {
    } else {
      DroppedBranchesHeight(bs[1..]);
      var rest := NonNullBranches(bs[1..]);
      if !IsNullBranch(bs[0]) {
        assert ([bs[0]] + rest)[1..] == rest;
      } else {
        assert [] + rest == rest;
      }
    }
  }

  lemma DroppedHeight(s: Schema)
    ensures Height(DropNullArm(s)) <= Height(s)
  {
    if s.Node? && s.anyOf.Branches? {
      DroppedBranchesHeight(s.anyOf.bs);
    }
  }

  /** The table entries at least, or more than, as deep as a path. */
  ghost function EntriesFrom(table: Table, n: nat): nat {
    |set k | k in table && |k| >= n|
  }

  lemma FewerEntries(table: Table, m: nat, n: nat)
    requires m <= n
    ensures EntriesFrom(table, n) <= EntriesFrom(table, m)
    ensures forall k :: k in table && m <= |k| < n ==> EntriesFrom(table, n) < EntriesFrom(table, m)
  {
    var deep, all := set k | k in table && |k| >= n, set k | k in table && |k| >= m;
    Subset(deep, all);
    forall k | k in table && m <= |k| < n ensures |deep| < |all| {
      assert k in all && k !in deep;
      Subset(deep, all - {k});
    }
  }

  lemma Subset<T>(a: set<T>, b: set<T>)
    requires a <= b
    ensures |a| <= |b|
  {
    assert a + (b - a) == b;
  }

  function Digits(n: nat): string {
    var digit := ["0", "1", "2", "3", "4", "5", "6", "7", "8", "9"][n % 10];
    if n < 10 then digit else Digits(n / 10) + digit
  }

  datatype Visited = Visited(schema: Schema, consumed: set<string>)
  datatype VisitedProps = VisitedProps(ps: seq<Prop>, consumed: set<string>)
  datatype VisitedAll = VisitedAll(bs: seq<Schema>, consumed: set<string>)

  function PropPath(path: string, name: string): string { path + ".properties." + name }
  function ItemsPath(path: string): string { path + ".items" }
  function AnyPath(path: string, i: nat): string { path + ".anyOf[" + Digits(i) + "]" }

  /** An optional property drops its null arm: it has omission to fall back on. */
  function Field(p: Prop, required: seq<string>): Schema {
    if p.name in required then p.sub else DropNullArm(p.sub)
  }

  function Visit(s: Schema, path: string, table: Table, loose: bool): Result<Visited, TableRule>
    decreases EntriesFrom(table, |path|), Height(s), 2, 0
  {
    if s.Truth? then Ok(Visited(s, {}))
    else if path in table then
      var changes := table[path];
      if (exists c :: c in changes && c.OkSplit?) && (exists c :: c in changes && c.GeneratedSchema?) then Err(A3)
      else
        FewerEntries(table, |path|, |path| + 1);
        var changed :- ApplyChanges(s, changes);
        var inner :- VisitInside(changed, path, table, loose);
        var out :- ApplyOkSplits(inner.schema, changes, path);
        Ok(Visited(out, inner.consumed + {path}))
    else
      FewerEntries(table, |path|, |path| + 1);
      VisitInside(s, path, table, loose)
  }

  /** A node with its walked parts put back. */
  function Assembled(s: Schema, ps: seq<Prop>, items: Schema, bs: seq<Schema>, loose: bool): Schema
    requires s.Node?
  {
    s.(properties := if s.properties.Props? then Props(ps) else NoProps,
       additional := if s.properties.Props? && loose then Open else s.additional,
       items := if s.items.Sub? && !s.items.s.Truth? then Sub(items) else s.items,
       anyOf := if s.anyOf.Branches? then Branches(bs) else NoBranches)
  }

  /** Everything below a node; an imported schema is its own module's to walk. */
  function VisitInside(s: Schema, path: string, table: Table, loose: bool): Result<Visited, TableRule>
    decreases EntriesFrom(table, |path| + 1), Height(s), 1, 0
  {
    if !s.Node? then Ok(Visited(s, {}))
    else
      var props :- if s.properties.Props? then VisitProps(s.properties.ps, RequiredOf(s), path, table, loose)
                   else Ok(VisitedProps([], {}));
      var items :- if s.items.Sub? && !s.items.s.Truth? then
                     FewerEntries(table, |path| + 1, |ItemsPath(path)|);
                     Visit(s.items.s, ItemsPath(path), table, loose)
                   else Ok(Visited(Any, {}));
      var any :- if s.anyOf.Branches? then VisitAll(s.anyOf.bs, 0, path, table, loose) else Ok(VisitedAll([], {}));
      Ok(Visited(Assembled(s, props.ps, items.schema, any.bs, loose), props.consumed + items.consumed + any.consumed))
  }

  function VisitProps(ps: seq<Prop>, required: seq<string>, path: string, table: Table, loose: bool)
    : Result<VisitedProps, TableRule>
    decreases EntriesFrom(table, |path| + 1), HeightOfProps(ps), 3, |ps|
  {
    if ps == [] then Ok(VisitedProps([], {}))
    else
      DroppedHeight(ps[0].sub);
      FewerEntries(table, |path| + 1, |PropPath(path, ps[0].name)|);
      var first :- Visit(Field(ps[0], required), PropPath(path, ps[0].name), table, loose);
      var rest :- VisitProps(ps[1..], required, path, table, loose);
      Ok(VisitedProps([Prop(ps[0].name, first.schema)] + rest.ps, first.consumed + rest.consumed))
  }

  function VisitAll(bs: seq<Schema>, i: nat, path: string, table: Table, loose: bool)
    : Result<VisitedAll, TableRule>
    decreases EntriesFrom(table, |path| + 1), HeightOfAll(bs), 3, |bs|
  {
    if bs == [] then Ok(VisitedAll([], {}))
    else
      FewerEntries(table, |path| + 1, |AnyPath(path, i)|);
      var first :- Visit(bs[0], AnyPath(path, i), table, loose);
      var rest :- VisitAll(bs[1..], i + 1, path, table, loose);
      Ok(VisitedAll([first.schema] + rest.bs, first.consumed + rest.consumed))
  }

  /** The pass: every entry of the table must be consumed (rule A1). */
  function ApplyAsymmetries(prepared: Schema, table: Table, loose: bool): Result<Schema, TableRule> {
    var visited :- Visit(prepared, "$", table, loose);
    if table.Keys <= visited.consumed then Ok(visited.schema) else Err(A1)
  }
}
