/**
 What the asymmetry pass does to meaning when it is not asked to be loose and its table only narrows: at every
 depth the enforced schema admits a subset of what the prepared one admits. The collapse of a tag union
 changes nothing, and a dropped null arm changes nothing but null.
 */
module Narrowing {
  import opened Wrappers
  import opened Schemas
  import opened Discriminated
  import opened Prepare
  import opened Asymmetry
  import opened OkSplits

  // ---- Dropping a null arm -----------------------------------------------------

  lemma {:induction false} NonNullIdempotent(types: seq<TypeName>)
    ensures NonNull(NonNull(types)) == NonNull(types)
  {
    if types == [] {
    } else {
      NonNullIdempotent(types[1..]);
      if types[0] != TNull {
        assert NonNull(types)[1..] == NonNull(types[1..]);
      } else {
        assert NonNull(types) == NonNull(types[1..]);
      }
    }
  }

  lemma DroppedTypes(s: Schema)
    requires s.Node? && s.types.Many? && TNull in s.types.ts
    ensures var d := DropNullArm(s); d.Node? && d == s.(types := d.types) && !d.types.NoType?
    ensures TypeList(DropNullArm(s).types) == NonNull(s.types.ts)
  {
  }

  lemma NullableForm(s: Schema)
    requires Canonical(s) && s.types.Many? && TNull in s.types.ts
    ensures IsScalar(s) || (IsArray(s) && Canonical(s.items.s))
  {
  }

  lemma DroppedArray(s: Schema)
    requires IsArray(s) && Canonical(s.items.s) && s.types.Many? && TNull in s.types.ts
    ensures IsArray(DropNullArm(s)) && Canonical(DropNullArm(s))
  {
    DroppedTypes(s);
    NonNullIdempotent(s.types.ts);
  }

  lemma DroppedScalar(s: Schema)
    requires IsScalar(s) && s.types.Many? && TNull in s.types.ts
    ensures IsScalar(DropNullArm(s)) && Canonical(DropNullArm(s))
  {
    DroppedTypes(s);
  }

  lemma DroppedTypeCanonical(s: Schema)
    requires Canonical(s) && s.types.Many? && TNull in s.types.ts
    ensures IsArray(s) || IsScalar(s)
    ensures Canonical(DropNullArm(s))
  {
    NullableForm(s);
    if IsScalar(s) { DroppedScalar(s); } else { DroppedArray(s); }
  }

  lemma DroppedTypeOk(s: Schema, v: Json)
    requires s.Node? && s.types.Many? && TNull in s.types.ts
    ensures DropNullArm(s).Node?
    ensures TypeOk(DropNullArm(s).types, v) <==> TypeOk(s.types, v) && v != Null
  {
    DroppedTypes(s);
    var d := DropNullArm(s);
    if TypeOk(s.types, v) && v != Null {
      var t :| t in s.types.ts && IsType(t, v);
      assert t in TypeList(d.types);
    }
    if TypeOk(d.types, v) {
      var t :| t in TypeList(d.types) && IsType(t, v);
      assert t in s.types.ts;
    }
  }

  /** Dropping the null member of a type list refuses null and changes no other verdict. */
  lemma DroppedTypeMeans(env: Env, s: Schema, v: Json)
    requires s.Node? && s.types.Many? && TNull in s.types.ts
    requires s.properties.NoProps? && s.anyOf.NoBranches? && s.oneOf.NoBranches? && s.additional.NoSub?
    requires s.unevaluated.NoSub?
    ensures Admits(env, DropNullArm(s), v) <==> Admits(env, s, v) && v != Null
  {
    DroppedTypes(s);
    DroppedTypeOk(s, v);
    RetypedMeans(env, s, DropNullArm(s), v);
  }

  /** Two nodes that differ in their type alone differ by what the types say. */
  lemma RetypedMeans(env: Env, s: Schema, d: Schema, v: Json)
    requires s.Node? && d.Node? && d == s.(types := d.types)
    requires s.properties.NoProps? && s.anyOf.NoBranches? && s.oneOf.NoBranches? && s.additional.NoSub?
    requires s.unevaluated.NoSub?
    ensures Admits(env, d, v) && TypeOk(s.types, v) <==> Admits(env, s, v) && TypeOk(d.types, v)
  {
    if v.Arr? { assert ItemsOk(env, s, v.elems) <==> ItemsOk(env, d, v.elems); }
    if v.Obj? { assert MembersOk(env, s, v.members) && MembersOk(env, d, v.members); }
  }

  lemma NullBranchAdmits(env: Env, b: Schema, v: Json)
    requires IsNullBranch(b) && Admits(env, b, v)
    ensures v == Null
  {
    var t :| t in TypeList(b.types) && IsType(t, v);
  }

  lemma DroppedBranchCanonical(s: Schema)
    requires Canonical(s) && IsUnion(s)
    ensures Canonical(DropNullArm(s))
  {
    var rest := NonNullBranches(s.anyOf.bs);
    if |rest| == 1 { assert rest[0] in rest; }
  }

  /** Some branch whose type is not exactly null admits the value. */
  ghost predicate SomeOtherBranch(env: Env, bs: seq<Schema>, v: Json) {
    exists i :: 0 <= i < |bs| && !(bs[i].Node? && bs[i].types == One(TNull)) && Admits(env, bs[i], v)
  }

  /** What the schema admits when its null arm, in its type list or among its branches, is left out. */
  ghost predicate AdmitsBesideNull(env: Env, s: Schema, v: Json) {
    if s.Node? && s.types.Many? && TNull in s.types.ts then Admits(env, s, v) && v != Null
    else if s.Node? && s.anyOf.Branches? then SomeOtherBranch(env, s.anyOf.bs, v)
    else Admits(env, s, v)
  }

  lemma KeptBranches(env: Env, bs: seq<Schema>, rest: seq<Schema>, v: Json)
    requires rest == NonNullBranches(bs)
    ensures (exists i :: 0 <= i < |rest| && Admits(env, rest[i], v)) <==> SomeOtherBranch(env, bs, v)
  {
    if i :| 0 <= i < |rest| && Admits(env, rest[i], v) {
      assert rest[i] in rest && rest[i] in bs;
    }
    if i :| 0 <= i < |bs| && !(bs[i].Node? && bs[i].types == One(TNull)) && Admits(env, bs[i], v) {
      assert bs[i] in rest;
    }
  }

  lemma {:induction false} NothingDropped(bs: seq<Schema>)
    requires |NonNullBranches(bs)| == |bs|
    ensures NonNullBranches(bs) == bs
  {
    if bs == [] {
    } else {
      assert |NonNullBranches(bs[1..])| <= |bs[1..]|;
      NothingDropped(bs[1..]);
      assert bs == [bs[0]] + bs[1..];
    }
  }

  /** The union left without its null branches admits exactly what one of the others admits. */
  lemma DroppedBranchMeans(env: Env, s: Schema, v: Json)
    requires Canonical(s) && IsUnion(s)
    ensures Admits(env, DropNullArm(s), v) <==> SomeOtherBranch(env, s.anyOf.bs, v)
  {
    var rest, d := NonNullBranches(s.anyOf.bs), DropNullArm(s);
    KeptBranches(env, s.anyOf.bs, rest, v);
    if |rest| == |s.anyOf.bs| {
      NothingDropped(s.anyOf.bs);
      UnionMeans(env, s, v);
    } else if |rest| != 1 || rest[0].Truth? {
      assert d == Any.(anyOf := Branches(rest));
      UnionMeans(env, d, v);
    } else {
      assert (exists i :: 0 <= i < |rest| && Admits(env, rest[i], v)) <==> Admits(env, rest[0], v);
    }
  }

  /** A schema without its null arm admits nothing new, and loses no value but null. */
  lemma BesideNullNarrows(env: Env, s: Schema, v: Json)
    requires Canonical(s)
    ensures AdmitsBesideNull(env, s, v) ==> Admits(env, s, v)
    ensures v != Null && Admits(env, s, v) ==> AdmitsBesideNull(env, s, v)
  {
    if s.anyOf.Branches? {
      assert IsUnion(s);
      UnionMeans(env, s, v);
      if v != Null && Admits(env, s, v) {
        var i :| 0 <= i < |s.anyOf.bs| && Admits(env, s.anyOf.bs[i], v);
        if IsNullBranch(s.anyOf.bs[i]) { NullBranchAdmits(env, s.anyOf.bs[i], v); }
      }
    }
  }

  /** Dropping the null arm leaves exactly what the schema admits beside it, and so only ever narrows. */
  lemma DropNullArmMeans(env: Env, s: Schema, v: Json)
    requires Canonical(s)
    ensures Canonical(DropNullArm(s))
    ensures Admits(env, DropNullArm(s), v) <==> AdmitsBesideNull(env, s, v)
    ensures Admits(env, DropNullArm(s), v) ==> Admits(env, s, v)
    ensures v != Null ==> (Admits(env, DropNullArm(s), v) <==> Admits(env, s, v))
  {
    BesideNullNarrows(env, s, v);
    if s.types.Many? && TNull in s.types.ts {
      DroppedTypeCanonical(s);
      DroppedTypeMeans(env, s, v);
    } else if s.anyOf.Branches? {
      DroppedBranchCanonical(s);
      DroppedBranchMeans(env, s, v);
    }
  }

  /** An optional property is held to its schema beside null, a required one to its schema as it stands. */
  lemma FieldMeans(env: Env, p: Prop, required: seq<string>, v: Json)
    requires Canonical(p.sub)
    ensures Canonical(Field(p, required))
    ensures Admits(env, Field(p, required), v) <==>
      if p.name in required then Admits(env, p.sub, v) else AdmitsBesideNull(env, p.sub, v)
  {
    DropNullArmMeans(env, p.sub, v);
  }

  // ---- Collapsing a tag union --------------------------------------------------

  lemma LookupSole(ps: seq<Prop>, tag: string, content: Prop)
    requires content in ps && content.name != tag
    requires forall p :: p in ps && p.name != tag ==> p == content
    ensures Declares(ps, content.name) && Lookup(ps, content.name) == content.sub
    ensures forall k :: Declares(ps, k) ==> k == tag || k == content.name
  {
    var i :| 0 <= i < |ps| && ps[i] == content;
    assert ps[i].name == content.name;
    var j :| 0 <= j < |ps| && ps[j] == Prop(content.name, Lookup(ps, content.name));
    assert ps[j] in ps;
    forall k | Declares(ps, k) ensures k == tag || k == content.name {
      var l :| 0 <= l < |ps| && ps[l].name == k;
      assert ps[l] in ps;
    }
  }

  /** The object with exactly a tag member and a content member. */
  predicate TaggedContent(env: Env, tag: string, content: Prop, v: Json) {
    && v.Obj? && v.members.Keys == {tag, content.name}
    && Admits(env, content.sub, v.members[content.name])
  }

  lemma CanonicalTagNode(env: Env, t: Schema, c: Json, v: Json)
    requires Canonical(t) && t.Node? && t.constant == Some(c) && c.Str?
    ensures Admits(env, t, v) <==> v == c
  {
    assert IsScalar(t);
    assert v == c ==> IsType(TString, v);
    assert v == c ==> TypeOk(t.types, v);
  }

  lemma VariantShape(b: Schema, tag: string, content: Prop)
    requires Canonical(b) && Tags(b, tag, StringTag) && ContentOf(b, tag) == Some(content)
    ensures IsObject(b) && Canonical(content.sub) && content.name != tag
    ensures Declares(b.properties.ps, tag) && Canonical(Lookup(b.properties.ps, tag))
    ensures Lookup(b.properties.ps, tag).Node? && Lookup(b.properties.ps, tag).constant == TagOf(b, tag, StringTag)
    ensures Declares(b.properties.ps, content.name) && Lookup(b.properties.ps, content.name) == content.sub
    ensures forall k :: Declares(b.properties.ps, k) ==> k == tag || k == content.name
    ensures forall k :: k in RequiredOf(b) <==> k == tag || k == content.name
  {
    var ps := b.properties.ps;
    assert IsObject(b);
    assert content in ps;
    LookupSole(ps, tag, content);
    assert forall k :: k in RequiredOf(b) <==> k in multiset(RequiredOf(b));
    var i :| 0 <= i < |ps| && ps[i] == Prop(tag, Lookup(ps, tag));
    assert ps[i] in ps;
  }

  /** A `{tag, content}` variant admits exactly its own const beside an admitted content. */
  lemma VariantMeans(env: Env, b: Schema, tag: string, content: Prop, v: Json)
    requires Canonical(b) && Tags(b, tag, StringTag) && ContentOf(b, tag) == Some(content)
    ensures Admits(env, b, v) <==>
      TaggedContent(env, tag, content, v) && TagOf(b, tag, StringTag) == Some(v.members[tag])
  {
    VariantShape(b, tag, content);
    if Admits(env, b, v) {
      AdmittedVariant(env, b, tag, content, TagOf(b, tag, StringTag).value, v);
    } else if TaggedContent(env, tag, content, v) && TagOf(b, tag, StringTag) == Some(v.members[tag]) {
      CanonicalTagNode(env, Lookup(b.properties.ps, tag), v.members[tag], v.members[tag]);
      VariantAdmits(env, b, tag, content, v);
    }
  }

  lemma AdmittedVariant(env: Env, b: Schema, tag: string, content: Prop, c: Json, v: Json)
    requires IsObject(b) && Admits(env, b, v)
    requires Declares(b.properties.ps, tag) && Canonical(Lookup(b.properties.ps, tag))
    requires Lookup(b.properties.ps, tag).Node? && Lookup(b.properties.ps, tag).constant == Some(c) && c.Str?
    requires Declares(b.properties.ps, content.name) && Lookup(b.properties.ps, content.name) == content.sub
    requires forall k :: Declares(b.properties.ps, k) ==> k == tag || k == content.name
    requires tag in RequiredOf(b) && content.name in RequiredOf(b)
    ensures TaggedContent(env, tag, content, v) && v.members[tag] == c
  {
    OnlyObjects(env, b, v);
    RequiredPresent(env, b, v, tag);
    RequiredPresent(env, b, v, content.name);
    MemberAdmitted(env, b, v, tag);
    MemberAdmitted(env, b, v, content.name);
    CanonicalTagNode(env, Lookup(b.properties.ps, tag), c, v.members[tag]);
    forall k | k in v.members ensures k in {tag, content.name} { MemberAdmitted(env, b, v, k); }
  }

  lemma VariantAdmits(env: Env, b: Schema, tag: string, content: Prop, v: Json)
    requires IsObject(b) && Declares(b.properties.ps, tag) && Declares(b.properties.ps, content.name)
    requires Lookup(b.properties.ps, content.name) == content.sub
    requires forall k :: k in RequiredOf(b) ==> k == tag || k == content.name
    requires TaggedContent(env, tag, content, v)
    requires Admits(env, Lookup(b.properties.ps, tag), v.members[tag])
    ensures Admits(env, b, v)
  {
    assert IsType(TObject, v) && TObject in TypeList(b.types);
    assert forall k :: k in v.members ==> k == tag || k == content.name;
    assert MembersOk(env, b, v.members);
    assert forall k :: k in RequiredOf(b) ==> k in v.members;
  }

  lemma EnumObjectMeans(env: Env, tag: string, values: seq<Json>, content: Prop, v: Json)
    requires tag != content.name && forall x :: x in values ==> x.Str?
    ensures Admits(env, EnumObject(tag, values, content), v) <==>
      TaggedContent(env, tag, content, v) && v.members[tag] in values
  {
    var o := EnumObject(tag, values, content);
    var ps := o.properties.ps;
    assert ps[0].name == tag && ps[1].name == content.name && ps[1..] == [content];
    assert forall k :: Declares(ps, k) ==> k == tag || k == content.name;
    assert Lookup(ps, tag) == StringNode.(enum := Some(values)) && Lookup(ps, content.name) == content.sub;
    assert RequiredOf(o)[0] == tag && RequiredOf(o)[1] == content.name;
    if Admits(env, o, v) {
      OnlyObjects(env, o, v);
      RequiredPresent(env, o, v, tag);
      RequiredPresent(env, o, v, content.name);
      MemberAdmitted(env, o, v, tag);
      MemberAdmitted(env, o, v, content.name);
      forall k | k in v.members ensures k in {tag, content.name} { MemberAdmitted(env, o, v, k); }
    } else if TaggedContent(env, tag, content, v) && v.members[tag] in values {
      assert IsType(TString, v.members[tag]) && TString in TypeList(StringNode.types);
      assert Admits(env, Lookup(ps, tag), v.members[tag]);
      VariantAdmits(env, o, tag, content, v);
    }
  }

  lemma CollapsedForm(s: Schema, out: Schema)
    requires CollapseTagUnion(s) == Ok(out)
    ensures IsUnion(s) && |s.anyOf.bs| >= 2 && FindTag(s.anyOf.bs, StringTag).Some?
    ensures var tag := FindTag(s.anyOf.bs, StringTag).value;
      && ContentOf(s.anyOf.bs[0], tag).Some?
      && (forall i :: 0 <= i < |s.anyOf.bs| ==> ContentOf(s.anyOf.bs[i], tag) == ContentOf(s.anyOf.bs[0], tag))
      && out == EnumObject(tag, TagValues(s.anyOf.bs, tag), ContentOf(s.anyOf.bs[0], tag).value)
  {
  }

  lemma UnionMeans(env: Env, s: Schema, v: Json)
    requires IsUnion(s)
    ensures Admits(env, s, v) <==> exists i :: 0 <= i < |s.anyOf.bs| && Admits(env, s.anyOf.bs[i], v)
  {
    assert Admits(env, s, v) <==> SomeBranch(env, s, v);
  }

  lemma VariantsMean(env: Env, bs: seq<Schema>, tag: string, content: Prop, v: Json)
    requires Discriminates(bs, tag, StringTag)
    requires forall i :: 0 <= i < |bs| ==> Canonical(bs[i]) && ContentOf(bs[i], tag) == Some(content)
    ensures (exists i :: 0 <= i < |bs| && Admits(env, bs[i], v)) <==>
      TaggedContent(env, tag, content, v) && v.members[tag] in TagValues(bs, tag)
  {
    var values := TagValues(bs, tag);
    forall i | 0 <= i < |bs|
      ensures Admits(env, bs[i], v) <==> TaggedContent(env, tag, content, v) && values[i] == v.members[tag]
    {
      VariantMeans(env, bs[i], tag, content, v);
    }
  }

  lemma EnumObjectForVariants(env: Env, s: Schema, tag: string, content: Prop, v: Json)
    requires IsUnion(s) && s.anyOf.bs != [] && Discriminates(s.anyOf.bs, tag, StringTag)
    requires forall i :: 0 <= i < |s.anyOf.bs| ==>
      Canonical(s.anyOf.bs[i]) && ContentOf(s.anyOf.bs[i], tag) == Some(content)
    ensures Admits(env, s, v) <==> Admits(env, EnumObject(tag, TagValues(s.anyOf.bs, tag), content), v)
  {
    VariantShape(s.anyOf.bs[0], tag, content);
    TagValuesDistinct(s.anyOf.bs, tag);
    EnumObjectMeans(env, tag, TagValues(s.anyOf.bs, tag), content, v);
    UnionMeans(env, s, v);
    VariantsMean(env, s.anyOf.bs, tag, content, v);
  }

  /** The collapse of a tag union into one object with an enum tag changes no verdict. */
  lemma CollapseMeans(env: Env, s: Schema, out: Schema, v: Json)
    requires Canonical(s) && CollapseTagUnion(s) == Ok(out)
    ensures Admits(env, s, v) <==> Admits(env, out, v)
  {
    CollapsedForm(s, out);
    var tag := FindTag(s.anyOf.bs, StringTag).value;
    forall i | 0 <= i < |s.anyOf.bs| ensures Canonical(s.anyOf.bs[i]) { assert s.anyOf.bs[i] in s.anyOf.bs; }
    EnumObjectForVariants(env, s, tag, ContentOf(s.anyOf.bs[0], tag).value, v);
  }

  lemma TagValuesDistinct(bs: seq<Schema>, tag: string)
    requires Discriminates(bs, tag, StringTag)
    ensures Distinct(TagValues(bs, tag)) && forall v :: v in TagValues(bs, tag) ==> v.Str?
  {
  }

  lemma CollapseCanonical(s: Schema, out: Schema)
    requires Canonical(s) && CollapseTagUnion(s) == Ok(out)
    ensures Canonical(out)
  {
    CollapsedForm(s, out);
    var bs, tag := s.anyOf.bs, FindTag(s.anyOf.bs, StringTag).value;
    var content := ContentOf(bs[0], tag).value;
    assert bs[0] in bs;
    VariantShape(bs[0], tag, content);
    TagValuesDistinct(bs, tag);
    EnumObjectCanonical(tag, TagValues(bs, tag), content);
  }

  lemma EnumObjectCanonical(tag: string, values: seq<Json>, content: Prop)
    requires tag != content.name && Canonical(content.sub)
    requires values != [] && Distinct(values) && forall v :: v in values ==> v.Str?
    ensures Canonical(EnumObject(tag, values, content))
  {
    var out := EnumObject(tag, values, content);
    var ps := out.properties.ps;
    assert ps[0].name == tag && ps[1].name == content.name;
    assert IsScalar(ps[0].sub) && IsObject(out);
    assert forall p :: p in ps ==> p == ps[0] || p == ps[1];
  }

  // ---- The walk narrows ----------------------------------------------------------

  predicate NarrowsOnly(changes: seq<Change>) {
    forall c :: c in changes ==> c.StringChange? || c.TagUnion? || c.OkSplit?
  }

  predicate NarrowTable(table: Table) {
    forall path :: path in table ==> NarrowsOnly(table[path])
  }

  /** A path the walk reaches from another: it goes on after a dot. */
  predicate Beneath(path: string, deeper: string) {
    path + "." <= deeper
  }

  /** The entries the walk can meet at a path or beneath it only narrow. */
  predicate NarrowUnder(table: Table, path: string) {
    forall p :: p in table && (p == path || Beneath(path, p)) ==> NarrowsOnly(table[p])
  }

  lemma NarrowDown(table: Table, path: string, deeper: string)
    requires NarrowUnder(table, path) && Beneath(path, deeper)
    ensures NarrowUnder(table, deeper)
  {
    forall p | p in table && Beneath(deeper, p) ensures Beneath(path, p) {
      assert deeper <= deeper + "." <= p;
    }
  }

  lemma PathsDescend(path: string, name: string, n: nat)
    ensures Beneath(path, PropPath(path, name)) && Beneath(path, ItemsPath(path)) && Beneath(path, AnyPath(path, n))
  {
    assert PropPath(path, name)[..|path| + 1] == path + ".";
    assert ItemsPath(path)[..|path| + 1] == path + ".";
    assert AnyPath(path, n)[..|path| + 1] == path + ".";
  }

  predicate IsBoundedString(s: Schema) {
    s.Node? && s == StringNode.(minLength := s.minLength, maxLength := s.maxLength, pattern := s.pattern)
  }

  lemma {:induction false} ChangesNarrow(env: Env, s: Schema, changes: seq<Change>, out: Schema, v: Json)
    requires Canonical(s) || IsBoundedString(s)
    requires NarrowsOnly(changes) && ApplyChanges(s, changes) == Ok(out)
    ensures Canonical(out) || IsBoundedString(out)
    ensures Admits(env, out, v) ==> Admits(env, s, v)
    decreases |changes|
  {
    if changes == [] {
    } else {
      assert changes[0] in changes;
      if changes[0].OkSplit? {
        ChangesNarrow(env, s, changes[1..], out, v);
      } else {
        var next := ApplyChange(s, changes[0]).value;
        if changes[0].TagUnion? {
          CollapseCanonical(s, next);
          CollapseMeans(env, s, next, v);
        } else {
          assert s == StringNode && IsBoundedString(next);
        }
        ChangesNarrow(env, next, changes[1..], out, v);
      }
    }
  }

  lemma {:induction false} SplitsNarrow(env: Env, s: Schema, changes: seq<Change>, path: string, out: Schema, v: Json)
    requires s.Node? && ApplyOkSplits(s, changes, path) == Ok(out)
    requires s.types == One(TObject) && s.properties.Props? ==> IsFrame(s) && PlainBooleans(s.properties.ps)
    ensures Admits(env, out, v) ==> Admits(env, s, v)
    decreases |changes|
  {
    if changes == [] {
    } else {
      if changes[0].OkSplit? {
        var next := ApplyOkSplit(s, changes[0].discriminant, changes[0].arms, path).value;
        assert SplitsOn(s, changes[0].discriminant);
        OkSplitExact(env, s, changes[0].discriminant, changes[0].arms, path, next, v);
        SplitsNarrow(env, next, changes[1..], path, out, v);
      } else {
        SplitsNarrow(env, s, changes[1..], path, out, v);
      }
    }
  }

  /** A boolean node carries nothing but its type. */
  predicate PlainBooleans(ps: seq<Prop>) {
    forall i :: 0 <= i < |ps| && ps[i].sub.Node? && ps[i].sub.types == One(TBoolean) ==> ps[i].sub == BooleanNode
  }

  /** What an entry's changes leave for the walk to enter. */
  predicate WalkReady(s: Schema) {
    Canonical(s) || IsBoundedString(s) || s.Imported?
  }

  lemma {:induction false} ChangesReady(s: Schema, changes: seq<Change>, out: Schema)
    requires WalkReady(s) && ApplyChanges(s, changes) == Ok(out)
    ensures WalkReady(out)
    decreases |changes|
  {
    if changes == [] {
    } else {
      if changes[0].OkSplit? {
        ChangesReady(s, changes[1..], out);
      } else {
        var next := ApplyChange(s, changes[0]).value;
        match changes[0] {
          case TagUnion => CollapseCanonical(s, next);
          case StringChange(_, _, _) => assert IsBoundedString(next);
          case StringArm =>
            assert Canonical(s) && Canonical(StringNode);
            assert IsUnion(next) && forall b :: b in next.anyOf.bs ==> b == s || b == StringNode;
          case GeneratedSchema(_) =>
        }
        ChangesReady(next, changes[1..], out);
      }
    }
  }

  lemma CanonicalBoolean(s: Schema)
    requires WalkReady(s) && s.Node? && s.types == One(TBoolean)
    ensures s == BooleanNode
  {
    assert TBoolean in TypeList(s.types) && TBoolean in NonNull(TypeList(s.types));
    assert IsScalar(s);
  }

  lemma VisitedBoolean(s: Schema, path: string, table: Table, loose: bool, out: Visited)
    requires Canonical(s) && Visit(s, path, table, loose) == Ok(out)
    requires out.schema.Node? && out.schema.types == One(TBoolean)
    ensures out.schema == BooleanNode
  {
    if path in table {
      var changed := ApplyChanges(s, table[path]).value;
      ChangesReady(s, table[path], changed);
      var inner := VisitInside(changed, path, table, loose).value;
      SplitsLeaveBoolean(inner.schema, table[path], path, out.schema);
      CanonicalBoolean(changed);
    } else {
      CanonicalBoolean(s);
    }
  }

  /** A split yields a union, so what is still boolean after the splits was boolean before them. */
  lemma {:induction false} SplitsLeaveBoolean(s: Schema, changes: seq<Change>, path: string, out: Schema)
    requires ApplyOkSplits(s, changes, path) == Ok(out)
    requires out.Node? && out.types == One(TBoolean)
    ensures s == out
    decreases |changes|
  {
    if changes == [] {
    } else {
      if changes[0].OkSplit? {
        var next := ApplyOkSplit(s, changes[0].discriminant, changes[0].arms, path).value;
        SplitsLeaveBoolean(next, changes[1..], path, out);
      } else {
        SplitsLeaveBoolean(s, changes[1..], path, out);
      }
    }
  }

  lemma {:induction false} VisitedPropsBooleans(ps: seq<Prop>, required: seq<string>, path: string, table: Table,
                                                loose: bool, out: VisitedProps)
    requires forall p :: p in ps ==> Canonical(p.sub)
    requires VisitProps(ps, required, path, table, loose) == Ok(out)
    ensures PlainBooleans(out.ps)
  {
    if ps == [] {
    } else {
      var first := Visit(Field(ps[0], required), PropPath(path, ps[0].name), table, loose).value;
      var rest := VisitProps(ps[1..], required, path, table, loose).value;
      VisitedPropsBooleans(ps[1..], required, path, table, loose, rest);
      assert ps[0] in ps;
      DropNullCanonical(ps[0].sub);
      if first.schema.Node? && first.schema.types == One(TBoolean) {
        VisitedBoolean(Field(ps[0], required), PropPath(path, ps[0].name), table, loose, first);
      }
    }
  }

  lemma DropNullCanonical(s: Schema)
    requires Canonical(s)
    ensures Canonical(DropNullArm(s))
  {
    var env := Env((x, y) => true, (x, y) => true, (x, y) => true);
    DropNullArmMeans(env, s, Null);
  }

  /** With a narrowing table the strict pass admits a subset of what the prepared schema admits, at every depth. */
  lemma {:induction false} VisitNarrows(env: Env, s: Schema, path: string, table: Table, out: Visited, v: Json)
    requires Canonical(s) && NarrowUnder(table, path) && Visit(s, path, table, false) == Ok(out)
    ensures Admits(env, out.schema, v) ==> Admits(env, s, v)
    decreases EntriesFrom(table, |path|), Height(s), 2, 0
  {
    FewerEntries(table, |path|, |path| + 1);
    if path in table {
      var changed := ApplyChanges(s, table[path]).value;
      var inner := VisitInside(changed, path, table, false).value;
      ChangesNarrow(env, s, table[path], changed, v);
      InsideNarrows(env, changed, path, table, inner, v);
      InsideFrame(changed, path, table, false, inner);
      SplitsNarrow(env, inner.schema, table[path], path, out.schema, v);
    } else {
      InsideNarrows(env, s, path, table, out, v);
    }
  }

  /** Whatever the table, a frame the pass would split is a plain object and its booleans are plain. */
  lemma InsideFrame(s: Schema, path: string, table: Table, loose: bool, out: Visited)
    requires WalkReady(s) && VisitInside(s, path, table, loose) == Ok(out)
    ensures out.schema.Node? <==> s.Node?
    ensures out.schema.Node? && out.schema.types == One(TObject) && out.schema.properties.Props? ==>
      IsFrame(out.schema) && PlainBooleans(out.schema.properties.ps)
  {
    if s.Node? && s.properties.Props? {
      var props := VisitProps(s.properties.ps, RequiredOf(s), path, table, loose).value;
      VisitedPropsBooleans(s.properties.ps, RequiredOf(s), path, table, loose, props);
    }
  }

  /** So every split the pass performs meets the terms under which a split is exact. */
  lemma PassSplitsExactly(s: Schema, path: string, table: Table, loose: bool, inner: Visited,
                          discriminant: string, arms: seq<Arm>)
    requires WalkReady(s) && VisitInside(s, path, table, loose) == Ok(inner)
    requires ApplyOkSplit(inner.schema, discriminant, arms, path).Ok?
    ensures SplitsOn(inner.schema, discriminant)
  {
    InsideFrame(s, path, table, loose, inner);
    var ps := inner.schema.properties.ps;
    var i :| 0 <= i < |ps| && ps[i] == Prop(discriminant, Lookup(ps, discriminant));
  }

  lemma {:induction false} InsideNarrows(env: Env, s: Schema, path: string, table: Table, out: Visited, v: Json)
    requires (Canonical(s) || IsBoundedString(s)) && NarrowUnder(table, path)
    requires VisitInside(s, path, table, false) == Ok(out)
    ensures Admits(env, out.schema, v) ==> Admits(env, s, v)
    decreases EntriesFrom(table, |path| + 1), Height(s), 1, 0
  {
    if Admits(env, out.schema, v) {
      if IsUnion(s) {
        var any := VisitAll(s.anyOf.bs, 0, path, table, false).value;
        UnionMeans(env, out.schema, v);
        var i :| 0 <= i < |any.bs| && Admits(env, any.bs[i], v);
        AllNarrow(env, s.anyOf.bs, 0, path, table, any, i, v);
        UnionMeans(env, s, v);
      } else if IsObject(s) {
        ObjectNarrows(env, s, path, table, out, v);
      } else if IsArray(s) {
        ArrayNarrows(env, s, path, table, out, v);
      }
    }
  }

  lemma {:induction false} ArrayNarrows(env: Env, s: Schema, path: string, table: Table, out: Visited, v: Json)
    requires IsArray(s) && Canonical(s) && NarrowUnder(table, path)
    requires VisitInside(s, path, table, false) == Ok(out) && Admits(env, out.schema, v)
    ensures Admits(env, s, v)
    decreases EntriesFrom(table, |path| + 1), Height(s), 0, 1
  {
    var items := Visit(s.items.s, ItemsPath(path), table, false).value;
    assert out.schema == s.(items := Sub(items.schema));
    if v.Arr? {
      assert ItemsOk(env, out.schema, v.elems);
      forall i | 0 <= i < |v.elems| ensures Admits(env, s.items.s, v.elems[i]) {
        ItemNarrows(env, s, path, table, items, v.elems[i]);
      }
      assert ItemsOk(env, s, v.elems);
    }
    assert LeafOk(env, s, v);
  }

  lemma {:induction false} ItemNarrows(env: Env, s: Schema, path: string, table: Table, out: Visited, v: Json)
    requires s.Node? && s.items.Sub? && Canonical(s.items.s) && NarrowUnder(table, path)
    requires Visit(s.items.s, ItemsPath(path), table, false) == Ok(out)
    ensures Admits(env, out.schema, v) ==> Admits(env, s.items.s, v)
    decreases EntriesFrom(table, |path| + 1), Height(s), 0, 0
  {
    PathsDescend(path, "", 0);
    NarrowDown(table, path, ItemsPath(path));
    FewerEntries(table, |path| + 1, |ItemsPath(path)|);
    VisitNarrows(env, s.items.s, ItemsPath(path), table, out, v);
  }

  lemma {:induction false} ObjectNarrows(env: Env, s: Schema, path: string, table: Table, out: Visited, v: Json)
    requires IsObject(s) && Canonical(s) && NarrowUnder(table, path)
    requires VisitInside(s, path, table, false) == Ok(out) && Admits(env, out.schema, v)
    ensures Admits(env, s, v)
    decreases EntriesFrom(table, |path| + 1), Height(s), 0, 0
  {
    OnlyObjects(env, out.schema, v);
    var ps := s.properties.ps;
    var props := VisitProps(ps, RequiredOf(s), path, table, false).value;
    forall k | k in v.members ensures Declares(ps, k) && Admits(env, Lookup(ps, k), v.members[k]) {
      MemberAdmitted(env, out.schema, v, k);
      PropsNarrow(env, ps, RequiredOf(s), path, table, props, k, v.members[k]);
    }
    assert LeafOk(env, out.schema, v) && MembersOk(env, s, v.members);
  }

  lemma {:induction false} PropsNarrow(env: Env, ps: seq<Prop>, required: seq<string>, path: string, table: Table,
                                       out: VisitedProps, k: string, v: Json)
    requires NarrowUnder(table, path) && forall p :: p in ps ==> Canonical(p.sub)
    requires VisitProps(ps, required, path, table, false) == Ok(out)
    ensures Declares(out.ps, k) <==> Declares(ps, k)
    ensures Declares(ps, k) && Admits(env, Lookup(out.ps, k), v) ==> Admits(env, Lookup(ps, k), v)
    decreases EntriesFrom(table, |path| + 1), HeightOfProps(ps), 3, |ps|
  {
    if ps == [] {
      assert out.ps == [];
    } else {
      var first := Visit(Field(ps[0], required), PropPath(path, ps[0].name), table, false).value;
      var rest := VisitProps(ps[1..], required, path, table, false).value;
      assert ps[0] in ps && out.ps[0] == Prop(ps[0].name, first.schema) && out.ps[1..] == rest.ps;
      FieldNarrows(env, ps, required, path, table, first, v);
      PropsNarrow(env, ps[1..], required, path, table, rest, k, v);
      Headed(ps, k);
      Headed(out.ps, k);
    }
  }

  lemma {:induction false} FieldNarrows(env: Env, ps: seq<Prop>, required: seq<string>, path: string, table: Table,
                                        out: Visited, v: Json)
    requires ps != [] && NarrowUnder(table, path) && Canonical(ps[0].sub)
    requires Visit(Field(ps[0], required), PropPath(path, ps[0].name), table, false) == Ok(out)
    ensures Admits(env, out.schema, v) ==> Admits(env, ps[0].sub, v)
    decreases EntriesFrom(table, |path| + 1), HeightOfProps(ps), 3, 0
  {
    var at := PropPath(path, ps[0].name);
    PathsDescend(path, ps[0].name, 0);
    NarrowDown(table, path, at);
    DropNullArmMeans(env, ps[0].sub, v);
    DroppedHeight(ps[0].sub);
    FewerEntries(table, |path| + 1, |at|);
    VisitNarrows(env, Field(ps[0], required), at, table, out, v);
  }

  lemma Headed(ps: seq<Prop>, k: string)
    requires ps != []
    ensures Declares(ps, k) <==> ps[0].name == k || Declares(ps[1..], k)
  {
    if Declares(ps, k) {
      var i :| 0 <= i < |ps| && ps[i].name == k;
      assert i > 0 ==> ps[1..][i - 1].name == k;
    }
    if Declares(ps[1..], k) {
      var i :| 0 <= i < |ps[1..]| && ps[1..][i].name == k;
      assert ps[i + 1].name == k;
    }
  }

  /** The walk keeps the names and walks the first declaration of each. */
  lemma {:induction false} WalkedLookup(ps: seq<Prop>, required: seq<string>, path: string, table: Table,
                                        out: VisitedProps, k: string)
    requires VisitProps(ps, required, path, table, false) == Ok(out)
    ensures Declares(out.ps, k) <==> Declares(ps, k)
    ensures Declares(ps, k) ==>
      var walked := Visit(Field(Prop(k, Lookup(ps, k)), required), PropPath(path, k), table, false);
      walked.Ok? && walked.value.schema == Lookup(out.ps, k)
    decreases |ps|
  {
    if ps == [] {
      assert out.ps == [];
    } else {
      var first := Visit(Field(ps[0], required), PropPath(path, ps[0].name), table, false).value;
      var rest := VisitProps(ps[1..], required, path, table, false).value;
      assert out.ps[0] == Prop(ps[0].name, first.schema) && out.ps[1..] == rest.ps;
      WalkedLookup(ps[1..], required, path, table, rest, k);
      Headed(ps, k);
      Headed(out.ps, k);
    }
  }

  lemma {:induction false} AllNarrow(env: Env, bs: seq<Schema>, n: nat, path: string, table: Table,
                                     out: VisitedAll, i: nat, v: Json)
    requires NarrowUnder(table, path) && forall b :: b in bs ==> Canonical(b)
    requires VisitAll(bs, n, path, table, false) == Ok(out)
    requires i < |out.bs| && Admits(env, out.bs[i], v)
    ensures i < |bs| && Admits(env, bs[i], v)
    decreases EntriesFrom(table, |path| + 1), HeightOfAll(bs), 3, |bs|
  {
    assert bs != [];
    var first := Visit(bs[0], AnyPath(path, n), table, false).value;
    var rest := VisitAll(bs[1..], n + 1, path, table, false).value;
    assert bs[0] in bs && out.bs == [first.schema] + rest.bs;
    if i == 0 {
      BranchNarrows(env, bs, n, path, table, first, v);
    } else {
      AllNarrow(env, bs[1..], n + 1, path, table, rest, i - 1, v);
    }
  }

  lemma {:induction false} BranchNarrows(env: Env, bs: seq<Schema>, n: nat, path: string, table: Table,
                                         out: Visited, v: Json)
    requires bs != [] && NarrowUnder(table, path) && Canonical(bs[0])
    requires Visit(bs[0], AnyPath(path, n), table, false) == Ok(out)
    ensures Admits(env, out.schema, v) ==> Admits(env, bs[0], v)
    decreases EntriesFrom(table, |path| + 1), HeightOfAll(bs), 3, 0
  {
    PathsDescend(path, "", n);
    NarrowDown(table, path, AnyPath(path, n));
    FewerEntries(table, |path| + 1, |AnyPath(path, n)|);
    VisitNarrows(env, bs[0], AnyPath(path, n), table, out, v);
  }

  /** The enforced validator of a narrowing table only ever refuses more than the faithful base. */
  lemma EnforcedNarrows(env: Env, rust: Schema, base: Schema, table: Table, enforced: Schema, v: Json)
    requires Prepare.Prepare(rust) == Ok(base)
    requires NarrowTable(table) && ApplyAsymmetries(base, table, false) == Ok(enforced)
    ensures Admits(env, enforced, v) ==> Admits(env, rust, v)
  {
    PreparedIsCanonical(rust, base);
    assert NarrowUnder(table, "$");
    VisitNarrows(env, base, "$", table, Visit(base, "$", table, false).value, v);
    PreparePreservesMeaning(env, rust, base, v);
  }
}
