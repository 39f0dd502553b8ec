/**
 The split of a verdict frame on its boolean discriminant is exact: it admits a frame exactly when the frame
 was admitted and the arm its discriminant selects finds its required fields present and its forbidden ones
 absent. One arm admits any such value, and the arms pass the discrimination check of rule R4.
 */
module OkSplits {
  import opened Wrappers
  import opened Schemas
  import opened Discriminated
  import opened Asymmetry

  /** An object node with nothing beside its members, closed or open. */
  predicate IsFrame(s: Schema) {
    && s.Node? && s.properties.Props?
    && s == Any.(types := One(TObject), properties := s.properties, required := s.required,
                 additional := s.additional)
  }

  /** The discriminant is a declared, required, plain boolean. */
  predicate SplitsOn(s: Schema, discriminant: string) {
    && IsFrame(s) && Declares(s.properties.ps, discriminant) && discriminant in RequiredOf(s)
    && Lookup(s.properties.ps, discriminant) == BooleanNode
  }

  predicate Fits(arm: Arm, ms: map<string, Json>) {
    && (forall k :: k in arm.required ==> k in ms)
    && (forall k :: k in arm.forbidden ==> k !in ms)
  }

  function Selected(arms: seq<Arm>, b: bool): Arm
    requires |arms| == 2
  {
    if arms[0].when == b then arms[0] else arms[1]
  }

  // ---- One arm -----------------------------------------------------------------

  lemma {:induction false} ForbidMeans(ps: seq<Prop>, required: seq<string>, forbidden: seq<string>, k: string)
    requires Forbid(ps, required, forbidden).Ok?
    ensures var out := Forbid(ps, required, forbidden).value;
      && (Declares(out, k) <==> Declares(ps, k))
      && (Declares(ps, k) ==> Lookup(out, k) == if k in forbidden then Truth(false) else Lookup(ps, k))
    ensures k in forbidden ==> Declares(ps, k) && k !in required
    decreases |forbidden|
  {
    if forbidden == [] {
    } else {
      var next := Retyped(ps, forbidden[0], Truth(false));
      RetypedLookup(ps, forbidden[0], Truth(false), k);
      ForbidMeans(next, required, forbidden[1..], k);
    }
  }

  lemma ArmProps(s: Schema, discriminant: string, arm: Arm, out: Schema, k: string)
    requires SplitsOn(s, discriminant) && ArmOf(s, discriminant, arm) == Ok(out)
    ensures out.Node? && out.properties.Props? && out == s.(properties := out.properties, required := out.required)
    ensures k in RequiredOf(out) <==> k in RequiredOf(s) || k in arm.required
    ensures Declares(out.properties.ps, k) <==> Declares(s.properties.ps, k)
    ensures Declares(s.properties.ps, k) ==>
      Lookup(out.properties.ps, k) ==
        if k in arm.forbidden then Truth(false)
        else if k == discriminant then BooleanNode.(constant := Some(Bool(arm.when)))
        else Lookup(s.properties.ps, k)
    ensures k in arm.forbidden ==> Declares(s.properties.ps, k) && k !in RequiredOf(out)
  {
    var tagged := BooleanNode.(constant := Some(Bool(arm.when)));
    RetypedLookup(s.properties.ps, discriminant, tagged, k);
    ForbidMeans(Retyped(s.properties.ps, discriminant, tagged), RequiredOf(out), arm.forbidden, k);
  }

  lemma ArmMember(env: Env, s: Schema, discriminant: string, arm: Arm, out: Schema, ms: map<string, Json>, k: string)
    requires SplitsOn(s, discriminant) && ArmOf(s, discriminant, arm) == Ok(out)
    requires k in ms && Declares(s.properties.ps, k)
    ensures Declares(out.properties.ps, k)
    ensures Admits(env, Lookup(out.properties.ps, k), ms[k]) <==>
      && k !in arm.forbidden
      && Admits(env, Lookup(s.properties.ps, k), ms[k])
      && (k == discriminant ==> ms[k] == Bool(arm.when))
  {
    ArmProps(s, discriminant, arm, out, k);
    if k == discriminant {
      assert forall x :: x in TypeList(One(TBoolean)) ==> x == TBoolean;
      assert TBoolean in TypeList(One(TBoolean));
    }
  }

  lemma ArmMembers(env: Env, s: Schema, discriminant: string, arm: Arm, out: Schema, ms: map<string, Json>)
    requires SplitsOn(s, discriminant) && ArmOf(s, discriminant, arm) == Ok(out) && discriminant in ms
    ensures MembersOk(env, out, ms) <==>
      && MembersOk(env, s, ms) && ms[discriminant] == Bool(arm.when)
      && forall k :: k in arm.forbidden ==> k !in ms
  {
    forall k | k in ms
      ensures Declares(PropsOf(out), k) <==> Declares(PropsOf(s), k)
      ensures Declares(PropsOf(s), k) ==>
        (Admits(env, Lookup(PropsOf(out), k), ms[k]) <==>
           && k !in arm.forbidden && Admits(env, Lookup(PropsOf(s), k), ms[k])
           && (k == discriminant ==> ms[k] == Bool(arm.when)))
      ensures k in arm.forbidden ==> Declares(PropsOf(s), k)
    {
      ArmProps(s, discriminant, arm, out, k);
      if Declares(PropsOf(s), k) { ArmMember(env, s, discriminant, arm, out, ms, k); }
    }
    ArmProps(s, discriminant, arm, out, discriminant);
  }

  /** One arm admits the frames of its own discriminant value that fit it. */
  lemma ArmMeans(env: Env, s: Schema, discriminant: string, arm: Arm, out: Schema, v: Json)
    requires SplitsOn(s, discriminant) && ArmOf(s, discriminant, arm) == Ok(out)
    ensures Admits(env, out, v) <==>
      && Admits(env, s, v) && v.Obj? && discriminant in v.members
      && v.members[discriminant] == Bool(arm.when) && Fits(arm, v.members)
  {
    ArmProps(s, discriminant, arm, out, discriminant);
    if v.Obj? {
      forall k ensures k in RequiredOf(out) <==> k in RequiredOf(s) || k in arm.required {
        ArmProps(s, discriminant, arm, out, k);
      }
      ArmLeaf(env, s, arm, out, v);
      if discriminant in v.members { ArmMembers(env, s, discriminant, arm, out, v.members); }
    } else {
      if Admits(env, out, v) { OnlyObjects(env, out, v); }
    }
  }

  lemma ArmLeaf(env: Env, s: Schema, arm: Arm, out: Schema, v: Json)
    requires s.Node? && out.Node? && out == s.(properties := out.properties, required := out.required)
    requires v.Obj? && out.required.Some?
    requires forall k :: k in RequiredOf(out) <==> k in RequiredOf(s) || k in arm.required
    ensures LeafOk(env, out, v) <==> LeafOk(env, s, v) && forall k :: k in arm.required ==> k in v.members
  {
    assert RequiredOf(out) == out.required.value;
    assert (forall k :: k in RequiredOf(out) ==> k in v.members) <==>
      (forall k :: k in RequiredOf(s) ==> k in v.members) && (forall k :: k in arm.required ==> k in v.members);
  }

  // ---- The split ---------------------------------------------------------------

  /** The split admits exactly the frames that fit the arm their discriminant selects. */
  lemma OkSplitExact(env: Env, s: Schema, discriminant: string, arms: seq<Arm>, path: string, out: Schema, v: Json)
    requires SplitsOn(s, discriminant) && ApplyOkSplit(s, discriminant, arms, path) == Ok(out)
    ensures Admits(env, out, v) <==>
      && Admits(env, s, v) && v.Obj? && discriminant in v.members && v.members[discriminant].Bool?
      && Fits(Selected(arms, v.members[discriminant].b), v.members)
  {
    var a, b := out.anyOf.bs[0], out.anyOf.bs[1];
    ArmMeans(env, s, discriminant, arms[0], a, v);
    ArmMeans(env, s, discriminant, arms[1], b, v);
    TwoBranches(env, a, b, v);
  }

  lemma TwoBranches(env: Env, a: Schema, b: Schema, v: Json)
    ensures Admits(env, Any.(anyOf := Branches([a, b])), v) <==> Admits(env, a, v) || Admits(env, b, v)
  {
    var s := Any.(anyOf := Branches([a, b]));
    assert s.anyOf.bs[0] == a && s.anyOf.bs[1] == b;
    assert SomeBranch(env, s, v) <==> Admits(env, a, v) || Admits(env, b, v);
  }

  /** No value is admitted by both arms. */
  lemma OneArmOnly(env: Env, s: Schema, discriminant: string, arms: seq<Arm>, path: string, out: Schema, v: Json)
    requires SplitsOn(s, discriminant) && ApplyOkSplit(s, discriminant, arms, path) == Ok(out)
    ensures !(Admits(env, out.anyOf.bs[0], v) && Admits(env, out.anyOf.bs[1], v))
  {
    ArmMeans(env, s, discriminant, arms[0], out.anyOf.bs[0], v);
    ArmMeans(env, s, discriminant, arms[1], out.anyOf.bs[1], v);
  }

  /** The arms pass rule R4, and the key that tells them apart is the discriminant. */
  lemma ArmsDiscriminated(s: Schema, discriminant: string, arms: seq<Arm>, path: string, out: Schema)
    requires SplitsOn(s, discriminant) && ApplyOkSplit(s, discriminant, arms, path) == Ok(out)
    ensures FindTag(out.anyOf.bs, AnyTag) == Some(discriminant)
  {
    var a, b := out.anyOf.bs[0], out.anyOf.bs[1];
    assert out.anyOf.bs == [a, b];
    ArmTag(s, discriminant, arms[0], a);
    ArmTag(s, discriminant, arms[1], b);
    forall k | k != discriminant && Tags(a, k, AnyTag) && Tags(b, k, AnyTag)
      ensures TagOf(a, k, AnyTag) == TagOf(b, k, AnyTag)
    {
      OtherKeysAgree(s, discriminant, arms[0], a, arms[1], b, k);
    }
    OnlyTag(a, b, discriminant);
  }

  lemma OnlyTag(a: Schema, b: Schema, tag: string)
    requires Tags(a, tag, AnyTag) && Tags(b, tag, AnyTag) && TagOf(a, tag, AnyTag) != TagOf(b, tag, AnyTag)
    requires forall k :: k != tag && Tags(a, k, AnyTag) && Tags(b, k, AnyTag) ==>
      TagOf(a, k, AnyTag) == TagOf(b, k, AnyTag)
    ensures FindTag([a, b], AnyTag) == Some(tag)
  {
    assert Discriminates([a, b], tag, AnyTag);
    forall k | Discriminates([a, b], k, AnyTag) ensures k == tag {
      assert Tags([a, b][0], k, AnyTag) && Tags([a, b][1], k, AnyTag);
      assert TagOf([a, b][0], k, AnyTag) != TagOf([a, b][1], k, AnyTag);
    }
  }

  lemma ArmTag(s: Schema, discriminant: string, arm: Arm, out: Schema)
    requires SplitsOn(s, discriminant) && ArmOf(s, discriminant, arm) == Ok(out)
    ensures Tags(out, discriminant, AnyTag) && TagOf(out, discriminant, AnyTag) == Some(Bool(arm.when))
  {
    ArmProps(s, discriminant, arm, out, discriminant);
  }

  /** On any other key the arms carry the frame's own const, or forbid the key. */
  lemma OtherKeysAgree(s: Schema, discriminant: string, arm: Arm, out: Schema, arm': Arm, out': Schema, k: string)
    requires SplitsOn(s, discriminant) && k != discriminant
    requires ArmOf(s, discriminant, arm) == Ok(out) && ArmOf(s, discriminant, arm') == Ok(out')
    requires Tags(out, k, AnyTag) && Tags(out', k, AnyTag)
    ensures TagOf(out, k, AnyTag) == TagOf(out', k, AnyTag)
  {
    ArmProps(s, discriminant, arm, out, k);
    ArmProps(s, discriminant, arm', out', k);
  }

  // ---- When the split applies ----------------------------------------------------

  /** An arm the frame can take: its fields declared, and none both required and forbidden. */
  predicate ArmFits(s: Schema, arm: Arm)
    requires s.Node? && s.properties.Props?
  {
    && (forall k :: k in arm.required ==> Declares(s.properties.ps, k))
    && (forall k :: k in arm.forbidden ==>
          Declares(s.properties.ps, k) && k !in RequiredOf(s) && k !in arm.required)
  }

  lemma {:induction false} ForbidOkIff(ps: seq<Prop>, required: seq<string>, forbidden: seq<string>)
    ensures Forbid(ps, required, forbidden).Ok? <==> forall k :: k in forbidden ==> Declares(ps, k) && k !in required
    decreases |forbidden|
  {
    if forbidden == [] {
    } else {
      var next := Retyped(ps, forbidden[0], Truth(false));
      forall k ensures Declares(next, k) <==> Declares(ps, k) { RetypedLookup(ps, forbidden[0], Truth(false), k); }
      ForbidOkIff(next, required, forbidden[1..]);
      assert forall k :: k in forbidden <==> k == forbidden[0] || k in forbidden[1..];
    }
  }

  lemma ArmOkIff(s: Schema, discriminant: string, arm: Arm)
    requires s.Node? && s.properties.Props?
    ensures ArmOf(s, discriminant, arm).Ok? <==> ArmFits(s, arm)
  {
    var tagged := BooleanNode.(constant := Some(Bool(arm.when)));
    var ps := Retyped(s.properties.ps, discriminant, tagged);
    var required := AddNames(AddNames([], RequiredOf(s)), arm.required);
    forall k ensures Declares(ps, k) <==> Declares(s.properties.ps, k) {
      RetypedLookup(s.properties.ps, discriminant, tagged, k);
    }
    ForbidOkIff(ps, required, arm.forbidden);
  }

  /** The split is refused exactly when the frame has no required boolean discriminant or an arm does not fit. */
  lemma SplitAppliesIff(s: Schema, discriminant: string, arms: seq<Arm>, path: string)
    ensures ApplyOkSplit(s, discriminant, arms, path).Ok? <==>
      CanSplit(s, discriminant, arms, path) && ArmFits(s, arms[0]) && ArmFits(s, arms[1])
  {
    if CanSplit(s, discriminant, arms, path) {
      ArmOkIff(s, discriminant, arms[0]);
      ArmOkIff(s, discriminant, arms[1]);
    }
  }
}
