/**
 The discriminated-union test (`assertDiscriminated`): object branches sharing one required key whose const
 differs in every branch. It is rule G3 over the Rust input and rule R4 over the emitted validators.
 */
module Discriminated {
  import opened Wrappers
  import opened Schemas

  datatype TagKind = StringTag | AnyTag

  /** The const the branch pins `k` to, when the branch declares `k` with one of the wanted kind. */
  function TagOf(b: Schema, k: string, kind: TagKind): Option<Json>
    requires b.Node?
  {
    if Declares(PropsOf(b), k) && Lookup(PropsOf(b), k).Node? then
      var c := Lookup(PropsOf(b), k).constant;
      if c.Some? && (kind.AnyTag? || c.value.Str?) then c else None
    else None
  }

  predicate IsObjectBranch(b: Schema) {
    b.Node? && b.types == One(TObject) && b.properties.Props?
  }

  predicate Tags(b: Schema, k: string, kind: TagKind) {
    IsObjectBranch(b) && TagOf(b, k, kind).Some? && k in RequiredOf(b)
  }

  /** `k` tells the branches apart: each pins it, requires it, and no two pin the same const. */
  predicate Discriminates(bs: seq<Schema>, k: string, kind: TagKind) {
    && (forall i :: 0 <= i < |bs| ==> Tags(bs[i], k, kind))
    && (forall i, j :: 0 <= i < j < |bs| ==> TagOf(bs[i], k, kind) != TagOf(bs[j], k, kind))
  }

  /** The first declared name of `ps` that discriminates `bs`. */
  function FirstTag(ps: seq<Prop>, bs: seq<Schema>, kind: TagKind): (r: Option<string>)
    ensures r.Some? ==> Declares(ps, r.value) && Discriminates(bs, r.value, kind)
    ensures r.None? ==> forall k :: Declares(ps, k) ==> !Discriminates(bs, k, kind)
  {
    if ps == [] then None
    else if Discriminates(bs, ps[0].name, kind) then Some(ps[0].name)
    else
      assert forall k :: Declares(ps, k) ==> k == ps[0].name || Declares(ps[1..], k) by {
        forall k | Declares(ps, k) ensures k == ps[0].name || Declares(ps[1..], k) {
          var i :| 0 <= i < |ps| && ps[i].name == k;
          assert i > 0 ==> ps[1..][i - 1].name == k;
        }
      }
      var r := FirstTag(ps[1..], bs, kind);
      assert r.Some? ==> Declares(ps, r.value) by {
        if r.Some? {
          var i :| 0 <= i < |ps[1..]| && ps[1..][i].name == r.value;
          assert ps[i + 1].name == r.value;
        }
      }
      r
  }

  /** The discriminating key of a union, if it has one: the first such property of the first branch. */
  function FindTag(bs: seq<Schema>, kind: TagKind): (r: Option<string>)
    ensures r.Some? ==> bs != [] && Discriminates(bs, r.value, kind)
    ensures r.None? && bs != [] ==> forall k :: !Discriminates(bs, k, kind)
  {
    if bs == [] || !bs[0].Node? then None
    else FirstTag(PropsOf(bs[0]), bs, kind)
  }

  /** The key found is the first of the first branch's names that discriminates. */
  lemma {:induction false} TagIsFirst(ps: seq<Prop>, bs: seq<Schema>, kind: TagKind) returns (i: nat)
    requires FirstTag(ps, bs, kind).Some?
    ensures i < |ps| && FirstTag(ps, bs, kind) == Some(ps[i].name)
    ensures forall j :: 0 <= j < i ==> !Discriminates(bs, ps[j].name, kind)
    decreases |ps|
  {
    if Discriminates(bs, ps[0].name, kind) {
      i := 0;
    } else {
      i := TagIsFirst(ps[1..], bs, kind);
      assert forall j :: 0 < j <= i + 1 ==> ps[j] == ps[1..][j - 1];
      i := i + 1;
    }
  }

  /** The source's nested loops over candidate keys and branches find exactly that key. */
  method AssertDiscriminated(bs: seq<Schema>, kind: TagKind) returns (r: Option<string>)
    ensures r == FindTag(bs, kind)
  {
    if bs == [] || !bs[0].Node? || !bs[0].properties.Props? {
      return None;
    }
    for i := 0 to |bs|
      invariant forall j :: 0 <= j < i ==> IsObjectBranch(bs[j])
    {
      if !IsObjectBranch(bs[i]) {
        assert forall k :: !Discriminates(bs, k, kind);
        return None;
      }
    }
    var names := bs[0].properties.ps;
    for c := 0 to |names|
      invariant FirstTag(names, bs, kind) == FirstTag(names[c..], bs, kind)
    {
      var good := TellsApart(bs, names[c].name, kind);
      assert names[c..][0] == names[c] && names[c..][1..] == names[c + 1..];
      if good {
        return Some(names[c].name);
      }
    }
    return None;
  }

  /** `tags` are the consts the branches pin `k` to, none of them twice. */
  ghost predicate PinnedApart(bs: seq<Schema>, k: string, kind: TagKind, tags: seq<Json>) {
    && |tags| == |bs|
    && (forall i :: 0 <= i < |bs| ==> Tags(bs[i], k, kind) && TagOf(bs[i], k, kind) == Some(tags[i]))
    && (forall i, j :: 0 <= i < j < |tags| ==> tags[i] != tags[j])
  }

  lemma PinnedApartExtends(bs: seq<Schema>, k: string, kind: TagKind, tags: seq<Json>, b: Schema)
    requires PinnedApart(bs, k, kind, tags) && IsObjectBranch(b)
    ensures Discriminates(bs, k, kind)
    ensures Tags(b, k, kind) && TagOf(b, k, kind).value !in tags ==>
      PinnedApart(bs + [b], k, kind, tags + [TagOf(b, k, kind).value])
    ensures Tags(b, k, kind) && TagOf(b, k, kind).value in tags ==>
      exists i :: 0 <= i < |bs| && TagOf(bs[i], k, kind) == TagOf(b, k, kind)
  {
  }

  /** The inner loop: every branch pins the candidate, requires it, and its const was not seen before. */
  method TellsApart(bs: seq<Schema>, k: string, kind: TagKind) returns (good: bool)
    requires forall i :: 0 <= i < |bs| ==> IsObjectBranch(bs[i])
    ensures good == Discriminates(bs, k, kind)
  {
    var seen: set<Json> := {};
    ghost var tags: seq<Json> := [];
    for i := 0 to |bs|
      invariant PinnedApart(bs[..i], k, kind, tags)
      invariant forall c :: c in seen <==> c in tags
    {
      var tag := TagOf(bs[i], k, kind);
      PinnedApartExtends(bs[..i], k, kind, tags, bs[i]);
      if tag.None? || tag.value in seen || k !in RequiredOf(bs[i]) {
        return false;
      }
      assert bs[..i] + [bs[i]] == bs[..i + 1];
      seen := seen + {tag.value};
      tags := tags + [tag.value];
    }
    assert bs[..|bs|] == bs;
    if bs != [] { PinnedApartExtends(bs, k, kind, tags, bs[0]); }
    return true;
  }

  /** At most one branch of a discriminated union admits any value. */
  lemma AtMostOneBranch(env: Env, bs: seq<Schema>, k: string, kind: TagKind, v: Json, i: nat, j: nat)
    requires Discriminates(bs, k, kind) && i < |bs| && j < |bs|
    requires Admits(env, bs[i], v) && Admits(env, bs[j], v)
    ensures i == j
  {
    TagPinned(env, bs[i], k, kind, v);
    TagPinned(env, bs[j], k, kind, v);
  }

  /** A tagged branch admits only objects whose tag member is the branch's const. */
  lemma TagPinned(env: Env, b: Schema, k: string, kind: TagKind, v: Json)
    requires Tags(b, k, kind) && Admits(env, b, v)
    ensures v.Obj? && k in v.members && TagOf(b, k, kind) == Some(v.members[k])
  {
    assert IsType(TObject, v);
    assert k in v.members;
    assert Admits(env, Lookup(PropsOf(b), k), v.members[k]);
  }
}
