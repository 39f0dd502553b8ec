/**
 The request reader as it ships: the first stage is the enforced envelope, the prepared one walked with the
 request's asymmetry table, whose `args` entry is the merged bag. It is compared with the flattened schema.
 */
module RequestReader {
  import opened Wrappers
  import opened Schemas
  import opened Discriminated
  import opened Prepare
  import opened Request
  import opened Parse
  import opened Asymmetry
  import opened Narrowing
  import opened Demanded

  /** `args` is the bag, `op` is still the envelope's own string, and nothing is done to the frame as a whole. */
  ghost predicate IsRequestTable(table: Table, bag: Schema) {
    && "$" !in table
    && PropPath("$", "args") in table && table[PropPath("$", "args")] == [GeneratedSchema(bag)]
    && (PropPath("$", "op") in table ==> forall c :: c in table[PropPath("$", "op")] ==> !c.GeneratedSchema?)
  }

  /** What the generators ship for one flattened request schema. */
  ghost predicate Shipped(f: Schema, base: Schema, ops: seq<Command>, bag: Schema, table: Table, enforced: Schema) {
    && Generated(f, base, ops, bag)
    && IsRequestTable(table, bag) && ApplyAsymmetries(base, table, false) == Ok(enforced)
  }

  // ---- The enforced envelope -------------------------------------------------------

  /** Off the root an entry with a split is refused, so what comes out is what the changes gave. */
  lemma {:induction false} SplitsOffRoot(s: Schema, changes: seq<Change>, path: string, out: Schema)
    requires path != "$" && ApplyOkSplits(s, changes, path) == Ok(out)
    ensures out == s
    decreases |changes|
  {
    if changes == [] {
      assert out == s;
    } else {
      SplitsOffRoot(s, changes[1..], path, out);
    }
  }

  lemma {:induction false} StringStays(s: Schema, changes: seq<Change>, out: Schema)
    requires IsBoundedString(s) && ApplyChanges(s, changes) == Ok(out)
    requires forall c :: c in changes ==> !c.GeneratedSchema?
    ensures IsBoundedString(out)
    decreases |changes|
  {
    if changes == [] {
      assert out == s;
    } else {
      assert changes[0] in changes;
      if changes[0].OkSplit? {
        StringStays(s, changes[1..], out);
      } else {
        StringStays(ApplyChange(s, changes[0]).value, changes[1..], out);
      }
    }
  }

  lemma WalkedOp(table: Table, bag: Schema, out: Visited)
    requires IsRequestTable(table, bag) && Visit(StringNode, PropPath("$", "op"), table, false) == Ok(out)
    ensures IsBoundedString(out.schema)
  {
    var at := PropPath("$", "op");
    if at in table {
      var changed := ApplyChanges(StringNode, table[at]).value;
      StringStays(StringNode, table[at], changed);
      SplitsOffRoot(changed, table[at], at, out.schema);
    }
  }

  lemma WalkedArgs(table: Table, bag: Schema, out: Visited)
    requires IsRequestTable(table, bag) && Visit(Any, PropPath("$", "args"), table, false) == Ok(out)
    ensures out.schema == Imported(bag)
  {
    var at, c := PropPath("$", "args"), GeneratedSchema(bag);
    assert [c][1..] == [] && ApplyChanges(Imported(bag), []) == Ok(Imported(bag));
    assert ApplyChanges(Any, [c]) == Ok(Imported(bag));
    SplitsOffRoot(Imported(bag), table[at], at, out.schema);
  }

  /** The enforced envelope is the prepared one with each property walked. */
  lemma EnforcedShape(base: Schema, table: Table, bag: Schema, enforced: Schema, k: string)
    requires IsObject(base) && IsRequestTable(table, bag) && ApplyAsymmetries(base, table, false) == Ok(enforced)
    ensures enforced.Node? && enforced.properties.Props?
    ensures enforced == base.(properties := enforced.properties)
    ensures Declares(enforced.properties.ps, k) <==> Declares(base.properties.ps, k)
    ensures Declares(base.properties.ps, k) ==>
      var field := Field(Prop(k, Lookup(base.properties.ps, k)), RequiredOf(base));
      var walked := Visit(field, PropPath("$", k), table, false);
      walked.Ok? && walked.value.schema == Lookup(enforced.properties.ps, k)
  {
    var visited := Visit(base, "$", table, false).value;
    assert VisitInside(base, "$", table, false) == Ok(visited);
    var props := VisitProps(base.properties.ps, RequiredOf(base), "$", table, false).value;
    WalkedLookup(base.properties.ps, RequiredOf(base), "$", table, props, k);
  }

  lemma BaseShape(f: Schema, base: Schema)
    requires IsFlattened(f) && Prepare.Prepare(EnvelopeOf(f)) == Ok(base)
    ensures IsObject(base) && base.types == One(TObject)
    ensures base.required == EnvelopeOf(f).required && "op" in RequiredOf(base) && "args" in RequiredOf(base)
    ensures Declares(base.properties.ps, "op") && Lookup(base.properties.ps, "op") == StringNode
    ensures Declares(base.properties.ps, "args") && Lookup(base.properties.ps, "args") == Any
  {
    PlainNodesPrepare();
    EnvelopeDeclares(f, "op");
    EnvelopeDeclares(f, "args");
    PreparedObject(EnvelopeOf(f), base, "op");
    PreparedObject(EnvelopeOf(f), base, "args");
    var n := |RequiredOf(f)|;
    assert RequiredOf(EnvelopeOf(f))[n] == "args" && RequiredOf(EnvelopeOf(f))[n + 1] == "op";
  }

  lemma EnforcedIsEnvelope(f: Schema, base: Schema, bag: Schema, table: Table, enforced: Schema)
    requires IsFlattened(f) && Prepare.Prepare(EnvelopeOf(f)) == Ok(base)
    requires IsRequestTable(table, bag) && ApplyAsymmetries(base, table, false) == Ok(enforced)
    ensures IsRequestEnvelope(enforced) && Declares(enforced.properties.ps, "args")
    ensures IsBoundedString(Lookup(enforced.properties.ps, "op"))
    ensures Lookup(enforced.properties.ps, "args") == Imported(bag)
  {
    BaseShape(f, base);
    EnforcedShape(base, table, bag, enforced, "op");
    EnforcedShape(base, table, bag, enforced, "args");
    WalkedOp(table, bag, Visit(StringNode, PropPath("$", "op"), table, false).value);
    WalkedArgs(table, bag, Visit(Any, PropPath("$", "args"), table, false).value);
  }

  // ---- The flattened schema with the reader's own properties ----------------------

  /** Each property under the schema another list gives its name. */
  function Respelled(ps: seq<Prop>, qs: seq<Prop>): seq<Prop> {
    seq(|ps|, i requires 0 <= i < |ps| =>
      if Declares(qs, ps[i].name) then Prop(ps[i].name, Lookup(qs, ps[i].name)) else ps[i])
  }

  lemma {:induction false} RespelledLookup(ps: seq<Prop>, qs: seq<Prop>, k: string)
    ensures Declares(Respelled(ps, qs), k) <==> Declares(ps, k)
    ensures Declares(ps, k) && Declares(qs, k) ==> Lookup(Respelled(ps, qs), k) == Lookup(qs, k)
    decreases |ps|
  {
    var rs := Respelled(ps, qs);
    if ps == [] {
      assert rs == [];
    } else {
      assert rs[1..] == Respelled(ps[1..], qs);
      RespelledLookup(ps[1..], qs, k);
      Headed(ps, k);
      Headed(rs, k);
    }
  }

  /** The flattened schema, its own properties as the enforced envelope has them. */
  function Walked(f: Schema, enforced: Schema): Schema
    requires f.Node? && f.properties.Props? && enforced.Node? && enforced.properties.Props?
  {
    f.(properties := Props(Respelled(f.properties.ps, enforced.properties.ps)))
  }

  lemma WalkedSplits(f: Schema, enforced: Schema)
    requires Split(f).Ok? && enforced.Node? && enforced.properties.Props?
    ensures Split(Walked(f, enforced)).Ok?
    ensures Split(Walked(f, enforced)).value.commands == Split(f).value.commands
    ensures TagsOf(Walked(f, enforced)) == TagsOf(f)
  {
    RespelledLookup(f.properties.ps, enforced.properties.ps, "op");
    RespelledLookup(f.properties.ps, enforced.properties.ps, "args");
    assert IsFlattened(Walked(f, enforced));
  }

  /** The enforced `op` node admits the message's op. */
  predicate OpFits(env: Env, enforced: Schema, v: Json)
    requires IsRequestEnvelope(enforced)
  {
    v.Obj? && "op" in v.members ==> Admits(env, Lookup(enforced.properties.ps, "op"), v.members["op"])
  }

  lemma EnvelopeLeaves(env: Env, f: Schema, base: Schema, enforced: Schema, v: Json)
    requires IsFlattened(f) && Prepare.Prepare(EnvelopeOf(f)) == Ok(base)
    requires enforced.Node? && enforced.properties.Props? && enforced == base.(properties := enforced.properties)
    requires IsFlattened(Walked(f, enforced))
    ensures LeafOk(env, enforced, v) <==> LeafOk(env, EnvelopeOf(Walked(f, enforced)), v)
  {
    StrippedLeaf(env, EnvelopeOf(f), base, v);
  }

  lemma EnvelopeMembers(env: Env, f: Schema, enforced: Schema, bag: Schema, ms: map<string, Json>, k: string)
    requires IsRequestEnvelope(enforced) && IsFlattened(f) && IsFlattened(Walked(f, enforced)) && k in ms
    requires Declares(enforced.properties.ps, "args") && Lookup(enforced.properties.ps, "args") == Imported(bag)
    requires IsBoundedString(Lookup(enforced.properties.ps, "op"))
    requires Declares(enforced.properties.ps, k) <==> Declares(f.properties.ps, k) || k == "op" || k == "args"
    ensures var ps := EnvelopeOf(Walked(f, enforced)).properties.ps;
      && (Declares(ps, k) <==> Declares(enforced.properties.ps, k))
      && (Declares(ps, k) ==>
            (Admits(env, Lookup(enforced.properties.ps, k), ms[k]) <==>
              && Admits(env, Lookup(ps, k), ms[k])
              && (k == "op" ==> Admits(env, Lookup(enforced.properties.ps, "op"), ms[k]))
              && (k == "args" ==> Admits(env, bag, ms[k]))))
  {
    EnvelopeDeclares(Walked(f, enforced), k);
    RespelledLookup(f.properties.ps, enforced.properties.ps, k);
    if k == "op" && Admits(env, Lookup(enforced.properties.ps, "op"), ms[k]) {
      BoundedIsString(env, Lookup(enforced.properties.ps, "op"), ms[k]);
      PlainNodesAdmit(env, ms[k].s, ms[k]);
    }
    if k == "args" { PlainNodesAdmit(env, "", ms[k]); }
  }

  lemma BoundedIsString(env: Env, s: Schema, v: Json)
    requires IsBoundedString(s) && Admits(env, s, v)
    ensures v.Str?
  {
    assert LeafOk(env, s, v);
  }

  /** The first stage: the walked envelope, the op's own bounds, and `args` held to the bag. */
  lemma EnforcedStage(env: Env, f: Schema, base: Schema, bag: Schema, table: Table, enforced: Schema, v: Json)
    requires Split(f).Ok? && Prepare.Prepare(EnvelopeOf(f)) == Ok(base)
    requires IsRequestTable(table, bag) && ApplyAsymmetries(base, table, false) == Ok(enforced)
    ensures IsRequestEnvelope(enforced) && IsFlattened(Walked(f, enforced))
    ensures Admits(env, enforced, v) <==>
      && Admits(env, EnvelopeOf(Walked(f, enforced)), v) && OpFits(env, enforced, v)
      && (v.Obj? && "args" in v.members ==> Admits(env, bag, v.members["args"]))
  {
    BaseShape(f, base);
    EnforcedIsEnvelope(f, base, bag, table, enforced);
    EnforcedShape(base, table, bag, enforced, "op");
    WalkedSplits(f, enforced);
    EnvelopesAgree(env, f, base, bag, table, enforced, v);
  }

  lemma EnvelopesAgree(env: Env, f: Schema, base: Schema, bag: Schema, table: Table, enforced: Schema, v: Json)
    requires IsFlattened(f) && Prepare.Prepare(EnvelopeOf(f)) == Ok(base)
    requires IsRequestTable(table, bag) && ApplyAsymmetries(base, table, false) == Ok(enforced)
    requires IsRequestEnvelope(enforced) && base.Node? && enforced == base.(properties := enforced.properties)
    requires IsFlattened(Walked(f, enforced))
    requires Declares(enforced.properties.ps, "args") && Lookup(enforced.properties.ps, "args") == Imported(bag)
    requires IsBoundedString(Lookup(enforced.properties.ps, "op"))
    requires IsObject(base)
    ensures Admits(env, enforced, v) <==>
      && Admits(env, EnvelopeOf(Walked(f, enforced)), v) && OpFits(env, enforced, v)
      && (v.Obj? && "args" in v.members ==> Admits(env, bag, v.members["args"]))
  {
    EnvelopeLeaves(env, f, base, enforced, v);
    var e := EnvelopeOf(Walked(f, enforced));
    if v.Obj? {
      forall k | k in v.members
        ensures Declares(enforced.properties.ps, k) <==> Declares(f.properties.ps, k) || k == "op" || k == "args"
      {
        EnforcedShape(base, table, bag, enforced, k);
        PreparedObject(EnvelopeOf(f), base, k);
        EnvelopeDeclares(f, k);
      }
      MembersAgree(env, f, enforced, bag, v.members);
      ClosedMeans(env, enforced, v);
      ClosedMeans(env, e, v);
    } else {
      if Admits(env, enforced, v) { OnlyObjects(env, enforced, v); }
      if Admits(env, e, v) { OnlyObjects(env, e, v); }
    }
  }

  lemma MembersAgree(env: Env, f: Schema, enforced: Schema, bag: Schema, ms: map<string, Json>)
    requires IsRequestEnvelope(enforced) && IsFlattened(f) && IsFlattened(Walked(f, enforced))
    requires Declares(enforced.properties.ps, "args") && Lookup(enforced.properties.ps, "args") == Imported(bag)
    requires IsBoundedString(Lookup(enforced.properties.ps, "op")) && enforced.additional == Closed
    requires forall k :: k in ms ==>
      (Declares(enforced.properties.ps, k) <==> Declares(f.properties.ps, k) || k == "op" || k == "args")
    ensures MembersOk(env, enforced, ms) <==>
      && MembersOk(env, EnvelopeOf(Walked(f, enforced)), ms)
      && ("op" in ms ==> Admits(env, Lookup(enforced.properties.ps, "op"), ms["op"]))
      && ("args" in ms ==> Admits(env, bag, ms["args"]))
  {
    forall k | k in ms
      ensures var ps := EnvelopeOf(Walked(f, enforced)).properties.ps;
        && (Declares(ps, k) <==> Declares(enforced.properties.ps, k))
        && (Declares(ps, k) ==>
              (Admits(env, Lookup(enforced.properties.ps, k), ms[k]) <==>
                && Admits(env, Lookup(ps, k), ms[k])
                && (k == "op" ==> Admits(env, Lookup(enforced.properties.ps, "op"), ms[k]))
                && (k == "args" ==> Admits(env, bag, ms[k]))))
    {
      EnvelopeMembers(env, f, enforced, bag, ms, k);
    }
  }

  /** A node with nothing but its leaf constraints and its members. */
  lemma ClosedMeans(env: Env, s: Schema, v: Json)
    requires s.Node? && s.anyOf.NoBranches? && s.oneOf.NoBranches? && s.unevaluated.NoSub? && v.Obj?
    ensures Admits(env, s, v) <==> LeafOk(env, s, v) && MembersOk(env, s, v.members)
  {
  }

  // ---- The reader ------------------------------------------------------------------

  /**
   For every table of this kind and every message: the shipped reader accepts it, and the tag node of its op admits
   that op, if and only if the flattened schema with its own properties as the table leaves them admits it and the
   op meets the table's bounds.
   */
  lemma ReaderIsFlattened(env: Env, f: Schema, base: Schema, ops: seq<Command>, bag: Schema, table: Table,
                          enforced: Schema, v: Json)
    requires Shipped(f, base, ops, bag, table, enforced)
    ensures IsRequestEnvelope(enforced)
    ensures ParseBridgeReq(env, enforced, ops, v).Accepted? && TagFits(env, Split(f).value.commands, TagsOf(f), v) <==>
      Admits(env, Walked(f, enforced), v) && OpFits(env, enforced, v)
    ensures HandsOn(ParseBridgeReq(env, enforced, ops, v), v)
  {
    EnforcedIsEnvelope(f, base, bag, table, enforced);
    ReaderStages(env, f, base, ops, bag, table, enforced, v);
    WalkedSplits(f, enforced);
    SplitGives(f);
    FlattenedSelects(env, Walked(f, enforced), v);
    ParseMeans(env, enforced, ops, v);
    StagesMeet(env, Split(f).value.commands, TagsOf(f), EnvelopeOf(Walked(f, enforced)), enforced, ops, bag,
               OpFits(env, enforced, v), v);
  }

  /** The reader's two stages, in the terms the argument needs. */
  lemma ReaderStages(env: Env, f: Schema, base: Schema, ops: seq<Command>, bag: Schema, table: Table,
                     enforced: Schema, v: Json)
    requires Shipped(f, base, ops, bag, table, enforced) && IsRequestEnvelope(enforced)
    ensures IsFlattened(Walked(f, enforced)) && |ops| == |Split(f).value.commands|
    ensures Admits(env, enforced, v) <==>
      && Admits(env, EnvelopeOf(Walked(f, enforced)), v) && OpFits(env, enforced, v)
      && (v.Obj? && "args" in v.members ==> Admits(env, bag, v.members["args"]))
    ensures v.Obj? && "args" in v.members ==> forall i :: 0 <= i < |ops| ==>
      && (Admits(env, ops[i].args, v.members["args"]) <==>
            Admits(env, Split(f).value.commands[i].args, v.members["args"]))
      && (Admits(env, Split(f).value.commands[i].args, v.members["args"]) ==> Admits(env, bag, v.members["args"]))
  {
    EnforcedStage(env, f, base, bag, table, enforced, v);
    if v.Obj? && "args" in v.members {
      OpsStage(env, Split(f).value.commands, ops, bag, v.members["args"]);
    }
  }

  lemma OpsStage(env: Env, cs: seq<Command>, ops: seq<Command>, bag: Schema, a: Json)
    requires PreparedOps(cs, ops) && MergeAll([], ops).Ok? && bag == BagOf(MergeAll([], ops).value)
    ensures forall i :: 0 <= i < |cs| ==>
      && (Admits(env, ops[i].args, a) <==> Admits(env, cs[i].args, a))
      && (Admits(env, cs[i].args, a) ==> Admits(env, bag, a))
  {
    forall i | 0 <= i < |cs|
      ensures Admits(env, ops[i].args, a) <==> Admits(env, cs[i].args, a)
      ensures Admits(env, cs[i].args, a) ==> Admits(env, bag, a)
    {
      SecondStage(env, cs, ops, i, a);
    }
  }
}
