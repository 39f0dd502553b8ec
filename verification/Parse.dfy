/**
 `parseBridgeReq`, the two-stage reader of a bridge request; what a flattened request schema means, as an envelope
 and a command; and how two stages over such an envelope come to one schema.
 */
module Parse {
  import opened Wrappers
  import opened Schemas
  import opened Discriminated
  import opened Prepare
  import opened Request

  datatype Why = Malformed | UnknownOp | BadArgs

  /** An accepted request is the message's own fields, its `op` and `args` checked against each other. */
  datatype Parsed =
    | Accepted(op: string, args: Json, id: Option<Json>, browser: Option<Json>)
    | Refusal(id: Option<Json>, why: Why)

  /** What the reader relies on: an object with a required string `op` and a required `args`. */
  predicate IsRequestEnvelope(e: Schema) {
    && e.Node? && e.properties.Props? && TypeList(e.types) == [TObject]
    && "op" in RequiredOf(e) && "args" in RequiredOf(e)
    && Declares(e.properties.ps, "op") && Lookup(e.properties.ps, "op").Node?
    && Lookup(e.properties.ps, "op").types == One(TString)
  }

  function MemberOf(msg: Json, k: string): Option<Json> {
    if msg.Obj? && k in msg.members then Some(msg.members[k]) else None
  }

  lemma EnvelopeGives(env: Env, e: Schema, msg: Json)
    requires IsRequestEnvelope(e) && Admits(env, e, msg)
    ensures msg.Obj? && "op" in msg.members && "args" in msg.members && msg.members["op"].Str?
  {
    OnlyObjects(env, e, msg);
    RequiredPresent(env, e, msg, "op");
    RequiredPresent(env, e, msg, "args");
    MemberAdmitted(env, e, msg, "op");
  }

  function FindOp(cs: seq<Command>, op: string): (r: Option<Schema>)
    ensures r.Some? <==> HasOp(cs, op)
    ensures DistinctOps(cs) ==> forall i :: 0 <= i < |cs| && cs[i].op == op ==> r == Some(cs[i].args)
  {
    if cs == [] then None
    else if cs[0].op == op then Some(cs[0].args)
    else
      var r := FindOp(cs[1..], op);
      assert HasOp(cs, op) <==> HasOp(cs[1..], op) by {
        if HasOp(cs, op) {
          var i :| 0 <= i < |cs| && cs[i].op == op;
          assert cs[1..][i - 1].op == op;
        }
        if HasOp(cs[1..], op) {
          var i :| 0 <= i < |cs[1..]| && cs[1..][i].op == op;
          assert cs[i + 1].op == op;
        }
      }
      assert forall i :: 0 < i < |cs| ==> cs[i] == cs[1..][i - 1];
      r
  }

  /** An id is echoed on a malformed message only if the envelope found no fault with it. */
  function ExtractId(env: Env, e: Schema, msg: Json): Option<Json>
    requires e.Node?
  {
    if !msg.Obj? || "id" !in msg.members then None
    else
      var id := msg.members["id"];
      if Declares(PropsOf(e), "id") && !Admits(env, Lookup(PropsOf(e), "id"), id) then None
      else if id.Num? || id.Str? then Some(id) else None
  }

  function ParseBridgeReq(env: Env, e: Schema, cs: seq<Command>, msg: Json): Parsed
    requires IsRequestEnvelope(e)
  {
    if !Admits(env, e, msg) then Refusal(ExtractId(env, e, msg), Malformed)
    else
      EnvelopeGives(env, e, msg);
      var id := MemberOf(msg, "id");
      var op, args := msg.members["op"].s, msg.members["args"];
      var own := FindOp(cs, op);
      if own.None? then Refusal(id, UnknownOp)
      else if !Admits(env, own.value, args) then Refusal(id, BadArgs)
      else Accepted(op, args, id, MemberOf(msg, "browser"))
  }

  /** Command `i` is the first whose op is the message's. */
  predicate Routes(cs: seq<Command>, msg: Json, i: int) {
    0 <= i < |cs| && MemberOf(msg, "op") == Some(Str(cs[i].op)) && forall j :: 0 <= j < i ==> cs[j].op != cs[i].op
  }

  lemma {:induction false} FindOpRoutes(cs: seq<Command>, op: string, msg: Json) returns (i: nat)
    requires MemberOf(msg, "op") == Some(Str(op)) && FindOp(cs, op).Some?
    ensures Routes(cs, msg, i) && FindOp(cs, op) == Some(cs[i].args)
    decreases |cs|
  {
    if cs[0].op == op {
      i := 0;
    } else {
      i := FindOpRoutes(cs[1..], op, msg);
      assert forall j :: 0 < j <= i + 1 ==> cs[j] == cs[1..][j - 1];
      i := i + 1;
    }
  }

  /** What an accepted result hands on is what the message carried. */
  predicate HandsOn(r: Parsed, msg: Json) {
    r.Accepted? ==>
      && MemberOf(msg, "op") == Some(Str(r.op)) && MemberOf(msg, "args") == Some(r.args)
      && MemberOf(msg, "id") == r.id && MemberOf(msg, "browser") == r.browser
  }

  predicate Refuses(r: Parsed, why: Why) { r.Refusal? && r.why == why }

  /**
   The reader's answer in full: malformed exactly when the envelope refuses, an unknown op exactly when no command
   has the message's, bad args exactly when its command refuses them, and otherwise the message's own fields.
   */
  lemma ParseMeans(env: Env, e: Schema, cs: seq<Command>, msg: Json)
    requires IsRequestEnvelope(e)
    ensures var r, args := ParseBridgeReq(env, e, cs, msg), MemberOf(msg, "args");
      && (Refuses(r, Malformed) <==> !Admits(env, e, msg))
      && (Refuses(r, UnknownOp) <==>
            Admits(env, e, msg) && forall i :: 0 <= i < |cs| ==> MemberOf(msg, "op") != Some(Str(cs[i].op)))
      && (Refuses(r, BadArgs) <==>
            Admits(env, e, msg) && exists i :: Routes(cs, msg, i) && args.Some? && !Admits(env, cs[i].args, args.value))
      && (r.Accepted? <==>
            Admits(env, e, msg) && exists i :: Routes(cs, msg, i) && args.Some? && Admits(env, cs[i].args, args.value))
      && HandsOn(r, msg)
  {
    if Admits(env, e, msg) {
      EnvelopeGives(env, e, msg);
      var op := msg.members["op"].s;
      if FindOp(cs, op).Some? {
        var i := FindOpRoutes(cs, op, msg);
        assert forall j :: Routes(cs, msg, j) ==> j == i;
      }
    }
  }

  /**
   A refusal echoes the message's own id, whichever stage refused, and only one the envelope's id schema admits;
   an admitted number or string is always echoed.
   */
  lemma EchoesOnlySoundIds(env: Env, e: Schema, cs: seq<Command>, msg: Json)
    requires IsRequestEnvelope(e) && Declares(PropsOf(e), "id") && ParseBridgeReq(env, e, cs, msg).Refusal?
    ensures var id := ParseBridgeReq(env, e, cs, msg).id;
      && (id.Some? ==>
            && msg.Obj? && "id" in msg.members && id.value == msg.members["id"]
            && Admits(env, Lookup(PropsOf(e), "id"), id.value))
      && ((msg.Obj? && "id" in msg.members && (msg.members["id"].Num? || msg.members["id"].Str?)
           && Admits(env, Lookup(PropsOf(e), "id"), msg.members["id"])) ==> id.Some?)
  {
    if Admits(env, e, msg) {
      EnvelopeGives(env, e, msg);
      if "id" in msg.members { MemberAdmitted(env, e, msg, "id"); }
    }
  }

  // ---- One flattened schema, as an envelope and a branch --------------------------

  /** A command branch admits a value whose op is its const and whose args its args schema admits. */
  lemma BranchMeans(env: Env, b: Schema, c: Command, v: Json)
    requires CommandOf(b) == Some(c)
    ensures Admits(env, b, v) <==>
      && v.Obj? && "op" in v.members && "args" in v.members
      && v.members["op"] == Str(c.op) && Admits(env, TagNode(b), Str(c.op))
      && Admits(env, c.args, v.members["args"])
  {
    CommandMembers(b, "op");
    CommandMembers(b, "args");
    if Admits(env, b, v) {
      OnlyObjects(env, b, v);
      RequiredPresent(env, b, v, "op");
      RequiredPresent(env, b, v, "args");
      MemberAdmitted(env, b, v, "op");
      MemberAdmitted(env, b, v, "args");
    } else if v.Obj? && "op" in v.members && "args" in v.members && v.members["op"] == Str(c.op)
      && Admits(env, TagNode(b), Str(c.op)) && Admits(env, c.args, v.members["args"]) {
      assert IsType(TObject, v) && TObject in TypeList(b.types);
      forall k | k in RequiredOf(b) ensures k in v.members { CommandMembers(b, k); }
      forall k | k in v.members && Declares(PropsOf(b), k) ensures k == "op" || k == "args" {
        CommandMembers(b, k);
      }
      assert MembersOk(env, b, v.members);
      assert LeafOk(env, b, v);
      assert false;
    }
  }

  lemma CommandsDiscriminated(bs: seq<Schema>, cs: seq<Command>)
    requires AreCommands(bs, cs)
    ensures Discriminates(bs, "op", StringTag)
  {
    forall i | 0 <= i < |bs|
      ensures Tags(bs[i], "op", StringTag) && TagOf(bs[i], "op", StringTag) == Some(Str(cs[i].op))
    {
      assert CommandOf(bs[i]) == Some(cs[i]);
      CommandMembers(bs[i], "op");
    }
  }

  /** The flattened schema is its envelope together with one of its branches. */
  lemma FlattenedMeans(env: Env, f: Schema, v: Json)
    requires Split(f).Ok?
    ensures Admits(env, f, v) <==>
      && Admits(env, EnvelopeOf(f), v)
      && exists i :: 0 <= i < |f.oneOf.bs| && Admits(env, f.oneOf.bs[i], v)
  {
    if Admits(env, f, v) {
      FlattenedImpliesEnvelope(env, f, v);
    } else if Admits(env, EnvelopeOf(f), v) && exists i :: 0 <= i < |f.oneOf.bs| && Admits(env, f.oneOf.bs[i], v) {
      var i :| 0 <= i < |f.oneOf.bs| && Admits(env, f.oneOf.bs[i], v);
      EnvelopeImpliesFlattened(env, f, v, i);
    }
  }

  lemma EnvelopeDeclares(f: Schema, k: string)
    requires IsFlattened(f)
    ensures var ps := EnvelopeOf(f).properties.ps;
      && (Declares(ps, k) <==> Declares(f.properties.ps, k) || k == "op" || k == "args")
      && (Declares(f.properties.ps, k) ==> Lookup(ps, k) == Lookup(f.properties.ps, k))
      && (k == "op" ==> Lookup(ps, k) == Any.(types := One(TString)))
      && (k == "args" ==> Lookup(ps, k) == Any)
  {
    var base := f.properties.ps;
    var op, args := Prop("op", Any.(types := One(TString))), Prop("args", Any);
    assert EnvelopeOf(f).properties.ps == base + [op] + [args];
    Appended(base, op, k);
    Appended(base + [op], args, k);
  }

  lemma FlattenedImpliesEnvelope(env: Env, f: Schema, v: Json)
    requires Split(f).Ok? && Admits(env, f, v)
    ensures Admits(env, EnvelopeOf(f), v)
    ensures exists i :: 0 <= i < |f.oneOf.bs| && Admits(env, f.oneOf.bs[i], v)
  {
    var e := EnvelopeOf(f);
    assert ExactlyOne(env, f, v);
    var i :| 0 <= i < |f.oneOf.bs| && Admits(env, f.oneOf.bs[i], v);
    SplitGives(f);
    BranchMeans(env, f.oneOf.bs[i], Split(f).value.commands[i], v);
    forall k | k in v.members
      ensures Declares(PropsOf(e), k) && Admits(env, Lookup(PropsOf(e), k), v.members[k])
    {
      EnvelopeMember(env, f, v, k);
    }
    assert LeafOk(env, e, v) by { EnvelopeLeaf(env, f, v); }
  }

  lemma EnvelopeLeaf(env: Env, f: Schema, v: Json)
    requires IsFlattened(f) && v.Obj?
    ensures LeafOk(env, EnvelopeOf(f), v) <==> LeafOk(env, f, v) && "op" in v.members && "args" in v.members
  {
    var e := EnvelopeOf(f);
    assert forall k :: k in e.required.value <==> k in RequiredOf(f) || k == "args" || k == "op";
  }

  lemma EnvelopeMember(env: Env, f: Schema, v: Json, k: string)
    requires Split(f).Ok? && Admits(env, f, v) && v.Obj? && k in v.members
    requires "op" in v.members && v.members["op"].Str?
    ensures var ps := PropsOf(EnvelopeOf(f));
      Declares(ps, k) && Admits(env, Lookup(ps, k), v.members[k])
  {
    assert RestOk(env, f, v);
    EnvelopeDeclares(f, k);
    OnlyCommandMembers(env, f, v, k);
    if Declares(f.properties.ps, k) {
      MemberAdmitted(env, f, v, k);
    } else {
      PlainNodesAdmit(env, v.members["op"].s, v.members[k]);
    }
  }

  lemma PlainNodesAdmit(env: Env, op: string, v: Json)
    ensures Admits(env, Any.(types := One(TString)), Str(op))
    ensures Admits(env, Any, v)
  {
    assert IsType(TString, Str(op)) && TString in TypeList(One(TString));
  }

  /** Under `unevaluatedProperties: false` every member is declared beside the command or is the command's. */
  lemma OnlyCommandMembers(env: Env, f: Schema, v: Json, k: string)
    requires Split(f).Ok? && v.Obj? && k in v.members && RestOk(env, f, v)
    ensures Declares(f.properties.ps, k) || k == "op" || k == "args"
  {
    if !Declares(f.properties.ps, k) {
      assert !Admits(env, f.unevaluated.s, v.members[k]);
      assert Evaluates(env, f, v, k);
      var b :| b in f.oneOf.bs && EvaluatesWithin(env, b, v, k);
      SplitGives(f);
      BranchEvaluates(env, b, v, k, f.oneOf.bs, Split(f).value.commands);
    }
  }

  lemma BranchEvaluates(env: Env, b: Schema, v: Json, k: string, bs: seq<Schema>, cs: seq<Command>)
    requires AreCommands(bs, cs) && b in bs && EvaluatesWithin(env, b, v, k)
    ensures k == "op" || k == "args"
  {
    var i :| 0 <= i < |bs| && bs[i] == b;
    assert CommandOf(b) == Some(cs[i]);
    CommandMembers(b, k);
  }

  lemma EnvelopeImpliesFlattened(env: Env, f: Schema, v: Json, i: nat)
    requires Split(f).Ok? && Admits(env, EnvelopeOf(f), v)
    requires i < |f.oneOf.bs| && Admits(env, f.oneOf.bs[i], v)
    ensures Admits(env, f, v)
  {
    var e, bs, cs := EnvelopeOf(f), f.oneOf.bs, Split(f).value.commands;
    SplitGives(f);
    BranchMeans(env, bs[i], cs[i], v);
    forall k | k in v.members
      ensures Declares(PropsOf(f), k) ==> Admits(env, Lookup(PropsOf(f), k), v.members[k])
      ensures Evaluates(env, f, v, k)
    {
      EnvelopeDeclares(f, k);
      assert MembersOk(env, e, v.members);
      CommandMembers(bs[i], k);
      assert Declares(PropsOf(bs[i]), k) ==> EvaluatesWithin(env, bs[i], v, k);
      assert bs[i] in f.oneOf.bs;
    }
    assert MembersOk(env, f, v.members) && RestOk(env, f, v);
    CommandsDiscriminated(bs, cs);
    forall l, m | 0 <= l < m < |bs| ensures !(Admits(env, bs[l], v) && Admits(env, bs[m], v)) {
      if Admits(env, bs[l], v) && Admits(env, bs[m], v) {
        AtMostOneBranch(env, bs, "op", StringTag, v, l, m);
      }
    }
    assert ExactlyOne(env, f, v);
    EnvelopeLeaf(env, f, v);
  }

  // ---- The two stages ------------------------------------------------------------

  /** The per-op schemas as the ops generator prepares them. */
  predicate PreparedOps(cs: seq<Command>, ops: seq<Command>) {
    && |ops| == |cs|
    && forall i :: 0 <= i < |cs| ==> ops[i].op == cs[i].op && Prepare.Prepare(cs[i].args) == Ok(ops[i].args)
  }

  /** What the generators produce from one flattened request schema. */
  ghost predicate Generated(f: Schema, base: Schema, ops: seq<Command>, bag: Schema) {
    && Split(f).Ok?
    && Prepare.Prepare(Split(f).value.envelope) == Ok(base)
    && PreparedOps(Split(f).value.commands, ops)
    && MergeAll([], ops).Ok? && bag == BagOf(MergeAll([], ops).value)
  }

  /** An object node keeps its type, its required names and its declared names. */
  lemma PreparedObject(e: Schema, base: Schema, k: string)
    requires Prepare.Prepare(e) == Ok(base) && e.Node? && e.properties.Props?
    ensures IsObject(base) && base.types == e.types && base.required == e.required
    ensures Declares(e.properties.ps, k) <==> Declares(base.properties.ps, k)
    ensures Declares(e.properties.ps, k) ==>
      Prepare.Prepare(Lookup(e.properties.ps, k)) == Ok(Lookup(base.properties.ps, k))
  {
    PreparedIsCanonical(e, base);
    PreparedLookup(e.properties.ps, base.properties.ps, k);
  }

  lemma PlainNodesPrepare()
    ensures Prepare.Prepare(Any) == Ok(Any)
    ensures var str := Any.(types := One(TString)); Prepare.Prepare(str) == Ok(str)
  {
  }

  /** The tag nodes of the branches, in order. */
  function TagsOf(f: Schema): (r: seq<Schema>)
    requires f.Node? && f.oneOf.Branches?
    ensures |r| == |f.oneOf.bs|
  {
    var bs := f.oneOf.bs;
    seq(|bs|, i requires 0 <= i < |bs| => if IsCommandBranch(bs[i]) then TagNode(bs[i]) else bs[i])
  }

  /** The tag node of every command for `op` admits `op` itself. */
  predicate TagAdmits(env: Env, cs: seq<Command>, tags: seq<Schema>, op: string)
    requires |cs| == |tags|
  {
    forall i :: 0 <= i < |cs| && cs[i].op == op ==> Admits(env, tags[i], Str(op))
  }

  /** The tag node of the op the message names admits that op. */
  predicate TagFits(env: Env, cs: seq<Command>, tags: seq<Schema>, v: Json)
    requires |cs| == |tags|
  {
    v.Obj? && "op" in v.members && v.members["op"].Str? ==> TagAdmits(env, cs, tags, v.members["op"].s)
  }

  /** Command `i` is the one the message names, and admits its args. */
  predicate Selects(env: Env, cs: seq<Command>, tags: seq<Schema>, v: Json, i: int)
    requires |cs| == |tags| && 0 <= i < |cs|
  {
    && v.Obj? && "op" in v.members && "args" in v.members
    && v.members["op"] == Str(cs[i].op) && Admits(env, tags[i], Str(cs[i].op))
    && Admits(env, cs[i].args, v.members["args"])
  }

  lemma FlattenedSelects(env: Env, f: Schema, v: Json)
    requires Split(f).Ok?
    ensures Admits(env, f, v) <==>
      && Admits(env, EnvelopeOf(f), v)
      && exists i :: 0 <= i < |f.oneOf.bs| && Selects(env, Split(f).value.commands, TagsOf(f), v, i)
  {
    var bs, cs := f.oneOf.bs, Split(f).value.commands;
    FlattenedMeans(env, f, v);
    SplitGives(f);
    forall i | 0 <= i < |bs| ensures Admits(env, bs[i], v) <==> Selects(env, cs, TagsOf(f), v, i) {
      BranchMeans(env, bs[i], cs[i], v);
    }
  }

  /** The second stage reads the op's own args schema, which the bag never contradicts. */
  lemma SecondStage(env: Env, cs: seq<Command>, ops: seq<Command>, i: nat, a: Json)
    requires PreparedOps(cs, ops) && MergeAll([], ops).Ok? && i < |cs|
    ensures Admits(env, ops[i].args, a) <==> Admits(env, cs[i].args, a)
    ensures Admits(env, cs[i].args, a) ==> Admits(env, BagOf(MergeAll([], ops).value), a)
  {
    PreparePreservesMeaning(env, cs[i].args, ops[i].args, a);
    if Admits(env, ops[i].args, a) {
      PreparedIsCanonical(cs[i].args, ops[i].args);
      MergedAllObjects([], ops);
      assert ops[i] in ops;
      BagAdmitsEveryOp(env, ops, i, a);
    }
  }

  /** The argument for any reader whose stages mean an envelope, one more demand, a bag and the commands' schemas. */
  lemma StagesMeet(env: Env, cs: seq<Command>, tags: seq<Schema>, envelope: Schema,
                   e: Schema, ops: seq<Command>, bag: Schema, more: bool, v: Json)
    requires |ops| == |cs| == |tags| && DistinctOps(cs) && IsRequestEnvelope(e)
    requires forall i :: 0 <= i < |cs| ==> ops[i].op == cs[i].op
    requires Admits(env, e, v) <==>
      Admits(env, envelope, v) && more && (v.Obj? && "args" in v.members ==> Admits(env, bag, v.members["args"]))
    requires v.Obj? && "args" in v.members ==> forall i :: 0 <= i < |cs| ==>
      && (Admits(env, ops[i].args, v.members["args"]) <==> Admits(env, cs[i].args, v.members["args"]))
      && (Admits(env, cs[i].args, v.members["args"]) ==> Admits(env, bag, v.members["args"]))
    ensures ParseBridgeReq(env, e, ops, v).Accepted? && TagFits(env, cs, tags, v) <==>
      Admits(env, envelope, v) && more && exists i :: 0 <= i < |cs| && Selects(env, cs, tags, v, i)
  {
    assert DistinctOps(ops);
    if Admits(env, envelope, v) && more && exists i :: 0 <= i < |cs| && Selects(env, cs, tags, v, i) {
      var i :| 0 <= i < |cs| && Selects(env, cs, tags, v, i);
      assert ops[i].op == cs[i].op;
      assert FindOp(ops, ops[i].op) == Some(ops[i].args);
      assert forall j :: 0 <= j < |cs| && cs[j].op == cs[i].op ==> j == i;
    } else if ParseBridgeReq(env, e, ops, v).Accepted? {
      EnvelopeGives(env, e, v);
      var op := v.members["op"].s;
      var i :| 0 <= i < |ops| && ops[i].op == op;
      assert FindOp(ops, op) == Some(ops[i].args);
      assert Selects(env, cs, tags, v, i) <==> Admits(env, tags[i], Str(op));
    }
  }

  /** A tag node as schemars emits it: the type, the const, and annotations. */
  predicate PlainTag(tag: Schema) {
    tag.Node? && tag == Any.(types := tag.types, constant := tag.constant, inert := tag.inert)
  }

  /** A plain tag node admits its own op, so with plain tags every message's tag fits. */
  lemma PlainTagsFit(env: Env, f: Schema, v: Json)
    requires Split(f).Ok? && forall i :: 0 <= i < |TagsOf(f)| ==> PlainTag(TagsOf(f)[i])
    ensures TagFits(env, Split(f).value.commands, TagsOf(f), v)
  {
    var cs, tags := Split(f).value.commands, TagsOf(f);
    SplitGives(f);
    forall i | 0 <= i < |cs| ensures Admits(env, tags[i], Str(cs[i].op)) {
      assert CommandOf(f.oneOf.bs[i]) == Some(cs[i]);
      assert tags[i] == TagNode(f.oneOf.bs[i]) && PlainTag(tags[i]);
      PlainTagAdmits(env, f.oneOf.bs[i], cs[i]);
    }
  }

  lemma PlainTagAdmits(env: Env, b: Schema, c: Command)
    requires CommandOf(b) == Some(c) && PlainTag(TagNode(b))
    ensures Admits(env, TagNode(b), Str(c.op))
  {
    assert TString in TypeList(TagNode(b).types) && IsType(TString, Str(c.op));
  }
}
