/**
 What the shipped request reader accepts beyond and short of the flattened schema. A table that only narrows
 beside the bag accepts nothing more. The request's own table adds a string arm on `id`, bounds on `op` and
 `browser`, and no null `browser`; with it the reader is described exactly.
 */
module BridgeRequest {
  import opened Wrappers
  import opened Schemas
  import opened Discriminated
  import opened Prepare
  import opened Request
  import opened Parse
  import opened Asymmetry
  import opened Narrowing
  import opened Demanded
  import opened RequestReader

  // ---- From one flattened schema to another ----------------------------------------

  /** Two messages with the same names, the same command, and members admitted alike. */
  ghost predicate Carries(env: Env, ps: seq<Prop>, v: Json, qs: seq<Prop>, u: Json) {
    && v.Obj? && u.Obj? && v.members.Keys == u.members.Keys
    && ("op" in v.members ==> v.members["op"] == u.members["op"])
    && ("args" in v.members ==> v.members["args"] == u.members["args"])
    && (forall k :: k in v.members && Declares(ps, k) && Declares(qs, k) && Admits(env, Lookup(ps, k), v.members[k]) ==>
          Admits(env, Lookup(qs, k), u.members[k]))
  }

  lemma ObjectLeaf(env: Env, e: Schema, base: Schema, v: Json)
    requires e.Node? && Prepare.Prepare(e) == Ok(base) && IsObject(base) && v.Obj?
    ensures LeafOk(env, e, v) <==> forall k :: k in RequiredOf(base) ==> k in v.members
  {
    StrippedLeaf(env, e, base, v);
    assert TObject in TypeList(base.types) && IsType(TObject, v);
  }

  /** A flattened schema with other properties of the same names. */
  ghost predicate Reproped(f: Schema, g: Schema) {
    && IsFlattened(f) && IsFlattened(g) && g == f.(properties := g.properties)
    && forall k :: Declares(f.properties.ps, k) <==> Declares(g.properties.ps, k)
  }

  lemma EnvelopeTransfers(env: Env, f: Schema, base: Schema, g: Schema, h: Schema, v: Json, u: Json)
    requires IsFlattened(f) && Prepare.Prepare(EnvelopeOf(f)) == Ok(base) && IsObject(base)
    requires Reproped(f, g) && Reproped(f, h)
    requires Carries(env, g.properties.ps, v, h.properties.ps, u) && Admits(env, EnvelopeOf(g), v)
    ensures Admits(env, EnvelopeOf(h), u)
  {
    var d, e := EnvelopeOf(g), EnvelopeOf(h);
    ObjectLeaf(env, EnvelopeOf(f), base, v);
    ObjectLeaf(env, EnvelopeOf(f), base, u);
    assert LeafOk(env, EnvelopeOf(f), v) <==> LeafOk(env, d, v);
    assert LeafOk(env, EnvelopeOf(f), u) <==> LeafOk(env, e, u);
    forall k | k in u.members ensures Declares(PropsOf(e), k) && Admits(env, Lookup(PropsOf(e), k), u.members[k]) {
      EnvelopeDeclares(g, k);
      EnvelopeDeclares(h, k);
      MemberAdmitted(env, d, v, k);
    }
    ClosedMeans(env, e, u);
  }

  lemma FlattenedTransfers(env: Env, f: Schema, base: Schema, g: Schema, h: Schema, v: Json, u: Json)
    requires Split(g).Ok? && Split(h).Ok?
    requires Split(g).value.commands == Split(h).value.commands && TagsOf(g) == TagsOf(h)
    requires IsFlattened(f) && Prepare.Prepare(EnvelopeOf(f)) == Ok(base) && IsObject(base)
    requires Reproped(f, g) && Reproped(f, h)
    requires Carries(env, g.properties.ps, v, h.properties.ps, u) && Admits(env, g, v)
    ensures Admits(env, h, u)
  {
    FlattenedSelects(env, g, v);
    FlattenedSelects(env, h, u);
    EnvelopeTransfers(env, f, base, g, h, v, u);
    var cs, tags := Split(g).value.commands, TagsOf(g);
    var i :| 0 <= i < |cs| && Selects(env, cs, tags, v, i);
    assert Selects(env, cs, tags, u, i);
  }

  lemma ObjectOnly(env: Env, f: Schema, v: Json)
    requires IsFlattened(f) && Admits(env, f, v)
    ensures v.Obj?
  {
    OnlyObjects(env, f, v);
  }

  lemma WalkedReproped(f: Schema, base: Schema, enforced: Schema)
    requires Split(f).Ok? && enforced.Node? && enforced.properties.Props?
    ensures Reproped(f, Walked(f, enforced)) && Reproped(f, f)
  {
    WalkedSplits(f, enforced);
    forall k ensures Declares(f.properties.ps, k) <==> Declares(Walked(f, enforced).properties.ps, k) {
      RespelledLookup(f.properties.ps, enforced.properties.ps, k);
    }
  }

  // ---- What a member is held to ----------------------------------------------------

  /** The property as the reader walks it: prepared, and without its null arm where optional. */
  function ReadField(base: Schema, k: string): Schema
    requires base.Node? && Declares(PropsOf(base), k)
  {
    Field(Prop(k, Lookup(PropsOf(base), k)), RequiredOf(base))
  }

  /** How one of the flattened schema's own properties comes out of the walk. */
  lemma MemberWalk(f: Schema, base: Schema, bag: Schema, table: Table, enforced: Schema, k: string)
    returns (out: Visited)
    requires Split(f).Ok? && Prepare.Prepare(EnvelopeOf(f)) == Ok(base) && Declares(f.properties.ps, k)
    requires IsRequestTable(table, bag) && ApplyAsymmetries(base, table, false) == Ok(enforced)
    ensures enforced.Node? && enforced.properties.Props? && base.Node? && Declares(PropsOf(base), k)
    ensures Declares(Walked(f, enforced).properties.ps, k)
    ensures Visit(ReadField(base, k), PropPath("$", k), table, false) == Ok(out)
    ensures Lookup(Walked(f, enforced).properties.ps, k) == out.schema
    ensures Prepare.Prepare(Lookup(f.properties.ps, k)) == Ok(Lookup(PropsOf(base), k))
    ensures Canonical(ReadField(base, k)) && Canonical(Lookup(PropsOf(base), k))
  {
    BaseShape(f, base);
    EnvelopeDeclares(f, k);
    PreparedObject(EnvelopeOf(f), base, k);
    EnforcedShape(base, table, bag, enforced, k);
    RespelledLookup(f.properties.ps, enforced.properties.ps, k);
    PreparedIsCanonical(Lookup(f.properties.ps, k), Lookup(PropsOf(base), k));
    DropNullCanonical(Lookup(PropsOf(base), k));
    out := Visit(ReadField(base, k), PropPath("$", k), table, false).value;
  }

  /** Each of the flattened schema's own properties is held to exactly what the table demands at its path. */
  lemma MemberDemands(env: Env, f: Schema, base: Schema, bag: Schema, table: Table, enforced: Schema,
                      k: string, x: Json)
    requires Split(f).Ok? && Prepare.Prepare(EnvelopeOf(f)) == Ok(base) && Declares(f.properties.ps, k)
    requires IsRequestTable(table, bag) && ApplyAsymmetries(base, table, false) == Ok(enforced)
    ensures enforced.Node? && enforced.properties.Props? && base.Node? && Declares(PropsOf(base), k)
    ensures Declares(Walked(f, enforced).properties.ps, k)
    ensures Admits(env, Lookup(Walked(f, enforced).properties.ps, k), x) <==>
      Demands(env, ReadField(base, k), PropPath("$", k), table, x)
    ensures Prepare.Prepare(Lookup(f.properties.ps, k)) == Ok(Lookup(PropsOf(base), k))
  {
    var out := MemberWalk(f, base, bag, table, enforced, k);
    VisitMeans(env, ReadField(base, k), PropPath("$", k), table, out, x);
  }

  // ---- A table that only narrows beside the bag -------------------------------------

  ghost predicate NarrowsBesideBag(table: Table) {
    forall p :: p in table && p != PropPath("$", "args") ==> NarrowsOnly(table[p])
  }

  /** The bag's entry lies at its own path and beneath no other property. */
  lemma OtherPathsNarrow(table: Table, k: string)
    requires NarrowsBesideBag(table) && k != "args"
    ensures NarrowUnder(table, PropPath("$", k))
  {
    var at, args := PropPath("$", k), PropPath("$", "args");
    assert at[13..] == k && args[13..] == "args" && |at| == 13 + |k|;
    if Beneath(at, args) {
      assert args[|at|] == (at + ".")[|at|] == '.';
      assert args[|at|] == "args"[|at| - 13];
    }
  }

  lemma MemberNarrows(env: Env, f: Schema, base: Schema, bag: Schema, table: Table, enforced: Schema,
                      k: string, x: Json)
    requires Split(f).Ok? && Prepare.Prepare(EnvelopeOf(f)) == Ok(base) && Declares(f.properties.ps, k)
    requires IsRequestTable(table, bag) && NarrowsBesideBag(table)
    requires ApplyAsymmetries(base, table, false) == Ok(enforced)
    ensures enforced.Node? && enforced.properties.Props? && Declares(Walked(f, enforced).properties.ps, k)
    ensures Admits(env, Lookup(Walked(f, enforced).properties.ps, k), x) ==> Admits(env, Lookup(f.properties.ps, k), x)
  {
    var out := MemberWalk(f, base, bag, table, enforced, k);
    var p := Lookup(PropsOf(base), k);
    OtherPathsNarrow(table, k);
    VisitNarrows(env, ReadField(base, k), PropPath("$", k), table, out, x);
    DropNullArmMeans(env, p, x);
    PreparePreservesMeaning(env, Lookup(f.properties.ps, k), p, x);
  }

  /** Beside the bag only narrowing entries: then the reader accepts nothing the flattened schema refuses. */
  lemma NarrowReaderIsSound(env: Env, f: Schema, base: Schema, ops: seq<Command>, bag: Schema, table: Table,
                            enforced: Schema, v: Json)
    requires Shipped(f, base, ops, bag, table, enforced) && NarrowsBesideBag(table)
    ensures IsRequestEnvelope(enforced)
    ensures ParseBridgeReq(env, enforced, ops, v).Accepted? && TagFits(env, Split(f).value.commands, TagsOf(f), v) ==>
      Admits(env, f, v)
  {
    ReaderIsFlattened(env, f, base, ops, bag, table, enforced, v);
    BaseShape(f, base);
    WalkedReproped(f, base, enforced);
    WalkedSplits(f, enforced);
    if Admits(env, Walked(f, enforced), v) {
      ObjectOnly(env, Walked(f, enforced), v);
      forall k | k in v.members && Declares(f.properties.ps, k)
        ensures Admits(env, Lookup(Walked(f, enforced).properties.ps, k), v.members[k]) ==>
          Admits(env, Lookup(f.properties.ps, k), v.members[k])
      {
        MemberNarrows(env, f, base, bag, table, enforced, k, v.members[k]);
      }
      FlattenedTransfers(env, f, base, Walked(f, enforced), f, v, v);
    }
  }

  // ---- The request's own table ------------------------------------------------------

  const NON_EMPTY: Change := StringChange(Some(1), None, None)
  const BROWSER_LABEL: Change := StringChange(Some(1), Some(32), Some("^[A-Za-z0-9._-]+$"))

  function RequestEntries(bag: Schema): Table {
    map[PropPath("$", "id") := [StringArm],
        PropPath("$", "op") := [NON_EMPTY],
        PropPath("$", "browser") := [BROWSER_LABEL],
        PropPath("$", "args") := [GeneratedSchema(bag)]]
  }

  const NullableString: Schema := Any.(types := Many([TString, TNull]))

  /** A bridge request's own fields: a required integer `id` and an optional, nullable string `browser`. */
  ghost predicate IsBridgeReq(f: Schema, base: Schema) {
    && f.Node? && f.properties.Props? && base.Node?
    && (forall k :: Declares(f.properties.ps, k) <==> k == "id" || k == "browser")
    && "id" in RequiredOf(base) && "browser" !in RequiredOf(base)
    && Declares(PropsOf(base), "id") && Declares(PropsOf(base), "browser")
    && IsScalar(Lookup(PropsOf(base), "id")) && Lookup(PropsOf(base), "id").types == One(TInteger)
    && Lookup(PropsOf(base), "browser") == NullableString
  }

  lemma EntriesApart(bag: Schema)
    ensures var t := RequestEntries(bag);
      && t[PropPath("$", "id")] == [StringArm] && t[PropPath("$", "op")] == [NON_EMPTY]
      && t[PropPath("$", "browser")] == [BROWSER_LABEL] && t[PropPath("$", "args")] == [GeneratedSchema(bag)]
      && AnyPath(PropPath("$", "id"), 0) !in t && AnyPath(PropPath("$", "id"), 1) !in t && "$" !in t
  {
    assert PropPath("$", "id")[13..] == "id" && PropPath("$", "op")[13..] == "op";
    assert PropPath("$", "browser")[13..] == "browser" && PropPath("$", "args")[13..] == "args";
    forall i: nat | i < 2
      ensures AnyPath(PropPath("$", "id"), i) !in RequestEntries(bag)
    {
      var p := AnyPath(PropPath("$", "id"), i);
      assert |PropPath("$", "id")| == 15 && |PropPath("$", "browser")| == 20 && |p| >= 23;
      assert |PropPath("$", "op")| == 15 && |PropPath("$", "args")| == 17;
    }
  }

  lemma IdDemands(env: Env, base: Schema, bag: Schema, x: Json)
    requires base.Node? && Declares(PropsOf(base), "id") && "id" in RequiredOf(base)
    requires IsScalar(Lookup(PropsOf(base), "id")) && Lookup(PropsOf(base), "id").types == One(TInteger)
    ensures Demands(env, ReadField(base, "id"), PropPath("$", "id"), RequestEntries(bag), x) <==>
      x.Str? || Admits(env, Lookup(PropsOf(base), "id"), x)
  {
    EntriesApart(bag);
    ArmEntry(env, Lookup(PropsOf(base), "id"), PropPath("$", "id"), RequestEntries(bag), x);
  }

  lemma BrowserDemands(env: Env, base: Schema, bag: Schema, x: Json)
    requires base.Node? && Declares(PropsOf(base), "browser") && "browser" !in RequiredOf(base)
    requires Lookup(PropsOf(base), "browser") == NullableString
    ensures Demands(env, ReadField(base, "browser"), PropPath("$", "browser"), RequestEntries(bag), x) <==>
      InBounds(env, BROWSER_LABEL, x)
  {
    EntriesApart(bag);
    assert NonNull([TNull]) == [] && [TString, TNull][1..] == [TNull];
    assert NonNull([TString, TNull]) == [TString];
    assert ReadField(base, "browser") == StringNode;
    StringEntry(env, PropPath("$", "browser"), RequestEntries(bag), BROWSER_LABEL, x);
  }

  /** The message with a string id replaced by a stand-in number. */
  function Numbered(v: Json, n: Json): Json {
    if v.Obj? && "id" in v.members && v.members["id"].Str? then Obj(v.members["id" := n]) else v
  }

  /** The bounds the table puts on the members the message carries. */
  predicate Bounded(env: Env, v: Json) {
    v.Obj? ==>
      && ("op" in v.members ==> InBounds(env, NON_EMPTY, v.members["op"]))
      && ("browser" in v.members ==> InBounds(env, BROWSER_LABEL, v.members["browser"]))
  }

  lemma IdMeans(env: Env, f: Schema, base: Schema, bag: Schema, enforced: Schema, x: Json)
    requires Split(f).Ok? && Prepare.Prepare(EnvelopeOf(f)) == Ok(base) && IsBridgeReq(f, base)
    requires IsRequestTable(RequestEntries(bag), bag)
    requires ApplyAsymmetries(base, RequestEntries(bag), false) == Ok(enforced)
    ensures enforced.Node? && enforced.properties.Props? && Declares(Walked(f, enforced).properties.ps, "id")
    ensures Admits(env, Lookup(Walked(f, enforced).properties.ps, "id"), x) <==>
      x.Str? || Admits(env, Lookup(f.properties.ps, "id"), x)
  {
    MemberDemands(env, f, base, bag, RequestEntries(bag), enforced, "id", x);
    IdDemands(env, base, bag, x);
    PreparePreservesMeaning(env, Lookup(f.properties.ps, "id"), Lookup(PropsOf(base), "id"), x);
  }

  lemma BrowserMeans(env: Env, f: Schema, base: Schema, bag: Schema, enforced: Schema, x: Json)
    requires Split(f).Ok? && Prepare.Prepare(EnvelopeOf(f)) == Ok(base) && IsBridgeReq(f, base)
    requires IsRequestTable(RequestEntries(bag), bag)
    requires ApplyAsymmetries(base, RequestEntries(bag), false) == Ok(enforced)
    ensures enforced.Node? && enforced.properties.Props? && Declares(Walked(f, enforced).properties.ps, "browser")
    ensures Admits(env, Lookup(Walked(f, enforced).properties.ps, "browser"), x) <==> InBounds(env, BROWSER_LABEL, x)
    ensures Admits(env, Lookup(f.properties.ps, "browser"), x) <==> x.Str? || x == Null
  {
    MemberDemands(env, f, base, bag, RequestEntries(bag), enforced, "browser", x);
    BrowserDemands(env, base, bag, x);
    PreparePreservesMeaning(env, Lookup(f.properties.ps, "browser"), NullableString, x);
    NullableMeans(env, x);
  }

  lemma NullableMeans(env: Env, x: Json)
    ensures Admits(env, NullableString, x) <==> x.Str? || x == Null
  {
    if x.Str? { assert IsType(TString, x) && TString in TypeList(NullableString.types); }
    if x == Null { assert IsType(TNull, x) && TNull in TypeList(NullableString.types); }
    if x.Obj? { assert MembersOk(env, NullableString, x.members); }
  }

  lemma OpMeans(env: Env, f: Schema, base: Schema, bag: Schema, enforced: Schema, x: Json)
    requires IsFlattened(f) && Prepare.Prepare(EnvelopeOf(f)) == Ok(base)
    requires IsRequestTable(RequestEntries(bag), bag)
    requires ApplyAsymmetries(base, RequestEntries(bag), false) == Ok(enforced)
    ensures enforced.Node? && enforced.properties.Props? && Declares(enforced.properties.ps, "op")
    ensures Admits(env, Lookup(enforced.properties.ps, "op"), x) <==> InBounds(env, NON_EMPTY, x)
  {
    BaseShape(f, base);
    EnforcedShape(base, RequestEntries(bag), bag, enforced, "op");
    var walked := Visit(StringNode, PropPath("$", "op"), RequestEntries(bag), false).value;
    assert IsScalar(StringNode);
    VisitMeans(env, StringNode, PropPath("$", "op"), RequestEntries(bag), walked, x);
    EntriesApart(bag);
    StringEntry(env, PropPath("$", "op"), RequestEntries(bag), NON_EMPTY, x);
  }

  /** What the reader's and the flattened schema's two fields make of a message's own. */
  ghost predicate FieldsMean(env: Env, ps: seq<Prop>, qs: seq<Prop>, ms: map<string, Json>) {
    && (forall k :: Declares(ps, k) <==> k == "id" || k == "browser")
    && (forall k :: Declares(qs, k) <==> k == "id" || k == "browser")
    && ("id" in ms ==>
          (Admits(env, Lookup(ps, "id"), ms["id"]) <==> ms["id"].Str? || Admits(env, Lookup(qs, "id"), ms["id"])))
    && ("browser" in ms ==>
          && (Admits(env, Lookup(ps, "browser"), ms["browser"]) <==> InBounds(env, BROWSER_LABEL, ms["browser"]))
          && (Admits(env, Lookup(qs, "browser"), ms["browser"]) <==> ms["browser"].Str? || ms["browser"] == Null))
  }

  lemma FieldsHold(env: Env, f: Schema, base: Schema, bag: Schema, enforced: Schema, ms: map<string, Json>)
    requires Split(f).Ok? && Prepare.Prepare(EnvelopeOf(f)) == Ok(base) && IsBridgeReq(f, base)
    requires IsRequestTable(RequestEntries(bag), bag)
    requires ApplyAsymmetries(base, RequestEntries(bag), false) == Ok(enforced)
    requires IsRequestEnvelope(enforced)
    ensures FieldsMean(env, Walked(f, enforced).properties.ps, f.properties.ps, ms)
  {
    WalkedReproped(f, base, enforced);
    if "id" in ms { IdMeans(env, f, base, bag, enforced, ms["id"]); }
    if "browser" in ms { BrowserMeans(env, f, base, bag, enforced, ms["browser"]); }
  }

  /** So a message and its numbered form carry over, the way back if the browser is a label. */
  lemma FieldsCarry(env: Env, ps: seq<Prop>, qs: seq<Prop>, v: Json, n: Json)
    requires v.Obj? && FieldsMean(env, ps, qs, v.members) && Admits(env, Lookup(qs, "id"), n)
    ensures Carries(env, ps, v, qs, Numbered(v, n))
    ensures ("browser" in v.members ==> InBounds(env, BROWSER_LABEL, v.members["browser"])) ==>
      Carries(env, qs, Numbered(v, n), ps, v)
  {
    assert Numbered(v, n).members.Keys == v.members.Keys;
  }

  /**
   The request reader, exactly: it accepts a message whose tag fits if and only if the flattened schema admits the
   message with any admitted number in place of a string id, the op is not empty, and a browser is a label.
   */
  lemma RequestReaderExact(env: Env, f: Schema, base: Schema, ops: seq<Command>, bag: Schema, enforced: Schema,
                           v: Json, n: Json)
    requires Shipped(f, base, ops, bag, RequestEntries(bag), enforced) && IsBridgeReq(f, base)
    requires Admits(env, Lookup(f.properties.ps, "id"), n)
    ensures IsRequestEnvelope(enforced)
    ensures ParseBridgeReq(env, enforced, ops, v).Accepted? && TagFits(env, Split(f).value.commands, TagsOf(f), v) <==>
      Admits(env, f, Numbered(v, n)) && Bounded(env, v)
  {
    ReaderIsFlattened(env, f, base, ops, bag, RequestEntries(bag), enforced, v);
    if v.Obj? {
      ObjectReader(env, f, base, bag, enforced, v, n);
    } else {
      WalkedSplits(f, enforced);
      if Admits(env, Walked(f, enforced), v) { ObjectOnly(env, Walked(f, enforced), v); }
      if Admits(env, f, v) { ObjectOnly(env, f, v); }
    }
  }

  lemma ObjectReader(env: Env, f: Schema, base: Schema, bag: Schema, enforced: Schema, v: Json, n: Json)
    requires Split(f).Ok? && Prepare.Prepare(EnvelopeOf(f)) == Ok(base) && IsBridgeReq(f, base)
    requires IsRequestTable(RequestEntries(bag), bag)
    requires ApplyAsymmetries(base, RequestEntries(bag), false) == Ok(enforced)
    requires IsRequestEnvelope(enforced) && v.Obj? && Admits(env, Lookup(f.properties.ps, "id"), n)
    ensures Admits(env, Walked(f, enforced), v) && OpFits(env, enforced, v) <==>
      Admits(env, f, Numbered(v, n)) && Bounded(env, v)
  {
    BaseShape(f, base);
    WalkedReproped(f, base, enforced);
    WalkedSplits(f, enforced);
    FieldsHold(env, f, base, bag, enforced, v.members);
    FieldsCarry(env, Walked(f, enforced).properties.ps, f.properties.ps, v, n);
    if "op" in v.members { OpMeans(env, f, base, bag, enforced, v.members["op"]); }
    if Admits(env, Walked(f, enforced), v) {
      FlattenedTransfers(env, f, base, Walked(f, enforced), f, v, Numbered(v, n));
      if "browser" in v.members { MemberAdmitted(env, Walked(f, enforced), v, "browser"); }
    }
    if Admits(env, f, Numbered(v, n)) && Bounded(env, v) {
      FlattenedTransfers(env, f, base, f, Walked(f, enforced), Numbered(v, n), v);
    }
  }

  lemma AdmittedTagFits(env: Env, f: Schema, v: Json)
    requires Split(f).Ok? && Admits(env, f, v)
    ensures TagFits(env, Split(f).value.commands, TagsOf(f), v)
  {
    FlattenedSelects(env, f, v);
    SplitGives(f);
    var cs, tags := Split(f).value.commands, TagsOf(f);
    var i :| 0 <= i < |cs| && Selects(env, cs, tags, v, i);
    assert forall j :: 0 <= j < |cs| && cs[j].op == cs[i].op ==> j == i;
  }

  lemma NumberedBack(env: Env, v: Json, n: Json, u: Json, id: string)
    requires v.Obj? && "id" in v.members && v.members["id"] == n && !n.Str?
    requires u == Obj(v.members["id" := Str(id)])
    ensures Numbered(v, n) == v && Numbered(u, n) == v && (Bounded(env, u) <==> Bounded(env, v))
  {
    assert u.members["id" := n] == v.members;
  }

  /** The string arm widens: a message both sides take is still accepted under any string id. */
  lemma StringIdAccepted(env: Env, f: Schema, base: Schema, ops: seq<Command>, bag: Schema, enforced: Schema,
                         v: Json, id: string)
    requires Shipped(f, base, ops, bag, RequestEntries(bag), enforced) && IsBridgeReq(f, base)
    requires Admits(env, f, v) && Bounded(env, v) && v.Obj?
    ensures IsRequestEnvelope(enforced)
    ensures ParseBridgeReq(env, enforced, ops, v).Accepted?
    ensures ParseBridgeReq(env, enforced, ops, Obj(v.members["id" := Str(id)])).Accepted?
  {
    HasId(env, f, base, v);
    var n, u := v.members["id"], Obj(v.members["id" := Str(id)]);
    NumberedBack(env, v, n, u, id);
    BothAccepted(env, f, base, ops, bag, enforced, v, u, n);
  }

  lemma BothAccepted(env: Env, f: Schema, base: Schema, ops: seq<Command>, bag: Schema, enforced: Schema,
                     v: Json, u: Json, n: Json)
    requires Shipped(f, base, ops, bag, RequestEntries(bag), enforced) && IsBridgeReq(f, base)
    requires Admits(env, Lookup(f.properties.ps, "id"), n) && Admits(env, f, v)
    requires Numbered(v, n) == v == Numbered(u, n) && Bounded(env, v) && Bounded(env, u)
    ensures IsRequestEnvelope(enforced)
    ensures ParseBridgeReq(env, enforced, ops, v).Accepted? && ParseBridgeReq(env, enforced, ops, u).Accepted?
  {
    NumberedAccepted(env, f, base, ops, bag, enforced, v, n);
    NumberedAccepted(env, f, base, ops, bag, enforced, u, n);
  }

  lemma NumberedAccepted(env: Env, f: Schema, base: Schema, ops: seq<Command>, bag: Schema, enforced: Schema,
                         v: Json, n: Json)
    requires Shipped(f, base, ops, bag, RequestEntries(bag), enforced) && IsBridgeReq(f, base)
    requires Admits(env, Lookup(f.properties.ps, "id"), n) && Admits(env, f, Numbered(v, n)) && Bounded(env, v)
    ensures IsRequestEnvelope(enforced) && ParseBridgeReq(env, enforced, ops, v).Accepted?
  {
    RequestReaderExact(env, f, base, ops, bag, enforced, v, n);
  }

  /** And the flattened schema refuses every message with a string id. */
  lemma StringIdRefused(env: Env, f: Schema, base: Schema, v: Json)
    requires Split(f).Ok? && Prepare.Prepare(EnvelopeOf(f)) == Ok(base) && IsBridgeReq(f, base)
    requires v.Obj? && "id" in v.members && v.members["id"].Str?
    ensures !Admits(env, f, v)
  {
    if Admits(env, f, v) { HasId(env, f, base, v); }
  }

  lemma HasId(env: Env, f: Schema, base: Schema, v: Json)
    requires Split(f).Ok? && Prepare.Prepare(EnvelopeOf(f)) == Ok(base) && IsBridgeReq(f, base)
    requires Admits(env, f, v) && v.Obj?
    ensures "id" in v.members && Admits(env, Lookup(f.properties.ps, "id"), v.members["id"])
    ensures !v.members["id"].Str?
  {
    BaseShape(f, base);
    IdRequired(f);
    RequiredPresent(env, f, v, "id");
    MemberAdmitted(env, f, v, "id");
    IdIsNumber(env, f, base, v.members["id"]);
  }

  lemma IdRequired(f: Schema)
    requires IsFlattened(f) && "id" in RequiredOf(EnvelopeOf(f))
    ensures "id" in RequiredOf(f)
  {
    assert RequiredOf(EnvelopeOf(f)) == RequiredOf(f) + ["args", "op"];
  }

  lemma IdIsNumber(env: Env, f: Schema, base: Schema, x: Json)
    requires IsFlattened(f) && Prepare.Prepare(EnvelopeOf(f)) == Ok(base) && IsBridgeReq(f, base)
    requires Admits(env, Lookup(f.properties.ps, "id"), x)
    ensures !x.Str?
  {
    EnvelopeDeclares(f, "id");
    PreparedObject(EnvelopeOf(f), base, "id");
    PreparePreservesMeaning(env, Lookup(f.properties.ps, "id"), Lookup(PropsOf(base), "id"), x);
    assert TypeOk(One(TInteger), x);
  }

  /** The dropped null arm narrows: a null browser the flattened schema admits is refused by the reader. */
  lemma NullBrowserNarrows(env: Env, f: Schema, base: Schema, ops: seq<Command>, bag: Schema, enforced: Schema, v: Json)
    requires Shipped(f, base, ops, bag, RequestEntries(bag), enforced) && IsBridgeReq(f, base)
    requires v.Obj? && "browser" in v.members && v.members["browser"] == Null && Admits(env, f, v)
    ensures IsRequestEnvelope(enforced) && !ParseBridgeReq(env, enforced, ops, v).Accepted?
  {
    HasId(env, f, base, v);
    AdmittedTagFits(env, f, v);
    RequestReaderExact(env, f, base, ops, bag, enforced, v, v.members["id"]);
  }

  /** With the tag nodes the Rust side emits, nothing else is needed. */
  lemma RequestReaderExactForPlainTags(env: Env, f: Schema, base: Schema, ops: seq<Command>, bag: Schema,
                                       enforced: Schema, v: Json, n: Json)
    requires Shipped(f, base, ops, bag, RequestEntries(bag), enforced) && IsBridgeReq(f, base)
    requires Admits(env, Lookup(f.properties.ps, "id"), n)
    requires forall i :: 0 <= i < |TagsOf(f)| ==> PlainTag(TagsOf(f)[i])
    ensures IsRequestEnvelope(enforced)
    ensures ParseBridgeReq(env, enforced, ops, v).Accepted? <==> Admits(env, f, Numbered(v, n)) && Bounded(env, v)
  {
    RequestReaderExact(env, f, base, ops, bag, enforced, v, n);
    PlainTagsFit(env, f, v);
  }
}
