/**
 The smallest bridge request, followed through every generator: one op, the request's own fields, its own
 table. Its tag node may carry a length bound beside the const, the one constraint the split drops.
 */
module TagConstraint {
  import opened Wrappers
  import opened Schemas
  import opened Discriminated
  import opened Prepare
  import opened Request
  import opened Parse
  import opened Asymmetry
  import opened Narrowing
  import opened Demanded
  import opened RequestReader
  import opened BridgeRequest

  /** `{"type": "string", "const": "x"}`, with a `maxLength` if one is given; with 0 it admits nothing. */
  function Tag(bound: Option<nat>): Schema {
    Any.(types := One(TString), constant := Some(Str("x")), maxLength := bound)
  }

  const NoArgs: Schema := BagOf([])

  function Branch(bound: Option<nat>): Schema {
    Any.(types := One(TObject),
         properties := Props([Prop("args", NoArgs), Prop("op", Tag(bound))]),
         required := Some(["args", "op"]))
  }

  const PlainId: Schema := Any.(types := One(TInteger), minimum := Some(0.0))
  const RustId: Schema := PlainId.(format := Some("uint64"))

  function Requests(bound: Option<nat>): Schema {
    Any.(types := One(TObject),
         properties := Props([Prop("browser", NullableString), Prop("id", RustId)]),
         required := Some(["id"]),
         oneOf := Branches([Branch(bound)]),
         unevaluated := Closed)
  }

  const BaseProps: seq<Prop> :=
    [Prop("browser", NullableString), Prop("id", PlainId), Prop("op", StringNode), Prop("args", Any)]

  const Base: Schema :=
    Any.(types := One(TObject), properties := Props(BaseProps), required := Some(["id", "args", "op"]),
         additional := Closed)

  const Ops: seq<Command> := [Command("x", NoArgs)]

  const Message: Json := Obj(map["id" := Num(0.0), "op" := Str("x"), "args" := Obj(map[])])

  // ---- The split -------------------------------------------------------------------

  lemma BranchIsCommand(bound: Option<nat>)
    ensures CommandOf(Branch(bound)) == Some(Command("x", NoArgs)) && TagNode(Branch(bound)) == Tag(bound)
  {
    assert Names(Branch(bound).properties.ps) == ["args", "op"];
    assert IsCommandBranch(Branch(bound));
    CommandMembers(Branch(bound), "op");
    CommandMembers(Branch(bound), "args");
  }

  lemma OneCommand(b: Schema, c: Command)
    requires CommandOf(b) == Some(c)
    ensures CommandsOf([b]) == Some([c])
  {
    assert Found([b]) == [Some(c)];
    CollectIff([Some(c)], [c]);
  }

  lemma IsOneUnion(bound: Option<nat>)
    ensures IsFlattened(Requests(bound)) && Requests(bound).oneOf.bs == [Branch(bound)]
    ensures forall k :: Declares(Requests(bound).properties.ps, k) <==> k == "id" || k == "browser"
  {
    var ps := Requests(bound).properties.ps;
    assert ps[0].name == "browser" && ps[1].name == "id";
  }

  lemma Splits(bound: Option<nat>)
    ensures Split(Requests(bound)) == Ok(Flattened(EnvelopeOf(Requests(bound)), Ops))
  {
    IsOneUnion(bound);
    BranchIsCommand(bound);
    OneCommand(Branch(bound), Command("x", NoArgs));
  }

  // ---- The preparation -------------------------------------------------------------

  lemma UnchangedProps(p: Prop, sub: Schema, ps: seq<Prop>, qs: seq<Prop>)
    requires Prepare.Prepare(p.sub) == Ok(sub) && PrepareProps(ps) == Ok(qs)
    ensures PrepareProps([p] + ps) == Ok([Prop(p.name, sub)] + qs)
  {
    assert ([p] + ps)[1..] == ps;
  }

  lemma FieldsPrepare()
    ensures Prepare.Prepare(NullableString) == Ok(NullableString)
    ensures Prepare.Prepare(RustId) == Ok(PlainId)
  {
    assert IsScalar(NullableString) && WellPlaced(NullableString);
    FixedPoints(NullableString);
  }

  const EnvelopeProps: seq<Prop> :=
    [Prop("browser", NullableString), Prop("id", RustId), Prop("op", StringNode), Prop("args", Any)]

  lemma PropsPrepare()
    ensures PrepareProps(EnvelopeProps) == Ok(BaseProps)
  {
    FieldsPrepare();
    PlainNodesPrepare();
    var op, args := Prop("op", StringNode), Prop("args", Any);
    UnchangedProps(args, Any, [], []);
    assert [args] + [] == [args];
    UnchangedProps(op, StringNode, [args], [args]);
    assert [op] + [args] == [op, args];
    UnchangedProps(Prop("id", RustId), PlainId, [op, args], [op, args]);
    var ids, plain := [Prop("id", RustId)] + [op, args], [Prop("id", PlainId)] + [op, args];
    UnchangedProps(Prop("browser", NullableString), NullableString, ids, plain);
    assert [Prop("browser", NullableString)] + ids == EnvelopeProps;
    assert [Prop("browser", NullableString)] + plain == BaseProps;
  }

  lemma EnvelopeIs(bound: Option<nat>)
    ensures IsFlattened(Requests(bound))
    ensures EnvelopeOf(Requests(bound)) == Base.(properties := Props(EnvelopeProps))
  {
    IsOneUnion(bound);
    assert Requests(bound).properties.ps + [Prop("op", StringNode), Prop("args", Any)] == EnvelopeProps;
    assert ["id"] + ["args", "op"] == ["id", "args", "op"];
  }

  lemma EnvelopePrepares()
    ensures Prepare.Prepare(Base.(properties := Props(EnvelopeProps))) == Ok(Base)
  {
    var e := Base.(properties := Props(EnvelopeProps));
    PropsPrepare();
    assert EnvelopeProps[1].name == "id" && EnvelopeProps[2].name == "op" && EnvelopeProps[3].name == "args";
    assert Objectish(e) && TypeList(e.types) == [TObject] && NonNull([TObject]) == [TObject];
    assert PrepareSub(e.items) == Ok(NoSub) && PrepareBranches(e.anyOf) == Ok(NoBranches);
  }

  lemma NoArgsPrepares()
    ensures Prepare.Prepare(NoArgs) == Ok(NoArgs)
  {
    assert PrepareProps([]) == Ok([]);
  }

  lemma IsGenerated(bound: Option<nat>)
    ensures Generated(Requests(bound), Base, Ops, NoArgs)
  {
    Splits(bound);
    NoArgsPrepares();
    EnvelopeIs(bound);
    EnvelopePrepares();
    assert Merge([], []) == Ok([]);
    assert Ops[1..] == [] && MergeAll([], Ops[1..]) == Ok([]);
    assert MergeAll([], Ops) == Ok([]);
  }

  // ---- The request's table ---------------------------------------------------------

  /** A node with one field change at its path, and nothing to walk below it. */
  lemma EntryVisits(s: Schema, path: string, c: Change, changed: Schema)
    requires !s.Truth? && path in RequestEntries(NoArgs) && RequestEntries(NoArgs)[path] == [c] && !c.OkSplit?
    requires ApplyChange(s, c) == Ok(changed)
    requires VisitInside(changed, path, RequestEntries(NoArgs), false) == Ok(Visited(changed, {}))
    ensures Visit(s, path, RequestEntries(NoArgs), false) == Ok(Visited(changed, {path}))
  {
    assert [c][1..] == [] && ApplyChanges(changed, []) == Ok(changed);
    assert ApplyChanges(s, [c]) == Ok(changed);
    assert ApplyOkSplits(changed, [], path) == Ok(changed) && ApplyOkSplits(changed, [c], path) == Ok(changed);
    assert {} + {path} == {path};
  }

  lemma LeafInside(s: Schema, path: string)
    requires s.Imported? || (s.Node? && s.properties.NoProps? && s.items.NoSub? && s.anyOf.NoBranches?)
    ensures VisitInside(s, path, RequestEntries(NoArgs), false) == Ok(Visited(s, {}))
  {
  }

  lemma BrowserVisits()
    ensures var path := PropPath("$", "browser");
      && Visit(Field(Prop("browser", NullableString), ["id", "args", "op"]), path, RequestEntries(NoArgs), false).Ok?
      && Visit(Field(Prop("browser", NullableString), ["id", "args", "op"]), path, RequestEntries(NoArgs), false)
           .value.consumed == {path}
  {
    EntriesApart(NoArgs);
    assert [TString, TNull][1..] == [TNull] && NonNull([TNull]) == [] && NonNull([TString, TNull]) == [TString];
    assert DropNullArm(NullableString) == StringNode;
    var changed := StringNode.(minLength := Some(1), maxLength := Some(32), pattern := BROWSER_LABEL.pattern);
    LeafInside(changed, PropPath("$", "browser"));
    EntryVisits(StringNode, PropPath("$", "browser"), BROWSER_LABEL, changed);
  }

  lemma OpVisits()
    ensures var visited := Visit(StringNode, PropPath("$", "op"), RequestEntries(NoArgs), false);
      visited.Ok? && visited.value.consumed == {PropPath("$", "op")}
  {
    EntriesApart(NoArgs);
    var changed := StringNode.(minLength := Some(1));
    LeafInside(changed, PropPath("$", "op"));
    EntryVisits(StringNode, PropPath("$", "op"), NON_EMPTY, changed);
  }

  lemma ArgsVisits()
    ensures var visited := Visit(Any, PropPath("$", "args"), RequestEntries(NoArgs), false);
      visited.Ok? && visited.value.consumed == {PropPath("$", "args")}
  {
    EntriesApart(NoArgs);
    LeafInside(Imported(NoArgs), PropPath("$", "args"));
    EntryVisits(Any, PropPath("$", "args"), GeneratedSchema(NoArgs), Imported(NoArgs));
  }

  lemma IdVisits()
    ensures var visited := Visit(PlainId, PropPath("$", "id"), RequestEntries(NoArgs), false);
      visited.Ok? && visited.value.consumed == {PropPath("$", "id")}
  {
    EntriesApart(NoArgs);
    var path, table := PropPath("$", "id"), RequestEntries(NoArgs);
    var union := Any.(anyOf := Branches([PlainId, StringNode]));
    LeafInside(PlainId, AnyPath(path, 0));
    LeafInside(StringNode, AnyPath(path, 1));
    var bs := union.anyOf.bs;
    assert bs[1..] == [StringNode] && bs[1..][1..] == [];
    assert VisitAll([StringNode], 1, path, table, false) == Ok(VisitedAll([StringNode] + [], {} + {}));
    assert VisitAll(bs, 0, path, table, false) == Ok(VisitedAll([PlainId] + ([StringNode] + []), {} + ({} + {})));
    assert [PlainId] + ([StringNode] + []) == bs;
    assert VisitInside(union, path, table, false) == Ok(Visited(union, {}));
    EntryVisits(PlainId, path, StringArm, union);
  }

  lemma PropVisits(p: Prop, ps: seq<Prop>, required: seq<string>, mine: set<string>, theirs: set<string>)
    requires var visited := Visit(Field(p, required), PropPath("$", p.name), RequestEntries(NoArgs), false);
      visited.Ok? && visited.value.consumed == mine
    requires var rest := VisitProps(ps, required, "$", RequestEntries(NoArgs), false);
      rest.Ok? && rest.value.consumed == theirs
    ensures var all := VisitProps([p] + ps, required, "$", RequestEntries(NoArgs), false);
      all.Ok? && all.value.consumed == mine + theirs
  {
    assert ([p] + ps)[1..] == ps && ([p] + ps)[0] == p;
  }

  lemma CommandVisits()
    ensures var all := VisitProps([Prop("op", StringNode), Prop("args", Any)], ["id", "args", "op"], "$",
                                  RequestEntries(NoArgs), false);
      all.Ok? && all.value.consumed == {PropPath("$", "op"), PropPath("$", "args")}
  {
    OpVisits();
    ArgsVisits();
    var required, op, args := ["id", "args", "op"], Prop("op", StringNode), Prop("args", Any);
    var o, a := PropPath("$", "op"), PropPath("$", "args");
    assert "args" == required[1] && "op" == required[2];
    PropVisits(args, [], required, {a}, {});
    assert [args] + [] == [args] && {a} + {} == {a};
    PropVisits(op, [args], required, {o}, {a});
    assert [op] + [args] == [op, args] && {o} + {a} == {o, a};
  }

  lemma PropsVisit()
    ensures var all := VisitProps(BaseProps, ["id", "args", "op"], "$", RequestEntries(NoArgs), false);
      all.Ok? && all.value.consumed == RequestEntries(NoArgs).Keys
  {
    BrowserVisits();
    IdVisits();
    CommandVisits();
    var required := ["id", "args", "op"];
    var b, i, o, a := PropPath("$", "browser"), PropPath("$", "id"), PropPath("$", "op"), PropPath("$", "args");
    assert "id" == required[0];
    var command, id := [Prop("op", StringNode), Prop("args", Any)], Prop("id", PlainId);
    PropVisits(id, command, required, {i}, {o, a});
    PropVisits(Prop("browser", NullableString), [id] + command, required, {b}, {i} + {o, a});
    assert [Prop("browser", NullableString)] + ([id] + command) == BaseProps;
    assert RequestEntries(NoArgs).Keys == {b} + ({i} + {o, a});
  }

  /** The envelope as it ships. */
  function Enforced(): Schema {
    TableApplies();
    ApplyAsymmetries(Base, RequestEntries(NoArgs), false).value
  }

  lemma TableApplies()
    ensures ApplyAsymmetries(Base, RequestEntries(NoArgs), false).Ok?
  {
    EntriesApart(NoArgs);
    PropsVisit();
    assert Visit(Base, "$", RequestEntries(NoArgs), false) == VisitInside(Base, "$", RequestEntries(NoArgs), false);
  }

  lemma IsBridge(bound: Option<nat>)
    ensures IsBridgeReq(Requests(bound), Base)
  {
    IsOneUnion(bound);
    var ps := PropsOf(Base);
    assert ps[0].name == "browser" && ps[1].name == "id";
    assert Lookup(ps, "browser") == NullableString && Lookup(ps, "id") == PlainId;
    assert RequiredOf(Base)[0] == "id" && "browser" !in RequiredOf(Base);
    assert IsScalar(PlainId);
  }

  lemma IsTable()
    ensures IsRequestTable(RequestEntries(NoArgs), NoArgs)
  {
    EntriesApart(NoArgs);
    assert forall c :: c in [NON_EMPTY] ==> c == NON_EMPTY;
  }

  /** The generators ship a reader for this request, whatever the bound. */
  lemma IsShipped(bound: Option<nat>)
    ensures Shipped(Requests(bound), Base, Ops, NoArgs, RequestEntries(NoArgs), Enforced())
  {
    IsGenerated(bound);
    IsTable();
    TableApplies();
  }

  // ---- Where the two readings differ -----------------------------------------------

  lemma TagMeans(env: Env, bound: Option<nat>)
    ensures Admits(env, Tag(bound), Str("x")) <==> bound.None? || bound.value >= 1
  {
    assert TString in TypeList(Tag(bound).types) && IsType(TString, Str("x"));
  }

  lemma NoArgsAdmits(env: Env)
    ensures Admits(env, NoArgs, Obj(map[]))
  {
    assert TObject in TypeList(NoArgs.types) && IsType(TObject, Obj(map[]));
  }

  lemma IdAdmits(env: Env, bound: Option<nat>)
    ensures Declares(Requests(bound).properties.ps, "id")
    ensures Admits(env, Lookup(Requests(bound).properties.ps, "id"), Num(0.0))
  {
    var ps := Requests(bound).properties.ps;
    assert ps[0].name == "browser" && ps[1].name == "id";
    assert Lookup(ps, "id") == RustId && IsType(TInteger, Num(0.0)) && TInteger in TypeList(RustId.types);
  }

  lemma MemberAdmits(env: Env, bound: Option<nat>, k: string)
    requires IsFlattened(Requests(bound)) && k in Message.members
    ensures var ps := PropsOf(EnvelopeOf(Requests(bound)));
      Declares(ps, k) && Admits(env, Lookup(ps, k), Message.members[k])
  {
    EnvelopeDeclares(Requests(bound), k);
    PlainNodesAdmit(env, "x", Message.members[k]);
    IdAdmits(env, bound);
  }

  lemma EnvelopeAdmits(env: Env, bound: Option<nat>)
    ensures IsFlattened(Requests(bound)) && Admits(env, EnvelopeOf(Requests(bound)), Message)
  {
    EnvelopeIs(bound);
    EnvelopePrepares();
    var e := EnvelopeOf(Requests(bound));
    assert forall k :: k in RequiredOf(Base) ==> k == "id" || k == "args" || k == "op";
    PreparedIsCanonical(e, Base);
    ObjectLeaf(env, e, Base, Message);
    forall k | k in Message.members
      ensures Declares(PropsOf(e), k) && Admits(env, Lookup(PropsOf(e), k), Message.members[k])
    {
      MemberAdmits(env, bound, k);
    }
    ClosedMeans(env, e, Message);
  }

  /** The flattened schema admits the message only if the bound leaves room for the op. */
  lemma FlattenedAdmits(env: Env, bound: Option<nat>)
    ensures Admits(env, Requests(bound), Message) <==> bound.None? || bound.value >= 1
  {
    EnvelopeAdmits(env, bound);
    NoArgsAdmits(env);
    Splits(bound);
    BranchIsCommand(bound);
    FlattenedMeans(env, Requests(bound), Message);
    BranchMeans(env, Branch(bound), Ops[0], Message);
    TagMeans(env, bound);
    assert Requests(bound).oneOf.bs == [Branch(bound)];
  }

  /**
   The shipped reader accepts the message whatever the bound, and the flattened schema it was generated from
   admits it only if the bound leaves room for the op.
   */
  lemma SplitDropsTagConstraint(env: Env, bound: Option<nat>)
    ensures Shipped(Requests(bound), Base, Ops, NoArgs, RequestEntries(NoArgs), Enforced())
    ensures IsRequestEnvelope(Enforced()) && ParseBridgeReq(env, Enforced(), Ops, Message).Accepted?
    ensures Admits(env, Requests(bound), Message) <==> bound.None? || bound.value >= 1
  {
    IsShipped(bound);
    FlattenedAdmits(env, bound);
    ReaderAccepts(env);
  }

  lemma MessageFits(env: Env)
    ensures Declares(Requests(None).properties.ps, "id")
    ensures Admits(env, Lookup(Requests(None).properties.ps, "id"), Num(0.0))
    ensures Admits(env, Requests(None), Numbered(Message, Num(0.0))) && Bounded(env, Message)
  {
    FlattenedAdmits(env, None);
    IdAdmits(env, None);
    MessageIsPlain(env);
  }

  lemma MessageIsPlain(env: Env)
    ensures Numbered(Message, Num(0.0)) == Message && Bounded(env, Message)
  {
    assert Message.members["op"] == Str("x") && "browser" !in Message.members;
  }

  lemma ReaderAccepts(env: Env)
    ensures IsRequestEnvelope(Enforced()) && ParseBridgeReq(env, Enforced(), Ops, Message).Accepted?
  {
    IsShipped(None);
    IsBridge(None);
    MessageFits(env);
    NumberedAccepted(env, Requests(None), Base, Ops, NoArgs, Enforced(), Message, Num(0.0));
  }
}
