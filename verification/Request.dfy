/**
 The request boundary. The Rust request is one flattened tagged union; `splitFlattenedCommand` factors it
 into an envelope and one args schema per op, `opArgsSchema` merges those into the envelope's `args` bag, and
 `parseBridgeReq` reads a message in two stages: the envelope, then the op's own schema.
 */
module Request {
  import opened Wrappers
  import opened Schemas
  import opened Discriminated
  import opened Prepare

  datatype Command = Command(op: string, args: Schema)
  datatype Flattened = Flattened(envelope: Schema, commands: seq<Command>)

  /** G6 is the split's refusal, Conflict the bag's. */
  datatype Refused = G6 | Conflict | NotObject

  // ---- splitFlattenedCommand ---------------------------------------------------

  predicate IsFlattened(f: Schema) {
    && f.Node? && f.types == One(TObject) && f.properties.Props?
    && f.oneOf.Branches? && f.oneOf.bs != []
    && f.unevaluated == Closed && f.additional.NoSub? && f.anyOf.NoBranches?
    && !Declares(f.properties.ps, "args") && !Declares(f.properties.ps, "op")
  }

  function Names(ps: seq<Prop>): seq<string> {
    seq(|ps|, i requires 0 <= i < |ps| => ps[i].name)
  }

  /** Exactly `{op, args}`, both required, and nothing beside them but annotations. */
  predicate IsCommandBranch(b: Schema) {
    && b.Node? && b.types == One(TObject) && b.properties.Props?
    && b == Any.(types := b.types, properties := b.properties, required := b.required, inert := b.inert)
    && "default" !in b.inert
    && multiset(Names(b.properties.ps)) == multiset{"args", "op"}
    && multiset(RequiredOf(b)) == multiset{"args", "op"}
  }

  lemma CommandMembers(b: Schema, k: string)
    requires IsCommandBranch(b)
    ensures Declares(b.properties.ps, k) <==> k == "op" || k == "args"
    ensures k in RequiredOf(b) <==> k == "op" || k == "args"
  {
    var names := Names(b.properties.ps);
    assert k in names <==> k in multiset(names);
    if Declares(b.properties.ps, k) {
      var i :| 0 <= i < |b.properties.ps| && b.properties.ps[i].name == k;
      assert names[i] == k;
    }
    if k in names {
      var i :| 0 <= i < |names| && names[i] == k;
      assert b.properties.ps[i].name == k;
    }
    assert k in RequiredOf(b) <==> k in multiset(RequiredOf(b));
  }

  function TagNode(b: Schema): Schema
    requires IsCommandBranch(b)
  {
    CommandMembers(b, "op");
    Lookup(b.properties.ps, "op")
  }

  /** The command a branch stands for, when its `op` is a string const. */
  function CommandOf(b: Schema): Option<Command> {
    if !IsCommandBranch(b) then None
    else
      var tag := TagNode(b);
      if tag.Node? && tag.types == One(TString) && tag.constant.Some? && tag.constant.value.Str? then
        CommandMembers(b, "args");
        Some(Command(tag.constant.value.s, Lookup(b.properties.ps, "args")))
      else None
  }

  /** The two command members, in either order. */
  predicate Pairs<T(==)>(xs: seq<T>, a: T, b: T) {
    xs == [a, b] || xs == [b, a]
  }

  /** serde's adjacently tagged variant under the flatten: `op` a string const, `args` the args, annotations beside. */
  ghost predicate IsVariant(b: Schema, tag: Schema, c: Command) {
    && b.Node? && b.properties.Props? && b.required.Some?
    && b == Any.(types := One(TObject), properties := b.properties, required := b.required, inert := b.inert)
    && "default" !in b.inert
    && Pairs(b.properties.ps, Prop("op", tag), Prop("args", c.args)) && Pairs(b.required.value, "op", "args")
    && tag.Node? && tag.types == One(TString) && tag.constant == Some(Str(c.op))
  }

  lemma PairsMultiset(xs: seq<string>, a: string, b: string)
    requires a != b
    ensures multiset(xs) == multiset{a, b} <==> Pairs(xs, a, b)
  {
    if multiset(xs) == multiset{a, b} {
      assert |multiset(xs)| == 2 && xs == [xs[0], xs[1]];
      assert xs[0] in multiset(xs) && xs[1] in multiset(xs) && multiset(xs)[a] == 1;
    }
  }

  /** Two properties named `op` and `args` are those two, in either order. */
  lemma VariantLookups(ps: seq<Prop>, p: Prop, q: Prop)
    requires p.name != q.name
    ensures Pairs(ps, p, q) ==> Names(ps) == [ps[0].name, ps[1].name] && Declares(ps, p.name) && Declares(ps, q.name)
    ensures Pairs(ps, p, q) ==> Lookup(ps, p.name) == p.sub && Lookup(ps, q.name) == q.sub
  {
    if ps == [p, q] {
      assert ps[0].name == p.name && ps[1].name == q.name && ps[1..] == [q];
    } else if ps == [q, p] {
      assert ps[0].name == q.name && ps[1].name == p.name && ps[1..] == [p];
    }
  }

  lemma NamedPairs(ps: seq<Prop>, a: string, b: string)
    requires Pairs(Names(ps), a, b) && a != b
    ensures Declares(ps, a) && Declares(ps, b) && Pairs(ps, Prop(a, Lookup(ps, a)), Prop(b, Lookup(ps, b)))
  {
    assert Names(ps)[0] == ps[0].name && Names(ps)[1] == ps[1].name && ps == [ps[0], ps[1]];
    VariantLookups(ps, ps[0], ps[1]);
  }

  /** A branch is read as a command exactly when it is such a variant. */
  lemma CommandIsVariant(b: Schema, c: Command)
    ensures CommandOf(b) == Some(c) <==> exists tag :: IsVariant(b, tag, c)
  {
    if CommandOf(b) == Some(c) { CommandGivesVariant(b, c); }
    if tag :| IsVariant(b, tag, c) { VariantGivesCommand(b, tag, c); }
  }

  lemma CommandGivesVariant(b: Schema, c: Command)
    requires CommandOf(b) == Some(c)
    ensures IsVariant(b, TagNode(b), c)
  {
    PairsMultiset(Names(b.properties.ps), "op", "args");
    PairsMultiset(RequiredOf(b), "op", "args");
    NamedPairs(b.properties.ps, "op", "args");
  }

  lemma VariantGivesCommand(b: Schema, tag: Schema, c: Command)
    requires IsVariant(b, tag, c)
    ensures CommandOf(b) == Some(c)
  {
    PairsMultiset(Names(b.properties.ps), "op", "args");
    PairsMultiset(RequiredOf(b), "op", "args");
    VariantLookups(b.properties.ps, Prop("op", tag), Prop("args", c.args));
  }

  predicate HasOp(cs: seq<Command>, op: string) {
    exists i :: 0 <= i < |cs| && cs[i].op == op
  }

  predicate DistinctOps(cs: seq<Command>) {
    forall i, j :: 0 <= i < j < |cs| ==> cs[i].op != cs[j].op
  }

  /** The commands of the branches, one each, no op repeated. */
  predicate AreCommands(bs: seq<Schema>, cs: seq<Command>) {
    && |cs| == |bs|
    && (forall i :: 0 <= i < |bs| ==> CommandOf(bs[i]) == Some(cs[i]))
    && DistinctOps(cs)
  }

  function EnvelopeOf(f: Schema): Schema
    requires IsFlattened(f)
  {
    f.(oneOf := NoBranches,
       unevaluated := NoSub,
       properties := Props(f.properties.ps + [Prop("op", Any.(types := One(TString))), Prop("args", Any)]),
       required := Some(RequiredOf(f) + ["args", "op"]),
       additional := Closed)
  }

  /** The commands, or nothing if one is missing or repeats an earlier op. */
  function Collect(found: seq<Option<Command>>): (r: Option<seq<Command>>)
    ensures r.Some? ==> |r.value| == |found|
  {
    if found == [] then Some([])
    else
      var n := |found| - 1;
      var before, c := Collect(found[..n]), found[n];
      if before.None? || c.None? || HasOp(before.value, c.value.op) then None else Some(before.value + [c.value])
  }

  function Found(bs: seq<Schema>): seq<Option<Command>> {
    seq(|bs|, i requires 0 <= i < |bs| => CommandOf(bs[i]))
  }

  /** The commands of the branches, or nothing if a branch is no command or repeats an earlier op. */
  function CommandsOf(bs: seq<Schema>): (r: Option<seq<Command>>)
    ensures r.Some? ==> |r.value| == |bs|
  {
    Collect(Found(bs))
  }

  predicate Holds(found: seq<Option<Command>>, cs: seq<Command>) {
    |cs| == |found| && (forall i :: 0 <= i < |found| ==> found[i] == Some(cs[i])) && DistinctOps(cs)
  }

  lemma {:induction false} CollectIff(found: seq<Option<Command>>, cs: seq<Command>)
    ensures Collect(found) == Some(cs) <==> Holds(found, cs)
    decreases |found|
  {
    if found == [] {
      assert Holds(found, cs) ==> cs == [];
    } else {
      var n := |found| - 1;
      if |cs| == n + 1 {
        CollectIff(found[..n], cs[..n]);
        assert cs[..n] + [cs[n]] == cs;
        HoldsIff(found, cs, n);
      }
      if Collect(found) == Some(cs) { assert Collect(found[..n]) == Some(cs[..n]); }
    }
  }

  lemma HoldsIff(found: seq<Option<Command>>, cs: seq<Command>, n: nat)
    requires |found| == |cs| == n + 1
    ensures Holds(found, cs) <==> Holds(found[..n], cs[..n]) && found[n] == Some(cs[n]) && !HasOp(cs[..n], cs[n].op)
  {
    if Holds(found[..n], cs[..n]) && found[n] == Some(cs[n]) && !HasOp(cs[..n], cs[n].op) {
      forall i | 0 <= i < n ensures found[i] == Some(cs[i]) && cs[i].op != cs[n].op {
        assert found[..n][i] == found[i] && cs[..n][i] == cs[i];
      }
      forall i, j | 0 <= i < j < |cs| ensures cs[i].op != cs[j].op {
        if j < n { assert cs[..n][i] == cs[i] && cs[..n][j] == cs[j]; }
      }
    }
  }

  lemma {:induction false} RefusedPrefix(found: seq<Option<Command>>, n: nat)
    requires n <= |found| && Collect(found[..n]).None?
    ensures Collect(found).None?
    decreases |found|
  {
    if n < |found| {
      assert found[..|found| - 1][..n] == found[..n];
      RefusedPrefix(found[..|found| - 1], n);
    } else {
      assert found[..n] == found;
    }
  }

  lemma NextCommand(found: seq<Option<Command>>, i: nat, cs: seq<Command>)
    requires i < |found| && Collect(found[..i]) == Some(cs)
    ensures var c := found[i];
      Collect(found[..i + 1]) == if c.None? || HasOp(cs, c.value.op) then None else Some(cs + [c.value])
  {
    assert found[..i + 1][..i] == found[..i];
  }

  function Split(f: Schema): (r: Result<Flattened, Refused>)
    ensures r.Ok? ==> IsFlattened(f) && |r.value.commands| == |f.oneOf.bs|
  {
    if !IsFlattened(f) then Err(G6)
    else
      var cs := CommandsOf(f.oneOf.bs);
      if cs.None? then Err(G6) else Ok(Flattened(EnvelopeOf(f), cs.value))
  }

  /** A split gives one command per branch, no op twice. */
  lemma SplitGives(f: Schema)
    requires Split(f).Ok?
    ensures AreCommands(f.oneOf.bs, Split(f).value.commands)
  {
    CollectIff(Found(f.oneOf.bs), Split(f).value.commands);
    HoldsCommands(f.oneOf.bs, Split(f).value.commands);
  }

  lemma HoldsCommands(bs: seq<Schema>, cs: seq<Command>)
    ensures Holds(Found(bs), cs) <==> AreCommands(bs, cs)
  {
    if Holds(Found(bs), cs) {
      forall i | 0 <= i < |bs| ensures CommandOf(bs[i]) == Some(cs[i]) { assert Found(bs)[i] == Some(cs[i]); }
    }
  }

  /** The source's loop: restores `op` and `args` as plain members and keys each op's args schema by the op. */
  method SplitFlattenedCommand(f: Schema) returns (r: Result<Flattened, Refused>)
    ensures r == Split(f)
  {
    if !IsFlattened(f) { return Err(G6); }
    var bs := f.oneOf.bs;
    ghost var found := Found(bs);
    var cs: seq<Command> := [];
    for i := 0 to |bs|
      invariant Collect(found[..i]) == Some(cs)
    {
      var c := CommandOf(bs[i]);
      assert found[i] == c;
      NextCommand(found, i, cs);
      if c.None? || HasOp(cs, c.value.op) {
        RefusedPrefix(found, i + 1);
        return Err(G6);
      }
      cs := cs + [c.value];
    }
    assert found[..|bs|] == found;
    return Ok(Flattened(EnvelopeOf(f), cs));
  }

  /** The split refuses nothing else: it applies exactly when the branches are commands with distinct ops. */
  lemma SplitAppliesIff(f: Schema)
    ensures Split(f).Ok? <==> IsFlattened(f) && exists cs :: AreCommands(f.oneOf.bs, cs)
  {
    if Split(f).Ok? { SplitGives(f); }
    if IsFlattened(f) && exists cs :: AreCommands(f.oneOf.bs, cs) {
      var cs :| AreCommands(f.oneOf.bs, cs);
      HoldsCommands(f.oneOf.bs, cs);
      CollectIff(Found(f.oneOf.bs), cs);
    }
  }

  // ---- opArgsSchema ------------------------------------------------------------

  /** The merged props so far, extended by one op's; a name two ops type differently is a conflict. */
  function Merge(acc: seq<Prop>, ps: seq<Prop>): (r: Result<seq<Prop>, Refused>)
    ensures r.Ok? ==> acc <= r.value
    decreases |ps|
  {
    if ps == [] then Ok(acc)
    else if Declares(acc, ps[0].name) then
      if Lookup(acc, ps[0].name) == ps[0].sub then Merge(acc, ps[1..]) else Err(Conflict)
    else Merge(acc + [ps[0]], ps[1..])
  }

  function MergeAll(acc: seq<Prop>, cs: seq<Command>): (r: Result<seq<Prop>, Refused>)
    ensures r.Ok? ==> acc <= r.value
    decreases |cs|
  {
    if cs == [] then Ok(acc)
    else if !cs[0].args.Node? || !cs[0].args.properties.Props? then Err(NotObject)
    else
      var next :- Merge(acc, cs[0].args.properties.ps);
      MergeAll(next, cs[1..])
  }

  function BagOf(ps: seq<Prop>): Schema {
    Any.(types := One(TObject), properties := Props(ps), required := Some([]), additional := Closed)
  }

  /** The source's loop over the ops, its accumulator one ordered map. */
  method OpArgsSchema(cs: seq<Command>) returns (r: Result<Schema, Refused>)
    ensures MergeAll([], cs).Ok? ==> r == Ok(BagOf(MergeAll([], cs).value))
    ensures MergeAll([], cs).Err? ==> r == Err(MergeAll([], cs).error)
  {
    var props: seq<Prop> := [];
    assert cs[0..] == cs;
    for i := 0 to |cs|
      invariant MergeAll([], cs) == MergeAll(props, cs[i..])
    {
      assert cs[i..][0] == cs[i] && cs[i..][1..] == cs[i + 1..];
      var args := cs[i].args;
      if !args.Node? || !args.properties.Props? { return Err(NotObject); }
      var ps := args.properties.ps;
      ghost var before := props;
      assert ps[0..] == ps;
      for j := 0 to |ps|
        invariant Merge(before, ps) == Merge(props, ps[j..])
      {
        assert ps[j..][0] == ps[j] && ps[j..][1..] == ps[j + 1..];
        if Declares(props, ps[j].name) {
          if Lookup(props, ps[j].name) != ps[j].sub { return Err(Conflict); }
        } else {
          props := props + [ps[j]];
        }
      }
    }
    return Ok(BagOf(props));
  }

  /** One schema per name. */
  predicate Coherent(ps: seq<Prop>) {
    forall p, q :: p in ps && q in ps && p.name == q.name ==> p.sub == q.sub
  }

  function AllProps(cs: seq<Command>): seq<Prop>
    requires forall c :: c in cs ==> c.args.Node? && c.args.properties.Props?
  {
    if cs == [] then [] else cs[0].args.properties.ps + AllProps(cs[1..])
  }

  lemma {:induction false} MergeOkIff(acc: seq<Prop>, ps: seq<Prop>)
    requires Coherent(acc)
    ensures Merge(acc, ps).Ok? <==> Coherent(acc + ps)
    ensures Merge(acc, ps).Ok? ==> forall p :: p in Merge(acc, ps).value <==> p in acc + ps
    decreases |ps|
  {
    if ps == [] {
      assert acc + ps == acc;
    } else {
      var p, all := ps[0], acc + ps;
      assert p in all && forall q :: q in acc ==> q in all;
      if Declares(acc, p.name) {
        var i :| 0 <= i < |acc| && acc[i] == Prop(p.name, Lookup(acc, p.name));
        if acc[i].sub == p.sub {
          assert p == acc[i] && p in acc;
          assert forall q :: q in acc + ps[1..] <==> q in all;
          MergeOkIff(acc, ps[1..]);
        }
      } else {
        assert Coherent(acc + [p]) by { assert forall q :: q in acc ==> Declares(acc, q.name); }
        assert acc + [p] + ps[1..] == all;
        MergeOkIff(acc + [p], ps[1..]);
      }
    }
  }

  lemma {:induction false} MergeAllOkIff(acc: seq<Prop>, cs: seq<Command>)
    requires Coherent(acc) && forall c :: c in cs ==> c.args.Node? && c.args.properties.Props?
    ensures MergeAll(acc, cs).Ok? <==> Coherent(acc + AllProps(cs))
    ensures MergeAll(acc, cs).Ok? ==> forall p :: p in MergeAll(acc, cs).value <==> p in acc + AllProps(cs)
    decreases |cs|
  {
    if cs == [] {
      assert acc + AllProps(cs) == acc;
    } else {
      var ps, rest := cs[0].args.properties.ps, AllProps(cs[1..]);
      MergeOkIff(acc, ps);
      assert acc + AllProps(cs) == acc + ps + rest;
      assert forall q :: q in acc + ps ==> q in acc + ps + rest;
      if Merge(acc, ps).Ok? {
        var next := Merge(acc, ps).value;
        MergeAllOkIff(next, cs[1..]);
        assert forall q :: q in next + rest <==> q in acc + ps + rest;
      }
    }
  }

  /**
   The bag is refused exactly when an op's args are no object or two declarations of a name disagree; otherwise
   it holds the ops' declarations and no others.
   */
  lemma BagMeans(cs: seq<Command>)
    ensures MergeAll([], cs).Ok? <==>
      (forall c :: c in cs ==> c.args.Node? && c.args.properties.Props?) && Coherent(AllProps(cs))
    ensures MergeAll([], cs).Ok? ==>
      && (forall c :: c in cs ==> c.args.Node? && c.args.properties.Props?)
      && (forall p :: p in MergeAll([], cs).value <==> p in AllProps(cs))
  {
    if MergeAll([], cs).Ok? { MergedAllObjects([], cs); }
    if forall c :: c in cs ==> c.args.Node? && c.args.properties.Props? {
      MergeAllOkIff([], cs);
      assert [] + AllProps(cs) == AllProps(cs);
    }
  }

  lemma {:induction false} MergedAllObjects(acc: seq<Prop>, cs: seq<Command>)
    requires MergeAll(acc, cs).Ok?
    ensures forall c :: c in cs ==> c.args.Node? && c.args.properties.Props?
    decreases |cs|
  {
    if cs == [] {
    } else {
      MergedAllObjects(Merge(acc, cs[0].args.properties.ps).value, cs[1..]);
    }
  }

  lemma LookupPrefix(acc: seq<Prop>, ps: seq<Prop>, k: string)
    requires acc <= ps && Declares(acc, k)
    ensures Declares(ps, k) && Lookup(ps, k) == Lookup(acc, k)
  {
    var i :| 0 <= i < |acc| && acc[i].name == k;
    assert ps[i].name == k;
    if acc[0].name != k {
      assert acc[1..][i - 1].name == k;
      LookupPrefix(acc[1..], ps[1..], k);
    }
  }

  /** A name merged in keeps its schema, whichever op brought it. */
  lemma {:induction false} MergeKeeps(acc: seq<Prop>, ps: seq<Prop>, k: string)
    requires Merge(acc, ps).Ok? && Declares(ps, k)
    ensures Declares(Merge(acc, ps).value, k) && Lookup(Merge(acc, ps).value, k) == Lookup(ps, k)
    decreases |ps|
  {
    var next := if Declares(acc, ps[0].name) then acc else acc + [ps[0]];
    if ps[0].name == k {
      assert Declares(next, k) && Lookup(next, k) == ps[0].sub by {
        if next != acc { Appended(acc, ps[0], k); }
      }
      LookupPrefix(next, Merge(acc, ps).value, k);
    } else {
      var i :| 0 <= i < |ps| && ps[i].name == k;
      assert ps[1..][i - 1].name == k;
      MergeKeeps(next, ps[1..], k);
    }
  }

  /** Appending a property declares its name and shadows nothing. */
  lemma {:induction false} Appended(ps: seq<Prop>, p: Prop, k: string)
    ensures Declares(ps + [p], k) <==> Declares(ps, k) || k == p.name
    ensures Declares(ps, k) ==> Lookup(ps + [p], k) == Lookup(ps, k)
    ensures !Declares(ps, k) && k == p.name ==> Lookup(ps + [p], k) == p.sub
  {
    var all := ps + [p];
    assert forall i :: 0 <= i < |ps| ==> all[i] == ps[i];
    assert all[|ps|] == p;
    if ps == [] {
    } else {
      assert all[1..] == ps[1..] + [p];
      Appended(ps[1..], p, k);
    }
  }

  /** Every op's property is in the merged bag, under the schema the op gave it. */
  lemma {:induction false} BagDeclares(acc: seq<Prop>, cs: seq<Command>, i: nat, k: string)
    requires MergeAll(acc, cs).Ok? && i < |cs|
    requires cs[i].args.Node? && cs[i].args.properties.Props? && Declares(cs[i].args.properties.ps, k)
    ensures Declares(MergeAll(acc, cs).value, k)
    ensures Lookup(MergeAll(acc, cs).value, k) == Lookup(cs[i].args.properties.ps, k)
    decreases |cs|
  {
    var next := Merge(acc, cs[0].args.properties.ps).value;
    if i == 0 {
      MergeKeeps(acc, cs[0].args.properties.ps, k);
      LookupPrefix(next, MergeAll(next, cs[1..]).value, k);
    } else {
      BagDeclares(next, cs[1..], i - 1, k);
    }
  }

  /** The bag never refuses args that an op's own schema accepts. */
  lemma BagAdmitsEveryOp(env: Env, cs: seq<Command>, i: nat, a: Json)
    requires MergeAll([], cs).Ok? && i < |cs| && IsObject(cs[i].args)
    requires Admits(env, cs[i].args, a)
    ensures Admits(env, BagOf(MergeAll([], cs).value), a)
  {
    var own, bag := cs[i].args, BagOf(MergeAll([], cs).value);
    assert a.Obj? by { assert exists t :: t in TypeList(own.types) && IsType(t, a); }
    assert IsType(TObject, a) && TObject in TypeList(bag.types);
    forall k | k in a.members
      ensures Declares(PropsOf(bag), k) && Admits(env, Lookup(PropsOf(bag), k), a.members[k])
    {
      assert MembersOk(env, own, a.members);
      BagDeclares([], cs, i, k);
    }
  }

  /** The bag exactly: an object whose every member some op declares, under a schema that admits it. */
  lemma BagExact(env: Env, cs: seq<Command>, a: Json)
    requires MergeAll([], cs).Ok?
    ensures forall c :: c in cs ==> c.args.Node? && c.args.properties.Props?
    ensures Admits(env, BagOf(MergeAll([], cs).value), a) <==>
      && a.Obj?
      && forall k :: k in a.members ==>
           exists p :: p in AllProps(cs) && p.name == k && Admits(env, p.sub, a.members[k])
  {
    BagMeans(cs);
    var ps := MergeAll([], cs).value;
    var bag := BagOf(ps);
    if a.Obj? {
      assert IsType(TObject, a) && TObject in TypeList(bag.types);
      forall k | k in a.members
        ensures Declares(ps, k) && Admits(env, Lookup(ps, k), a.members[k]) <==>
          exists p :: p in AllProps(cs) && p.name == k && Admits(env, p.sub, a.members[k])
      {
        BagMember(env, ps, AllProps(cs), k, a.members[k]);
      }
      assert Admits(env, bag, a) <==> MembersOk(env, bag, a.members);
    } else if Admits(env, bag, a) {
      OnlyObjects(env, bag, a);
    }
  }

  lemma BagMember(env: Env, ps: seq<Prop>, all: seq<Prop>, k: string, x: Json)
    requires Coherent(all) && forall p :: p in ps <==> p in all
    ensures Declares(ps, k) && Admits(env, Lookup(ps, k), x) <==>
      exists p :: p in all && p.name == k && Admits(env, p.sub, x)
  {
    if Declares(ps, k) { assert Prop(k, Lookup(ps, k)) in ps; }
    if p :| p in all && p.name == k && Admits(env, p.sub, x) {
      assert p in ps;
      var i :| 0 <= i < |ps| && ps[i] == p;
      assert Prop(k, Lookup(ps, k)) in all;
    }
  }
}
