/**
 When the asymmetry pass accepts a table. Rule A1 asks that every entry be consumed: that the walk come to a node at
 its path. `Reaches` says which paths the walk comes to, `Applies` that each change fits the node it comes to, and
 the pass succeeds exactly when every entry is reached and every reached entry applies.
 */
module TableRules {
  import opened Wrappers
  import opened Schemas
  import opened Discriminated
  import opened Prepare
  import opened Asymmetry
  import opened Loosening

  // ---- One change -----------------------------------------------------------------

  /** Variants of one tag and one shared content field, both required. */
  ghost predicate SharesContent(bs: seq<Schema>, tag: string, content: Prop) {
    Discriminates(bs, tag, StringTag) && forall i :: 0 <= i < |bs| ==> ContentOf(bs[i], tag) == Some(content)
  }

  lemma SharedTagIsFound(bs: seq<Schema>, tag: string, content: Prop)
    requires |bs| >= 2 && SharesContent(bs, tag, content)
    ensures FindTag(bs, StringTag) == Some(tag)
  {
    var found := FindTag(bs, StringTag).value;
    if found != tag {
      PinsContent(bs[0], tag, content, found);
      PinsContent(bs[1], tag, content, found);
    }
  }

  /** The one other name a variant pins is its content's, and its const is in the content. */
  lemma PinsContent(b: Schema, tag: string, content: Prop, k: string)
    requires ContentOf(b, tag) == Some(content) && Tags(b, k, StringTag) && k != tag
    ensures content.sub.Node? && TagOf(b, k, StringTag) == content.sub.constant
  {
    var ps := PropsOf(b);
    assert Prop(k, Lookup(ps, k)) in ps;
  }

  /** A tag union collapses exactly when its variants are told apart by a tag and share one content field. */
  lemma CollapseAppliesIff(s: Schema)
    ensures CollapseTagUnion(s).Ok? <==>
      IsUnion(s) && |s.anyOf.bs| >= 2 && exists tag, content :: SharesContent(s.anyOf.bs, tag, content)
  {
    if IsUnion(s) && |s.anyOf.bs| >= 2 {
      var bs := s.anyOf.bs;
      if CollapseTagUnion(s).Ok? {
        var tag := FindTag(bs, StringTag).value;
        assert SharesContent(bs, tag, ContentOf(bs[0], tag).value);
      }
      if tag, content :| SharesContent(bs, tag, content) { SharedTagIsFound(bs, tag, content); }
    }
  }

  /** The node a change may be made to. */
  ghost predicate Suits(s: Schema, c: Change) {
    match c
    case StringChange(_, _, _) => s == StringNode
    case StringArm => s.Node? && (s.types == One(TInteger) || s.types == One(TNumber))
    case TagUnion =>
      IsUnion(s) && |s.anyOf.bs| >= 2 && exists tag, content :: SharesContent(s.anyOf.bs, tag, content)
    case GeneratedSchema(_) => s.Node?
    case OkSplit(_, _) => false
  }

  lemma ChangeAppliesIff(s: Schema, c: Change)
    ensures ApplyChange(s, c).Ok? <==> Suits(s, c)
  {
    CollapseAppliesIff(s);
  }

  // ---- The paths the walk comes to --------------------------------------------------

  /** The node as its entry leaves it; as it stands without one, or with one that does not apply. */
  function Entered(s: Schema, path: string, table: Table): Schema {
    if path in table && ApplyChanges(s, table[path]).Ok? then ApplyChanges(s, table[path]).value else s
  }

  ghost predicate Reaches(s: Schema, path: string, table: Table, key: string)
    decreases EntriesFrom(table, |path|), Height(s), 2, 0
  {
    FewerEntries(table, |path|, |path| + 1);
    !s.Truth? && (key == path || ReachesInside(Entered(s, path, table), path, table, key))
  }

  ghost predicate ReachesInside(s: Schema, path: string, table: Table, key: string)
    decreases EntriesFrom(table, |path| + 1), Height(s), 1, 0
  {
    if !s.Node? then false
    else
      FewerEntries(table, |path| + 1, |ItemsPath(path)|);
      || (s.properties.Props? && ReachesProps(s.properties.ps, RequiredOf(s), path, table, key))
      || (s.items.Sub? && !s.items.s.Truth? && Reaches(s.items.s, ItemsPath(path), table, key))
      || (s.anyOf.Branches? && ReachesAll(s.anyOf.bs, 0, path, table, key))
  }

  ghost predicate ReachesProps(ps: seq<Prop>, required: seq<string>, path: string, table: Table, key: string)
    decreases EntriesFrom(table, |path| + 1), HeightOfProps(ps), 3, |ps|
  {
    if ps == [] then false
    else
      DroppedHeight(ps[0].sub);
      FewerEntries(table, |path| + 1, |PropPath(path, ps[0].name)|);
      || Reaches(Field(ps[0], required), PropPath(path, ps[0].name), table, key)
      || ReachesProps(ps[1..], required, path, table, key)
  }

  ghost predicate ReachesAll(bs: seq<Schema>, n: nat, path: string, table: Table, key: string)
    decreases EntriesFrom(table, |path| + 1), HeightOfAll(bs), 3, |bs|
  {
    if bs == [] then false
    else
      FewerEntries(table, |path| + 1, |AnyPath(path, n)|);
      Reaches(bs[0], AnyPath(path, n), table, key) || ReachesAll(bs[1..], n + 1, path, table, key)
  }

  // ---- What the walk consumes -------------------------------------------------------

  lemma {:induction false} VisitConsumes(s: Schema, path: string, table: Table, out: Visited, key: string)
    requires Visit(s, path, table, false) == Ok(out)
    ensures key in out.consumed <==> key in table && Reaches(s, path, table, key)
    decreases EntriesFrom(table, |path|), Height(s), 2, 0
  {
    FewerEntries(table, |path|, |path| + 1);
    if !s.Truth? {
      if path in table {
        var changed := ApplyChanges(s, table[path]).value;
        InsideConsumes(changed, path, table, VisitInside(changed, path, table, false).value, key);
      } else {
        InsideConsumes(s, path, table, out, key);
      }
    }
  }

  lemma {:induction false} InsideConsumes(s: Schema, path: string, table: Table, out: Visited, key: string)
    requires VisitInside(s, path, table, false) == Ok(out)
    ensures key in out.consumed <==> key in table && ReachesInside(s, path, table, key)
    decreases EntriesFrom(table, |path| + 1), Height(s), 1, 0
  {
    if s.Node? {
      InsideParts(s, path, table, false);
      FewerEntries(table, |path| + 1, |ItemsPath(path)|);
      if s.properties.Props? {
        PropsConsume(s.properties.ps, RequiredOf(s), path, table, PropsInside(s, path, table, false).value, key);
      }
      if s.items.Sub? && !s.items.s.Truth? {
        VisitConsumes(s.items.s, ItemsPath(path), table, ItemsInside(s, path, table, false).value, key);
      }
      if s.anyOf.Branches? { AllConsume(s.anyOf.bs, 0, path, table, AnyInside(s, path, table, false).value, key); }
    }
  }

  lemma {:induction false} PropsConsume(ps: seq<Prop>, required: seq<string>, path: string, table: Table,
                                        out: VisitedProps, key: string)
    requires VisitProps(ps, required, path, table, false) == Ok(out)
    ensures key in out.consumed <==> key in table && ReachesProps(ps, required, path, table, key)
    decreases EntriesFrom(table, |path| + 1), HeightOfProps(ps), 3, |ps|
  {
    if ps == [] {
    } else {
      var at := PropPath(path, ps[0].name);
      DroppedHeight(ps[0].sub);
      FewerEntries(table, |path| + 1, |at|);
      VisitConsumes(Field(ps[0], required), at, table, Visit(Field(ps[0], required), at, table, false).value, key);
      PropsConsume(ps[1..], required, path, table, VisitProps(ps[1..], required, path, table, false).value, key);
    }
  }

  lemma {:induction false} AllConsume(bs: seq<Schema>, n: nat, path: string, table: Table, out: VisitedAll, key: string)
    requires VisitAll(bs, n, path, table, false) == Ok(out)
    ensures key in out.consumed <==> key in table && ReachesAll(bs, n, path, table, key)
    decreases EntriesFrom(table, |path| + 1), HeightOfAll(bs), 3, |bs|
  {
    if bs == [] {
    } else {
      FewerEntries(table, |path| + 1, |AnyPath(path, n)|);
      VisitConsumes(bs[0], AnyPath(path, n), table, Visit(bs[0], AnyPath(path, n), table, false).value, key);
      AllConsume(bs[1..], n + 1, path, table, VisitAll(bs[1..], n + 1, path, table, false).value, key);
    }
  }

  // ---- When the walk succeeds -------------------------------------------------------

  /** The changes of an entry suit the node in turn, splits left for the frame. */
  ghost predicate ChangesSuit(s: Schema, changes: seq<Change>)
    decreases |changes|
  {
    if changes == [] then true
    else if changes[0].OkSplit? then ChangesSuit(s, changes[1..])
    else Suits(s, changes[0]) && ApplyChange(s, changes[0]).Ok?
         && ChangesSuit(ApplyChange(s, changes[0]).value, changes[1..])
  }

  lemma {:induction false} ChangesApplyIff(s: Schema, changes: seq<Change>)
    ensures ApplyChanges(s, changes).Ok? <==> ChangesSuit(s, changes)
    decreases |changes|
  {
    if changes == [] {
    } else if changes[0].OkSplit? {
      ChangesApplyIff(s, changes[1..]);
    } else {
      ChangeAppliesIff(s, changes[0]);
      if ApplyChange(s, changes[0]).Ok? { ChangesApplyIff(ApplyChange(s, changes[0]).value, changes[1..]); }
    }
  }

  predicate Splits(changes: seq<Change>) {
    exists c :: c in changes && c.OkSplit?
  }

  /** An entry mixes no split with a foreign schema, its changes suit the node, and its splits the walked frame. */
  ghost predicate EntryApplies(s: Schema, path: string, table: Table)
    requires path in table
  {
    && !(Splits(table[path]) && exists c :: c in table[path] && c.GeneratedSchema?)
    && ChangesSuit(s, table[path])
    && (Splits(table[path]) ==>
          var inner := VisitInside(Entered(s, path, table), path, table, false);
          inner.Ok? && ApplyOkSplits(inner.value.schema, table[path], path).Ok?)
  }

  ghost predicate Applies(s: Schema, path: string, table: Table)
    decreases EntriesFrom(table, |path|), Height(s), 2, 0
  {
    FewerEntries(table, |path|, |path| + 1);
    s.Truth? ||
      ((path in table ==> EntryApplies(s, path, table)) && AppliesInside(Entered(s, path, table), path, table))
  }

  ghost predicate AppliesInside(s: Schema, path: string, table: Table)
    decreases EntriesFrom(table, |path| + 1), Height(s), 1, 0
  {
    if !s.Node? then true
    else
      FewerEntries(table, |path| + 1, |ItemsPath(path)|);
      && (s.properties.Props? ==> AppliesProps(s.properties.ps, RequiredOf(s), path, table))
      && (s.items.Sub? && !s.items.s.Truth? ==> Applies(s.items.s, ItemsPath(path), table))
      && (s.anyOf.Branches? ==> AppliesAll(s.anyOf.bs, 0, path, table))
  }

  ghost predicate AppliesProps(ps: seq<Prop>, required: seq<string>, path: string, table: Table)
    decreases EntriesFrom(table, |path| + 1), HeightOfProps(ps), 3, |ps|
  {
    if ps == [] then true
    else
      DroppedHeight(ps[0].sub);
      FewerEntries(table, |path| + 1, |PropPath(path, ps[0].name)|);
      && Applies(Field(ps[0], required), PropPath(path, ps[0].name), table)
      && AppliesProps(ps[1..], required, path, table)
  }

  ghost predicate AppliesAll(bs: seq<Schema>, n: nat, path: string, table: Table)
    decreases EntriesFrom(table, |path| + 1), HeightOfAll(bs), 3, |bs|
  {
    if bs == [] then true
    else
      FewerEntries(table, |path| + 1, |AnyPath(path, n)|);
      Applies(bs[0], AnyPath(path, n), table) && AppliesAll(bs[1..], n + 1, path, table)
  }

  lemma {:induction false} NoSplitApplies(s: Schema, changes: seq<Change>, path: string)
    requires !Splits(changes)
    ensures ApplyOkSplits(s, changes, path) == Ok(s)
    decreases |changes|
  {
    if changes == [] {
    } else {
      assert changes[0] in changes;
      assert forall c :: c in changes[1..] ==> c in changes;
      NoSplitApplies(s, changes[1..], path);
    }
  }

  lemma {:induction false} VisitAppliesIff(s: Schema, path: string, table: Table)
    ensures Visit(s, path, table, false).Ok? <==> Applies(s, path, table)
    decreases EntriesFrom(table, |path|), Height(s), 2, 0
  {
    FewerEntries(table, |path|, |path| + 1);
    if !s.Truth? {
      if path in table {
        ChangesApplyIff(s, table[path]);
        if ApplyChanges(s, table[path]).Ok? {
          var changed := ApplyChanges(s, table[path]).value;
          InsideAppliesIff(changed, path, table);
          var inner := VisitInside(changed, path, table, false);
          if inner.Ok? && !Splits(table[path]) { NoSplitApplies(inner.value.schema, table[path], path); }
        }
      } else {
        InsideAppliesIff(s, path, table);
      }
    }
  }

  lemma {:induction false} InsideAppliesIff(s: Schema, path: string, table: Table)
    ensures VisitInside(s, path, table, false).Ok? <==> AppliesInside(s, path, table)
    decreases EntriesFrom(table, |path| + 1), Height(s), 1, 0
  {
    if s.Node? {
      InsideParts(s, path, table, false);
      FewerEntries(table, |path| + 1, |ItemsPath(path)|);
      if s.properties.Props? { PropsApplyIff(s.properties.ps, RequiredOf(s), path, table); }
      if s.items.Sub? && !s.items.s.Truth? { VisitAppliesIff(s.items.s, ItemsPath(path), table); }
      if s.anyOf.Branches? { AllApplyIff(s.anyOf.bs, 0, path, table); }
    }
  }

  lemma {:induction false} PropsApplyIff(ps: seq<Prop>, required: seq<string>, path: string, table: Table)
    ensures VisitProps(ps, required, path, table, false).Ok? <==> AppliesProps(ps, required, path, table)
    decreases EntriesFrom(table, |path| + 1), HeightOfProps(ps), 3, |ps|
  {
    if ps == [] {
    } else {
      DroppedHeight(ps[0].sub);
      FewerEntries(table, |path| + 1, |PropPath(path, ps[0].name)|);
      VisitAppliesIff(Field(ps[0], required), PropPath(path, ps[0].name), table);
      PropsApplyIff(ps[1..], required, path, table);
    }
  }

  lemma {:induction false} AllApplyIff(bs: seq<Schema>, n: nat, path: string, table: Table)
    ensures VisitAll(bs, n, path, table, false).Ok? <==> AppliesAll(bs, n, path, table)
    decreases EntriesFrom(table, |path| + 1), HeightOfAll(bs), 3, |bs|
  {
    if bs == [] {
    } else {
      FewerEntries(table, |path| + 1, |AnyPath(path, n)|);
      VisitAppliesIff(bs[0], AnyPath(path, n), table);
      AllApplyIff(bs[1..], n + 1, path, table);
    }
  }

  /** The pass succeeds, strict or loose, exactly when every entry is reached and every reached entry applies. */
  lemma PassAppliesIff(base: Schema, table: Table, loose: bool)
    ensures ApplyAsymmetries(base, table, loose).Ok? <==>
      Applies(base, "$", table) && forall key :: key in table ==> Reaches(base, "$", table, key)
  {
    LooseVisit(base, "$", table);
    VisitAppliesIff(base, "$", table);
    var visited := Visit(base, "$", table, false);
    if visited.Ok? {
      forall key ensures key in visited.value.consumed <==> key in table && Reaches(base, "$", table, key) {
        VisitConsumes(base, "$", table, visited.value, key);
      }
      assert table.Keys <= visited.value.consumed <==> forall key :: key in table ==> key in visited.value.consumed;
    }
  }
}
