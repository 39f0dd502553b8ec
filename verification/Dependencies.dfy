/**
 Dependency graphs as the closure sees them: a lookup that gives a known target its dependencies. The worklist
 loop, exact reachability, and what reachability means for schedules.
 */
module Dependencies {
  import opened Wrappers

  /** The dependencies of a known target; none for an unknown one. */
  type Lookup = string -> Option<seq<string>>

  function Deps(look: Lookup, target: string): seq<string> {
    if look(target).Some? then look(target).value else []
  }

  // ---- Reachability ------------------------------------------------------------

  ghost predicate IsPath(look: Lookup, p: seq<string>) {
    p != [] && (|p| > 1 ==> p[1] in Deps(look, p[0]) && IsPath(look, p[1..]))
  }

  ghost predicate Leads(look: Lookup, p: seq<string>, a: string, b: string) {
    IsPath(look, p) && p[0] == a && p[|p| - 1] == b
  }

  ghost predicate Reaches(look: Lookup, a: string, b: string) {
    exists p :: Leads(look, p, a, b)
  }

  lemma ReachesSelf(look: Lookup, a: string)
    ensures Reaches(look, a, a)
  {
    assert Leads(look, [a], a, a);
  }

  lemma {:induction false} PathExtends(look: Lookup, p: seq<string>, c: string)
    requires IsPath(look, p) && c in Deps(look, p[|p| - 1])
    ensures IsPath(look, p + [c])
    decreases |p|
  {
    assert (p + [c])[1..] == p[1..] + [c];
    if |p| > 1 { PathExtends(look, p[1..], c); } else { assert p[1..] + [c] == [c]; }
  }

  lemma ReachesNext(look: Lookup, a: string, b: string, c: string)
    requires Reaches(look, a, b) && c in Deps(look, b)
    ensures Reaches(look, a, c)
  {
    var p :| Leads(look, p, a, b);
    PathExtends(look, p, c);
    assert Leads(look, p + [c], a, c);
  }

  /** Everything a closed set's members depend on, at any distance, is in the set. */
  lemma {:induction false} ClosedHoldsPath(look: Lookup, closed: set<string>, p: seq<string>)
    requires IsPath(look, p) && p[0] in closed
    requires forall t, d :: t in closed && d in Deps(look, t) ==> d in closed
    ensures p[|p| - 1] in closed
    decreases |p|
  {
    if |p| > 1 { ClosedHoldsPath(look, closed, p[1..]); }
  }

  // ---- The worklist ------------------------------------------------------------

  datatype Work = Work(reached: set<string>, unknown: set<string>, pending: seq<string>) {
    predicate Holds(t: string) {
      t in reached || t in unknown || t in pending
    }
  }

  /** All of it is reachable, nothing reachable is lost, and it stays inside the universe. */
  ghost predicate Working(look: Lookup, universe: set<string>, start: string, w: Work) {
    && (forall t :: t in w.reached ==> look(t).Some? && t in universe)
    && (forall t :: t in w.unknown ==> look(t).None?)
    && (forall t :: w.Holds(t) ==> Reaches(look, start, t))
    && (forall t :: t in w.pending ==> t in universe)
    && w.Holds(start)
    && (forall t, d :: t in w.reached && d in Deps(look, t) ==> w.Holds(d))
  }

  /** What one turn of the loop leaves, having popped the target. */
  function Turned(look: Lookup, w: Work, target: string): Work {
    if target in w.reached then w
    else if look(target).None? then w.(unknown := w.unknown + {target})
    else w.(reached := w.reached + {target}, pending := w.pending + look(target).value)
  }

  ghost predicate Within(look: Lookup, universe: set<string>) {
    forall t, d :: d in Deps(look, t) ==> d in universe
  }

  lemma TurnWorks(look: Lookup, universe: set<string>, start: string, w: Work, target: string)
    requires Within(look, universe) && Working(look, universe, start, w.(pending := w.pending + [target]))
    ensures Working(look, universe, start, Turned(look, w, target))
  {
    var popped, turned := w.(pending := w.pending + [target]), Turned(look, w, target);
    assert popped.Holds(target) && target in popped.pending;
    forall t | turned.Holds(t) ensures Reaches(look, start, t) {
      if t in Deps(look, target) { ReachesNext(look, start, target, t); } else { assert popped.Holds(t); }
    }
    forall t | popped.Holds(t) ensures turned.Holds(t) {
    }
    forall t, d | t in turned.reached && d in Deps(look, t) ensures turned.Holds(d) {
      if t in w.reached { assert popped.Holds(d); }
    }
    forall t | t in turned.pending ensures t in universe {
      if t in w.pending { assert t in popped.pending; } else { assert t in Deps(look, target); }
    }
  }

  lemma TurnProgresses(look: Lookup, universe: set<string>, start: string, w: Work, target: string)
    requires Working(look, universe, start, w.(pending := w.pending + [target]))
    ensures var turned := Turned(look, w, target);
            || |universe - turned.reached| < |universe - w.reached|
            || (turned.reached == w.reached && turned.pending == w.pending)
  {
    assert target in w.pending + [target];
    if target !in w.reached {
      assert universe - w.reached == (universe - (w.reached + {target})) + {target};
    }
  }

  lemma WorkDone(look: Lookup, universe: set<string>, start: string, w: Work)
    requires Working(look, universe, start, w) && w.pending == []
    ensures forall t :: t in w.reached <==> Reaches(look, start, t) && look(t).Some?
    ensures forall t :: t in w.unknown <==> Reaches(look, start, t) && look(t).None?
  {
    forall t, d | t in w.reached + w.unknown && d in Deps(look, t) ensures d in w.reached + w.unknown {
      if t in w.reached { assert w.Holds(d); }
    }
    forall t | Reaches(look, start, t) ensures w.Holds(t) {
      var p :| Leads(look, p, start, t);
      ClosedHoldsPath(look, w.reached + w.unknown, p);
    }
    assert forall t :: t in w.reached || t in w.unknown ==> w.Holds(t);
  }

  /** The worklist loop ends, with exactly the reachable known targets and exactly the reachable unknown ones. */
  method Explore(look: Lookup, ghost universe: set<string>, start: string)
    returns (reached: set<string>, unknown: set<string>)
    requires Within(look, universe) && start in universe
    ensures forall t :: t in reached <==> Reaches(look, start, t) && look(t).Some?
    ensures forall t :: t in unknown <==> Reaches(look, start, t) && look(t).None?
  {
    reached, unknown := {}, {};
    var pending := [start];
    ReachesSelf(look, start);
    while pending != []
      invariant Working(look, universe, start, Work(reached, unknown, pending))
      decreases |universe - reached|, |pending|
    {
      var target := pending[|pending| - 1];
      ghost var w := Work(reached, unknown, pending[..|pending| - 1]);
      assert pending == w.pending + [target];
      TurnWorks(look, universe, start, w, target);
      TurnProgresses(look, universe, start, w, target);
      pending := pending[..|pending| - 1];
      if target in reached { continue; }
      var deps := look(target);
      if deps.None? {
        unknown := unknown + {target};
        continue;
      }
      reached := reached + {target};
      pending := pending + deps.value;
    }
    WorkDone(look, universe, start, Work(reached, unknown, pending));
  }

  // ---- Schedules ---------------------------------------------------------------

  /** Each target runs after everything it depends on. */
  ghost predicate Respects(look: Lookup, order: seq<string>) {
    forall i, d :: 0 <= i < |order| && d in Deps(look, order[i]) ==> d in order[..i]
  }

  lemma {:induction false} PathRunsBefore(look: Lookup, order: seq<string>, i: nat, p: seq<string>)
    requires Respects(look, order) && i < |order| && IsPath(look, p) && p[0] == order[i] && |p| > 1
    ensures p[|p| - 1] in order[..i]
    decreases |p|
  {
    var j :| 0 <= j < i && order[j] == p[1];
    if |p| > 2 { PathRunsBefore(look, order, j, p[1..]); }
  }

  /** The part of a schedule that a target needs. */
  ghost function Needed(look: Lookup, order: seq<string>, target: string): seq<string> {
    if order == [] then []
    else
      var rest := Needed(look, order[..|order| - 1], target);
      if Reaches(look, target, order[|order| - 1]) then rest + [order[|order| - 1]] else rest
  }

  lemma AppendRespects(look: Lookup, order: seq<string>, last: string)
    requires Respects(look, order) && forall d :: d in Deps(look, last) ==> d in order
    ensures Respects(look, order + [last])
  {
    var longer := order + [last];
    assert longer[..|order|] == order;
    assert forall i :: 0 <= i < |order| ==> longer[i] == order[i] && longer[..i] == order[..i];
  }

  lemma {:induction false} NeededRespects(look: Lookup, order: seq<string>, target: string)
    requires Respects(look, order)
    ensures Respects(look, Needed(look, order, target))
    ensures forall t :: t in Needed(look, order, target) <==> t in order && Reaches(look, target, t)
    decreases |order|
  {
    if order == [] {
    } else {
      var n := |order| - 1;
      var init, last := order[..n], order[n];
      assert order == init + [last];
      assert forall i :: 0 <= i < n ==> init[i] == order[i] && init[..i] == order[..i];
      NeededRespects(look, init, target);
      if Reaches(look, target, last) {
        forall d | d in Deps(look, last) ensures d in Needed(look, init, target) {
          ReachesNext(look, target, last, d);
          assert d in order[..n];
        }
        AppendRespects(look, Needed(look, init, target), last);
      }
    }
  }

  /**
   Depending, at any distance, is exactly running later: given that some schedule runs `a` at all, `b` runs
   before `a` in every schedule that respects dependencies if and only if `a` reaches `b`.
   */
  lemma ReachesMeansBefore(look: Lookup, some: seq<string>, a: string, b: string)
    requires a != b && Respects(look, some) && a in some
    ensures Reaches(look, a, b) <==>
            (forall order, i :: Respects(look, order) && 0 <= i < |order| && order[i] == a ==> b in order[..i])
  {
    if Reaches(look, a, b) {
      var p :| Leads(look, p, a, b);
      forall order, i | Respects(look, order) && 0 <= i < |order| && order[i] == a ensures b in order[..i] {
        PathRunsBefore(look, order, i, p);
      }
    } else {
      var order := Needed(look, some, a);
      NeededRespects(look, some, a);
      ReachesSelf(look, a);
      var i :| 0 <= i < |order| && order[i] == a;
      assert b !in order[..i];
    }
  }
}
