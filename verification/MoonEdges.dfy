/**
 The build-order audit of the resolved task graph: a worklist closure over task dependencies, and the rule that
 a task naming a path under build/ depends on every other task that writes there.
 */
module MoonEdges {
  import opened Wrappers
  import opened Dependencies

  const BUILD_DIR := "build"

  /** `outputs` are normalized output paths; `named` the normalized build/ paths the task names. */
  datatype Task = Task(deps: seq<string>, outputs: seq<string>, named: seq<string>)
  datatype Entry = Entry(project: string, id: string, task: Task)

  /** The tasks of every project in listing order; a project and id name the first entry that carries them. */
  type Graph = seq<Entry>

  datatype Writer = Writer(target: string, dir: string)

  datatype Finding =
    | Unwritten(target: string, path: string)
    | Unordered(target: string, path: string, writer: Writer)

  // ---- Targets -----------------------------------------------------------------

  /** Where the first colon stands, or the length. */
  function Colon(s: string): (n: nat)
    ensures n <= |s|
  {
    if s == [] || s[0] == ':' then 0 else 1 + Colon(s[1..])
  }

  function TaskOf(g: Graph, project: string, id: string): Option<Task> {
    if g == [] then None
    else if g[0].project == project && g[0].id == id then Some(g[0].task)
    else TaskOf(g[1..], project, id)
  }

  /** Only the first two colon-separated pieces of a target are read. */
  function Find(g: Graph, target: string): Option<Task> {
    var c := Colon(target);
    if c == |target| then None
    else
      var rest := target[c + 1..];
      TaskOf(g, target[..c], rest[..Colon(rest)])
  }

  function Edges(g: Graph): Lookup {
    (target: string) => (var task := Find(g, target); if task.None? then None else Some(task.value.deps))
  }

  function Target(e: Entry): string {
    e.project + ":" + e.id
  }

  lemma {:induction false} ColonAfter(a: string, b: string)
    requires ':' !in a
    ensures Colon(a + ":" + b) == |a|
    decreases |a|
  {
    if a == [] {
    } else {
      assert (a + ":" + b)[1..] == a[1..] + ":" + b && a[0] in a;
      ColonAfter(a[1..], b);
    }
  }

  lemma {:induction false} NoColon(a: string)
    requires ':' !in a
    ensures Colon(a) == |a|
    decreases |a|
  {
    if a == [] {
    } else {
      assert a[0] in a;
      NoColon(a[1..]);
    }
  }

  predicate Carries(e: Entry, project: string, id: string) { e.project == project && e.id == id }

  lemma {:induction false} TaskOfMeans(g: Graph, project: string, id: string)
    ensures TaskOf(g, project, id).Some? <==> exists e :: e in g && Carries(e, project, id)
    ensures TaskOf(g, project, id).Some? ==>
      exists e :: e in g && Carries(e, project, id) && TaskOf(g, project, id) == Some(e.task)
    decreases |g|
  {
    if g == [] {
    } else {
      TaskOfMeans(g[1..], project, id);
      if Carries(g[0], project, id) { assert g[0] in g; }
      assert forall e :: e in g[1..] ==> e in g;
      assert forall e :: e in g ==> e == g[0] || e in g[1..];
    }
  }

  /**
   A target without stray colons is known exactly when some entry carries its project and id, and names the task of
   such an entry; without a colon at all it names nothing.
   */
  lemma TargetNamesTask(g: Graph, e: Entry)
    requires ':' !in e.project && ':' !in e.id
    ensures Find(g, Target(e)) == TaskOf(g, e.project, e.id)
    ensures Find(g, Target(e)).Some? <==> exists f :: f in g && Carries(f, e.project, e.id)
    ensures Find(g, Target(e)).Some? ==>
      exists f :: f in g && Carries(f, e.project, e.id) && Find(g, Target(e)) == Some(f.task)
    ensures Find(g, e.id).None?
  {
    TaskOfMeans(g, e.project, e.id);
    ColonAfter(e.project, e.id);
    NoColon(e.id);
    assert Target(e)[..|e.project|] == e.project && Target(e)[|e.project| + 1..] == e.id;
    assert e.id[..|e.id|] == e.id;
  }

  // ---- The closure -------------------------------------------------------------

  /** Every target the worklist can ever hold. */
  ghost function Universe(g: Graph, start: string): set<string> {
    {start} + set e, d | e in g && d in e.task.deps :: d
  }

  lemma {:induction false} TaskOfListed(g: Graph, project: string, id: string)
    requires TaskOf(g, project, id).Some?
    ensures exists e :: e in g && e.task == TaskOf(g, project, id).value
    decreases |g|
  {
    if g[0].project == project && g[0].id == id {
      assert g[0] in g;
    } else {
      TaskOfListed(g[1..], project, id);
      var e :| e in g[1..] && e.task == TaskOf(g, project, id).value;
      assert e in g;
    }
  }

  lemma DepsListed(g: Graph, start: string)
    ensures Within(Edges(g), Universe(g, start))
  {
    forall t, d | d in Deps(Edges(g), t) ensures d in Universe(g, start) {
      var c := Colon(t);
      var rest := t[c + 1..];
      TaskOfListed(g, t[..c], rest[..Colon(rest)]);
    }
  }

  /** A known task reached from this one. */
  ghost predicate DependsOn(g: Graph, a: string, b: string) {
    Reaches(Edges(g), a, b) && Find(g, b).Some?
  }

  /** The closure ends on every graph with exactly the reachable tasks and the reachable unknown targets. */
  method Closure(g: Graph, start: string) returns (reached: set<string>, unknown: set<string>)
    ensures forall t :: t in reached <==> DependsOn(g, start, t)
    ensures forall t :: t in unknown <==> Reaches(Edges(g), start, t) && Find(g, t).None?
  {
    DepsListed(g, start);
    reached, unknown := Explore(Edges(g), Universe(g, start), start);
  }

  // ---- The rule ----------------------------------------------------------------

  predicate Under(dir: string, path: string) {
    path == dir || dir + "/" <= path
  }

  /** Where the first segment of a path ends. */
  function Slash(path: string): (n: nat)
    ensures n <= |path| && '/' !in path[..n] && (n < |path| ==> path[n] == '/')
  {
    if path == [] || path[0] == '/' then 0
    else
      var n := Slash(path[1..]);
      assert path[..n + 1] == [path[0]] + path[1..][..n];
      n + 1
  }

  lemma SlashAt(path: string, n: nat)
    requires n <= |path| && '/' !in path[..n] && (n < |path| ==> path[n] == '/')
    ensures Slash(path) == n
  {
    assert forall i :: 0 <= i < n ==> path[i] == path[..n][i];
    assert forall i :: 0 <= i < Slash(path) ==> path[i] == path[..Slash(path)][i];
  }

  /** The segments a path is made of. */
  function Segments(path: string): seq<string>
    decreases |path|
  {
    var n := Slash(path);
    if n == |path| then [path] else [path[..n]] + Segments(path[n + 1..])
  }

  lemma OneSegment(dir: string, path: string)
    requires '/' !in dir
    ensures Under(dir, path) <==> path[..Slash(path)] == dir
  {
    if Under(dir, path) {
      assert path[..|dir|] == dir;
      if path != dir { assert path[|dir|] == (dir + "/")[|dir|]; }
      SlashAt(path, |dir|);
    }
    if path[..Slash(path)] == dir && path != dir {
      assert path[..|dir| + 1] == dir + "/";
    }
  }

  lemma UnderHead(head: string, a: string, b: string)
    ensures Under(head + a, head + b) <==> Under(a, b)
  {
    assert head + a + "/" == head + (a + "/");
    HeadCancels(head, a, b);
    HeadPrefix(head, a + "/", b);
  }

  lemma HeadCancels(head: string, a: string, b: string)
    ensures head + a == head + b <==> a == b
  {
    assert (head + a)[|head|..] == a && (head + b)[|head|..] == b;
  }

  lemma HeadPrefix(head: string, a: string, b: string)
    ensures head + a <= head + b <==> a <= b
  {
    if head + a <= head + b {
      assert forall i :: 0 <= i < |a| ==> a[i] == (head + a)[|head| + i] && b[i] == (head + b)[|head| + i];
    }
  }

  lemma CutAt(path: string, n: nat)
    requires n < |path| && path[n] == '/'
    ensures path == path[..n] + "/" + path[n + 1..]
  {
  }

  lemma FirstSegment(dir: string, path: string)
    requires Slash(dir) < |dir|
    ensures var n, m := Slash(dir), Slash(path);
      Under(dir, path) <==> m < |path| && path[..m] == dir[..n] && Under(dir[n + 1..], path[m + 1..])
  {
    var n, m := Slash(dir), Slash(path);
    if m < |path| && path[..m] == dir[..n] {
      CutAt(dir, n);
      CutAt(path, m);
      UnderHead(dir[..n] + "/", dir[n + 1..], path[m + 1..]);
    } else {
      SharesHead(dir, path);
    }
  }

  lemma SharesHead(dir: string, path: string)
    requires Slash(dir) < |dir|
    ensures Under(dir, path) ==> Slash(path) == Slash(dir) && path[..Slash(dir)] == dir[..Slash(dir)] && dir <= path
  {
    if Under(dir, path) {
      assert dir <= path;
      SlashAt(path, Slash(dir));
    }
  }

  /** A path lies under a directory exactly when its segments begin with the directory's. */
  lemma {:induction false} UnderMeans(dir: string, path: string)
    ensures Under(dir, path) <==> Segments(dir) <= Segments(path)
    decreases |dir|
  {
    var n, m := Slash(dir), Slash(path);
    assert Segments(path)[0] == path[..m];
    if n == |dir| {
      OneSegment(dir, path);
    } else {
      FirstSegment(dir, path);
      assert Segments(dir)[1..] == Segments(dir[n + 1..]);
      if m < |path| {
        assert Segments(path)[1..] == Segments(path[m + 1..]);
        UnderMeans(dir[n + 1..], path[m + 1..]);
        TailPrefix(Segments(dir), Segments(path));
      }
    }
  }

  lemma TailPrefix(a: seq<string>, b: seq<string>)
    requires a != [] && b != []
    ensures a <= b <==> a[0] == b[0] && a[1..] <= b[1..]
  {
    assert a == [a[0]] + a[1..] && b == [b[0]] + b[1..];
  }

  /** A writer of the path or of a directory above it, or of something inside it. */
  predicate Covers(w: Writer, path: string) {
    Under(w.dir, path) || Under(path, w.dir)
  }

  ghost predicate IsWriter(g: Graph, w: Writer) {
    Under(BUILD_DIR, w.dir) && exists e :: e in g && w.target == Target(e) && w.dir in e.task.outputs
  }

  method BuildWriters(g: Graph) returns (writers: seq<Writer>)
    ensures forall w :: w in writers <==> IsWriter(g, w)
  {
    writers := [];
    for i := 0 to |g|
      invariant forall w :: w in writers <==> IsWriter(g[..i], w)
    {
      var own := OwnWriters(g[i]);
      assert g[..i + 1] == g[..i] + [g[i]];
      assert forall w :: IsWriter(g[..i + 1], w) <==> IsWriter(g[..i], w) || IsWriter([g[i]], w);
      writers := writers + own;
    }
    assert g[..|g|] == g;
  }

  method OwnWriters(e: Entry) returns (writers: seq<Writer>)
    ensures forall w :: w in writers <==> IsWriter([e], w)
  {
    writers := [];
    for i := 0 to |e.task.outputs|
      invariant forall w :: w in writers <==>
          w.target == Target(e) && w.dir in e.task.outputs[..i] && Under(BUILD_DIR, w.dir)
    {
      if Under(BUILD_DIR, e.task.outputs[i]) {
        writers := writers + [Writer(Target(e), e.task.outputs[i])];
      }
    }
    assert e.task.outputs[..|e.task.outputs|] == e.task.outputs;
    assert forall w :: IsWriter([e], w) <==> w.target == Target(e) && w.dir in e.task.outputs && Under(BUILD_DIR, w.dir)
      by { assert e in [e]; }
  }

  /** The finding is owed for this target's reading of its path. */
  ghost predicate Owed(g: Graph, f: Finding) {
    match f
    case Unwritten(_, path) => forall w :: IsWriter(g, w) ==> !Covers(w, path)
    case Unordered(target, path, w) =>
      IsWriter(g, w) && Covers(w, path) && w.target != target && !DependsOn(g, target, w.target)
  }

  ghost predicate OwedBy(g: Graph, e: Entry, f: Finding) {
    f.target == Target(e) && f.path in e.task.named && Owed(g, f)
  }

  /** Nothing is owed for this task. */
  ghost predicate Clean(g: Graph, e: Entry) {
    forall f :: !OwedBy(g, e, f)
  }

  /** The covering writers other than the target itself that are not among what it reaches. */
  method MissingEdges(writers: seq<Writer>, reached: set<string>, target: string, path: string)
    returns (covered: bool, findings: seq<Finding>)
    ensures covered <==> exists w :: w in writers && Covers(w, path)
    ensures forall f :: f in findings <==>
              && f.Unordered? && f.target == target && f.path == path
              && f.writer in writers && Covers(f.writer, path)
              && f.writer.target != target && f.writer.target !in reached
  {
    covered, findings := false, [];
    for i := 0 to |writers|
      invariant covered <==> exists w :: w in writers[..i] && Covers(w, path)
      invariant forall f :: f in findings <==>
          && f.Unordered? && f.target == target && f.path == path && f.writer in writers[..i]
          && Covers(f.writer, path) && f.writer.target != target && f.writer.target !in reached
    {
      var w := writers[i];
      assert writers[..i + 1] == writers[..i] + [w];
      if Covers(w, path) {
        covered := true;
        if w.target != target && w.target !in reached {
          findings := findings + [Unordered(target, path, w)];
        }
      }
    }
    assert writers[..|writers|] == writers;
  }

  method CheckRead(g: Graph, writers: seq<Writer>, target: string, path: string) returns (findings: seq<Finding>)
    requires forall w :: w in writers <==> IsWriter(g, w)
    ensures forall f :: f in findings <==> f.target == target && f.path == path && Owed(g, f)
  {
    var reached, _ := Closure(g, target);
    var covered;
    covered, findings := MissingEdges(writers, reached, target, path);
    if !covered {
      findings := [Unwritten(target, path)];
    }
  }

  method AuditTask(g: Graph, writers: seq<Writer>, e: Entry) returns (findings: seq<Finding>)
    requires forall w :: w in writers <==> IsWriter(g, w)
    ensures forall f :: f in findings <==> OwedBy(g, e, f)
  {
    findings := [];
    for i := 0 to |e.task.named|
      invariant forall f :: f in findings <==> f.target == Target(e) && f.path in e.task.named[..i] && Owed(g, f)
    {
      var more := CheckRead(g, writers, Target(e), e.task.named[i]);
      assert e.task.named[..i + 1] == e.task.named[..i] + [e.task.named[i]];
      findings := findings + more;
    }
    assert e.task.named[..|e.task.named|] == e.task.named;
  }

  lemma SilentMeansClean(g: Graph, findings: seq<Finding>)
    requires forall f :: f in findings <==> exists e :: e in g && OwedBy(g, e, f)
    ensures findings == [] <==> forall e :: e in g ==> Clean(g, e)
  {
    if findings == [] {
      forall e, f | e in g ensures !OwedBy(g, e, f) { assert f !in findings; }
    } else {
      assert findings[0] in findings;
      var e :| e in g && OwedBy(g, e, findings[0]);
      assert !Clean(g, e);
    }
  }

  /** The audit reports exactly the findings owed. */
  method AuditBuildOrder(g: Graph) returns (findings: seq<Finding>)
    ensures forall f :: f in findings <==> exists e :: e in g && OwedBy(g, e, f)
    ensures findings == [] <==> forall e :: e in g ==> Clean(g, e)
  {
    var writers := BuildWriters(g);
    findings := [];
    for i := 0 to |g|
      invariant forall f :: f in findings <==> exists e :: e in g[..i] && OwedBy(g, e, f)
    {
      var more := AuditTask(g, writers, g[i]);
      assert g[..i + 1] == g[..i] + [g[i]];
      findings := findings + more;
    }
    assert g[..|g|] == g;
    SilentMeansClean(g, findings);
  }

  // ---- What a clean audit means ------------------------------------------------

  /** With nothing reported for a reader, every schedule respecting dependencies runs its covering writers first. */
  lemma CleanMeansOrdered(g: Graph, order: seq<string>, i: nat, e: Entry, path: string, w: Writer)
    requires Clean(g, e) && Respects(Edges(g), order) && i < |order| && order[i] == Target(e)
    requires path in e.task.named && IsWriter(g, w) && Covers(w, path) && w.target != Target(e)
    ensures w.target in order[..i]
  {
    assert !OwedBy(g, e, Unordered(Target(e), path, w));
    assert order[i] in order;
    ReachesMeansBefore(Edges(g), order, Target(e), w.target);
  }

  /** Some schedule that respects every dependency runs the first target without the second before it. */
  ghost predicate RunsWithout(look: Lookup, a: string, b: string) {
    exists order, i :: Respects(look, order) && 0 <= i < |order| && order[i] == a && b !in order[..i]
  }

  /**
   A reported missing edge is real: if any schedule at all runs the reader, some schedule that respects every
   dependency runs it before the writer, exactly when the writer's target is not reached. A reached one is
   reported only where its project's name or its task's id holds a colon, so that it names no task.
   */
  lemma UnorderedIsReal(g: Graph, some: seq<string>, e: Entry, f: Finding)
    requires OwedBy(g, e, f) && f.Unordered? && Respects(Edges(g), some) && Target(e) in some
    ensures RunsWithout(Edges(g), Target(e), f.writer.target) <==> !Reaches(Edges(g), Target(e), f.writer.target)
    ensures Find(g, f.writer.target).Some? ==> !Reaches(Edges(g), Target(e), f.writer.target)
  {
    ReachesMeansBefore(Edges(g), some, Target(e), f.writer.target);
  }
}
