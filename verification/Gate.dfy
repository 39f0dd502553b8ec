/**
 The gate over whole runs, read off the log: which record each decision saw, which decision each dispatch rests
 on, and what a watcher's sweep can and cannot know of the record.
 */
module Gates {
  import opened Wrappers
  import opened TrustRecord
  import opened AdmissionRules
  import opened RefCounts
  import opened Brokers

  // ---- Reading the log -----------------------------------------------------------

  /** The record as last written. */
  function OnDisk(log: seq<Event>): Option<File> {
    if log == [] then None
    else
      var e := log[|log| - 1];
      if e.RecordWritten? then Some(e.record) else OnDisk(log[..|log| - 1])
  }

  predicate OfGate(e: Event, w: nat) {
    (e.GatePassed? || e.GateRefused? || e.Dispatched?) && e.w == w
  }

  /** The worker's last gate decision or dispatch. */
  function Latest(log: seq<Event>, w: nat): Option<Event> {
    if log == [] then None
    else
      var e := log[|log| - 1];
      if OfGate(e, w) then Some(e) else Latest(log[..|log| - 1], w)
  }

  lemma {:induction false} LatestAt(log: seq<Event>, w: nat) returns (i: nat)
    requires Latest(log, w).Some?
    ensures i < |log| && Latest(log, w) == Some(log[i])
    ensures forall k :: i < k < |log| ==> !OfGate(log[k], w)
    decreases |log|
  {
    var n := |log| - 1;
    if OfGate(log[n], w) { i := n; } else { i := LatestAt(log[..n], w); }
  }

  /** An admission and a gate decide on the record as it is, and a dispatch follows its own passed gate. */
  predicate Grounded(log: seq<Event>, e: Event) {
    match e
    case GatePassed(_, seen) => OnDisk(log).Some? && Load(OnDisk(log).value) == Readable(seen)
    case Admitted(_, seen) => OnDisk(log).Some? && Load(OnDisk(log).value) == Readable(seen)
    case Dispatched(w, seen) => Latest(log, w) == Some(GatePassed(w, seen))
    case _ => true
  }

  ghost predicate AllGrounded(log: seq<Event>) {
    forall j :: 0 <= j < |log| ==> Grounded(log[..j], log[j])
  }

  lemma GroundedAppend(log: seq<Event>, e: Event)
    requires AllGrounded(log) && Grounded(log, e)
    ensures AllGrounded(log + [e])
  {
    var longer := log + [e];
    forall j | 0 <= j < |longer| ensures Grounded(longer[..j], longer[j]) {
      if j < |log| {
        assert longer[..j] == log[..j] && longer[j] == log[j];
      } else {
        assert longer[..j] == log;
      }
    }
  }

  // ---- The history invariant -----------------------------------------------------

  /** A cleared worker's latest event is the gate it passed. */
  predicate ClearedByGate(s: Broker, w: nat)
    requires w < |s.workers|
  {
    s.workers[w].phase.Cleared? ==> Latest(s.log, w) == Some(GatePassed(w, s.workers[w].phase.seen))
  }

  predicate HasAdmission(log: seq<Event>, w: nat) {
    exists i :: 0 <= i < |log| && log[i].Admitted? && log[i].w == w
  }

  /** A relay past its decision was admitted by one. */
  predicate AdmittedByRecord(s: Broker, w: nat)
    requires w < |s.workers|
  {
    var k := s.workers[w];
    k.own || k.phase.Attaching? || k.phase.Denied? || HasAdmission(s.log, w)
  }

  ghost predicate HistoryOk(s: Broker) {
    && OnDisk(s.log) == Some(s.record)
    && AllGrounded(s.log)
    && forall w :: 0 <= w < |s.workers| ==> ClearedByGate(s, w) && AdmittedByRecord(s, w)
  }

  lemma {:induction false} LastEvent(log: seq<Event>, e: Event, w: nat)
    ensures OnDisk(log + [e]) == if e.RecordWritten? then Some(e.record) else OnDisk(log)
    ensures Latest(log + [e], w) == if OfGate(e, w) then Some(e) else Latest(log, w)
    ensures HasAdmission(log, w) || (e.Admitted? && e.w == w) ==> HasAdmission(log + [e], w)
  {
    var longer := log + [e];
    assert longer[..|log|] == log && longer[|log|] == e;
    if HasAdmission(log, w) {
      var i :| 0 <= i < |log| && log[i].Admitted? && log[i].w == w;
      assert longer[i] == log[i];
    }
  }

  /** What a worker's step logs, and on what record a passed gate was decided. */
  lemma WorkerLogs(s: Broker, step: Step, w: nat, s': Broker)
    requires OfWorker(step) && w < |s.workers| && WorkerStep(s, step, w) == Some(s')
    ensures s'.record == s.record
    ensures s'.log == s.log ==> (s'.workers[w].phase.Cleared? ==> s'.workers[w].phase == s.workers[w].phase)
    ensures !s'.workers[w].own && !s'.workers[w].phase.Attaching? && !s'.workers[w].phase.Denied? ==>
      || (!s.workers[w].own && !s.workers[w].phase.Attaching? && !s.workers[w].phase.Denied?)
      || (s'.log != s.log && s'.log[|s'.log| - 1].Admitted?)
    ensures s'.log != s.log ==>
      && s'.log == s.log + [s'.log[|s.log|]]
      && Fits(s.workers[w], s'.workers[w], w, s'.log[|s.log|])
      && (s'.log[|s.log|].GatePassed? || s'.log[|s.log|].Admitted? ==> Load(s.record) == Readable(s'.log[|s.log|].seen))
      && (s'.workers[w].phase.Cleared? ==> s'.log[|s.log|] == GatePassed(w, s'.workers[w].phase.seen))
  {
  }

  /** An event of one worker, grounded in the log before it, keeps the history. */
  lemma EventKeepsHistory(s: Broker, w: nat, e: Event, s': Broker)
    requires HistoryOk(s) && s'.record == s.record && s'.log == s.log + [e]
    requires !e.RecordWritten? && e.w == w && Grounded(s.log, e)
    requires w < |s.workers| == |s'.workers| && s'.workers == s.workers[w := s'.workers[w]]
    requires s'.workers[w].phase.Cleared? ==> e == GatePassed(w, s'.workers[w].phase.seen)
    requires s'.workers[w].own || s'.workers[w].phase.Attaching? || s'.workers[w].phase.Denied?
      || HasAdmission(s.log, w) || e.Admitted?
    ensures HistoryOk(s')
  {
    GroundedAppend(s.log, e);
    LastEvent(s.log, e, w);
    forall u | 0 <= u < |s'.workers| ensures ClearedByGate(s', u) && AdmittedByRecord(s', u) {
      LastEvent(s.log, e, u);
      if u != w { assert s'.workers[u] == s.workers[u] && ClearedByGate(s, u) && AdmittedByRecord(s, u); }
    }
  }

  lemma WorkerKeepsHistory(s: Broker, step: Step, w: nat, s': Broker)
    requires HistoryOk(s)
    requires OfWorker(step) && w < |s.workers| && WorkerStep(s, step, w) == Some(s')
    ensures HistoryOk(s')
  {
    OneWorker(s, step, w, s');
    WorkerLogs(s, step, w, s');
    assert ClearedByGate(s, w) && AdmittedByRecord(s, w);
    if s'.log != s.log {
      EventKeepsHistory(s, w, s'.log[|s.log|], s');
    } else {
      forall u | 0 <= u < |s'.workers| ensures ClearedByGate(s', u) && AdmittedByRecord(s', u) {
        if u != w { assert s'.workers[u] == s.workers[u] && ClearedByGate(s, u) && AdmittedByRecord(s, u); }
      }
    }
  }

  lemma StepKeepsHistory(s: Broker, step: Step, s': Broker)
    requires HistoryOk(s) && Next(s, step) == Some(s')
    ensures HistoryOk(s')
  {
    if OfWorker(step) {
      WorkerKeepsHistory(s, step, step.w, s');
    } else {
      if step.Environment? { GroundedAppend(s.log, RecordWritten(step.record)); }
      LastEvent(s.log, RecordWritten(s'.record), 0);
      forall u | 0 <= u < |s'.workers| ensures ClearedByGate(s', u) && AdmittedByRecord(s', u) {
        if u < |s.workers| { assert ClearedByGate(s, u) && AdmittedByRecord(s, u); }
        LastEvent(s.log, RecordWritten(s'.record), u);
      }
    }
  }

  lemma {:induction false} RunKeepsHistory(s: Broker, steps: seq<Step>, s': Broker)
    requires HistoryOk(s) && Run(s, steps) == Some(s')
    ensures HistoryOk(s')
    decreases |steps|
  {
    if steps == [] {
      assert s' == s;
    } else {
      var next := Next(s, steps[0]).value;
      StepKeepsHistory(s, steps[0], next);
      RunKeepsHistory(next, steps[1..], s');
    }
  }

  lemma HistoryIsOk(s: Broker)
    requires Reachable(s)
    ensures HistoryOk(s)
  {
    var id, posture, record, steps :| Run(Start(id, posture, record), steps) == Some(s);
    RunKeepsHistory(Start(id, posture, record), steps, s);
  }

  // ---- Posture never weakens -----------------------------------------------------

  /** In a grounded log, the passed gate a dispatch rests on. */
  lemma GateOf(log: seq<Event>, j: nat) returns (i: nat)
    requires AllGrounded(log) && j < |log| && log[j].Dispatched?
    ensures i < j && log[i] == GatePassed(log[j].w, log[j].seen)
    ensures forall k :: i < k < j ==> !OfGate(log[k], log[j].w)
    ensures OnDisk(log[..i]).Some? && Load(OnDisk(log[..i]).value) == Readable(log[j].seen)
  {
    assert Grounded(log[..j], log[j]);
    i := LatestAt(log[..j], log[j].w);
    assert forall k :: 0 <= k < j ==> log[..j][k] == log[k];
    assert Grounded(log[..i], log[i]);
  }

  /**
   However the record is written, deleted or corrupted: every dispatch rests on a passed gate of its own, with no
   other decision or dispatch of that worker between; that gate saw the record as it was on disk then; and it admits
   the connection under a posture no weaker than its admission.
   */
  lemma PostureNeverWeakens(s: Broker, j: nat) returns (i: nat)
    requires Reachable(s) && j < |s.log| && s.log[j].Dispatched?
    ensures s.log[j].w < |s.workers| && i < j && s.log[i] == GatePassed(s.log[j].w, s.log[j].seen)
    ensures forall k :: i < k < j ==> !OfGate(s.log[k], s.log[j].w)
    ensures OnDisk(s.log[..i]).Some? && Load(OnDisk(s.log[..i]).value) == Readable(s.log[j].seen)
    ensures var k := s.workers[s.log[j].w]; ServedUnder(Readable(s.log[j].seen), k.identity, k.posture)
  {
    ReachableOk(s);
    HistoryIsOk(s);
    i := GateOf(s.log, j);
    var w := s.log[j].w;
    assert EventOk(s, s.log[j]);
    GateMeans(Readable(s.log[j].seen), s.workers[w].identity, s.workers[w].posture);
  }

  /** The posture a relay is held to is the one a record on disk gave its identity when it attached. */
  lemma AdmissionIsTheRecords(s: Broker, w: nat) returns (i: nat)
    requires Reachable(s) && w < |s.workers| && !s.workers[w].own
    requires !s.workers[w].phase.Attaching? && !s.workers[w].phase.Denied?
    ensures i < |s.log| && s.log[i].Admitted? && s.log[i].w == w
    ensures OnDisk(s.log[..i]).Some? && Load(OnDisk(s.log[..i]).value) == Readable(s.log[i].seen)
    ensures Decide(s.log[i].seen, s.workers[w].identity) == Admit(s.workers[w].posture)
  {
    ReachableOk(s);
    HistoryIsOk(s);
    assert AdmittedByRecord(s, w);
    i :| 0 <= i < |s.log| && s.log[i].Admitted? && s.log[i].w == w;
    assert EventOk(s, s.log[i]) && Grounded(s.log[..i], s.log[i]);
  }

  /** After its first gate refusal a connection passes no gate and dispatches nothing, re-paired or not. */
  lemma RefusalEndsConnection(s: Broker, i: nat, j: nat)
    requires Reachable(s) && i < j < |s.log| && s.log[i].GateRefused?
    ensures s.log[j].GatePassed? || s.log[j].Dispatched? ==> s.log[j].w != s.log[i].w
  {
    ReachableOk(s);
  }

  /** The gate refuses the worker on this record. */
  predicate Refuses(record: File, k: Worker) {
    !RequestAdmission(Load(record), k.identity, k.posture).Pass?
  }

  /** Past its admission and not between a passed gate and its dispatch. */
  predicate Ungated(k: Worker) {
    !k.phase.Attaching? && !k.phase.Cleared?
  }

  lemma UngatedStep(s: Broker, step: Step, s': Broker, w: nat)
    requires Next(s, step) == Some(s') && w < |s.workers| && Ungated(s.workers[w]) && Refuses(s.record, s.workers[w])
    ensures w < |s'.workers| && Ungated(s'.workers[w])
    ensures s'.workers[w].identity == s.workers[w].identity && s'.workers[w].posture == s.workers[w].posture
    ensures s.log <= s'.log && |s'.log| <= |s.log| + 1
    ensures |s'.log| > |s.log| ==> !(s'.log[|s.log|].Dispatched? && s'.log[|s.log|].w == w)
  {
    if OfWorker(step) { OneWorker(s, step, step.w, s'); }
  }

  /**
   Enforced on the very next request: while every record on disk refuses a connection, whatever else happens,
   nothing of it is dispatched except what a gate had already cleared.
   */
  lemma {:induction false} RefusedIsNotDispatched(s: Broker, steps: seq<Step>, s': Broker, w: nat)
    requires Run(s, steps) == Some(s') && w < |s.workers| && Ungated(s.workers[w]) && Refuses(s.record, s.workers[w])
    requires forall i :: 0 <= i < |steps| && steps[i].Environment? ==> Refuses(steps[i].record, s.workers[w])
    ensures s.log <= s'.log
    ensures forall j :: |s.log| <= j < |s'.log| && s'.log[j].Dispatched? ==> s'.log[j].w != w
    decreases |steps|
  {
    if steps == [] {
      assert s' == s;
    } else {
      var next := Next(s, steps[0]).value;
      UngatedStep(s, steps[0], next, w);
      assert next.record == if steps[0].Environment? then steps[0].record else s.record by {
        if OfWorker(steps[0]) { OneWorker(s, steps[0], steps[0].w, next); }
      }
      RefusedIsNotDispatched(next, steps[1..], s', w);
    }
  }

  // ---- Revoking and pairing ------------------------------------------------------

  /** No readable form of the record admits the identity. */
  predicate TurnsAway(record: File, id: Option<Identity>) {
    Load(record).Readable? ==> Decide(Load(record).trust, id) == Refused
  }

  /** A later write: the record is damaged, or mutated by anything but a pairing that matches the identity. */
  ghost predicate WrittenWithout(record: File, next: File, id: Identity) {
    || next.Corrupt?
    || exists op :: !PairsWith(op, id) && Mutate(record, op) == Ok(next)
  }

  predicate PairsWith(op: Op, id: Identity) {
    op.Pair? && AnchorMatches(op.entry.anchor, id)
  }

  ghost predicate OnlyWrites(record: File, steps: seq<Step>, id: Identity)
    decreases |steps|
  {
    if steps == [] then true
    else if steps[0].Environment? then
      WrittenWithout(record, steps[0].record, id) && OnlyWrites(steps[0].record, steps[1..], id)
    else OnlyWrites(record, steps[1..], id)
  }

  lemma StaysAway(record: File, next: File, id: Identity)
    requires TurnsAway(record, Some(id)) && WrittenWithout(record, next, id)
    ensures TurnsAway(next, Some(id))
  {
    if !next.Corrupt? {
      var op :| !PairsWith(op, id) && Mutate(record, op) == Ok(next);
      var before, after := Load(record).trust.clients.entries, Load(next).trust.clients.entries;
      assert forall e :: e in after ==> e in before || (op.Pair? && e == op.entry);
    }
  }

  lemma {:induction false} WritesStayAway(record: File, steps: seq<Step>, id: Identity, i: nat)
    requires TurnsAway(record, Some(id)) && OnlyWrites(record, steps, id) && i < |steps| && steps[i].Environment?
    ensures TurnsAway(steps[i].record, Some(id))
    decreases |steps|
  {
    if steps[0].Environment? { StaysAway(record, steps[0].record, id); }
    if i > 0 { WritesStayAway(if steps[0].Environment? then steps[0].record else record, steps[1..], id, i - 1); }
  }

  /**
   A revoke holds until a pairing undoes it: once the only name an identity matches is revoked, nothing of a
   connection under it is dispatched for as long as no pairing that matches it is written.
   */
  lemma RevokedUntilPaired(s: Broker, name: string, id: Identity, revoked: File, steps: seq<Step>, s': Broker, w: nat)
    requires w < |s.workers| && Ungated(s.workers[w]) && s.workers[w].identity == Some(id)
    requires Load(s.record).Readable? && Load(s.record).trust.clients.Paired?
    requires forall e :: e in Load(s.record).trust.clients.entries && AnchorMatches(e.anchor, id) ==> e.name == name
    requires Mutate(s.record, Revoke(name)) == Ok(revoked)
    requires Run(s, [Environment(revoked)] + steps) == Some(s') && OnlyWrites(revoked, steps, id)
    ensures s.log <= s'.log
    ensures forall j :: |s.log| <= j < |s'.log| && s'.log[j].Dispatched? ==> s'.log[j].w != w
  {
    var next := Next(s, Environment(revoked)).value;
    assert ([Environment(revoked)] + steps)[1..] == steps;
    RevokeRefuses(Load(s.record).trust, name, id);
    forall i | 0 <= i < |steps| && steps[i].Environment? ensures Refuses(steps[i].record, s.workers[w]) {
      WritesStayAway(revoked, steps, id, i);
    }
    RefusedIsNotDispatched(next, steps, s', w);
  }

  /** A pairing takes effect on the very next gate, for a connection admitted under either posture. */
  lemma PairedPassesGate(s: Broker, e: Entry, id: Identity, paired: File, mid: Broker, s': Broker, w: nat)
    requires w < |s.workers| && s.workers[w].phase.Asked? && s.workers[w].identity == Some(id)
    requires AnchorMatches(e.anchor, id) && Mutate(s.record, Pair(e)) == Ok(paired)
    requires Next(s, Environment(paired)) == Some(mid) && Next(mid, GateCheck(w)) == Some(s')
    ensures s'.workers[w].phase.Cleared?
  {
    PairAdmits(Load(s.record).trust, e, id);
  }

  // ---- The watcher's read and its sweep ------------------------------------------

  lemma {:induction false} ReadIsHeld(s: Broker, steps: seq<Step>, s': Broker)
    requires Run(s, steps) == Some(s') && s.watcher.HasRead? && Sweep !in steps
    ensures s'.watcher == s.watcher
    decreases |steps|
  {
    if steps == [] {
      assert s' == s;
    } else {
      assert steps[0] in steps;
      ReadIsHeld(Next(s, steps[0]).value, steps[1..], s');
    }
  }

  /**
   One whole tick, with anything between its read and its sweep: a relay served at the sweep stays open exactly
   when the gate passes it on the record as it was at the read. So a relay that every record from the read to the
   sweep refuses is shut, and one the record turned against in between waits for the next tick.
   */
  lemma TickDecidesOnItsRead(s: Broker, steps: seq<Step>, mid: Broker, s': Broker, w: nat)
    requires Reachable(s) && s.watcher.Asleep? && Run(s, [ReadRecord] + steps) == Some(mid) && Sweep !in steps
    requires Next(mid, Sweep) == Some(s')
    requires w < |mid.workers| && !mid.workers[w].own && Busy(mid.workers[w].phase)
    ensures mid.workers[w].slot.Some?
    ensures var id := mid.workers[w].slot.value;
      && id in mid.registry.clients && id in s'.registry.clients
      && (s'.registry.clients[id].open <==> mid.registry.clients[id].open && !Refuses(s.record, mid.workers[w]))
  {
    ReachableFurther(s, [ReadRecord] + steps, mid);
    var read := Next(s, ReadRecord).value;
    assert ([ReadRecord] + steps)[1..] == steps;
    ReadIsHeld(read, steps, mid);
    SweepMatchesGate(mid, w, s');
  }

  /** A stream the sweep has shut stays shut for as long as its connection is registered. */
  lemma {:induction false} ShutStaysShut(s: Broker, steps: seq<Step>, s': Broker, id: nat)
    requires Inv(s) && Run(s, steps) == Some(s') && id in s.registry.clients && !s.registry.clients[id].open
    ensures id in s'.registry.clients ==> !s'.registry.clients[id].open
    ensures id < s'.registry.nextId
    decreases |steps|
  {
    if steps == [] {
      assert s' == s;
    } else {
      var next := Next(s, steps[0]).value;
      StepKeepsInv(s, steps[0], next);
      ShutOrGone(s, steps[0], next, id);
      if id in next.registry.clients {
        ShutStaysShut(next, steps[1..], s', id);
      } else {
        GoneStaysGone(next, steps[1..], s', id);
      }
    }
  }

  lemma ShutOrGone(s: Broker, step: Step, s': Broker, id: nat)
    requires Next(s, step) == Some(s') && id < s.registry.nextId
    ensures s.registry.nextId <= s'.registry.nextId
    ensures id !in s.registry.clients ==> id !in s'.registry.clients
    ensures id in s.registry.clients && !s.registry.clients[id].open && id in s'.registry.clients ==>
      !s'.registry.clients[id].open
  {
  }

  lemma {:induction false} GoneStaysGone(s: Broker, steps: seq<Step>, s': Broker, id: nat)
    requires Run(s, steps) == Some(s') && id < s.registry.nextId && id !in s.registry.clients
    ensures id !in s'.registry.clients && id < s'.registry.nextId
    decreases |steps|
  {
    if steps == [] {
      assert s' == s;
    } else {
      var next := Next(s, steps[0]).value;
      ShutOrGone(s, steps[0], next, id);
      GoneStaysGone(next, steps[1..], s', id);
    }
  }

  /** The messages the worker takes up in a run. */
  function Reads(steps: seq<Step>, w: nat): nat {
    if steps == [] then 0 else (if steps[0] == ReadMessage(w) then 1 else 0) + Reads(steps[1..], w)
  }

  predicate IsShut(s: Broker, w: nat)
    requires w < |s.workers|
  {
    var slot := s.workers[w].slot;
    slot.Some? && slot.value in s.registry.clients && !s.registry.clients[slot.value].open
  }

  predicate IsOver(k: Worker) {
    k.phase.Ending? || k.phase.Denied?
  }

  lemma {:induction false} OverReadsNothing(s: Broker, steps: seq<Step>, s': Broker, w: nat)
    requires Run(s, steps) == Some(s') && w < |s.workers| && IsOver(s.workers[w])
    ensures Reads(steps, w) == 0
    decreases |steps|
  {
    if steps == [] {
    } else {
      var next := Next(s, steps[0]).value;
      if OfWorker(steps[0]) { OneWorker(s, steps[0], steps[0].w, next); }
      OverReadsNothing(next, steps[1..], s', w);
    }
  }

  lemma ShutStep(s: Broker, step: Step, s': Broker, w: nat)
    requires Inv(s) && Next(s, step) == Some(s') && w < |s.workers| && IsShut(s, w)
    ensures w < |s'.workers| && (IsShut(s', w) || IsOver(s'.workers[w]))
    ensures step == ReadMessage(w) ==> s.workers[w].buffered > 0
    ensures s'.workers[w].buffered == s.workers[w].buffered - if step == ReadMessage(w) then 1 else 0
  {
    assert WorkerOk(s.workers[w]);
    if !OfWorker(step) {
      ShutElse(s, step, s', w);
    } else {
      OneWorker(s, step, step.w, s');
      if step.w == w { ShutOwnStep(s, step, s', w); } else { ShutOtherStep(s, step, step.w, s', w); }
    }
  }

  lemma ShutElse(s: Broker, step: Step, s': Broker, w: nat)
    requires Next(s, step) == Some(s') && !OfWorker(step) && w < |s.workers| && IsShut(s, w)
    ensures w < |s'.workers| && s'.workers[w] == s.workers[w] && IsShut(s', w)
  {
  }

  lemma ShutOwnStep(s: Broker, step: Step, s': Broker, w: nat)
    requires OfWorker(step) && w == step.w < |s.workers| && WorkerStep(s, step, w) == Some(s')
    requires WorkerOk(s.workers[w]) && IsShut(s, w)
    ensures w < |s'.workers| && (IsShut(s', w) || IsOver(s'.workers[w]))
    ensures step.ReadMessage? ==> s.workers[w].buffered > 0
    ensures s'.workers[w].buffered == s.workers[w].buffered - if step.ReadMessage? then 1 else 0
  {
  }

  /** Another worker leaves the registry or enters it; either way it is another entry. */
  lemma ShutOtherStep(s: Broker, step: Step, u: nat, s': Broker, w: nat)
    requires RegistryOk(s) && OfWorker(step) && u < |s.workers| && WorkerStep(s, step, u) == Some(s')
    requires w < |s.workers| && u != w && IsShut(s, w) && |s'.workers| == |s.workers| && s'.workers[w] == s.workers[w]
    ensures IsShut(s', w)
  {
    var id := s.workers[w].slot.value;
    assert id < s.registry.nextId;
    if step.DropSlot? {
      assert if u < w then s.workers[u].slot != s.workers[w].slot else s.workers[w].slot != s.workers[u].slot;
    }
  }

  /** A shut stream brings nothing more: its worker takes up no message beyond those that had already arrived. */
  lemma {:induction false} ShutReadsOnlyBuffered(s: Broker, steps: seq<Step>, s': Broker, w: nat)
    requires Inv(s) && Run(s, steps) == Some(s') && w < |s.workers| && IsShut(s, w)
    ensures Reads(steps, w) <= s.workers[w].buffered
    decreases |steps|
  {
    if steps == [] {
    } else {
      var next := Next(s, steps[0]).value;
      StepKeepsInv(s, steps[0], next);
      ShutStep(s, steps[0], next, w);
      if IsShut(next, w) {
        ShutReadsOnlyBuffered(next, steps[1..], s', w);
      } else {
        OverReadsNothing(next, steps[1..], s', w);
      }
    }
  }

  /** The sweep can lag the record: a run in which it leaves open a served relay that the record already refuses. */
  lemma SweepMayLag() returns (s: Broker, s': Broker)
    ensures Reachable(s) && Next(s, Sweep) == Some(s') && |s.workers| == 2 && Busy(s.workers[1].phase)
    ensures Refuses(s.record, s.workers[1]) && 1 in s'.registry.clients && s'.registry.clients[1].open
  {
    var held := RelayHolding();
    var read := Next(held, ReadRecord).value;
    s := Next(read, Environment(Corrupt)).value;
    s' := Next(s, Sweep).value;
    ReachableNext(held, ReadRecord, read);
    ReachableNext(read, Environment(Corrupt), s);
  }

  /** A relay that attached under the open bootstrap and holds its slots. */
  lemma RelayHolding() returns (s: Broker)
    ensures Reachable(s) && s.watcher.Asleep? && s.record.Absent? && |s.workers| == 2
    ensures s.workers[1].phase.Holding? && s.workers[1].identity.None? && s.workers[1].posture.Unenrolled?
    ensures 1 in s.registry.clients && s.registry.clients[1] == Client(None, Unenrolled, true)
  {
    var registered := RelayRegistered();
    s := Next(registered, Acquire(1)).value;
    ReachableNext(registered, Acquire(1), s);
  }
}
