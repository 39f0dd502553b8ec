/**
 The broker as a step system. Each connection's worker, the thread that serves the broker's own harness and
 then waits for zero, and the watcher take atomic steps in any order over the shared ref-count, registry,
 pending counter and trust record, which other processes change at any time.
 */
module Brokers {
  import opened Wrappers
  import opened TrustRecord
  import opened AdmissionRules
  import opened RefCounts

  const MAX_PENDING_ATTACH: nat := 32
  const MAX_HARNESS_CLIENTS: nat := 8

  // ---- State -------------------------------------------------------------------

  /**
   Where a worker stands. A relay attaches, is decided, registered, holds a harness slot, is accepted, and
   serves: it waits for a message, has been asked, has been cleared by the gate on a read, dispatches. A denied
   or ending worker only has guards left to drop.
   */
  datatype Phase =
    | Attaching
    | Decided
    | Registered
    | Denied
    | Holding
    | Accepted
    | Serving
    | Asked
    | Cleared(seen: Trust)
    | Ending

  datatype Pending = NoPending | Granted | Overshot

  /** One connection's worker; `buffered` is how many messages have arrived that it has not read yet. */
  datatype Worker = Worker(
    own: bool,
    phase: Phase,
    pending: Pending,
    identity: Option<Identity>,
    posture: Posture,
    slot: Option<nat>,
    harness: bool,
    buffered: nat)

  /** The main thread: serving its own harness, about to look at the count, parked on the condvar, or done. */
  datatype Waiter = OwnServing | Checking | Parked | Done

  /** The watcher between ticks, or with the read of the record its next sweep decides on. */
  datatype Watcher = Asleep | HasRead(read: Read)

  /** What happened, in order: writes of the record, and what each worker sent, decided and dispatched. */
  datatype Event =
    | RecordWritten(record: File)
    | Admitted(w: nat, seen: Trust)
    | AcceptSent(w: nat)
    | GatePassed(w: nat, seen: Trust)
    | GateRefused(w: nat)
    | Dispatched(w: nat, seen: Trust)

  datatype Broker = Broker(
    workers: seq<Worker>,
    count: Count,
    waiter: Waiter,
    watcher: Watcher,
    registry: Registry,
    pending: nat,
    record: File,
    log: seq<Event>)

  function Start(id: Option<Identity>, posture: Posture, record: File): Broker {
    Broker([Worker(true, Serving, NoPending, id, posture, None, true, 0)],
           Count(1, false), OwnServing, Asleep, Registry(1, map[]), 0, record, [RecordWritten(record)])
  }

  // ---- Steps -------------------------------------------------------------------

  datatype Step =
    | Environment(record: File)
    | Connect
    | Reject(w: nat)
    | Admission(w: nat, identity: Option<Identity>)
    | Enter(w: nat)
    | Acquire(w: nat)
    | WriteAccept(w: nat, ok: bool)
    | DropPending(w: nat)
    | Arrive(w: nat)
    | ReadMessage(w: nat)
    | Hangup(w: nat)
    | GateCheck(w: nat)
    | Dispatch(w: nat)
    | DropSlot(w: nat)
    | DropHarness(w: nat)
    | Check
    | Wake
    | ReadRecord
    | Sweep

  function With(s: Broker, w: nat, k: Worker): Broker
    requires w < |s.workers|
  {
    s.(workers := s.workers[w := k])
  }

  /** The worker's guards are down, so what is left of its attach phase is the pending slot. */
  predicate AttachOver(k: Worker) {
    k.phase.Accepted? || ((k.phase.Denied? || k.phase.Ending?) && k.slot.None? && !k.harness)
  }

  /** The state after a step, or nothing when the step is not the next thing any thread does. */
  function Next(s: Broker, step: Step): Option<Broker> {
    match step
    case Environment(record) => Some(s.(record := record, log := s.log + [RecordWritten(record)]))
    case Connect =>
      var k := if s.pending >= MAX_PENDING_ATTACH
               then Worker(false, Denied, Overshot, None, Unenrolled, None, false, 0)
               else Worker(false, Attaching, Granted, None, Unenrolled, None, false, 0);
      Some(s.(workers := s.workers + [k], pending := s.pending + 1))
    case Check =>
      if !s.waiter.Checking? then None
      else if s.count.live != 0 then Some(s.(waiter := Parked))
      else Some(s.(count := Observed(s.count), waiter := Done))
    case Wake => if s.waiter.Parked? then Some(s.(waiter := Checking)) else None
    case ReadRecord => if s.watcher.Asleep? then Some(s.(watcher := HasRead(Load(s.record)))) else None
    case Sweep =>
      if s.watcher.Asleep? then None
      else Some(s.(watcher := Asleep, registry := Ticked(s.registry, s.watcher.read)))
    case _ => if step.w < |s.workers| then WorkerStep(s, step, step.w) else None
  }

  predicate OfWorker(step: Step) {
    && !step.Environment? && !step.Connect? && !step.Check? && !step.Wake?
    && !step.ReadRecord? && !step.Sweep?
  }

  /** Nothing more arrives on a stream that a sweep has shut; what had arrived can still be read. */
  predicate StreamOpen(s: Broker, w: nat)
    requires w < |s.workers|
  {
    var slot := s.workers[w].slot;
    slot.Some? && slot.value in s.registry.clients ==> s.registry.clients[slot.value].open
  }

  function WorkerStep(s: Broker, step: Step, w: nat): Option<Broker>
    requires w < |s.workers| && OfWorker(step)
  {
    var k := s.workers[w];
    match step
    case Reject(_) =>
      if k.phase.Attaching? || k.phase.Decided? then Some(With(s, w, k.(phase := Denied))) else None
    case Admission(_, identity) =>
      if !k.phase.Attaching? then None
      else
        var read := Load(s.record);
        var next := With(s, w, AfterDecision(k, read, identity));
        Some(if next.workers[w].phase.Denied? then next else next.(log := s.log + [Admitted(w, read.trust)]))
    case Enter(_) =>
      if !k.phase.Decided? then None
      else
        var next := Register(s.registry, k.identity, k.posture);
        if next.None? then Some(With(s, w, k.(phase := Denied)))
        else Some(With(s, w, k.(phase := Registered, slot := Some(s.registry.nextId))).(registry := next.value))
    case Acquire(_) =>
      if !k.phase.Registered? then None
      else
        var next := Acquired(s.count, MAX_HARNESS_CLIENTS);
        if next.None? then Some(With(s, w, k.(phase := Denied)))
        else Some(With(s, w, k.(phase := Holding, harness := true)).(count := next.value))
    case WriteAccept(_, ok) =>
      if !k.phase.Holding? then None
      else if ok then Some(With(s, w, k.(phase := Accepted)).(log := s.log + [AcceptSent(w)]))
      else Some(With(s, w, k.(phase := Ending)))
    case DropPending(_) =>
      if k.pending.NoPending? || !AttachOver(k) || s.pending == 0 then None
      else
        var phase := if k.phase.Accepted? then Serving else k.phase;
        Some(With(s, w, k.(phase := phase, pending := NoPending)).(pending := s.pending - 1))
    case Arrive(_) =>
      if StreamOpen(s, w) then Some(With(s, w, k.(buffered := k.buffered + 1))) else None
    case ReadMessage(_) =>
      if !k.phase.Serving? || k.buffered == 0 then None
      else Some(With(s, w, k.(phase := Asked, buffered := k.buffered - 1)))
    case Hangup(_) =>
      if k.phase.Serving? || k.phase.Asked? || k.phase.Cleared? then Some(With(s, w, k.(phase := Ending))) else None
    case GateCheck(_) =>
      if !k.phase.Asked? then None
      else
        var read := Load(s.record);
        if RequestAdmission(read, k.identity, k.posture).Pass? then
          Some(With(s, w, k.(phase := Cleared(read.trust))).(log := s.log + [GatePassed(w, read.trust)]))
        else Some(With(s, w, k.(phase := Ending)).(log := s.log + [GateRefused(w)]))
    case Dispatch(_) =>
      if !k.phase.Cleared? then None
      else Some(With(s, w, k.(phase := Serving)).(log := s.log + [Dispatched(w, k.phase.seen)]))
    case DropSlot(_) =>
      if k.slot.None? || !(k.phase.Denied? || k.phase.Ending?) then None
      else Some(With(s, w, k.(slot := None)).(registry := Deregister(s.registry, k.slot.value)))
    case DropHarness(_) =>
      if !k.phase.Ending? || k.slot.Some? || !k.harness then None
      else
        var count := Released(s.count);
        var waiter := if k.own || (count.live == 0 && s.waiter.Parked?) then Checking else s.waiter;
        Some(With(s, w, k.(harness := false)).(count := count, waiter := waiter))
  }

  function AfterDecision(k: Worker, read: Read, identity: Option<Identity>): Worker {
    match read
    case Unreadable => k.(phase := Denied)
    case Readable(t) =>
      match Decide(t, identity)
      case Refused => k.(phase := Denied)
      case Admit(posture) => k.(phase := Decided, identity := identity, posture := posture)
  }

  /** The state after a whole run of steps, if every one of them was possible. */
  function Run(s: Broker, steps: seq<Step>): Option<Broker>
    decreases |steps|
  {
    if steps == [] then Some(s)
    else
      var next := Next(s, steps[0]);
      if next.None? then None else Run(next.value, steps[1..])
  }

  ghost predicate Reachable(s: Broker) {
    exists id, posture, record, steps :: Run(Start(id, posture, record), steps) == Some(s)
  }

  // ---- Counting ----------------------------------------------------------------

  datatype Guard = HoldsHarness | HoldsPending | HasOvershot

  predicate Has(k: Worker, t: Guard) {
    match t
    case HoldsHarness => k.harness
    case HoldsPending => k.pending.Granted?
    case HasOvershot => k.pending.Overshot?
  }

  function One(k: Worker, t: Guard): nat { if Has(k, t) then 1 else 0 }

  function Tally(ws: seq<Worker>, t: Guard): nat {
    if ws == [] then 0 else One(ws[0], t) + Tally(ws[1..], t)
  }

  lemma {:induction false} TallyUpdate(ws: seq<Worker>, w: nat, k: Worker, t: Guard)
    requires w < |ws|
    ensures Tally(ws[w := k], t) == Tally(ws, t) - One(ws[w], t) + One(k, t)
    ensures Tally(ws, t) >= One(ws[w], t)
  {
    var us := ws[w := k];
    if w == 0 {
      assert us[1..] == ws[1..];
    } else {
      assert us[1..] == ws[1..][w - 1 := k];
      TallyUpdate(ws[1..], w - 1, k, t);
    }
  }

  lemma {:induction false} TallyAppend(ws: seq<Worker>, k: Worker, t: Guard)
    ensures Tally(ws + [k], t) == Tally(ws, t) + One(k, t)
  {
    if ws != [] {
      assert (ws + [k])[1..] == ws[1..] + [k];
      TallyAppend(ws[1..], k, t);
    } else {
      assert ws + [k] == [k];
    }
  }

  // ---- The invariant -----------------------------------------------------------

  /** A harness client between acquiring its slot and the end of its serve loop. */
  predicate Busy(p: Phase) {
    p.Holding? || p.Accepted? || p.Serving? || p.Asked? || p.Cleared?
  }

  predicate InLoop(p: Phase) {
    p.Serving? || p.Asked? || p.Cleared? || p.Ending?
  }

  /** What one worker's guards are, phase by phase. */
  predicate WorkerOk(k: Worker) {
    && (k.harness ==> Busy(k.phase) || k.phase.Ending?)
    && (Busy(k.phase) ==> k.harness && (k.own || k.slot.Some?))
    && (k.phase.Registered? ==> k.slot.Some?)
    && (k.phase.Attaching? || k.phase.Decided? ==> k.slot.None?)
    && (k.phase.Ending? && k.slot.Some? ==> k.harness)
    && (k.own ==> k.slot.None? && k.pending.NoPending? && InLoop(k.phase))
    && (k.pending.Overshot? ==> k.phase.Denied? && k.slot.None?)
    && (k.phase.Cleared? ==> RequestAdmission(Readable(k.phase.seen), k.identity, k.posture).Pass?)
  }

  /** `live` is the number of outstanding slots, never over the cap; a latched or parked main thread agrees. */
  predicate CountOk(s: Broker) {
    && s.workers != [] && s.workers[0].own
    && s.count.live == Tally(s.workers, HoldsHarness)
    && s.count.live <= MAX_HARNESS_CLIENTS
    && (s.waiter.OwnServing? <==> s.workers[0].harness)
    && (s.waiter.Parked? ==> s.count.live > 0)
    && (s.waiter.Done? <==> s.count.terminal)
    && (s.count.terminal ==> s.count.live == 0)
    && (forall i :: 0 < i < |s.workers| ==> !s.workers[i].own)
  }

  /** The counter is the granted slots plus the attempts that overshot and have not restored it yet. */
  predicate PendingOk(s: Broker) {
    && s.pending == Tally(s.workers, HoldsPending) + Tally(s.workers, HasOvershot)
    && Tally(s.workers, HoldsPending) <= MAX_PENDING_ATTACH
  }

  predicate WorkersOk(s: Broker) {
    forall i :: 0 <= i < |s.workers| ==> WorkerOk(s.workers[i])
  }

  predicate HasHolder(ws: seq<Worker>, id: nat) {
    exists i :: 0 <= i < |ws| && ws[i].slot == Some(id)
  }

  /** Slots and registered clients are in one-to-one correspondence, under the worker's own admission. */
  ghost predicate RegistryOk(s: Broker) {
    && (forall i :: 0 <= i < |s.workers| && s.workers[i].slot.Some? ==>
          var id := s.workers[i].slot.value;
          && id in s.registry.clients
          && s.registry.clients[id].identity == s.workers[i].identity
          && s.registry.clients[id].posture == s.workers[i].posture)
    && (forall i, j :: 0 <= i < j < |s.workers| && s.workers[i].slot.Some? ==> s.workers[i].slot != s.workers[j].slot)
    && (forall id :: id in s.registry.clients ==>
          id < s.registry.nextId && HasHolder(s.workers, id))
  }

  /** What the log of a worker says about it now. */
  predicate EventOk(s: Broker, e: Event) {
    !e.RecordWritten? ==>
      && e.w < |s.workers|
      && (e.Dispatched? || e.GatePassed? ==>
            && InLoop(s.workers[e.w].phase)
            && RequestAdmission(Readable(e.seen), s.workers[e.w].identity, s.workers[e.w].posture).Pass?)
      && (e.GateRefused? ==> s.workers[e.w].phase.Ending?)
      && (e.Admitted? ==>
            && !s.workers[e.w].phase.Attaching?
            && Decide(e.seen, s.workers[e.w].identity) == Admit(s.workers[e.w].posture))
  }

  /** Neither a passed gate nor a dispatch of a worker follows its gate refusal. */
  predicate RefusalIsFinal(log: seq<Event>) {
    forall i, j :: 0 <= i < j < |log| && log[i].GateRefused? && (log[j].Dispatched? || log[j].GatePassed?) ==>
      log[i].w != log[j].w
  }

  predicate LogOk(s: Broker) {
    && (forall i :: 0 <= i < |s.log| ==> EventOk(s, s.log[i]))
    && RefusalIsFinal(s.log)
  }

  ghost predicate Inv(s: Broker) {
    CountOk(s) && PendingOk(s) && WorkersOk(s) && RegistryOk(s) && LogOk(s)
  }

  // ---- Every step keeps it -------------------------------------------------------

  lemma StartOk(id: Option<Identity>, posture: Posture, record: File)
    ensures Inv(Start(id, posture, record))
  {
    var s := Start(id, posture, record);
    assert Tally(s.workers[1..], HoldsHarness) == 0;
    assert Tally(s.workers[1..], HoldsPending) == 0;
    assert Tally(s.workers[1..], HasOvershot) == 0;
  }

  /** A worker's step changes that worker alone. */
  lemma OneWorker(s: Broker, step: Step, w: nat, s': Broker)
    requires OfWorker(step) && w < |s.workers| && WorkerStep(s, step, w) == Some(s')
    ensures |s'.workers| == |s.workers| && s'.workers == s.workers[w := s'.workers[w]]
    ensures s'.workers[w].own == s.workers[w].own && s'.record == s.record
  {
  }

  lemma WorkerStaysOk(s: Broker, step: Step, w: nat, s': Broker)
    requires OfWorker(step) && w < |s.workers| && WorkerStep(s, step, w) == Some(s')
    requires WorkerOk(s.workers[w])
    ensures WorkerOk(s'.workers[w])
  {
  }

  lemma KeepsWorkers(s: Broker, step: Step, s': Broker)
    requires WorkersOk(s) && Next(s, step) == Some(s')
    ensures WorkersOk(s')
  {
    if OfWorker(step) {
      OneWorker(s, step, step.w, s');
      WorkerStaysOk(s, step, step.w, s');
    }
  }

  // The harness count.

  /** Only acquiring and dropping a harness slot move the count. */
  lemma HarnessSteady(s: Broker, step: Step, w: nat, s': Broker)
    requires OfWorker(step) && w < |s.workers| && WorkerStep(s, step, w) == Some(s')
    requires !step.DropHarness? && (step.Acquire? ==> Acquired(s.count, MAX_HARNESS_CLIENTS).None?)
    ensures s'.workers[w].harness == s.workers[w].harness
    ensures s'.count == s.count && s'.waiter == s.waiter
  {
  }

  lemma KeepsCountOfWorker(s: Broker, step: Step, w: nat, s': Broker)
    requires OfWorker(step) && w < |s.workers| && WorkerStep(s, step, w) == Some(s')
    requires CountOk(s) && WorkerOk(s.workers[w])
    ensures CountOk(s')
  {
    OneWorker(s, step, w, s');
    TallyUpdate(s.workers, w, s'.workers[w], HoldsHarness);
    if step.DropHarness? {
      DropKeepsCount(s, w, s');
    } else if step.Acquire? && Acquired(s.count, MAX_HARNESS_CLIENTS).Some? {
      assert s'.workers[w].harness && !s.workers[w].harness;
      assert w > 0;
    } else {
      HarnessSteady(s, step, w, s');
    }
  }

  lemma DropKeepsCount(s: Broker, w: nat, s': Broker)
    requires w < |s.workers| && WorkerStep(s, DropHarness(w), w) == Some(s')
    requires CountOk(s)
    requires Tally(s'.workers, HoldsHarness) ==
      Tally(s.workers, HoldsHarness) - One(s.workers[w], HoldsHarness) + One(s'.workers[w], HoldsHarness)
    requires Tally(s.workers, HoldsHarness) >= One(s.workers[w], HoldsHarness)
    ensures CountOk(s')
  {
    assert s.count.live >= 1 && !s.count.terminal;
    assert s.workers[w].own <==> w == 0;
  }

  lemma KeepsCount(s: Broker, step: Step, s': Broker)
    requires CountOk(s) && WorkersOk(s) && Next(s, step) == Some(s')
    ensures CountOk(s')
  {
    if OfWorker(step) {
      KeepsCountOfWorker(s, step, step.w, s');
    } else if step.Connect? {
      TallyAppend(s.workers, s'.workers[|s.workers|], HoldsHarness);
    }
  }

  // The pending counter.

  lemma PendingSteady(s: Broker, step: Step, w: nat, s': Broker)
    requires OfWorker(step) && w < |s.workers| && WorkerStep(s, step, w) == Some(s') && !step.DropPending?
    ensures s'.workers[w].pending == s.workers[w].pending && s'.pending == s.pending
  {
  }

  lemma KeepsPending(s: Broker, step: Step, s': Broker)
    requires PendingOk(s) && Next(s, step) == Some(s')
    ensures PendingOk(s')
  {
    if OfWorker(step) {
      var w := step.w;
      OneWorker(s, step, w, s');
      TallyUpdate(s.workers, w, s'.workers[w], HoldsPending);
      TallyUpdate(s.workers, w, s'.workers[w], HasOvershot);
      if !step.DropPending? { PendingSteady(s, step, w, s'); }
    } else if step.Connect? {
      TallyAppend(s.workers, s'.workers[|s.workers|], HoldsPending);
      TallyAppend(s.workers, s'.workers[|s.workers|], HasOvershot);
    }
  }

  // The registry.

  lemma SlotSteady(s: Broker, step: Step, w: nat, s': Broker)
    requires OfWorker(step) && w < |s.workers| && WorkerStep(s, step, w) == Some(s')
    requires !step.DropSlot? && !step.Admission?
    requires !(step.Enter? && Register(s.registry, s.workers[w].identity, s.workers[w].posture).Some?)
    ensures s'.workers[w].slot == s.workers[w].slot && s'.registry == s.registry
    ensures s'.workers[w].identity == s.workers[w].identity && s'.workers[w].posture == s.workers[w].posture
  {
  }

  /** Replacing a worker by one with the same slot and admission keeps the correspondence. */
  lemma SameSlot(s: Broker, w: nat, k: Worker, s': Broker)
    requires RegistryOk(s) && w < |s.workers| && s'.workers == s.workers[w := k] && s'.registry == s.registry
    requires k.slot == s.workers[w].slot
    requires k.slot.Some? ==> k.identity == s.workers[w].identity && k.posture == s.workers[w].posture
    ensures RegistryOk(s')
  {
    forall id | id in s'.registry.clients ensures HasHolder(s'.workers, id) {
      var i :| 0 <= i < |s.workers| && s.workers[i].slot == Some(id);
      assert s'.workers[i].slot == Some(id);
    }
  }

  lemma EnterKeepsRegistry(s: Broker, w: nat, s': Broker)
    requires RegistryOk(s) && w < |s.workers| && WorkerStep(s, Enter(w), w) == Some(s')
    requires Register(s.registry, s.workers[w].identity, s.workers[w].posture).Some?
    requires s.workers[w].slot.None?
    ensures RegistryOk(s')
  {
    var newId := s.registry.nextId;
    assert newId !in s.registry.clients;
    assert forall i :: 0 <= i < |s.workers| ==> s.workers[i].slot != Some(newId);
    assert s'.workers[w].slot == Some(newId);
    forall id | id in s'.registry.clients ensures HasHolder(s'.workers, id) {
      if id != newId {
        var i :| 0 <= i < |s.workers| && s.workers[i].slot == Some(id);
        assert s'.workers[i].slot == Some(id);
      }
    }
  }

  lemma DropSlotKeepsRegistry(s: Broker, w: nat, s': Broker)
    requires RegistryOk(s) && w < |s.workers| && WorkerStep(s, DropSlot(w), w) == Some(s')
    ensures RegistryOk(s')
  {
    var gone := s.workers[w].slot.value;
    forall i | 0 <= i < |s'.workers| && s'.workers[i].slot.Some? ensures s'.workers[i].slot.value != gone {
      assert i != w;
      if i < w { assert s.workers[i].slot != s.workers[w].slot; }
    }
    forall id | id in s'.registry.clients ensures HasHolder(s'.workers, id) {
      var i :| 0 <= i < |s.workers| && s.workers[i].slot == Some(id);
      assert s'.workers[i].slot == Some(id);
    }
  }

  lemma KeepsRegistryOfWorker(s: Broker, step: Step, w: nat, s': Broker)
    requires RegistryOk(s) && OfWorker(step) && w < |s.workers| && WorkerStep(s, step, w) == Some(s')
    requires WorkerOk(s.workers[w])
    ensures RegistryOk(s')
  {
    if step.DropSlot? {
      DropSlotKeepsRegistry(s, w, s');
    } else if step.Enter? && Register(s.registry, s.workers[w].identity, s.workers[w].posture).Some? {
      EnterKeepsRegistry(s, w, s');
    } else {
      OneWorker(s, step, w, s');
      OtherStepSlot(s, step, w, s');
      SameSlot(s, w, s'.workers[w], s');
    }
  }

  lemma OtherStepSlot(s: Broker, step: Step, w: nat, s': Broker)
    requires OfWorker(step) && w < |s.workers| && WorkerStep(s, step, w) == Some(s') && WorkerOk(s.workers[w])
    requires !step.DropSlot?
    requires !(step.Enter? && Register(s.registry, s.workers[w].identity, s.workers[w].posture).Some?)
    ensures s'.workers[w].slot == s.workers[w].slot && s'.registry == s.registry
    ensures s'.workers[w].slot.Some? ==>
      s'.workers[w].identity == s.workers[w].identity && s'.workers[w].posture == s.workers[w].posture
  {
    if !step.Admission? { SlotSteady(s, step, w, s'); }
  }

  /** A sweep closes streams; it moves no slot and no admission. */
  lemma SweepKeepsRegistry(s: Broker, s': Broker)
    requires RegistryOk(s) && s'.workers == s.workers
    requires s'.registry.nextId == s.registry.nextId && s'.registry.clients.Keys == s.registry.clients.Keys
    requires forall id :: id in s.registry.clients ==>
      && s'.registry.clients[id].identity == s.registry.clients[id].identity
      && s'.registry.clients[id].posture == s.registry.clients[id].posture
    ensures RegistryOk(s')
  {
  }

  lemma KeepsRegistry(s: Broker, step: Step, s': Broker)
    requires RegistryOk(s) && WorkersOk(s) && Next(s, step) == Some(s')
    ensures RegistryOk(s')
  {
    if OfWorker(step) {
      KeepsRegistryOfWorker(s, step, step.w, s');
    } else if step.Connect? {
      ConnectKeepsRegistry(s, s');
    } else {
      if step.Sweep? { SweptKeeps(s.registry, s.watcher.read); }
      SweepKeepsRegistry(s, s');
    }
  }

  lemma SweptKeeps(g: Registry, r: Read)
    ensures Ticked(g, r).nextId == g.nextId && Ticked(g, r).clients.Keys == g.clients.Keys
    ensures forall id :: id in g.clients ==>
      && Ticked(g, r).clients[id].identity == g.clients[id].identity
      && Ticked(g, r).clients[id].posture == g.clients[id].posture
  {
  }

  lemma ConnectKeepsRegistry(s: Broker, s': Broker)
    requires RegistryOk(s) && Next(s, Connect) == Some(s')
    ensures RegistryOk(s')
  {
    forall id | id in s'.registry.clients ensures HasHolder(s'.workers, id) {
      var i :| 0 <= i < |s.workers| && s.workers[i].slot == Some(id);
      assert s'.workers[i].slot == Some(id);
    }
  }

  // The log.

  /** A worker logs a dispatch only out of a cleared gate, and a refusal only as it ends. */
  predicate Fits(k: Worker, k': Worker, w: nat, e: Event) {
    && !e.RecordWritten? && e.w == w
    && (e.GatePassed? ==> k.phase.Asked? && k'.phase == Cleared(e.seen))
    && (e.Dispatched? ==> k.phase == Cleared(e.seen) && k'.phase.Serving?)
    && (e.GateRefused? ==> k.phase.Asked? && k'.phase.Ending?)
    && (e.Admitted? ==> k.phase.Attaching? && k'.phase.Decided? && Decide(e.seen, k'.identity) == Admit(k'.posture))
  }

  /** A worker in its serve loop stays in it, under the admission it has, and an ending one stays ending. */
  lemma LoopSteady(s: Broker, step: Step, w: nat, s': Broker)
    requires OfWorker(step) && w < |s.workers| && WorkerStep(s, step, w) == Some(s')
    ensures InLoop(s.workers[w].phase) ==> InLoop(s'.workers[w].phase)
    ensures !s.workers[w].phase.Attaching? ==>
      && !s'.workers[w].phase.Attaching?
      && s'.workers[w].identity == s.workers[w].identity && s'.workers[w].posture == s.workers[w].posture
    ensures s.workers[w].phase.Ending? ==> s'.workers[w].phase.Ending?
    ensures s'.log == s.log || exists e :: s'.log == s.log + [e] && Fits(s.workers[w], s'.workers[w], w, e)
  {
  }

  lemma KeepsLogOfWorker(s: Broker, step: Step, w: nat, s': Broker)
    requires OfWorker(step) && w < |s.workers| && WorkerStep(s, step, w) == Some(s')
    requires LogOk(s) && WorkerOk(s.workers[w])
    ensures LogOk(s')
  {
    OneWorker(s, step, w, s');
    LoopSteady(s, step, w, s');
    forall i | 0 <= i < |s.log| ensures EventOk(s', s.log[i]) {
      assert EventOk(s, s.log[i]);
    }
    if s'.log != s.log {
      var e :| s'.log == s.log + [e] && Fits(s.workers[w], s'.workers[w], w, e);
      assert EventOk(s', e);
      forall i | 0 <= i < |s.log| && s.log[i].GateRefused? && (e.Dispatched? || e.GatePassed?)
        ensures s.log[i].w != w
      {
        assert EventOk(s, s.log[i]);
      }
    }
  }

  lemma KeepsLog(s: Broker, step: Step, s': Broker)
    requires LogOk(s) && WorkersOk(s) && Next(s, step) == Some(s')
    ensures LogOk(s')
  {
    if OfWorker(step) {
      KeepsLogOfWorker(s, step, step.w, s');
    } else {
      forall i | 0 <= i < |s.log| ensures EventOk(s', s.log[i]) {
        assert EventOk(s, s.log[i]);
      }
    }
  }

  /** The invariant is inductive: every step of every thread keeps it. */
  lemma StepKeepsInv(s: Broker, step: Step, s': Broker)
    requires Inv(s) && Next(s, step) == Some(s')
    ensures Inv(s')
  {
    KeepsWorkers(s, step, s');
    KeepsCount(s, step, s');
    KeepsPending(s, step, s');
    KeepsRegistry(s, step, s');
    KeepsLog(s, step, s');
  }

  lemma {:induction false} RunKeepsInv(s: Broker, steps: seq<Step>, s': Broker)
    requires Inv(s) && Run(s, steps) == Some(s')
    ensures Inv(s')
    decreases |steps|
  {
    if steps == [] {
    } else {
      var next := Next(s, steps[0]).value;
      StepKeepsInv(s, steps[0], next);
      RunKeepsInv(next, steps[1..], s');
    }
  }

  lemma ReachableOk(s: Broker)
    requires Reachable(s)
    ensures Inv(s)
  {
    var id, posture, record, steps :| Run(Start(id, posture, record), steps) == Some(s);
    StartOk(id, posture, record);
    RunKeepsInv(Start(id, posture, record), steps, s);
  }

  lemma {:induction false} RunsCompose(s: Broker, first: seq<Step>, steps: seq<Step>)
    requires Run(s, first).Some?
    ensures Run(s, first + steps) == Run(Run(s, first).value, steps)
    decreases |first|
  {
    if first == [] {
      assert first + steps == steps;
    } else {
      assert (first + steps)[1..] == first[1..] + steps;
      RunsCompose(Next(s, first[0]).value, first[1..], steps);
    }
  }

  lemma ReachableFurther(s: Broker, steps: seq<Step>, s': Broker)
    requires Reachable(s) && Run(s, steps) == Some(s')
    ensures Reachable(s')
  {
    var id, posture, record, first :| Run(Start(id, posture, record), first) == Some(s);
    RunsCompose(Start(id, posture, record), first, steps);
  }

  lemma ReachableNext(s: Broker, step: Step, s': Broker)
    requires Reachable(s) && Next(s, step) == Some(s')
    ensures Reachable(s')
  {
    assert [step][1..] == [] && Run(s', []) == Some(s');
    assert Run(s, [step]) == Some(s');
    ReachableFurther(s, [step], s');
  }

  // ---- Shutdown ------------------------------------------------------------------

  lemma HolderCounts(s: Broker, w: nat)
    requires CountOk(s) && w < |s.workers| && s.workers[w].harness
    ensures s.count.live > 0 && !s.count.terminal
  {
    TallyUpdate(s.workers, w, s.workers[w], HoldsHarness);
  }

  /** The log grew by writes of the record and by decisions on attaching relays, and by nothing else. */
  ghost predicate Quiet(log: seq<Event>, log': seq<Event>) {
    log <= log' && forall i :: |log| <= i < |log'| ==> log'[i].RecordWritten? || log'[i].Admitted?
  }

  lemma TerminalStep(s: Broker, step: Step, s': Broker)
    requires Inv(s) && s.count.terminal && Next(s, step) == Some(s')
    ensures s'.count == s.count && s'.waiter == s.waiter && Quiet(s.log, s'.log)
  {
    if OfWorker(step) { TerminalWorkerStep(s, step, step.w, s'); }
  }

  lemma TerminalWorkerStep(s: Broker, step: Step, w: nat, s': Broker)
    requires CountOk(s) && WorkersOk(s) && s.count.terminal
    requires OfWorker(step) && w < |s.workers| && WorkerStep(s, step, w) == Some(s')
    ensures s'.count == s.count && s'.waiter == s.waiter && Quiet(s.log, s'.log)
  {
    assert WorkerOk(s.workers[w]);
    if s.workers[w].harness { HolderCounts(s, w); }
  }

  /**
   Once the shutdown decision latches, over every further run: the count stays zero and latched, no relay is
   accepted and no request is dispatched.
   */
  lemma {:induction false} ShutdownIsFinal(s: Broker, steps: seq<Step>, s': Broker)
    requires Inv(s) && s.count.terminal && Run(s, steps) == Some(s')
    ensures s'.count.terminal && s'.count.live == 0 && s'.waiter.Done? && Quiet(s.log, s'.log)
    decreases |steps|
  {
    if steps == [] {
    } else {
      var next := Next(s, steps[0]).value;
      StepKeepsInv(s, steps[0], next);
      TerminalStep(s, steps[0], next);
      ShutdownIsFinal(next, steps[1..], s');
    }
  }

  /** An attach that entered the registry and has not yet dropped its slot, without a harness slot. */
  predicate StillAttaching(k: Worker) {
    !k.own && k.slot.Some? && !k.harness && (k.phase.Registered? || k.phase.Denied?)
  }

  /** A registry slot occupied past the shutdown decision is an attach that can only fail and release it. */
  lemma TerminalOccupant(s: Broker, id: nat)
    requires Inv(s) && s.count.terminal && id in s.registry.clients
    ensures exists w :: 0 <= w < |s.workers| && s.workers[w].slot == Some(id) && StillAttaching(s.workers[w])
    ensures forall w :: 0 <= w < |s.workers| && s.workers[w].slot == Some(id) ==>
      && (s.workers[w].phase.Registered? ==> AcquireDenied(s, w))
      && (s.workers[w].phase.Denied? ==> Releases(s, w, id))
    ensures forall w, step :: 0 <= w < |s.workers| && s.workers[w].slot == Some(id) && CanStep(s, w, step) ==>
      step.Acquire? || step.DropSlot?
  {
    var w :| 0 <= w < |s.workers| && s.workers[w].slot == Some(id);
    OccupantAttaching(s, w);
    forall u | 0 <= u < |s.workers| && s.workers[u].slot == Some(id)
      ensures s.workers[u].phase.Registered? ==> AcquireDenied(s, u)
      ensures s.workers[u].phase.Denied? ==> Releases(s, u, id)
      ensures forall step :: CanStep(s, u, step) ==> step.Acquire? || step.DropSlot?
    {
      OccupantSteps(s, u, id);
    }
  }

  /** An attach without a harness slot, after the latch: its acquire fails, its drop releases, and that is all. */
  lemma OccupantSteps(s: Broker, w: nat, id: nat)
    requires Inv(s) && s.count.terminal && w < |s.workers| && s.workers[w].slot == Some(id)
    ensures s.workers[w].phase.Registered? ==> AcquireDenied(s, w)
    ensures s.workers[w].phase.Denied? ==> Releases(s, w, id)
    ensures forall step :: CanStep(s, w, step) ==> step.Acquire? || step.DropSlot?
  {
    OccupantAttaching(s, w);
  }

  lemma OccupantAttaching(s: Broker, w: nat)
    requires Inv(s) && s.count.terminal && w < |s.workers| && s.workers[w].slot.Some?
    ensures StillAttaching(s.workers[w])
  {
    assert WorkerOk(s.workers[w]);
    if s.workers[w].harness { HolderCounts(s, w); }
  }

  /** The worker can take this step next; that a message arrives is its peer's doing. */
  predicate CanStep(s: Broker, w: nat, step: Step)
    requires w < |s.workers|
  {
    OfWorker(step) && !step.Arrive? && WorkerStep(s, step, w).Some?
  }

  predicate AcquireDenied(s: Broker, w: nat)
    requires w < |s.workers|
  {
    Next(s, Acquire(w)) == Some(With(s, w, s.workers[w].(phase := Denied)))
  }

  predicate Releases(s: Broker, w: nat, id: nat)
    requires w < |s.workers|
  {
    var next := Next(s, DropSlot(w));
    next.Some? && id !in next.value.registry.clients
  }

  /** The registry is empty at the shutdown decision exactly when no attach stands between register and acquire. */
  lemma RegistryEmptyAtShutdown(s: Broker)
    requires Inv(s) && s.count.terminal
    ensures s.registry.clients.Keys == {} <==>
      forall w :: 0 <= w < |s.workers| ==> !StillAttaching(s.workers[w])
  {
    if s.registry.clients.Keys != {} {
      var id :| id in s.registry.clients.Keys;
      TerminalOccupant(s, id);
    }
  }

  /** A relay that attached under the open bootstrap and has just registered. */
  lemma RelayRegistered() returns (s: Broker)
    ensures Reachable(s) && s.watcher.Asleep? && s.waiter.OwnServing? && s.record.Absent? && s.count == Count(1, false)
    ensures s.registry == Registry(2, map[1 := Client(None, Unenrolled, true)])
    ensures s.workers == [
      Worker(true, Serving, NoPending, None, Unenrolled, None, true, 0),
      Worker(false, Registered, Granted, None, Unenrolled, Some(1), false, 0)]
  {
    var s0 := Start(None, Unenrolled, Absent);
    var s1 := Next(s0, Connect).value;
    var s2 := Next(s1, Admission(1, None)).value;
    s := Next(s2, Enter(1)).value;
    assert Run(s0, []) == Some(s0);
    ReachableNext(s0, Connect, s1);
    ReachableNext(s1, Admission(1, None), s2);
    ReachableNext(s2, Enter(1), s);
  }

  /** The registry need not be empty then: a relay may register while the last harness leaves. */
  lemma RegistryMayOutliveShutdown() returns (s: Broker)
    ensures Reachable(s) && s.count.terminal && 1 in s.registry.clients
  {
    var s3 := RelayRegistered();
    var s4 := Next(s3, Hangup(0)).value;
    var s5 := Next(s4, DropHarness(0)).value;
    s := Next(s5, Check).value;
    ReachableNext(s3, Hangup(0), s4);
    ReachableNext(s4, DropHarness(0), s5);
    ReachableNext(s5, Check, s);
  }

  /** No lost wakeup: at zero the main thread is not parked, and its next look latches the shutdown. */
  lemma NoLostWakeup(s: Broker)
    requires Inv(s) && s.count.live == 0 && !s.count.terminal
    ensures s.waiter.Checking?
    ensures var next := Next(s, Check); next.Some? && next.value.count.terminal
  {
  }

  // ---- Accounting ----------------------------------------------------------------

  /** In every reachable state the counters are their outstanding guards, and within their bounds. */
  lemma SlotsAccountedFor(s: Broker)
    requires Reachable(s)
    ensures s.count.live == Tally(s.workers, HoldsHarness) <= MAX_HARNESS_CLIENTS
    ensures s.pending == Tally(s.workers, HoldsPending) + Tally(s.workers, HasOvershot)
    ensures Tally(s.workers, HoldsPending) <= MAX_PENDING_ATTACH
    ensures forall w :: 0 <= w < |s.workers| && s.workers[w].harness ==> s.count.live > 0
  {
    ReachableOk(s);
    forall w | 0 <= w < |s.workers| && s.workers[w].harness ensures s.count.live > 0 { HolderCounts(s, w); }
  }

  /** An attach is granted exactly while fewer than the bound are outstanding, overshooting ones included. */
  lemma AttachGranted(s: Broker, s': Broker)
    requires Reachable(s) && Next(s, Connect) == Some(s')
    ensures |s'.workers| == |s.workers| + 1
    ensures s'.workers[|s.workers|].pending.Granted? <==>
      Tally(s.workers, HoldsPending) + Tally(s.workers, HasOvershot) < MAX_PENDING_ATTACH
  {
    SlotsAccountedFor(s);
  }

  /** A registered attach gets its harness slot exactly while one is free and the broker has not committed to exit. */
  lemma SlotGranted(s: Broker, w: nat, s': Broker)
    requires Reachable(s) && Next(s, Acquire(w)) == Some(s')
    ensures w < |s'.workers|
    ensures s'.workers[w].harness <==> !s.count.terminal && Tally(s.workers, HoldsHarness) < MAX_HARNESS_CLIENTS
  {
    ReachableOk(s);
    SlotsAccountedFor(s);
    assert WorkerOk(s.workers[w]);
  }

  // ---- The watcher ---------------------------------------------------------------

  /** A relay being served is registered under the identity and posture it is gated on. */
  lemma ServedIsRegistered(s: Broker, w: nat)
    requires Reachable(s) && w < |s.workers| && !s.workers[w].own && Busy(s.workers[w].phase)
    ensures s.workers[w].slot.Some? && s.workers[w].slot.value in s.registry.clients
    ensures var c := s.registry.clients[s.workers[w].slot.value];
      c.identity == s.workers[w].identity && c.posture == s.workers[w].posture
  {
    ReachableOk(s);
    assert WorkerOk(s.workers[w]);
  }

  /** A sweep shuts a served relay's stream exactly when the gate refuses on the read the watcher holds. */
  lemma SweepMatchesGate(s: Broker, w: nat, s': Broker)
    requires Reachable(s) && Next(s, Sweep) == Some(s')
    requires w < |s.workers| && !s.workers[w].own && Busy(s.workers[w].phase)
    ensures s.watcher.HasRead? && s.workers[w].slot.Some?
    ensures var id := s.workers[w].slot.value;
      && id in s.registry.clients && id in s'.registry.clients
      && (s'.registry.clients[id].open <==>
            s.registry.clients[id].open
            && RequestAdmission(s.watcher.read, s.workers[w].identity, s.workers[w].posture).Pass?)
  {
    ServedIsRegistered(s, w);
    SweepAgreesWithGate(s.registry, s.watcher.read, s.workers[w].slot.value);
    GateMeans(s.watcher.read, s.workers[w].identity, s.workers[w].posture);
  }
}
