/**
 What the broker does when nothing interferes: an attach is served exactly when every bound has room and the record
 admits it, a request is dispatched exactly when the gate passes it, and leaving gives back all that attaching took.
 */
module Services {
  import opened Wrappers
  import opened TrustRecord
  import opened AdmissionRules
  import opened RefCounts
  import opened Brokers

  /** One step more, if the steps before it were possible. */
  function Then(s: Option<Broker>, step: Step): Option<Broker> {
    if s.None? then None else Next(s.value, step)
  }

  lemma Rewritten(s: Broker, w: nat, k: Worker, k': Worker)
    requires w < |s.workers|
    ensures With(With(s, w, k), w, k') == With(s, w, k')
  {
    assert s.workers[w := k][w := k'] == s.workers[w := k'];
  }

  // ---- A request -----------------------------------------------------------------

  /** The read, the gate and the dispatch of one message. */
  function Requested(s: Broker, w: nat): Option<Broker> {
    Then(Then(Next(s, ReadMessage(w)), GateCheck(w)), Dispatch(w))
  }

  /** The state once worker `w`, standing as `k`, has been cleared and has dispatched; none if the gate refuses it. */
  ghost function Dispatches(s: Broker, w: nat, k: Worker): Option<Broker>
    requires w < |s.workers|
  {
    var read := Load(s.record);
    if ServedUnder(read, k.identity, k.posture) then
      Some(With(s, w, k.(phase := Serving)).(log := s.log + [GatePassed(w, read.trust), Dispatched(w, read.trust)]))
    else None
  }

  lemma AskedServed(s: Broker, w: nat)
    requires w < |s.workers| && s.workers[w].phase.Asked?
    ensures Then(Next(s, GateCheck(w)), Dispatch(w)) == Dispatches(s, w, s.workers[w])
  {
    var k, read := s.workers[w], Load(s.record);
    GateMeans(read, k.identity, k.posture);
    if ServedUnder(read, k.identity, k.posture) {
      Rewritten(s, w, k.(phase := Cleared(read.trust)), k.(phase := Serving));
      assert s.log + [GatePassed(w, read.trust)] + [Dispatched(w, read.trust)]
          == s.log + [GatePassed(w, read.trust), Dispatched(w, read.trust)];
    }
  }

  /**
   A waiting worker with a message dispatches it and waits again exactly when the gate passes on the record as it is;
   the log then gains the decision and the dispatch, and nothing else changes.
   */
  lemma RequestServed(s: Broker, w: nat)
    requires w < |s.workers| && s.workers[w].phase.Serving? && s.workers[w].buffered > 0
    ensures Requested(s, w) == Dispatches(s, w, s.workers[w].(buffered := s.workers[w].buffered - 1))
  {
    var asked := s.workers[w].(phase := Asked, buffered := s.workers[w].buffered - 1);
    assert Next(s, ReadMessage(w)) == Some(With(s, w, asked));
    AskedServed(With(s, w, asked), w);
    Rewritten(s, w, asked, asked.(phase := Serving));
  }

  /** A refused request ends the connection, and the log says so. */
  lemma RequestRefused(s: Broker, w: nat)
    requires w < |s.workers| && s.workers[w].phase.Asked?
    requires !ServedUnder(Load(s.record), s.workers[w].identity, s.workers[w].posture)
    ensures Next(s, GateCheck(w)) ==
      Some(With(s, w, s.workers[w].(phase := Ending)).(log := s.log + [GateRefused(w)]))
  {
    GateMeans(Load(s.record), s.workers[w].identity, s.workers[w].posture);
  }

  // ---- An attach -----------------------------------------------------------------

  /** Every bound has room and the record admits the identity. */
  predicate CanAttach(s: Broker, id: Option<Identity>) {
    && s.pending < MAX_PENDING_ATTACH
    && Load(s.record).Readable? && Decide(Load(s.record).trust, id).Admit?
    && s.registry.nextId < U64_MAX
    && !s.count.terminal && s.count.live < MAX_HARNESS_CLIENTS
  }

  /** The steps of an attach: decided on the record, registered, counted, accepted, and no longer pending. */
  function Attempted(s: Broker, id: Option<Identity>): Option<Broker> {
    var w := |s.workers|;
    Then(Then(Then(Entered(s, id), Acquire(w)), WriteAccept(w, true)), DropPending(w))
  }

  function Entered(s: Broker, id: Option<Identity>): Option<Broker> {
    Then(Then(Next(s, Connect), Admission(|s.workers|, id)), Enter(|s.workers|))
  }

  function Relay(phase: Phase, pending: Pending, id: Option<Identity>, posture: Posture, slot: Option<nat>,
                 harness: bool): Worker
  {
    Worker(false, phase, pending, id, posture, slot, harness, 0)
  }

  /** The broker with one more relay in service. */
  function Attached(s: Broker, id: Option<Identity>): Broker
    requires CanAttach(s, id)
  {
    var posture, n := Decide(Load(s.record).trust, id).posture, s.registry.nextId;
    s.(workers := s.workers + [Relay(Serving, NoPending, id, posture, Some(n), true)],
       count := s.count.(live := s.count.live + 1),
       registry := Registry(n + 1, s.registry.clients[n := Client(id, posture, true)]),
       log := s.log + [Admitted(|s.workers|, Load(s.record).trust), AcceptSent(|s.workers|)])
  }

  /** The state with a new last worker. */
  function Plus(s: Broker, k: Worker): Broker { s.(workers := s.workers + [k]) }

  lemma PlusWith(s: Broker, k: Worker, k': Worker)
    ensures With(Plus(s, k), |s.workers|, k') == Plus(s, k')
  {
    assert (s.workers + [k])[|s.workers| := k'] == s.workers + [k'];
  }

  lemma Connects(s: Broker)
    ensures var t := s.(pending := s.pending + 1);
      Next(s, Connect) == Some(Plus(t,
        if s.pending < MAX_PENDING_ATTACH then Relay(Attaching, Granted, None, Unenrolled, None, false)
        else Relay(Denied, Overshot, None, Unenrolled, None, false)))
  {
  }

  lemma Decides(t: Broker, k: Worker, id: Option<Identity>)
    requires k.phase.Attaching?
    ensures var w, read := |t.workers|, Load(t.record);
      Next(Plus(t, k), Admission(w, id)) ==
        if read.Readable? && Decide(read.trust, id).Admit? then
          Some(Plus(t.(log := t.log + [Admitted(w, read.trust)]),
                    k.(phase := Decided, identity := id, posture := Decide(read.trust, id).posture)))
        else Some(Plus(t, k.(phase := Denied)))
  {
    PlusWith(t, k, AfterDecision(k, Load(t.record), id));
  }

  lemma Enters(t: Broker, k: Worker)
    requires k.phase.Decided?
    ensures var w, n := |t.workers|, t.registry.nextId;
      Next(Plus(t, k), Enter(w)) ==
        if n < U64_MAX then
          Some(Plus(t.(registry := Registry(n + 1, t.registry.clients[n := Client(k.identity, k.posture, true)])),
                    k.(phase := Registered, slot := Some(n))))
        else Some(Plus(t, k.(phase := Denied)))
  {
    PlusWith(t, k, k.(phase := Registered, slot := Some(t.registry.nextId)));
    PlusWith(t, k, k.(phase := Denied));
  }

  lemma Acquires(t: Broker, k: Worker)
    requires k.phase.Registered?
    ensures Next(Plus(t, k), Acquire(|t.workers|)) ==
      if !t.count.terminal && t.count.live < MAX_HARNESS_CLIENTS then
        Some(Plus(t.(count := t.count.(live := t.count.live + 1)), k.(phase := Holding, harness := true)))
      else Some(Plus(t, k.(phase := Denied)))
  {
    PlusWith(t, k, k.(phase := Holding, harness := true));
    PlusWith(t, k, k.(phase := Denied));
  }

  lemma Accepts(t: Broker, k: Worker)
    requires k.phase.Holding? && k.pending.Granted? && t.pending > 0
    ensures var w := |t.workers|;
      Then(Next(Plus(t, k), WriteAccept(w, true)), DropPending(w)) ==
        Some(Plus(t.(pending := t.pending - 1, log := t.log + [AcceptSent(w)]),
                  k.(phase := Serving, pending := NoPending)))
  {
    var w := |t.workers|;
    PlusWith(t, k, k.(phase := Accepted));
    PlusWith(t.(log := t.log + [AcceptSent(w)]), k.(phase := Accepted), k.(phase := Serving, pending := NoPending));
  }

  /** A denied worker does not go on attaching. */
  lemma Halts(t: Broker, k: Worker, step: Step)
    requires k.phase.Denied? && (step.Admission? || step.Enter? || step.Acquire? || step.WriteAccept?)
    requires step.w == |t.workers|
    ensures Next(Plus(t, k), step).None?
  {
  }

  /** An attach whose steps follow one another ends in service exactly when it can, and then takes just this. */
  lemma AttachServed(s: Broker, id: Option<Identity>)
    ensures Attempted(s, id) == if CanAttach(s, id) then Some(Attached(s, id)) else None
  {
    var w, t := |s.workers|, s.(pending := s.pending + 1);
    Connects(s);
    if s.pending < MAX_PENDING_ATTACH {
      GrantedAttach(s, id);
    } else {
      Halts(t, Relay(Denied, Overshot, None, Unenrolled, None, false), Admission(w, id));
    }
  }

  lemma GrantedAttach(s: Broker, id: Option<Identity>)
    requires s.pending < MAX_PENDING_ATTACH
    ensures Attempted(s, id) == if CanAttach(s, id) then Some(Attached(s, id)) else None
  {
    var w, t, read := |s.workers|, s.(pending := s.pending + 1), Load(s.record);
    var k := Relay(Attaching, Granted, None, Unenrolled, None, false);
    Connects(s);
    Decides(t, k, id);
    if read.Readable? && Decide(read.trust, id).Admit? {
      DecidedAttach(s, id);
    } else {
      Halts(t, k.(phase := Denied), Enter(w));
    }
  }

  /** The state, pending and admitted, of a worker the record has decided on. */
  function Deciding(s: Broker): Broker
    requires Load(s.record).Readable?
  {
    s.(pending := s.pending + 1, log := s.log + [Admitted(|s.workers|, Load(s.record).trust)])
  }

  function Registering(s: Broker, id: Option<Identity>, posture: Posture): Broker
    requires Load(s.record).Readable?
  {
    var n := s.registry.nextId;
    Deciding(s).(registry := Registry(n + 1, s.registry.clients[n := Client(id, posture, true)]))
  }

  lemma DecidedEnters(s: Broker, id: Option<Identity>)
    requires s.pending < MAX_PENDING_ATTACH && Load(s.record).Readable? && Decide(Load(s.record).trust, id).Admit?
    ensures var posture, n := Decide(Load(s.record).trust, id).posture, s.registry.nextId;
      Entered(s, id) ==
        if n < U64_MAX then
          Some(Plus(Registering(s, id, posture), Relay(Registered, Granted, id, posture, Some(n), false)))
        else Some(Plus(Deciding(s), Relay(Denied, Granted, id, posture, None, false)))
  {
    var k := Relay(Attaching, Granted, None, Unenrolled, None, false);
    Connects(s);
    Decides(s.(pending := s.pending + 1), k, id);
    Enters(Deciding(s), Relay(Decided, Granted, id, Decide(Load(s.record).trust, id).posture, None, false));
  }

  lemma DecidedAttach(s: Broker, id: Option<Identity>)
    requires s.pending < MAX_PENDING_ATTACH && Load(s.record).Readable? && Decide(Load(s.record).trust, id).Admit?
    ensures Attempted(s, id) == if CanAttach(s, id) then Some(Attached(s, id)) else None
  {
    var w, trust, n := |s.workers|, Load(s.record).trust, s.registry.nextId;
    var posture := Decide(trust, id).posture;
    DecidedEnters(s, id);
    if n < U64_MAX {
      EnteredAttach(Registering(s, id, posture), Relay(Registered, Granted, id, posture, Some(n), false));
      assert s.log + [Admitted(w, trust)] + [AcceptSent(w)] == s.log + [Admitted(w, trust), AcceptSent(w)];
    } else {
      Halts(Deciding(s), Relay(Denied, Granted, id, posture, None, false), Acquire(w));
    }
  }

  lemma EnteredAttach(t: Broker, k: Worker)
    requires k.phase.Registered? && k.pending.Granted? && t.pending > 0
    ensures var w := |t.workers|;
      Then(Then(Next(Plus(t, k), Acquire(w)), WriteAccept(w, true)), DropPending(w)) ==
        if !t.count.terminal && t.count.live < MAX_HARNESS_CLIENTS then
          Some(Plus(t.(count := t.count.(live := t.count.live + 1), pending := t.pending - 1,
                       log := t.log + [AcceptSent(w)]),
                    k.(phase := Serving, pending := NoPending, harness := true)))
        else None
  {
    var w := |t.workers|;
    Acquires(t, k);
    if !t.count.terminal && t.count.live < MAX_HARNESS_CLIENTS {
      Accepts(t.(count := t.count.(live := t.count.live + 1)), k.(phase := Holding, harness := true));
    } else {
      Halts(t, k.(phase := Denied), WriteAccept(w, true));
    }
  }

  // ---- Leaving ---------------------------------------------------------------------

  predicate InService(s: Broker, w: nat) {
    && w < |s.workers| && s.workers[w].phase.Serving? && !s.workers[w].own
    && s.workers[w].slot.Some? && s.workers[w].harness
  }

  function HungUp(s: Broker, w: nat): Option<Broker> {
    Then(Then(Next(s, Hangup(w)), DropSlot(w)), DropHarness(w))
  }

  /** The broker without the relay. */
  function Left(s: Broker, w: nat): Broker
    requires InService(s, w)
  {
    var k := s.workers[w];
    With(s, w, k.(phase := Ending, slot := None, harness := false))
    .(registry := Deregister(s.registry, k.slot.value), count := Released(s.count),
      waiter := if Released(s.count).live == 0 && s.waiter.Parked? then Checking else s.waiter)
  }

  /** A relay that hangs up gives back its registration and its slot, and wakes the waiter if it was the last. */
  lemma LeaveGivesBack(s: Broker, w: nat)
    requires InService(s, w)
    ensures HungUp(s, w) == Some(Left(s, w))
  {
    var k := s.workers[w];
    var gone := k.(phase := Ending, slot := None);
    Rewritten(s, w, k.(phase := Ending), gone);
    Rewritten(s, w, gone, gone.(harness := false));
    assert Next(s, Hangup(w)) == Some(With(s, w, k.(phase := Ending)));
    assert Then(Next(s, Hangup(w)), DropSlot(w)) ==
      Some(With(s, w, gone).(registry := Deregister(s.registry, k.slot.value)));
  }

  lemma LeavingUndoes(s: Broker, id: Option<Identity>)
    requires CanAttach(s, id) && s.registry.nextId !in s.registry.clients && (s.waiter.Parked? ==> s.count.live > 0)
    ensures InService(Attached(s, id), |s.workers|)
    ensures var left := Left(Attached(s, id), |s.workers|);
      && left.count == s.count && left.pending == s.pending && left.waiter == s.waiter
      && left.registry == s.registry.(nextId := s.registry.nextId + 1)
      && left.record == s.record && left.watcher == s.watcher
  {
    var n, served := s.registry.nextId, Attached(s, id);
    assert served.registry.clients - {n} == s.registry.clients;
  }

  /** Attaching and leaving undo each other: every counter, the registered clients and the waiter are as they were. */
  lemma AttachThenLeave(s: Broker, id: Option<Identity>) returns (left: Broker)
    requires Reachable(s) && CanAttach(s, id)
    ensures Attempted(s, id) == Some(Attached(s, id)) && HungUp(Attached(s, id), |s.workers|) == Some(left)
    ensures left.count == s.count && left.pending == s.pending && left.waiter == s.waiter
    ensures left.registry == s.registry.(nextId := s.registry.nextId + 1)
    ensures left.record == s.record && left.watcher == s.watcher
  {
    ReachableOk(s);
    AttachServed(s, id);
    LeavingUndoes(s, id);
    LeaveGivesBack(Attached(s, id), |s.workers|);
    left := Left(Attached(s, id), |s.workers|);
  }

  // ---- The waiter --------------------------------------------------------------------

  /** A wakeup nobody sent changes nothing: the waiter looks, finds a harness, and parks again. */
  lemma SpuriousWakeup(s: Broker)
    requires Reachable(s) && s.waiter.Parked?
    ensures Then(Next(s, Wake), Check) == Some(s)
  {
    ReachableOk(s);
  }
}
