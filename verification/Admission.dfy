/**
 The one continued-service rule, and the two places that apply it: the gate before every request and the
 watcher's sweep over idle connections.
 */
module AdmissionRules {
  import opened Wrappers
  import opened TrustRecord

  datatype Why = Revoked | BootstrapReverted

  /** A connection is never served under a weaker posture than it was admitted with. */
  function Refusal(t: Trust, id: Option<Identity>, posture: Posture): Option<Why> {
    match (posture, Decide(t, id))
    case (_, Refused) => Some(Revoked)
    case (Trusted(_), Admit(Unenrolled)) => Some(BootstrapReverted)
    case (Unenrolled, Admit(_)) => None
    case (Trusted(_), Admit(Trusted(_))) => None
  }

  datatype Gate = Pass | FailClosed | Deny(why: Why)

  /** The per-request gate, over a fresh read of the record. */
  function RequestAdmission(r: Read, id: Option<Identity>, posture: Posture): Gate {
    match r
    case Unreadable => FailClosed
    case Readable(t) =>
      var refusal := Refusal(t, id, posture);
      if refusal.None? then Pass else Deny(refusal.value)
  }

  /** What a pass means: the record is readable, admits the identity, and is not weaker than the admission. */
  ghost predicate ServedUnder(r: Read, id: Option<Identity>, posture: Posture) {
    && r.Readable?
    && Decide(r.trust, id).Admit?
    && (posture.Trusted? ==>
          && r.trust.clients.Paired? && id.Some?
          && exists e :: e in r.trust.clients.entries && AnchorMatches(e.anchor, id.value))
  }

  /** The gate in full: closed on an unreadable record, and a denial tells a revoked client from a lost bootstrap. */
  lemma GateMeans(r: Read, id: Option<Identity>, posture: Posture)
    ensures RequestAdmission(r, id, posture).Pass? <==> ServedUnder(r, id, posture)
    ensures RequestAdmission(r, id, posture) == FailClosed <==> r.Unreadable?
    ensures RequestAdmission(r, id, posture) == Deny(BootstrapReverted) <==>
      r.Readable? && r.trust.clients.NeverPaired? && posture.Trusted?
  {
  }

  // ---- The registry of live relays ---------------------------------------------

  /** `open` is whether the connection's stream has not been shut down. */
  datatype Client = Client(identity: Option<Identity>, posture: Posture, open: bool)
  datatype Registry = Registry(nextId: nat, clients: map<nat, Client>)

  /** An id that would wrap refuses the attach instead. */
  function Register(g: Registry, id: Option<Identity>, posture: Posture): Option<Registry> {
    if g.nextId >= U64_MAX then None
    else Some(Registry(g.nextId + 1, g.clients[g.nextId := Client(id, posture, true)]))
  }

  function Deregister(g: Registry, id: nat): Registry {
    g.(clients := g.clients - {id})
  }

  /** A sweep's verdict on one registered connection. */
  type Refuse = (Option<Identity>, Posture) -> bool

  /** The registered connections a verdict refuses. */
  function Doomed(g: Registry, refuse: Refuse): set<nat> {
    set id | id in g.clients && refuse(g.clients[id].identity, g.clients[id].posture)
  }

  function Shut(clients: map<nat, Client>, doomed: set<nat>): map<nat, Client> {
    map id | id in clients :: if id in doomed then clients[id].(open := false) else clients[id]
  }

  lemma ShutOneMore(clients: map<nat, Client>, shut: set<nat>, id: nat)
    requires id in clients && id !in shut
    ensures Shut(clients, shut)[id := clients[id].(open := false)] == Shut(clients, shut + {id})
  {
  }

  lemma SweptOneMore(doomed: set<nat>, left: set<nat>, id: nat)
    requires id in left
    ensures id in doomed ==> doomed - left + {id} == doomed - (left - {id})
    ensures id in doomed ==> |doomed - (left - {id})| == |doomed - left| + 1
    ensures id !in doomed ==> doomed - left == doomed - (left - {id})
  {
    if id in doomed {
      assert doomed - left + {id} == doomed - (left - {id});
    }
  }

  function Swept(g: Registry, refuse: Refuse): Registry {
    g.(clients := Shut(g.clients, Doomed(g, refuse)))
  }

  /** The sweep's loop over the registered connections, counting those it shuts down. */
  method ShutDoomed(g: Registry, refuse: Refuse) returns (clients: map<nat, Client>, dropped: nat)
    ensures clients == Swept(g, refuse).clients
    ensures dropped == |Doomed(g, refuse)|
  {
    clients, dropped := g.clients, 0;
    var left := clients.Keys;
    ghost var doomed := Doomed(g, refuse);
    assert Shut(g.clients, doomed - left) == g.clients;
    while left != {}
      invariant left <= g.clients.Keys && dropped == |doomed - left|
      invariant clients == Shut(g.clients, doomed - left)
      decreases |left|
    {
      var id :| id in left;
      var c := clients[id];
      assert c == g.clients[id] && (id in doomed <==> refuse(c.identity, c.posture));
      SweptOneMore(doomed, left, id);
      if refuse(c.identity, c.posture) {
        ShutOneMore(g.clients, doomed - left, id);
        clients := clients[id := c.(open := false)];
        dropped := dropped + 1;
      }
      left := left - {id};
    }
    assert doomed - left == doomed;
  }

  /** The verdict a watcher tick sweeps with: everyone on an unreadable record, else the continued-service rule. */
  function TickVerdict(r: Read): Refuse {
    match r
    case Unreadable => (_, _) => true
    case Readable(t) => (id, posture) => Refusal(t, id, posture).Some?
  }

  function Ticked(g: Registry, r: Read): Registry {
    Swept(g, TickVerdict(r))
  }

  class ClientRegistry {
    var nextId: nat
    var clients: map<nat, Client>

    ghost function State(): Registry
      reads this
    {
      Registry(nextId, clients)
    }

    constructor ()
      ensures State() == Registry(1, map[])
    {
      nextId, clients := 1, map[];
    }

    method Enter(id: Option<Identity>, posture: Posture) returns (slot: Option<nat>)
      modifies this
      ensures var next := Register(old(State()), id, posture);
        if next.None? then slot == None && State() == old(State())
        else slot == Some(old(nextId)) && State() == next.value
    {
      if nextId >= U64_MAX { return None; }
      slot := Some(nextId);
      clients := clients[nextId := Client(id, posture, true)];
      nextId := nextId + 1;
    }

    method Leave(id: nat)
      modifies this
      ensures State() == Deregister(old(State()), id)
    {
      clients := clients - {id};
    }

    /** A sweep shuts streams down by the caller's verdict and never removes a slot. */
    method Sweep(refuse: Refuse) returns (dropped: nat)
      modifies this`clients
      ensures State() == Swept(old(State()), refuse)
      ensures dropped == |Doomed(old(State()), refuse)|
      ensures clients.Keys == old(clients.Keys)
    {
      clients, dropped := ShutDoomed(Registry(nextId, clients), refuse);
    }

    /**
     One watcher tick. A registered stream stays open exactly when the gate would pass its next request on the same
     read, and the browsers are dropped exactly when the kill verdict on it is a refusal.
     */
    method WatchTick(r: Read) returns (dropBrowsers: bool, seen: Option<nat>)
      modifies this`clients
      ensures State() == Ticked(old(State()), r) && clients.Keys == old(clients.Keys)
      ensures forall id :: id in clients ==>
        (clients[id].open <==> old(clients)[id].open && ServedUnder(r, clients[id].identity, clients[id].posture))
      ensures dropBrowsers <==> KillVerdict(r) != Clear
      ensures seen == if r.Readable? then Some(r.trust.epoch) else None
    {
      ghost var before := State();
      forall id | id in clients
        ensures Ticked(before, r).clients[id].open <==>
          clients[id].open && ServedUnder(r, clients[id].identity, clients[id].posture)
        ensures Ticked(before, r).clients[id].identity == clients[id].identity
        ensures Ticked(before, r).clients[id].posture == clients[id].posture
      {
        SweepAgreesWithGate(before, r, id);
      }
      match r
      case Unreadable =>
        var dropped := Sweep((_, _) => true);
        assert Doomed(before, (_, _) => true) == Doomed(before, TickVerdict(r));
        return true, None;
      case Readable(t) =>
        dropBrowsers := t.killed;
        var dropped := Sweep((id, posture) => Refusal(t, id, posture).Some?);
        assert Doomed(before, (id, posture) => Refusal(t, id, posture).Some?) == Doomed(before, TickVerdict(r));
        seen := Some(t.epoch);
    }
  }

  /** The relays a tick shuts are exactly the registered ones whose next request the gate refuses on that read. */
  lemma TickDoomsTheRefused(g: Registry, r: Read)
    ensures Doomed(g, TickVerdict(r)) ==
      set id | id in g.clients && !RequestAdmission(r, g.clients[id].identity, g.clients[id].posture).Pass?
  {
    forall id | id in g.clients
      ensures TickVerdict(r)(g.clients[id].identity, g.clients[id].posture) <==>
        !RequestAdmission(r, g.clients[id].identity, g.clients[id].posture).Pass?
    {
      match r
      case Unreadable =>
      case Readable(t) =>
    }
  }

  /** So sweep and gate agree: a tick leaves a stream open exactly when the gate would serve its next request. */
  lemma SweepAgreesWithGate(g: Registry, r: Read, id: nat)
    requires id in g.clients
    ensures var c, c' := g.clients[id], Ticked(g, r).clients[id];
      && c'.identity == c.identity && c'.posture == c.posture
      && (c'.open <==> c.open && ServedUnder(r, c.identity, c.posture))
  {
    TickDoomsTheRefused(g, r);
    GateMeans(r, g.clients[id].identity, g.clients[id].posture);
  }
}
