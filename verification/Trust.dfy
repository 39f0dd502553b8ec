/**
 The trust record: who may drive the bridge and whether the kill switch is engaged. Every enforcement point
 decides from one read of it, and an unreadable record is refused everywhere.
 */
module TrustRecord {
  import opened Wrappers

  datatype Identity = Identity(hash: string, signer: Option<string>)
  datatype Anchor = Hash(hash: string) | Signer(signer: string)
  datatype Entry = Entry(name: string, anchor: Anchor)

  /** Never paired admits everyone; a paired list, the empty one included, admits its entries alone. */
  datatype Clients = NeverPaired | Paired(entries: seq<Entry>)

  datatype Trust = Trust(epoch: nat, killed: bool, killEpoch: nat, clients: Clients)

  const Bootstrap: Trust := Trust(0, false, 0, NeverPaired)

  /** The record on disk, which any process of the user may change at any time. */
  datatype File = Absent | Corrupt | Present(trust: Trust)

  datatype Read = Unreadable | Readable(trust: Trust)

  function Load(f: File): Read {
    match f
    case Absent => Readable(Bootstrap)
    case Corrupt => Unreadable
    case Present(t) => Readable(t)
  }

  // ---- Admission ---------------------------------------------------------------

  datatype Posture = Unenrolled | Trusted(name: string)
  datatype Admission = Admit(posture: Posture) | Refused

  predicate AnchorMatches(a: Anchor, id: Identity) {
    match a
    case Hash(h) => h == id.hash
    case Signer(t) => id.signer == Some(t)
  }

  predicate Matches(entries: seq<Entry>, id: Identity) {
    exists e :: e in entries && AnchorMatches(e.anchor, id)
  }

  /** The first entry whose anchor is the identity's. */
  function FirstMatch(entries: seq<Entry>, id: Identity): (r: Option<Entry>)
    ensures r.Some? <==> Matches(entries, id)
    ensures r.Some? ==> r.value in entries && AnchorMatches(r.value.anchor, id)
  {
    if entries == [] then None
    else if AnchorMatches(entries[0].anchor, id) then Some(entries[0])
    else FirstMatch(entries[1..], id)
  }

  function Decide(t: Trust, id: Option<Identity>): Admission {
    if t.clients.NeverPaired? then Admit(Unenrolled)
    else if id.None? then Refused
    else
      var e := FirstMatch(t.clients.entries, id.value);
      if e.None? then Refused else Admit(Trusted(e.value.name))
  }

  lemma {:induction false} MatchIsFirst(entries: seq<Entry>, id: Identity) returns (i: nat)
    requires Matches(entries, id)
    ensures i < |entries| && FirstMatch(entries, id) == Some(entries[i])
    ensures forall j :: 0 <= j < i ==> !AnchorMatches(entries[j].anchor, id)
    decreases |entries|
  {
    if AnchorMatches(entries[0].anchor, id) {
      i := 0;
    } else {
      i := MatchIsFirst(entries[1..], id);
      assert forall j :: 0 < j <= i + 1 ==> entries[j] == entries[1..][j - 1];
      i := i + 1;
    }
  }

  /** Entry `i` is the first that the identity matches. */
  predicate MatchesFirst(entries: seq<Entry>, id: Identity, i: int) {
    && 0 <= i < |entries| && AnchorMatches(entries[i].anchor, id)
    && forall j :: 0 <= j < i ==> !AnchorMatches(entries[j].anchor, id)
  }

  /** The admission in full: bootstrap for everyone, else the name of the first matching entry, else refused. */
  lemma DecideMeans(t: Trust, id: Option<Identity>, name: string)
    ensures Decide(t, id) == Admit(Unenrolled) <==> t.clients.NeverPaired?
    ensures Decide(t, id) == Refused <==>
      t.clients.Paired? && (id.None? || forall e :: e in t.clients.entries ==> !AnchorMatches(e.anchor, id.value))
    ensures Decide(t, id) == Admit(Trusted(name)) <==>
      && t.clients.Paired? && id.Some?
      && exists i :: MatchesFirst(t.clients.entries, id.value, i) && t.clients.entries[i].name == name
  {
    if t.clients.Paired? && id.Some? && Matches(t.clients.entries, id.value) {
      var i := MatchIsFirst(t.clients.entries, id.value);
      assert MatchesFirst(t.clients.entries, id.value, i);
      assert forall j :: MatchesFirst(t.clients.entries, id.value, j) ==> j == i;
    }
  }

  /** A machine without a record admits everyone unenrolled, is not killed, and can be paired. */
  lemma AbsentIsBootstrap(id: Option<Identity>, e: Entry)
    ensures Load(Absent).Readable? && KillVerdict(Load(Absent)) == Clear
    ensures Decide(Load(Absent).trust, id) == Admit(Unenrolled)
    ensures Mutate(Absent, Pair(e)).Ok? && EntriesOf(Load(Mutate(Absent, Pair(e)).value).trust) == [e]
  {
    DecideMeans(Load(Absent).trust, id, "");
    assert WithoutName([], e.name) + [e] == [e];
  }

  // ---- The kill switch ---------------------------------------------------------

  datatype Verdict = Clear | Killed | KillStateUnknown

  function KillVerdict(r: Read): Verdict {
    match r
    case Unreadable => KillStateUnknown
    case Readable(t) => if t.killed then Killed else Clear
  }

  // ---- The one write path ------------------------------------------------------

  datatype Op =
    | Pair(entry: Entry)
    | Revoke(name: string)
    | Forget
    | Engage
    | Release
    | Touch

  function WithoutName(entries: seq<Entry>, name: string): (r: seq<Entry>)
    ensures forall e :: e in r <==> e in entries && e.name != name
  {
    if entries == [] then []
    else (if entries[0].name == name then [] else [entries[0]]) + WithoutName(entries[1..], name)
  }

  /** The record after one mutation: the epoch moves, and a kill transition stamps its own marker. */
  function Mutated(t: Trust, op: Op): Trust {
    var next := t.(epoch := t.epoch + 1);
    match op
    case Pair(e) =>
      var entries := if t.clients.Paired? then t.clients.entries else [];
      next.(clients := Paired(WithoutName(entries, e.name) + [e]))
    case Revoke(name) =>
      if t.clients.Paired? then next.(clients := Paired(WithoutName(t.clients.entries, name))) else next
    case Forget => if t.clients.Paired? then next.(clients := Paired([])) else next
    case Engage => next.(killed := true, killEpoch := t.epoch + 1)
    case Release => next.(killed := false, killEpoch := t.epoch + 1)
    case Touch => next
  }

  /** A record that cannot be read, or whose epoch would wrap, refuses the write and stays as it is. */
  function Mutate(f: File, op: Op): Result<File, ()> {
    match Load(f)
    case Unreadable => Err(())
    case Readable(t) => if t.epoch >= U64_MAX then Err(()) else Ok(Present(Mutated(t, op)))
  }

  function AfterOps(f: File, ops: seq<Op>): File
    decreases |ops|
  {
    if ops == [] then f
    else
      var next := Mutate(f, ops[0]);
      AfterOps(if next.Ok? then next.value else f, ops[1..])
  }

  // ---- What a run of writes leaves ---------------------------------------------

  /** How many of `n` writes land before the epoch is at its bound. */
  function Landed(t: Trust, n: nat): (k: nat)
    ensures k <= n
  {
    if t.epoch >= U64_MAX then 0 else if n <= U64_MAX - t.epoch then n else U64_MAX - t.epoch
  }

  /** The last of the first `n` ops that `about` picks out, or -1 when it picks none. */
  ghost predicate IsLast(ops: seq<Op>, n: nat, about: Op -> bool, i: int) {
    -1 <= i < n <= |ops| && (i >= 0 ==> about(ops[i])) && forall j :: i < j < n ==> !about(ops[j])
  }

  lemma LastMoves(ops: seq<Op>, n: nat, about: Op -> bool, i: int)
    requires IsLast(ops, n, about, i) && n > 0
    ensures IsLast(ops[1..], n - 1, about, if i > 0 then i - 1 else -1)
  {
    assert forall j :: 0 <= j < |ops[1..]| ==> ops[1..][j] == ops[j + 1];
  }

  predicate IsLatch(op: Op) { op.Engage? || op.Release? }

  /**
   Over any run of writes the kill latch is the last engage or release that landed, stamped with the epoch of that
   write, and what it was before if none did; the epoch counts the writes.
   */
  lemma {:induction false} LatchIsLast(f: File, ops: seq<Op>, i: int)
    requires Load(f).Readable? && IsLast(ops, Landed(Load(f).trust, |ops|), IsLatch, i)
    ensures var t, r := Load(f).trust, Load(AfterOps(f, ops));
      && r.Readable? && r.trust.epoch == t.epoch + Landed(t, |ops|)
      && r.trust.killed == (if i < 0 then t.killed else ops[i].Engage?)
      && r.trust.killEpoch == (if i < 0 then t.killEpoch else t.epoch + i + 1)
    decreases |ops|
  {
    var t := Load(f).trust;
    if ops == [] {
    } else if t.epoch >= U64_MAX {
      LatchIsLast(f, ops[1..], -1);
    } else {
      LastMoves(ops, Landed(t, |ops|), IsLatch, i);
      LatchIsLast(Present(Mutated(t, ops[0])), ops[1..], if i > 0 then i - 1 else -1);
    }
  }

  /** An engage that lands engages, a release that lands releases, and neither touches who is paired. */
  lemma LatchFlips(f: File, op: Op, g: File)
    requires IsLatch(op) && Mutate(f, op) == Ok(g)
    ensures KillVerdict(Load(g)) == if op.Engage? then Killed else Clear
    ensures Load(g).trust.killEpoch == Load(g).trust.epoch == Load(f).trust.epoch + 1
    ensures Load(g).trust.clients == Load(f).trust.clients
  {
    assert AfterOps(f, [op]) == g by { assert [op][1..] == []; }
    LatchIsLast(f, [op], 0);
  }

  function EntriesOf(t: Trust): seq<Entry> { if t.clients.Paired? then t.clients.entries else [] }

  function Named(entries: seq<Entry>, name: string): seq<Entry> {
    if entries == [] then []
    else (if entries[0].name == name then [entries[0]] else []) + Named(entries[1..], name)
  }

  lemma {:induction false} NamedAfter(entries: seq<Entry>, e: Entry, name: string)
    ensures Named(entries + [e], name) == Named(entries, name) + if e.name == name then [e] else []
    decreases |entries|
  {
    if entries == [] {
      assert entries + [e] == [e] && [e][1..] == [];
    } else {
      assert (entries + [e])[1..] == entries[1..] + [e];
      NamedAfter(entries[1..], e, name);
    }
  }

  lemma {:induction false} NamedWithout(entries: seq<Entry>, gone: string, name: string)
    ensures Named(WithoutName(entries, gone), name) == if gone == name then [] else Named(entries, name)
    decreases |entries|
  {
    if entries == [] {
    } else {
      NamedWithout(entries[1..], gone, name);
      if entries[0].name != gone {
        var kept := WithoutName(entries[1..], gone);
        assert WithoutName(entries, gone) == [entries[0]] + kept && ([entries[0]] + kept)[1..] == kept;
      } else {
        assert WithoutName(entries, gone) == WithoutName(entries[1..], gone);
      }
    }
  }

  /** The writes that decide what is listed under a name. */
  predicate Lists(op: Op, name: string) {
    (op.Pair? && op.entry.name == name) || op == Revoke(name) || op.Forget?
  }

  function Listed(op: Op): seq<Entry> { if op.Pair? then [op.entry] else [] }

  lemma MutatedLists(t: Trust, op: Op, name: string)
    ensures Named(EntriesOf(Mutated(t, op)), name) ==
      if Lists(op, name) then Listed(op) else Named(EntriesOf(t), name)
    ensures Mutated(t, op).clients.Paired? <==> t.clients.Paired? || op.Pair?
  {
    match op
    case Pair(e) =>
      NamedWithout(EntriesOf(t), e.name, name);
      NamedAfter(WithoutName(EntriesOf(t), e.name), e, name);
    case Revoke(gone) =>
      NamedWithout(EntriesOf(t), gone, name);
    case Forget =>
    case Engage =>
    case Release =>
    case Touch =>
  }

  /**
   Over any run of writes what is listed under a name is decided by the last pairing or revocation of that name that
   landed: the one entry it paired, or nothing. No write disturbs the entries of another name.
   */
  lemma {:induction false} ListingIsLast(f: File, ops: seq<Op>, name: string, i: int)
    requires Load(f).Readable? && IsLast(ops, Landed(Load(f).trust, |ops|), op => Lists(op, name), i)
    ensures var t, r := Load(f).trust, Load(AfterOps(f, ops));
      && r.Readable?
      && Named(EntriesOf(r.trust), name) == (if i < 0 then Named(EntriesOf(t), name) else Listed(ops[i]))
    decreases |ops|
  {
    var t := Load(f).trust;
    if ops == [] {
    } else if t.epoch >= U64_MAX {
      ListingIsLast(f, ops[1..], name, -1);
    } else {
      LastMoves(ops, Landed(t, |ops|), op => Lists(op, name), i);
      MutatedLists(t, ops[0], name);
      ListingIsLast(Present(Mutated(t, ops[0])), ops[1..], name, if i > 0 then i - 1 else -1);
    }
  }

  lemma {:induction false} FirstMatchWithout(entries: seq<Entry>, gone: string, id: Identity)
    requires FirstMatch(entries, id).Some? && FirstMatch(entries, id).value.name != gone
    ensures FirstMatch(WithoutName(entries, gone), id) == FirstMatch(entries, id)
    decreases |entries|
  {
    var kept := WithoutName(entries[1..], gone);
    if entries[0].name == gone {
      assert WithoutName(entries, gone) == kept;
    } else {
      assert WithoutName(entries, gone) == [entries[0]] + kept && ([entries[0]] + kept)[1..] == kept;
    }
    if !AnchorMatches(entries[0].anchor, id) { FirstMatchWithout(entries[1..], gone, id); }
  }

  lemma {:induction false} FirstMatchBefore(entries: seq<Entry>, e: Entry, id: Identity)
    requires FirstMatch(entries, id).Some?
    ensures FirstMatch(entries + [e], id) == FirstMatch(entries, id)
    decreases |entries|
  {
    assert (entries + [e])[0] == entries[0] && (entries + [e])[1..] == entries[1..] + [e];
    if !AnchorMatches(entries[0].anchor, id) { FirstMatchBefore(entries[1..], e, id); }
  }

  /** A client admitted under a name stays so while other names are paired and revoked, whatever they match. */
  lemma OthersKeepTheirName(t: Trust, op: Op, id: Identity, name: string)
    requires Decide(t, Some(id)) == Admit(Trusted(name)) && !Lists(op, name)
    ensures Decide(Mutated(t, op), Some(id)) == Admit(Trusted(name))
  {
    var entries := EntriesOf(t);
    match op
    case Pair(e) =>
      FirstMatchWithout(entries, e.name, id);
      FirstMatchBefore(WithoutName(entries, e.name), e, id);
    case Revoke(gone) =>
      FirstMatchWithout(entries, gone, id);
    case Engage =>
    case Release =>
    case Touch =>
  }

  predicate KillEngaged(f: File) {
    KillVerdict(Load(f)) != Clear
  }

  predicate Enforced(f: File) {
    Load(f).Readable? ==> Load(f).trust.clients.Paired?
  }

  /** Nothing but a release clears the latch, over any run of writes; a corrupt record refuses even that. */
  lemma {:induction false} LatchHolds(f: File, ops: seq<Op>)
    requires KillEngaged(f) && (f.Corrupt? || Release !in ops)
    ensures KillEngaged(AfterOps(f, ops))
    decreases |ops|
  {
    if ops == [] {
    } else {
      assert ops[0] in ops;
      var next := Mutate(f, ops[0]);
      LatchHolds(if next.Ok? then next.value else f, ops[1..]);
    }
  }

  /** Once a client was ever paired, no run of writes reopens the bootstrap. */
  lemma {:induction false} WritesNeverReopen(f: File, ops: seq<Op>, id: Option<Identity>)
    requires Enforced(f)
    ensures Enforced(AfterOps(f, ops))
    ensures var r := Load(AfterOps(f, ops)); r.Readable? ==> Decide(r.trust, id) != Admit(Unenrolled)
    decreases |ops|
  {
    if ops == [] {
    } else {
      var next := Mutate(f, ops[0]);
      WritesNeverReopen(if next.Ok? then next.value else f, ops[1..], id);
    }
  }

  /** After a revoke, an identity that only the revoked entries matched is refused. */
  lemma RevokeRefuses(t: Trust, name: string, id: Identity)
    requires t.clients.Paired?
    requires forall e :: e in t.clients.entries && AnchorMatches(e.anchor, id) ==> e.name == name
    ensures Decide(Mutated(t, Revoke(name)), Some(id)) == Refused
  {
  }

  /** A paired client is admitted under a trusted posture, whatever was there before. */
  lemma PairAdmits(t: Trust, e: Entry, id: Identity)
    requires AnchorMatches(e.anchor, id)
    ensures var d := Decide(Mutated(t, Pair(e)), Some(id)); d.Admit? && d.posture.Trusted?
  {
    var entries := Mutated(t, Pair(e)).clients.entries;
    assert entries[|entries| - 1] == e;
    assert e in entries;
  }
}
