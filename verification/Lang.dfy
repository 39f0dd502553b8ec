/**
 The shared-language store: a value and a sequence number that only a changing set bumps, pushed to any number of
 connections that each apply a push only when it is newer than the last they applied.
 */
module LangStores {
  import opened Wrappers

  datatype UiLang = Auto | En | ZhCn | ZhTw

  const DEFAULT_LANG := En

  /** The largest integer a JavaScript number carries exactly. */
  const JS_SAFE_INT_MAX: nat := 0x1F_FFFF_FFFF_FFFF

  function AsStr(lang: UiLang): string {
    match lang
    case Auto => "auto"
    case En => "en"
    case ZhCn => "zh_CN"
    case ZhTw => "zh_TW"
  }

  /** The one parse at every boundary. */
  function Parse(value: string): (lang: Option<UiLang>)
    ensures lang.Some? ==> AsStr(lang.value) == value
    ensures lang.None? ==> forall l :: AsStr(l) != value
  {
    if value == "auto" then Some(Auto)
    else if value == "en" then Some(En)
    else if value == "zh_CN" then Some(ZhCn)
    else if value == "zh_TW" then Some(ZhTw)
    else None
  }

  datatype Stored = Stored(value: UiLang, seqno: nat)
  datatype File = Absent | Damaged | Present(text: string, seqno: nat)
  datatype Failure = Unreadable | AtBound | WriteFailed

  /** The stored language, the default when nothing is stored, an error when the store does not parse. */
  function LoadCurrent(file: File): Result<Stored, Failure> {
    match file
    case Absent => Ok(Stored(DEFAULT_LANG, 0))
    case Damaged => Err(Unreadable)
    case Present(text, seqno) =>
      if Parse(text).None? || seqno > JS_SAFE_INT_MAX then Err(Unreadable) else Ok(Stored(Parse(text).value, seqno))
  }

  function Save(store: Stored): File {
    Present(AsStr(store.value), store.seqno)
  }

  lemma SaveLoads(store: Stored)
    ensures store.seqno <= JS_SAFE_INT_MAX <==> LoadCurrent(Save(store)) == Ok(store)
  {
    match store.value
    case Auto =>
    case En =>
    case ZhCn =>
    case ZhTw =>
  }

  class LangStore {
    var file: File

    constructor (f: File)
      ensures file == f
    {
      file := f;
    }

    /** A set answers the language asked for, and a refused one leaves the store as it was. */
    method Set(value: UiLang, writes: bool) returns (r: Result<Stored, Failure>)
      modifies this
      ensures file == SetFile(old(file), value, writes) && (r.Err? ==> file == old(file))
      ensures r == Err(Unreadable) <==> LoadCurrent(old(file)).Err?
      ensures LoadCurrent(old(file)).Ok? ==>
        var was := LoadCurrent(old(file)).value;
        && (was.value == value ==> r == Ok(was) && file == old(file))
        && (was.value != value ==>
              && (r == Err(AtBound) <==> was.seqno == JS_SAFE_INT_MAX)
              && (r == Err(WriteFailed) <==> was.seqno < JS_SAFE_INT_MAX && !writes)
              && (r.Ok? <==> was.seqno < JS_SAFE_INT_MAX && writes)
              && (r.Ok? ==> r == Ok(Stored(value, was.seqno + 1)) == LoadCurrent(file)))
    {
      var current :- LoadCurrent(file);
      if current.value == value { return Ok(current); }
      var seqno := current.seqno + 1;
      if seqno > JS_SAFE_INT_MAX { return Err(AtBound); }
      if !writes { return Err(WriteFailed); }
      SaveLoads(Stored(value, seqno));
      file := Save(Stored(value, seqno));
      return Ok(Stored(value, seqno));
    }
  }

  /** A changing set below the bound writes the next sequence number; any other leaves the store. */
  function SetFile(file: File, value: UiLang, writes: bool): File {
    var current := LoadCurrent(file);
    if current.Err? || current.value.value == value || current.value.seqno >= JS_SAFE_INT_MAX || !writes then file
    else Save(Stored(value, current.value.seqno + 1))
  }

  /** Only a strictly newer push applies; sequence 0 was never set and applies nothing. */
  function Applied(cursor: Option<Stored>, push: Stored): Option<Stored> {
    if push.seqno == 0 then cursor
    else if cursor.Some? && push.seqno <= cursor.value.seqno then cursor
    else Some(push)
  }

  // ---- Runs --------------------------------------------------------------------

  /** The store, every push ever sent, one cursor per connection, and the values held since the run began. */
  datatype System = System(file: File, sent: seq<Stored>, cursors: seq<Option<Stored>>, base: nat, history: seq<UiLang>)

  datatype Step =
    | Set(value: UiLang, writes: bool)
    | Push
    | Deliver(to: nat, push: nat)
    | Connect

  predicate IsStart(s: System) {
    && LoadCurrent(s.file).Ok? && s.sent == [] && s.cursors == []
    && var current := LoadCurrent(s.file).value; s.base == current.seqno && s.history == [current.value]
  }

  /** A delivery may repeat, reorder or never come: any push ever sent may reach any connection at any time. */
  function Next(s: System, step: Step): Option<System> {
    match step
    case Set(value, writes) =>
      var file := SetFile(s.file, value, writes);
      Some(s.(file := file, history := if file == s.file then s.history else s.history + [value]))
    case Push =>
      var current := LoadCurrent(s.file);
      if current.Err? then None else Some(s.(sent := s.sent + [current.value]))
    case Deliver(to, push) =>
      if to >= |s.cursors| || push >= |s.sent| then None
      else Some(s.(cursors := s.cursors[to := Applied(s.cursors[to], s.sent[push])]))
    case Connect =>
      Some(s.(cursors := s.cursors + [None]))
  }

  function Run(s: System, steps: seq<Step>): Option<System>
    decreases |steps|
  {
    if steps == [] then Some(s)
    else
      var next := Next(s, steps[0]);
      if next.None? then None else Run(next.value, steps[1..])
  }

  ghost predicate Reachable(s: System) {
    exists s0, steps :: IsStart(s0) && Run(s0, steps) == Some(s)
  }

  // ---- The invariant -----------------------------------------------------------

  /** The history's value at this sequence number. */
  predicate Recorded(s: System, x: Stored) {
    s.base <= x.seqno < s.base + |s.history| && s.history[x.seqno - s.base] == x.value
  }

  predicate StoreOk(s: System) {
    && LoadCurrent(s.file).Ok? && s.history != []
    && var current := LoadCurrent(s.file).value;
       Recorded(s, current) && current.seqno == s.base + |s.history| - 1
  }

  predicate Inv(s: System) {
    && StoreOk(s)
    && (forall k :: 0 < k < |s.history| ==> s.history[k - 1] != s.history[k])
    && (forall k :: 0 <= k < |s.sent| ==> Recorded(s, s.sent[k]))
    && (forall c :: 0 <= c < |s.cursors| && s.cursors[c].Some? ==> Recorded(s, s.cursors[c].value))
  }

  lemma SetKeepsInv(s: System, value: UiLang, writes: bool, s': System)
    requires Inv(s) && Next(s, Set(value, writes)) == Some(s')
    ensures Inv(s') && s'.base == s.base && s.history <= s'.history
  {
    if s'.file != s.file {
      SaveLoads(Stored(value, LoadCurrent(s.file).value.seqno + 1));
      assert forall x :: Recorded(s, x) ==> Recorded(s', x);
    }
  }

  lemma PushKeepsInv(s: System, s': System)
    requires Inv(s) && Next(s, Push) == Some(s')
    ensures Inv(s') && s'.base == s.base && s'.history == s.history
  {
    assert forall x :: Recorded(s, x) <==> Recorded(s', x);
  }

  lemma DeliverKeepsInv(s: System, to: nat, push: nat, s': System)
    requires Inv(s) && Next(s, Deliver(to, push)) == Some(s')
    ensures Inv(s') && s'.base == s.base && s'.history == s.history
  {
    assert forall x :: Recorded(s, x) <==> Recorded(s', x);
    assert Recorded(s, s.sent[push]);
  }

  lemma StepKeepsInv(s: System, step: Step, s': System)
    requires Inv(s) && Next(s, step) == Some(s')
    ensures Inv(s') && s'.base == s.base && s.history <= s'.history
  {
    match step
    case Set(value, writes) => SetKeepsInv(s, value, writes, s');
    case Push => PushKeepsInv(s, s');
    case Deliver(to, push) => DeliverKeepsInv(s, to, push, s');
    case Connect => assert forall x :: Recorded(s, x) <==> Recorded(s', x);
  }

  lemma {:induction false} RunKeepsInv(s: System, steps: seq<Step>, s': System)
    requires Inv(s) && Run(s, steps) == Some(s')
    ensures Inv(s') && s'.base == s.base && s.history <= s'.history
    decreases |steps|
  {
    if steps == [] {
    } else {
      var next := Next(s, steps[0]).value;
      StepKeepsInv(s, steps[0], next);
      RunKeepsInv(next, steps[1..], s');
    }
  }

  lemma ReachableOk(s: System)
    requires Reachable(s)
    ensures Inv(s)
  {
    var s0, steps :| IsStart(s0) && Run(s0, steps) == Some(s);
    RunKeepsInv(s0, steps, s);
  }

  // ---- The theorems ------------------------------------------------------------

  /** The sequence number counts the changes of value, one each, and stays a safe integer. */
  lemma SequenceCountsChanges(s: System)
    requires Reachable(s)
    ensures LoadCurrent(s.file).Ok? && s.history != []
    ensures var current := LoadCurrent(s.file).value;
            && current.seqno == s.base + |s.history| - 1 <= JS_SAFE_INT_MAX
            && current.value == s.history[|s.history| - 1]
    ensures forall k :: 0 < k < |s.history| ==> s.history[k - 1] != s.history[k]
  {
    ReachableOk(s);
  }

  /** A sequence number names one value: across everything sent, applied and stored. */
  lemma OneValuePerSequence(s: System, a: Stored, b: Stored)
    requires Reachable(s) && a.seqno == b.seqno
    requires a in s.sent || Some(a) in s.cursors || Ok(a) == LoadCurrent(s.file)
    requires b in s.sent || Some(b) in s.cursors || Ok(b) == LoadCurrent(s.file)
    ensures a == b
  {
    ReachableOk(s);
    assert Recorded(s, a) && Recorded(s, b);
  }

  /** A connection's cursor never goes back. */
  lemma {:induction false} CursorsNeverRegress(s: System, steps: seq<Step>, s': System, c: nat)
    requires Run(s, steps) == Some(s') && c < |s.cursors| && s.cursors[c].Some?
    ensures c < |s'.cursors| && s'.cursors[c].Some? && s.cursors[c].value.seqno <= s'.cursors[c].value.seqno
    decreases |steps|
  {
    if steps == [] {
    } else {
      CursorsNeverRegress(Next(s, steps[0]).value, steps[1..], s', c);
    }
  }

  /** Once a push of the store's current sequence arrives, the connection holds the store's language. */
  lemma NewestPushConverges(s: System, to: nat, push: nat, s': System)
    requires Reachable(s) && Next(s, Deliver(to, push)) == Some(s')
    requires LoadCurrent(s.file).Ok? && s.sent[push].seqno == LoadCurrent(s.file).value.seqno > 0
    ensures s'.cursors[to] == Some(LoadCurrent(s'.file).value)
  {
    ReachableOk(s);
    assert s.sent[push] in s.sent;
    OneValuePerSequence(s, s.sent[push], LoadCurrent(s.file).value);
    var cursor := s.cursors[to];
    if cursor.Some? && cursor.value.seqno == s.sent[push].seqno {
      assert cursor in s.cursors;
      OneValuePerSequence(s, cursor.value, s.sent[push]);
    }
  }

  /** A connection that holds the newest push cannot be moved by any delivery until the store changes. */
  lemma {:induction false} ConvergedStays(s: System, steps: seq<Step>, s': System, c: nat)
    requires Inv(s) && Run(s, steps) == Some(s') && s'.file == s.file
    requires c < |s.cursors| && s.cursors[c] == Some(LoadCurrent(s.file).value)
    ensures c < |s'.cursors| && s'.cursors[c] == s.cursors[c]
  {
    RunKeepsInv(s, steps, s');
    CursorsNeverRegress(s, steps, s', c);
    assert Recorded(s', s'.cursors[c].value) && Recorded(s', LoadCurrent(s'.file).value);
  }

  /** Setting back the language a converged connection applied changes nothing, so no echo can start. */
  lemma NoEcho(s: System, c: nat, writes: bool)
    requires Reachable(s) && c < |s.cursors| && s.cursors[c].Some?
    requires s.cursors[c].value.seqno == s.base + |s.history| - 1
    ensures Next(s, Set(s.cursors[c].value.value, writes)) == Some(s)
  {
    ReachableOk(s);
    assert Recorded(s, s.cursors[c].value);
  }

  /** A push that is delivered at once brings any connection to the store's language, whatever it held. */
  lemma PushConverges(s: System, to: nat) returns (pushed: System, s': System)
    requires Reachable(s) && to < |s.cursors|
    requires LoadCurrent(s.file).Ok? && LoadCurrent(s.file).value.seqno > 0
    ensures Next(s, Push) == Some(pushed) && Next(pushed, Deliver(to, |s.sent|)) == Some(s')
    ensures s'.file == s.file && s'.cursors[to] == Some(LoadCurrent(s.file).value)
    ensures forall c :: 0 <= c < |s.cursors| && c != to ==> s'.cursors[c] == s.cursors[c]
  {
    ReachableOk(s);
    pushed := Next(s, Push).value;
    s' := Next(pushed, Deliver(to, |s.sent|)).value;
    if s.cursors[to].Some? { assert Recorded(s, s.cursors[to].value); }
  }
}
