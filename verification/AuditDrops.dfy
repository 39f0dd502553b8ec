/**
 The dropped-record count. Recording threads share one 64-bit counter of records that failed to reach the file:
 a recorder swaps it to zero, carries the amount on its own record, and puts it back with one more on failure.
 */
module AuditDrops {
  import opened Wrappers
  import opened Lines

  /** `claimed[t]` is what thread t swapped out and still carries, while its record is in flight. */
  datatype Drops = Drops(counter: nat, claimed: seq<Option<nat>>, written: seq<Option<nat>>, failures: nat)

  datatype Step = Claim(t: nat) | Succeed(t: nat) | Fail(t: nat)

  function SaturatingAdd(a: nat, b: nat): nat {
    if a + b > U64_MAX then U64_MAX else a + b
  }

  function Next(s: Drops, step: Step): Option<Drops> {
    if step.t >= |s.claimed| then None
    else
      var mine := s.claimed[step.t];
      match step
      case Claim(t) =>
        if mine.Some? then None else Some(s.(counter := 0, claimed := s.claimed[t := Some(s.counter)]))
      case Succeed(t) =>
        if mine.None? then None
        else
          var field := if mine.value > 0 then mine else None;
          Some(s.(claimed := s.claimed[t := None], written := s.written + [field]))
      case Fail(t) =>
        if mine.None? then None
        else
          var back := (s.counter + SaturatingAdd(mine.value, 1)) % (U64_MAX + 1);
          Some(s.(counter := back, claimed := s.claimed[t := None], failures := s.failures + 1))
  }

  function Run(s: Drops, steps: seq<Step>): Option<Drops>
    decreases |steps|
  {
    if steps == [] then Some(s)
    else
      var next := Next(s, steps[0]);
      if next.None? then None else Run(next.value, steps[1..])
  }

  /** A process starts with nothing dropped and any number of idle threads. */
  predicate IsStart(s: Drops) {
    s.counter == 0 && s.written == [] && s.failures == 0 && (forall t :: 0 <= t < |s.claimed| ==> s.claimed[t].None?)
  }

  function Amount(x: Option<nat>): nat {
    if x.Some? then x.value else 0
  }

  function Total(xs: seq<Option<nat>>): nat {
    if xs == [] then 0 else Amount(xs[0]) + Total(xs[1..])
  }

  /** Every failed record is reported, counted, or carried by a record in flight, and exactly once. */
  predicate Balanced(s: Drops) {
    s.failures == Total(s.written) + s.counter + Total(s.claimed)
  }

  /** Putting the claimed amount back would pass the counter's 64 bits. */
  predicate Overflows(s: Drops, step: Step) {
    step.Fail? && step.t < |s.claimed| && s.counter + Amount(s.claimed[step.t]) + 1 > U64_MAX
  }

  lemma {:induction false} TotalUpdated(xs: seq<Option<nat>>, i: nat, x: Option<nat>)
    requires i < |xs|
    ensures Total(xs[i := x]) + Amount(xs[i]) == Total(xs) + Amount(x)
    decreases |xs|
  {
    if i == 0 {
      assert xs[i := x][1..] == xs[1..];
    } else {
      assert xs[i := x][1..] == xs[1..][i - 1 := x];
      TotalUpdated(xs[1..], i - 1, x);
    }
  }

  lemma {:induction false} TotalAppended(xs: seq<Option<nat>>, x: Option<nat>)
    ensures Total(xs + [x]) == Total(xs) + Amount(x)
    decreases |xs|
  {
    if xs == [] {
      assert xs + [x] == [x];
    } else {
      assert (xs + [x])[1..] == xs[1..] + [x];
      TotalAppended(xs[1..], x);
    }
  }

  lemma {:induction false} TotalOfNone(xs: seq<Option<nat>>)
    requires forall t :: 0 <= t < |xs| ==> xs[t].None?
    ensures Total(xs) == 0
    decreases |xs|
  {
    if xs == [] {
    } else {
      TotalOfNone(xs[1..]);
    }
  }

  /** A step keeps the balance exactly when it does not overflow. */
  lemma StepBalances(s: Drops, step: Step, s': Drops)
    requires Balanced(s) && s.counter <= U64_MAX && Next(s, step) == Some(s')
    ensures Balanced(s') <==> !Overflows(s, step)
    ensures s'.counter <= U64_MAX
  {
    var t := step.t;
    TotalUpdated(s.claimed, t, s'.claimed[t]);
    match step
    case Claim(_) =>
    case Succeed(_) => TotalAppended(s.written, s'.written[|s.written|]);
    case Fail(_) =>
  }

  /** The balance holds along every run of every number of threads, until the failures themselves pass 64 bits. */
  lemma {:induction false} DropsAreConserved(s: Drops, steps: seq<Step>, s': Drops)
    requires Balanced(s) && s.counter <= U64_MAX && Run(s, steps) == Some(s') && s'.failures <= U64_MAX
    ensures Balanced(s')
    decreases |steps|
  {
    if steps == [] {
    } else {
      var next := Next(s, steps[0]).value;
      FailuresGrow(next, steps[1..], s');
      StepBalances(s, steps[0], next);
      if Overflows(s, steps[0]) { TotalUpdated(s.claimed, steps[0].t, None); }
      DropsAreConserved(next, steps[1..], s');
    }
  }

  lemma {:induction false} FailuresGrow(s: Drops, steps: seq<Step>, s': Drops)
    requires Run(s, steps) == Some(s')
    ensures s.failures <= s'.failures
    decreases |steps|
  {
    if steps == [] {
    } else {
      FailuresGrow(Next(s, steps[0]).value, steps[1..], s');
    }
  }

  lemma StartBalanced(s: Drops)
    requires IsStart(s)
    ensures Balanced(s)
  {
    TotalOfNone(s.claimed);
  }

  // ---- One recorder ------------------------------------------------------------

  lemma {:induction false} SoloClaimsAll(s: Drops, steps: seq<Step>, s': Drops)
    requires |s.claimed| == 1 && (s.claimed[0].Some? ==> s.counter == 0) && Run(s, steps) == Some(s')
    ensures |s'.claimed| == 1 && (s'.claimed[0].Some? ==> s'.counter == 0)
    decreases |steps|
  {
    if steps == [] {
    } else {
      SoloClaimsAll(Next(s, steps[0]).value, steps[1..], s');
    }
  }

  /** With a single recorder the trail owes nothing after any successful write: all failures so far are reported. */
  lemma WriteSettlesAccount(s0: Drops, steps: seq<Step>, s: Drops, s': Drops)
    requires IsStart(s0) && |s0.claimed| == 1 && Run(s0, steps) == Some(s) && s.failures <= U64_MAX
    requires Next(s, Succeed(0)) == Some(s')
    ensures Total(s'.written) == s'.failures
  {
    StartBalanced(s0);
    SoloClaimsAll(s0, steps, s);
    DropsAreConserved(s0, steps, s);
    StepBalances(s, Succeed(0), s');
    TotalOfNone(s'.claimed);
  }

  // ---- One record --------------------------------------------------------------

  /** A record that is written reports all that was counted, and a failed one leaves one more to report. */
  lemma RecordAccounts(s: Drops, t: nat) returns (claimed: Drops)
    requires t < |s.claimed| && s.claimed[t].None? && s.counter < U64_MAX
    ensures Next(s, Claim(t)) == Some(claimed)
    ensures Next(claimed, Succeed(t)) ==
      Some(s.(counter := 0, written := s.written + [if s.counter > 0 then Some(s.counter) else None]))
    ensures Next(claimed, Fail(t)) == Some(s.(counter := s.counter + 1, failures := s.failures + 1))
  {
    claimed := Next(s, Claim(t)).value;
    assert claimed.claimed[t := None] == s.claimed;
  }
}
