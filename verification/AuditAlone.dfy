/**
 One append that no other writer contends, as steps of the many-writer system. It rotates exactly when the line would
 push the live file past the cap, and leaves the two files as the single-writer append does.
 */
module AuditAlone {
  import opened Wrappers
  import opened Lines
  import opened Utf8
  import opened AuditRotation

  function Then(d: Option<Disk>, step: Step): Option<Disk> {
    if d.None? then None else Next(d.value, step)
  }

  /** The steps of the append: the rotation between its check and its opening only when one is due. */
  function Appended(d: Disk, w: nat, line: Text): Option<Disk> {
    var checked := Then(Next(d, Begin(w, line)), Stat(w));
    var ready := if NeedsRotation(d, |line|) then Rotated(checked, w) else checked;
    Then(Then(ready, Open(w, true)), Write(w, |line|))
  }

  function Rotated(d: Option<Disk>, w: nat): Option<Disk> {
    Then(Then(Then(Then(d, TryLock(w, true)), Restat(w)), Move(w, true)), Unlock(w))
  }

  function Content(d: Disk, f: Option<Inode>): Option<Text> {
    if f.Some? && f.value < |d.files| then Some(d.files[f.value]) else None
  }

  function TextIn(d: Disk, f: Option<Inode>): Text {
    if Content(d, f).Some? then Content(d, f).value else []
  }

  /** The rotated file is a file, and not the live one. */
  predicate RotatedApart(d: Disk) {
    d.rotated.Some? ==> d.rotated.value < |d.files| && d.rotated != d.live
  }

  lemma StepKeepsApart(d: Disk, step: Step, d': Disk)
    requires RotatedApart(d) && (d.live.Some? ==> d.live.value < |d.files|) && Next(d, step) == Some(d')
    ensures RotatedApart(d')
  {
  }

  lemma {:induction false} RunKeepsApart(d: Disk, steps: seq<Step>, d': Disk)
    requires Inv(d) && RotatedApart(d) && Run(d, steps) == Some(d')
    ensures Inv(d') && RotatedApart(d')
    decreases |steps|
  {
    if steps == [] {
    } else {
      var next := Next(d, steps[0]).value;
      StepKeepsInv(d, steps[0], next);
      StepKeepsApart(d, steps[0], next);
      RunKeepsApart(next, steps[1..], d');
    }
  }

  lemma ReachableApart(d: Disk)
    requires Reachable(d)
    ensures RotatedApart(d) && (d.live.Some? ==> d.live.value < |d.files|)
  {
    var d0, steps :| IsStart(d0) && Run(d0, steps) == Some(d);
    RunKeepsApart(d0, steps, d);
  }

  /** The writer at its line, in a phase. */
  function At(d: Disk, w: nat, line: Text, phase: Phase): Disk
    requires w < |d.writers|
  {
    d.(writers := d.writers[w := Writer(line, phase)])
  }

  lemma Rephased(d: Disk, w: nat, line: Text, p: Phase, q: Phase)
    requires w < |d.writers|
    ensures With(At(d, w, line, p), w, q) == At(d, w, line, q)
  {
    assert d.writers[w := Writer(line, p)][w := Writer(line, q)] == d.writers[w := Writer(line, q)];
  }

  lemma Checks(d: Disk, w: nat, line: Text)
    requires w < |d.writers| && d.writers[w].phase.Idle?
    ensures Then(Next(d, Begin(w, line)), Stat(w)) ==
      Some(At(d, w, line, if NeedsRotation(d, |line|) then Locking else Opening(false)))
  {
    Rephased(d, w, line, Checking, Locking);
    Rephased(d, w, line, Checking, Opening(false));
  }

  lemma Rotates(d: Disk, w: nat, line: Text)
    requires w < |d.writers| && d.lock.None? && NeedsRotation(d, |line|)
    ensures var f := d.live.value;
      Rotated(Some(At(d, w, line, Locking)), w) ==
        Some(At(d, w, line, Opening(false))
             .(rotated := d.live, live := None, skipped := 0,
               renames := d.renames + [Rename(f, |d.files[f]|, |line|, |d.files|)]))
  {
    var held := d.(lock := Some(w));
    Rephased(d, w, line, Locking, Rechecking);
    Rephased(held, w, line, Rechecking, Renaming);
    Rephased(held, w, line, Renaming, Unlocking(false));
    var moved := held.(rotated := d.live, live := None, skipped := 0,
      renames := d.renames + [Rename(d.live.value, |d.files[d.live.value]|, |line|, |d.files|)]);
    Rephased(moved, w, line, Unlocking(false), Opening(false));
    assert Next(At(d, w, line, Locking), TryLock(w, true)) == Some(At(held, w, line, Rechecking));
    assert Next(At(held, w, line, Rechecking), Restat(w)) == Some(At(held, w, line, Renaming));
    assert Next(At(held, w, line, Renaming), Move(w, true)) == Some(At(moved, w, line, Unlocking(false)));
  }

  lemma Writes(d: Disk, w: nat, line: Text) returns (d': Disk)
    requires w < |d.writers| && (d.live.Some? ==> d.live.value < |d.files|) && RotatedApart(d)
    ensures Then(Next(At(d, w, line, Opening(false)), Open(w, true)), Write(w, |line|)) == Some(d')
    ensures Content(d', d'.live) == Some(TextIn(d, d.live) + line) && Content(d', d'.rotated) == Content(d, d.rotated)
    ensures d'.lock == d.lock && d'.renames == d.renames && d'.skipped == d.skipped && d'.rotated == d.rotated
    ensures d'.writers == d.writers[w := Writer(line, Idle)]
  {
    assert line[..|line|] == line;
    if d.live.Some? {
      var f := d.live.value;
      Rephased(d, w, line, Opening(false), Writing(f, false));
      Rephased(d, w, line, Writing(f, false), Idle);
      d' := At(d, w, line, Idle).(files := d.files[f := d.files[f] + line]);
      Rephased(d'.(files := d.files), w, line, Writing(f, false), Idle);
    } else {
      var f := |d.files|;
      Rephased(d, w, line, Opening(false), Writing(f, false));
      var grown := d.(files := d.files + [[]], live := Some(f));
      Rephased(grown, w, line, Writing(f, false), Idle);
      d' := At(grown, w, line, Idle).(files := grown.files[f := [] + line]);
    }
  }

  /**
   In every reachable state, an append that nobody contends rotates exactly when its line would push the live file past
   the cap: the live file is then the line alone and the old one is the rotated file; else the line is added to it.
   */
  lemma AloneIsAppend(d: Disk, w: nat, line: Text) returns (d': Disk)
    requires Reachable(d) && d.lock.None? && w < |d.writers| && d.writers[w].phase.Idle?
    ensures Appended(d, w, line) == Some(d')
    ensures var due := d.live.Some? && |TextIn(d, d.live)| + |line| > d.max;
      && Content(d', d'.live) == Some(if due then line else TextIn(d, d.live) + line)
      && Content(d', d'.rotated) == (if due then Content(d, d.live) else Content(d, d.rotated))
      && |d'.renames| == |d.renames| + (if due then 1 else 0)
      && d'.lock.None? && d'.writers == d.writers[w := Writer(line, Idle)]
  {
    ReachableApart(d);
    Checks(d, w, line);
    if NeedsRotation(d, |line|) {
      Rotates(d, w, line);
      var f := d.live.value;
      var moved := d.(rotated := d.live, live := None, skipped := 0,
        renames := d.renames + [Rename(f, |d.files[f]|, |line|, |d.files|)]);
      d' := Writes(moved, w, line);
      assert [] + line == line;
    } else {
      d' := Writes(d, w, line);
    }
  }
}
