/**
 Rotation with many writers at once. Each writer stats the live file, tries a non-blocking lock, stats again
 under it, renames, unlocks, opens and writes, and these steps interleave in any order. Files are inodes: a
 writer that opened the live file before a rename writes to the file where it then lies.
 */
module AuditRotation {
  import opened Wrappers
  import opened Lines
  import opened Utf8

  type Inode = nat

  /** Where an append stands; `skipped` is that a rotation was due and this append goes on without it. */
  datatype Phase =
    | Idle
    | Checking
    | Locking
    | Rechecking
    | Renaming
    | Unlocking(skipped: bool)
    | Opening(skipped: bool)
    | Writing(file: Inode, skipped: bool)

  datatype Writer = Writer(line: Text, phase: Phase)

  /** One rename: the inode moved, its size and the pending line then, and how many inodes existed. */
  datatype Rename = Rename(moved: Inode, size: nat, add: nat, inodes: nat)

  /** The files and who is at work; `skipped` counts the live file's bytes from appends that skipped a rotation. */
  datatype Disk = Disk(
    max: nat,
    files: seq<Text>,
    live: Option<Inode>,
    rotated: Option<Inode>,
    lock: Option<nat>,
    writers: seq<Writer>,
    renames: seq<Rename>,
    skipped: nat)

  datatype Step =
    | Begin(w: nat, line: Text)
    | Stat(w: nat)
    | TryLock(w: nat, opens: bool)
    | Restat(w: nat)
    | Move(w: nat, ok: bool)
    | Unlock(w: nat)
    | Open(w: nat, ok: bool)
    | Write(w: nat, n: nat)

  predicate NeedsRotation(d: Disk, add: nat) {
    d.live.Some? && d.live.value < |d.files| && |d.files[d.live.value]| + add > d.max
  }

  function With(d: Disk, w: nat, phase: Phase): Disk
    requires w < |d.writers|
  {
    d.(writers := d.writers[w := d.writers[w].(phase := phase)])
  }

  function Next(d: Disk, step: Step): Option<Disk> {
    if step.w >= |d.writers| then None else WriterStep(d, step, step.w)
  }

  function WriterStep(d: Disk, step: Step, w: nat): Option<Disk>
    requires w < |d.writers|
  {
    var k := d.writers[w];
    match step
    case Begin(_, line) =>
      if !k.phase.Idle? then None else Some(d.(writers := d.writers[w := Writer(line, Checking)]))
    case Stat(_) =>
      if !k.phase.Checking? then None
      else Some(With(d, w, if NeedsRotation(d, |k.line|) then Locking else Opening(false)))
    case TryLock(_, opens) =>
      if !k.phase.Locking? then None
      else if !opens || d.lock.Some? then Some(With(d, w, Opening(true)))
      else Some(With(d, w, Rechecking).(lock := Some(w)))
    case Restat(_) =>
      if !k.phase.Rechecking? then None
      else Some(With(d, w, if NeedsRotation(d, |k.line|) then Renaming else Unlocking(false)))
    case Move(_, ok) =>
      if !k.phase.Renaming? then None
      else if !ok || d.live.None? || d.live.value >= |d.files| then Some(With(d, w, Unlocking(true)))
      else
        var r := Rename(d.live.value, |d.files[d.live.value]|, |k.line|, |d.files|);
        var moved := With(d, w, Unlocking(false));
        Some(moved.(rotated := d.live, live := None, renames := d.renames + [r], skipped := 0))
    case Unlock(_) =>
      if !k.phase.Unlocking? then None else Some(With(d, w, Opening(k.phase.skipped)).(lock := None))
    case Open(_, ok) =>
      if !k.phase.Opening? then None
      else if !ok then Some(With(d, w, Idle))
      else if d.live.Some? then Some(With(d, w, Writing(d.live.value, k.phase.skipped)))
      else Some(With(d, w, Writing(|d.files|, k.phase.skipped)).(files := d.files + [[]], live := Some(|d.files|)))
    case Write(_, n) =>
      if !k.phase.Writing? || n > |k.line| || k.phase.file >= |d.files| then None
      else
        var files := d.files[k.phase.file := d.files[k.phase.file] + k.line[..n]];
        var over := if k.phase.skipped && d.live == Some(k.phase.file) then n else 0;
        Some(With(d, w, Idle).(files := files, skipped := d.skipped + over))
  }

  function Run(d: Disk, steps: seq<Step>): Option<Disk>
    decreases |steps|
  {
    if steps == [] then Some(d)
    else
      var next := Next(d, steps[0]);
      if next.None? then None else Run(next.value, steps[1..])
  }

  /** Any number of idle writers over any files that exist already. */
  predicate IsStart(d: Disk) {
    && d.lock.None? && d.renames == [] && d.skipped == 0
    && (forall w :: 0 <= w < |d.writers| ==> d.writers[w].phase.Idle?)
    && (d.live.Some? ==> d.live.value < |d.files|)
    && (d.rotated.Some? ==> d.rotated.value < |d.files| && d.rotated != d.live)
  }

  ghost predicate Reachable(d: Disk) {
    exists d0, steps :: IsStart(d0) && Run(d0, steps) == Some(d)
  }

  // ---- The invariant -----------------------------------------------------------

  predicate HoldsLock(p: Phase) {
    p.Rechecking? || p.Renaming? || p.Unlocking?
  }

  /** The lock is its holder's, and a confirmed rename is still due. */
  predicate WriterOk(d: Disk, w: nat)
    requires w < |d.writers|
  {
    var k := d.writers[w];
    && (HoldsLock(k.phase) <==> d.lock == Some(w))
    && (k.phase.Renaming? ==> NeedsRotation(d, |k.line|))
    && (k.phase.Writing? ==> k.phase.file < |d.files|)
  }

  /** A rename was due, and the file it moved was created after every earlier rename. */
  predicate RenamesOk(d: Disk) {
    && (forall i :: 0 <= i < |d.renames| ==>
          && d.renames[i].size + d.renames[i].add > d.max
          && d.renames[i].moved < d.renames[i].inodes <= |d.files|
          && (d.live.Some? ==> d.renames[i].inodes <= d.live.value))
    && (forall i, j :: 0 <= i < j < |d.renames| ==> d.renames[i].inodes <= d.renames[j].moved)
    && (d.renames != [] ==> d.rotated == Some(d.renames[|d.renames| - 1].moved))
  }

  predicate Inv(d: Disk) {
    && (forall w :: 0 <= w < |d.writers| ==> WriterOk(d, w))
    && (d.lock.Some? ==> d.lock.value < |d.writers|)
    && (d.live.Some? ==> d.live.value < |d.files|)
    && RenamesOk(d)
  }

  /** Files never shrink or vanish, and only the lock's holder takes the live name away. */
  lemma Monotone(d: Disk, step: Step, d': Disk)
    requires Next(d, step) == Some(d') && (d.live.Some? ==> d.live.value < |d.files|)
    ensures d'.max == d.max && |d.files| <= |d'.files|
    ensures forall f :: 0 <= f < |d.files| ==> |d.files[f]| <= |d'.files[f]|
    ensures !step.Move? && d.live.Some? ==> d'.live == d.live
    ensures |d'.writers| == |d.writers|
    ensures forall v :: 0 <= v < |d.writers| && v != step.w ==> d'.writers[v] == d.writers[v]
  {
  }

  lemma OtherWriterOk(d: Disk, step: Step, d': Disk, v: nat)
    requires Inv(d) && Next(d, step) == Some(d') && v < |d.writers| && v != step.w
    ensures WriterOk(d', v)
  {
    Monotone(d, step, d');
    assert WriterOk(d, v) && WriterOk(d, step.w);
  }

  lemma OwnWriterOk(d: Disk, step: Step, d': Disk)
    requires Inv(d) && Next(d, step) == Some(d')
    ensures WriterOk(d', step.w)
  {
    assert WriterOk(d, step.w);
  }

  lemma KeepsRenames(d: Disk, step: Step, d': Disk)
    requires Inv(d) && Next(d, step) == Some(d')
    ensures RenamesOk(d')
  {
    assert WriterOk(d, step.w);
    if d'.renames == d.renames {
      SameRenames(d, step, d');
    }
  }

  lemma SameRenames(d: Disk, step: Step, d': Disk)
    requires RenamesOk(d) && (d.live.Some? ==> d.live.value < |d.files|)
    requires Next(d, step) == Some(d') && d'.renames == d.renames
    ensures RenamesOk(d')
  {
    Monotone(d, step, d');
  }

  lemma StepKeepsInv(d: Disk, step: Step, d': Disk)
    requires Inv(d) && Next(d, step) == Some(d')
    ensures Inv(d')
  {
    Monotone(d, step, d');
    forall v | 0 <= v < |d'.writers| ensures WriterOk(d', v) {
      if v == step.w { OwnWriterOk(d, step, d'); } else { OtherWriterOk(d, step, d', v); }
    }
    KeepsRenames(d, step, d');
  }

  lemma {:induction false} RunKeepsInv(d: Disk, steps: seq<Step>, d': Disk)
    requires Inv(d) && Run(d, steps) == Some(d')
    ensures Inv(d')
    decreases |steps|
  {
    if steps == [] {
    } else {
      var next := Next(d, steps[0]).value;
      StepKeepsInv(d, steps[0], next);
      RunKeepsInv(next, steps[1..], d');
    }
  }

  // ---- The theorem -------------------------------------------------------------

  /**
   In every interleaving each rename moved a live file that the pending line would push past the cap, and that
   file was created after the previous rename: a fresh rotation is only ever replaced by a full newer file.
   */
  lemma FreshHistoryKept(d: Disk, i: nat)
    requires Reachable(d) && i < |d.renames|
    ensures d.renames[i].size + d.renames[i].add > d.max
    ensures forall h :: 0 <= h < i ==>
      d.renames[h].inodes <= d.renames[i].moved && d.renames[h].moved != d.renames[i].moved
    ensures d.rotated == Some(d.renames[|d.renames| - 1].moved)
  {
    var d0, steps :| IsStart(d0) && Run(d0, steps) == Some(d);
    RunKeepsInv(d0, steps, d);
  }

  lemma {:induction false} RunAppend(d: Disk, steps: seq<Step>, step: Step)
    requires Run(d, steps).Some?
    ensures Run(d, steps + [step]) == Next(Run(d, steps).value, step)
    decreases |steps|
  {
    if steps == [] {
      assert steps + [step] == [step] && [step][1..] == [];
    } else {
      assert (steps + [step])[1..] == steps[1..] + [step];
      RunAppend(Next(d, steps[0]).value, steps[1..], step);
    }
  }

  lemma Extend(d: Disk, step: Step, d': Disk)
    requires Reachable(d) && Next(d, step) == Some(d')
    ensures Reachable(d')
  {
    var d0, steps :| IsStart(d0) && Run(d0, steps) == Some(d);
    RunAppend(d0, steps, step);
  }

  /** Two writers over a full live file of one byte. */
  function Contended(a: Phase, b: Phase): Disk {
    Disk(1, [[NEWLINE]], Some(0), None, None, [Writer([NEWLINE], a), Writer([NEWLINE], b)], [], 0)
  }

  lemma Rephased(a: Phase, b: Phase, p: Phase)
    ensures With(Contended(a, b), 0, p) == Contended(p, b) && With(Contended(a, b), 1, p) == Contended(a, p)
  {
    var d := Contended(a, b);
    assert With(d, 0, p).writers == Contended(p, b).writers && With(d, 1, p).writers == Contended(a, p).writers;
  }

  lemma BothWantTheLock()
    ensures Reachable(Contended(Locking, Locking))
  {
    var d0 := Contended(Idle, Idle);
    assert IsStart(d0) && Run(d0, []) == Some(d0);
    Rephased(Idle, Idle, Checking);
    Extend(d0, Begin(0, [NEWLINE]), Contended(Checking, Idle));
    Rephased(Checking, Idle, Locking);
    Extend(Contended(Checking, Idle), Stat(0), Contended(Locking, Idle));
    Rephased(Locking, Idle, Checking);
    Extend(Contended(Locking, Idle), Begin(1, [NEWLINE]), Contended(Locking, Checking));
    Rephased(Locking, Checking, Locking);
    Extend(Contended(Locking, Checking), Stat(1), Contended(Locking, Locking));
  }

  /** The re-check earns its keep: a writer's first check can be stale when it comes to the lock. */
  lemma ChecksGoStale() returns (d: Disk)
    ensures Reachable(d) && |d.writers| == 2 && d.writers[1].phase.Locking?
    ensures !NeedsRotation(d, |d.writers[1].line|)
  {
    BothWantTheLock();
    var locked := Contended(Rechecking, Locking).(lock := Some(0));
    var due := Contended(Renaming, Locking).(lock := Some(0));
    Rephased(Locking, Locking, Rechecking);
    Rephased(Rechecking, Locking, Renaming);
    Extend(Contended(Locking, Locking), TryLock(0, true), locked);
    Extend(locked, Restat(0), due);
    d := Next(due, Move(0, true)).value;
    Extend(due, Move(0, true), d);
  }
}
