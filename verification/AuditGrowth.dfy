/**
 How far the live file can grow past the cap while writers race. An append that finds a rotation due and loses the
 lock goes on without it, and an append whose size check was overtaken by others goes on as well.
 */
module AuditGrowth {
  import opened Wrappers
  import opened Lines
  import opened Utf8
  import opened AuditRotation

  function LiveSize(d: Disk): nat {
    if d.live.Some? && d.live.value < |d.files| then |d.files[d.live.value]| else 0
  }

  /** The bytes a writer is about to append to the live file on the strength of a size check. */
  function Weight(live: Option<Inode>, k: Writer): nat {
    match k.phase
    case Unlocking(skipped) => if skipped then 0 else |k.line|
    case Opening(skipped) => if skipped then 0 else |k.line|
    case Writing(file, skipped) => if skipped || live != Some(file) then 0 else |k.line|
    case _ => 0
  }

  function Pending(live: Option<Inode>, ws: seq<Writer>): nat {
    if ws == [] then 0 else Weight(live, ws[0]) + Pending(live, ws[1..])
  }

  lemma {:induction false} PendingUpdate(live: Option<Inode>, ws: seq<Writer>, w: nat, k: Writer)
    requires w < |ws|
    ensures Pending(live, ws[w := k]) + Weight(live, ws[w]) == Pending(live, ws) + Weight(live, k)
    decreases |ws|
  {
    if w == 0 {
      assert ws[w := k][1..] == ws[1..];
    } else {
      assert ws[w := k][1..] == ws[1..][w - 1 := k];
      PendingUpdate(live, ws[1..], w - 1, k);
    }
  }

  predicate LinesWithin(ws: seq<Writer>, cap: nat) {
    forall w :: 0 <= w < |ws| ==> |ws[w].line| <= cap
  }

  lemma {:induction false} PendingBound(live: Option<Inode>, ws: seq<Writer>, cap: nat)
    requires LinesWithin(ws, cap)
    ensures Pending(live, ws) <= |ws| * cap
    decreases |ws|
  {
    if ws == [] {
    } else {
      PendingBound(live, ws[1..], cap);
      assert |ws| * cap == cap + |ws[1..]| * cap;
    }
  }

  /** One append for every writer but one. */
  function Others(n: nat, cap: nat): nat {
    if n == 0 then 0 else (n - 1) * cap
  }

  lemma {:induction false} PendingOthers(live: Option<Inode>, ws: seq<Writer>, w: nat, cap: nat)
    requires LinesWithin(ws, cap) && w < |ws| && Weight(live, ws[w]) == 0
    ensures Pending(live, ws) <= Others(|ws|, cap)
    decreases |ws|
  {
    if w == 0 {
      PendingBound(live, ws[1..], cap);
    } else {
      PendingOthers(live, ws[1..], w - 1, cap);
      assert (|ws| - 1) * cap == cap + (|ws| - 2) * cap;
    }
  }

  /** No writer holds the inode about to become live. */
  lemma {:induction false} PendingNewLive(ws: seq<Writer>, file: Inode)
    requires forall w :: 0 <= w < |ws| && ws[w].phase.Writing? ==> ws[w].phase.file != file
    ensures Pending(Some(file), ws) == Pending(None, ws)
    decreases |ws|
  {
    if ws == [] {
    } else {
      PendingNewLive(ws[1..], file);
    }
  }

  /** The live file and what is bound for it stay within the cap, the skipped bytes, and one append per other writer. */
  predicate GrowthOk(d: Disk, cap: nat) {
    && cap <= d.max && LinesWithin(d.writers, cap)
    && LiveSize(d) + Pending(d.live, d.writers) <= d.max + d.skipped + Others(|d.writers|, cap)
  }

  /** A step that leaves the files alone and gives its writer no more weight than it had. */
  lemma QuietStep(d: Disk, w: nat, k: Writer, d': Disk, cap: nat)
    requires GrowthOk(d, cap) && w < |d.writers| && |k.line| <= cap && Weight(d.live, k) <= Weight(d.live, d.writers[w])
    requires d'.max == d.max && d'.files == d.files && d'.live == d.live && d'.skipped == d.skipped
    requires d'.writers == d.writers[w := k]
    ensures GrowthOk(d', cap)
  {
    PendingUpdate(d.live, d.writers, w, k);
  }

  /** A size check that passes counts what every other writer may still add. */
  lemma CheckedStep(d: Disk, w: nat, k: Writer, d': Disk, cap: nat)
    requires GrowthOk(d, cap) && w < |d.writers| && k.line == d.writers[w].line
    requires Weight(d.live, d.writers[w]) == 0 && !NeedsRotation(d, |k.line|)
    requires d.live.Some? ==> d.live.value < |d.files|
    requires d'.max == d.max && d'.files == d.files && d'.live == d.live && d'.skipped == d.skipped
    requires d'.writers == d.writers[w := k]
    ensures GrowthOk(d', cap)
  {
    PendingUpdate(d.live, d.writers, w, k);
    PendingOthers(d.live, d.writers, w, cap);
    assert LiveSize(d) + |k.line| <= d.max;
  }

  lemma RenameStep(d: Disk, w: nat, d': Disk, cap: nat)
    requires GrowthOk(d, cap) && w < |d.writers| && d.writers[w].phase.Renaming?
    requires WriterStep(d, Move(w, true), w) == Some(d') && d'.live.None?
    ensures GrowthOk(d', cap)
  {
    var n := |d.writers|;
    assert LinesWithin(d'.writers, cap);
    PendingBound(d'.live, d'.writers, cap);
    assert n * cap == cap + (n - 1) * cap;
  }

  lemma OpenStep(d: Disk, w: nat, ok: bool, d': Disk, cap: nat)
    requires GrowthOk(d, cap) && Inv(d) && w < |d.writers| && WriterStep(d, Open(w, ok), w) == Some(d')
    ensures GrowthOk(d', cap)
  {
    if ok && d.live.None? {
      var newest, k := |d.files|, d'.writers[w];
      forall u | 0 <= u < |d.writers| && d.writers[u].phase.Writing? ensures d.writers[u].phase.file != newest {
        assert WriterOk(d, u);
      }
      PendingNewLive(d.writers, newest);
      PendingUpdate(Some(newest), d.writers, w, k);
    } else {
      QuietStep(d, w, d'.writers[w], d', cap);
    }
  }

  lemma WriteStep(d: Disk, w: nat, n: nat, d': Disk, cap: nat)
    requires GrowthOk(d, cap) && w < |d.writers| && WriterStep(d, Write(w, n), w) == Some(d')
    ensures GrowthOk(d', cap)
  {
    PendingUpdate(d.live, d.writers, w, d'.writers[w]);
  }

  lemma GrowthStep(d: Disk, step: Step, d': Disk, cap: nat)
    requires GrowthOk(d, cap) && Inv(d) && Next(d, step) == Some(d')
    requires step.Begin? ==> |step.line| <= cap
    ensures GrowthOk(d', cap)
  {
    var w := step.w;
    match step
    case Begin(_, line) => QuietStep(d, w, Writer(line, Checking), d', cap);
    case Stat(_) => CheckStep(d, step, w, d', cap);
    case Restat(_) => CheckStep(d, step, w, d', cap);
    case TryLock(_, _) => QuietStep(d, w, d'.writers[w], d', cap);
    case Move(_, ok) =>
      if d'.live.None? && ok && d.live.Some? {
        RenameStep(d, w, d', cap);
      } else {
        QuietStep(d, w, d'.writers[w], d', cap);
      }
    case Unlock(_) => QuietStep(d, w, d'.writers[w], d', cap);
    case Open(_, ok) => OpenStep(d, w, ok, d', cap);
    case Write(_, n) => WriteStep(d, w, n, d', cap);
  }

  lemma CheckStep(d: Disk, step: Step, w: nat, d': Disk, cap: nat)
    requires GrowthOk(d, cap) && Inv(d) && (step.Stat? || step.Restat?)
    requires w < |d.writers| && WriterStep(d, step, w) == Some(d')
    ensures GrowthOk(d', cap)
  {
    if NeedsRotation(d, |d.writers[w].line|) {
      QuietStep(d, w, d'.writers[w], d', cap);
    } else {
      CheckedStep(d, w, d'.writers[w], d', cap);
    }
  }

  lemma {:induction false} GrowthRun(d: Disk, steps: seq<Step>, d': Disk, cap: nat)
    requires GrowthOk(d, cap) && Inv(d) && Run(d, steps) == Some(d')
    requires forall i :: 0 <= i < |steps| && steps[i].Begin? ==> |steps[i].line| <= cap
    ensures GrowthOk(d', cap) && |d'.writers| == |d.writers| && d'.max == d.max
    decreases |steps|
  {
    if steps == [] {
    } else {
      var next := Next(d, steps[0]).value;
      GrowthStep(d, steps[0], next, cap);
      StepKeepsInv(d, steps[0], next);
      Monotone(d, steps[0], next);
      GrowthRun(next, steps[1..], d', cap);
    }
  }

  lemma {:induction false} IdlePending(live: Option<Inode>, ws: seq<Writer>)
    requires forall w :: 0 <= w < |ws| ==> ws[w].phase.Idle?
    ensures Pending(live, ws) == 0
    decreases |ws|
  {
    if ws == [] {
    } else {
      IdlePending(live, ws[1..]);
    }
  }

  /**
   In every interleaving of any number of writers the live file exceeds the cap by no more than the records of
   appends that skipped a due rotation, and one record for every other writer.
   */
  lemma LiveGrowthBounded(d0: Disk, steps: seq<Step>, d: Disk, cap: nat)
    requires IsStart(d0) && LiveSize(d0) <= d0.max && LinesWithin(d0.writers, cap) && cap <= d0.max
    requires Run(d0, steps) == Some(d)
    requires forall i :: 0 <= i < |steps| && steps[i].Begin? ==> |steps[i].line| <= cap
    ensures LiveSize(d) <= d.max + d.skipped + Others(|d0.writers|, cap)
  {
    IdlePending(d0.live, d0.writers);
    GrowthRun(d0, steps, d, cap);
  }

  /** The second term is needed, and is reached: two overtaken checks pass the cap with no rotation skipped. */
  lemma OvertakenChecksOvershoot() returns (d: Disk)
    ensures Reachable(d) && d.skipped == 0 && |d.writers| == 2
    ensures LiveSize(d) == d.max + Others(2, 1) > d.max
  {
    var line := [NEWLINE];
    var d0 := Racing([NEWLINE], Idle, Idle);
    assert IsStart(d0) && Run(d0, []) == Some(d0);
    Advance([NEWLINE], Idle, Idle, Begin(0, line), Checking, Idle);
    Advance([NEWLINE], Checking, Idle, Begin(1, line), Checking, Checking);
    Advance([NEWLINE], Checking, Checking, Stat(0), Opening(false), Checking);
    Advance([NEWLINE], Opening(false), Checking, Stat(1), Opening(false), Opening(false));
    BothWrite();
    d := Racing([NEWLINE, NEWLINE, NEWLINE], Idle, Idle);
  }

  function Racing(text: Text, a: Phase, b: Phase): Disk {
    Disk(2, [text], Some(0), None, None, [Writer([NEWLINE], a), Writer([NEWLINE], b)], [], 0)
  }

  lemma Advance(text: Text, a: Phase, b: Phase, step: Step, a': Phase, b': Phase)
    requires Reachable(Racing(text, a, b))
    requires Next(Racing(text, a, b), step).Some?
    requires var d := Next(Racing(text, a, b), step).value;
      d == Racing(text, a', b').(writers := d.writers) && d.writers == Racing(text, a', b').writers
    ensures Reachable(Racing(text, a', b'))
  {
    Extend(Racing(text, a, b), step, Racing(text, a', b'));
  }

  lemma BothWrite()
    requires Reachable(Racing([NEWLINE], Opening(false), Opening(false)))
    ensures Reachable(Racing([NEWLINE, NEWLINE, NEWLINE], Idle, Idle))
  {
    var one, two, three := [NEWLINE], [NEWLINE, NEWLINE], [NEWLINE, NEWLINE, NEWLINE];
    var ready := Writing(0, false);
    Advance(one, Opening(false), Opening(false), Open(0, true), ready, Opening(false));
    Advance(one, ready, Opening(false), Open(1, true), ready, ready);
    OneWrites(one, ready, ready, 0, Idle, ready);
    assert one + [NEWLINE] == two && two + [NEWLINE] == three;
    OneWrites(two, Idle, ready, 1, Idle, Idle);
  }

  lemma OneWrites(text: Text, a: Phase, b: Phase, w: nat, a': Phase, b': Phase)
    requires Reachable(Racing(text, a, b)) && w < 2
    requires if w == 0 then a == Writing(0, false) && a'.Idle? && b' == b
             else b == Writing(0, false) && b'.Idle? && a' == a
    ensures Reachable(Racing(text + [NEWLINE], a', b'))
  {
    var d, d' := Racing(text, a, b), Racing(text + [NEWLINE], a', b');
    var next := Next(d, Write(w, 1)).value;
    assert [NEWLINE][..1] == [NEWLINE];
    assert next.files == d'.files && next.writers == d'.writers;
    Extend(d, Write(w, 1), d');
  }
}
