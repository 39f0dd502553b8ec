/** Newline-terminated lines of a stream, and the relay's bounded line pump over them. */
module Lines {
  import opened Wrappers

  // ---- Splitting ---------------------------------------------------------------

  /** The length of the first line, its newline included; the whole rest when no newline follows. */
  function LineEnd<T(==)>(s: seq<T>, nl: T): (n: nat)
    requires s != []
    ensures 0 < n <= |s|
    ensures forall i :: 0 <= i < n - 1 ==> s[i] != nl
    ensures n < |s| ==> s[n - 1] == nl
  {
    if s[0] == nl || |s| == 1 then 1 else 1 + LineEnd(s[1..], nl)
  }

  function Split<T(==)>(s: seq<T>, nl: T): (r: seq<seq<T>>)
    ensures forall i :: 0 <= i < |r| ==> r[i] != []
  {
    if s == [] then []
    else [s[..LineEnd(s, nl)]] + Split(s[LineEnd(s, nl)..], nl)
  }

  function Flatten<T>(ls: seq<seq<T>>): seq<T> {
    if ls == [] then [] else ls[0] + Flatten(ls[1..])
  }

  lemma {:induction false} FlattenAppend<T>(ls: seq<seq<T>>, l: seq<T>)
    ensures Flatten(ls + [l]) == Flatten(ls) + l
  {
    if ls == [] {
      assert ls + [l] == [l] && [l][1..] == [];
    } else {
      assert (ls + [l])[1..] == ls[1..] + [l];
      FlattenAppend(ls[1..], l);
    }
  }

  /** Splitting loses nothing. */
  lemma {:induction false} SplitFlattens<T>(s: seq<T>, nl: T)
    ensures Flatten(Split(s, nl)) == s
  {
    if s == [] {
    } else {
      var n := LineEnd(s, nl);
      SplitFlattens(s[n..], nl);
      assert Split(s, nl)[1..] == Split(s[n..], nl);
      assert s[..n] + s[n..] == s;
    }
  }

  // ---- pump_lines --------------------------------------------------------------

  type Byte = b: int | 0 <= b < 256

  const NEWLINE: Byte := 10

  datatype PumpError = CapOutOfRange | LineTooLong

  predicate WithinCap(ls: seq<seq<Byte>>, cap: nat) {
    forall i :: 0 <= i < |ls| ==> |ls[i]| <= cap
  }

  /** What one bounded read takes: up to the newline, the end of the stream, or `limit` bytes. */
  function ReadUntil(rest: seq<Byte>, limit: nat): (chunk: seq<Byte>)
    ensures |chunk| <= limit && chunk <= rest
    ensures rest != [] && LineEnd(rest, NEWLINE) <= limit ==> chunk == rest[..LineEnd(rest, NEWLINE)]
    ensures rest != [] && LineEnd(rest, NEWLINE) > limit ==> |chunk| == limit
  {
    if rest == [] then []
    else if LineEnd(rest, NEWLINE) <= limit then rest[..LineEnd(rest, NEWLINE)]
    else rest[..limit]
  }

  /** After `k` lines: all of them fit, `out` is exactly them, and `rest` is what is left to split. */
  ghost predicate Pumped(lines: seq<seq<Byte>>, k: nat, out: seq<Byte>, rest: seq<Byte>, cap: nat) {
    && k <= |lines| && lines[k..] == Split(rest, NEWLINE)
    && WithinCap(lines[..k], cap) && out == Flatten(lines[..k])
  }

  lemma PumpOne(lines: seq<seq<Byte>>, k: nat, out: seq<Byte>, rest: seq<Byte>, cap: nat)
    requires Pumped(lines, k, out, rest, cap) && rest != []
    ensures k < |lines| && lines[k] == rest[..LineEnd(rest, NEWLINE)]
    ensures |lines[k]| <= cap ==> Pumped(lines, k + 1, out + lines[k], rest[LineEnd(rest, NEWLINE)..], cap)
  {
    assert lines[k] == lines[k..][0];
    assert lines[..k + 1] == lines[..k] + [lines[k]];
    assert lines[k + 1..] == lines[k..][1..];
    FlattenAppend(lines[..k], lines[k]);
  }

  /** The output is the lines before the first one over the cap. */
  ghost predicate StoppedAt(lines: seq<seq<Byte>>, k: nat, out: seq<Byte>, cap: nat) {
    k < |lines| && |lines[k]| > cap && WithinCap(lines[..k], cap) && out == Flatten(lines[..k])
  }

  /**
   The pump copies its input unchanged when every line fits, otherwise exactly the lines before the first that
   does not, and it never holds more than one byte past the cap.
   */
  method PumpLines(input: seq<Byte>, cap: nat) returns (r: Result<(), PumpError>, out: seq<Byte>, peak: nat)
    ensures cap >= U64_MAX ==> r == Err(CapOutOfRange) && out == []
    ensures cap < U64_MAX ==> (r.Ok? <==> WithinCap(Split(input, NEWLINE), cap))
    ensures r.Ok? ==> out == input
    ensures r == Err(LineTooLong) ==> exists k :: StoppedAt(Split(input, NEWLINE), k, out, cap)
    ensures peak <= cap + 1
  {
    out, peak := [], 0;
    if cap >= U64_MAX { return Err(CapOutOfRange), out, peak; }
    var rest := input;
    ghost var lines, k: nat := Split(input, NEWLINE), 0;
    while rest != []
      invariant Pumped(lines, k, out, rest, cap) && peak <= cap + 1
      decreases |rest|
    {
      PumpOne(lines, k, out, rest, cap);
      var chunk := ReadUntil(rest, cap + 1);
      if |chunk| > peak { peak := |chunk|; }
      if |chunk| > cap {
        assert StoppedAt(lines, k, out, cap);
        return Err(LineTooLong), out, peak;
      }
      out := out + chunk;
      rest := rest[|chunk|..];
      k := k + 1;
    }
    assert lines[..k] == lines;
    SplitFlattens(input, NEWLINE);
    return Ok(()), out, peak;
  }
}
