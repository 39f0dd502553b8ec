/**
 The trail on disk as one writer leaves it: a live file and one rotated file. Appending rotates when the live
 file would pass the cap; reading returns the newest lines of both.
 */
module AuditTrails {
  import opened Wrappers
  import opened Lines
  import opened Utf8
  import opened AuditRecords

  /** A line as written, its newline included. */
  type Written = Text

  /** The two files, each as the lines written to it; a file that does not exist is `None`. */
  datatype Trail = Trail(live: Option<seq<Written>>, rotated: Option<seq<Written>>)

  const Empty: Trail := Trail(None, None)

  function LinesOf(f: Option<seq<Written>>): seq<Written> { if f.Some? then f.value else [] }
  function Bytes(f: Option<seq<Written>>): Text { Flatten(LinesOf(f)) }

  /** Everything still on disk, oldest first. */
  function Retained(t: Trail): seq<Written> { LinesOf(t.rotated) + LinesOf(t.live) }

  /** A missing file never needs rotation. */
  predicate NeedsRotation(live: Option<seq<Written>>, add: nat, max: nat) {
    live.Some? && |Bytes(live)| + add > max
  }

  /** One append; `renames` is whether the rotation's rename succeeds. */
  function Appended(t: Trail, line: Written, max: nat, renames: bool): Trail {
    var u := if NeedsRotation(t.live, |line|, max) && renames then Trail(None, t.live) else t;
    u.(live := Some(LinesOf(u.live) + [line]))
  }

  datatype Append = Append(line: Written, renames: bool)

  function AfterAppends(t: Trail, appends: seq<Append>, max: nat): Trail
    decreases |appends|
  {
    if appends == [] then t
    else AfterAppends(Appended(t, appends[0].line, max, appends[0].renames), appends[1..], max)
  }

  function AppendedLines(appends: seq<Append>): seq<Written> {
    seq(|appends|, i requires 0 <= i < |appends| => appends[i].line)
  }

  // ---- The trail in place ------------------------------------------------------

  class AuditTrail {
    var live: Option<Text>
    var rotated: Option<Text>
    ghost var lines: Trail

    /** The files hold exactly the lines written to them. */
    ghost predicate Valid()
      reads this
    {
      && (live.Some? <==> lines.live.Some?) && (live.Some? ==> live.value == Bytes(lines.live))
      && (rotated.Some? <==> lines.rotated.Some?) && (rotated.Some? ==> rotated.value == Bytes(lines.rotated))
    }

    constructor ()
      ensures Valid() && lines == Empty
    {
      live, rotated, lines := None, None, Empty;
    }

    method AppendLine(line: Written, max: nat, renames: bool)
      requires Valid()
      modifies this
      ensures Valid() && lines == Appended(old(lines), line, max, renames)
    {
      lines := Appended(lines, line, max, renames);
      if live.Some? && |live.value| + |line| > max && renames {
        rotated, live := live, None;
      }
      ghost var before := lines.live.value[..|lines.live.value| - 1];
      assert lines.live.value == before + [line];
      FlattenAppend(before, line);
      live := Some((if live.Some? then live.value else []) + line);
    }
  }

  // ---- What is kept --------------------------------------------------------------

  predicate IsSuffix<T(==)>(s: seq<T>, t: seq<T>) {
    |s| <= |t| && s == t[|t| - |s|..]
  }

  /** What is on disk is always a suffix of everything ever appended. */
  lemma {:induction false} RetainedIsSuffix(t: Trail, written: seq<Written>, appends: seq<Append>, max: nat)
    requires IsSuffix(Retained(t), written)
    ensures IsSuffix(Retained(AfterAppends(t, appends, max)), written + AppendedLines(appends))
    decreases |appends|
  {
    if appends == [] {
      assert written + AppendedLines(appends) == written;
    } else {
      var line := appends[0].line;
      var next := Appended(t, line, max, appends[0].renames);
      AppendKeepsSuffix(t, written, line, max, appends[0].renames);
      RetainedIsSuffix(next, written + [line], appends[1..], max);
      LinesMove(written, appends);
    }
  }

  lemma LinesMove(written: seq<Written>, appends: seq<Append>)
    requires appends != []
    ensures written + [appends[0].line] + AppendedLines(appends[1..]) == written + AppendedLines(appends)
  {
    assert AppendedLines(appends) == [appends[0].line] + AppendedLines(appends[1..]);
  }

  lemma AppendKeepsSuffix(t: Trail, written: seq<Written>, line: Written, max: nat, renames: bool)
    requires IsSuffix(Retained(t), written)
    ensures IsSuffix(Retained(Appended(t, line, max, renames)), written + [line])
  {
    var kept := Retained(Appended(t, line, max, renames));
    if NeedsRotation(t.live, |line|, max) && renames {
      assert kept == LinesOf(t.live) + [line];
    } else {
      assert kept == Retained(t) + [line];
    }
  }

  // ---- What is not lost ----------------------------------------------------------

  /** An append that fits the cap loses nothing, and neither does one whose rename fails. */
  lemma FittingAppendKeeps(t: Trail, line: Written, max: nat, renames: bool)
    requires |Bytes(t.live)| + |line| <= max || !renames
    ensures Retained(Appended(t, line, max, renames)) == Retained(t) + [line]
  {
    assert Retained(t) + [line] == LinesOf(t.rotated) + (LinesOf(t.live) + [line]);
  }

  /** Everything written is still there, or the rotated file and the first line after it did not fit together. */
  predicate KeepsEnough(t: Trail, written: seq<Written>, max: nat) {
    || Retained(t) == written
    || (t.rotated.Some? && LinesOf(t.live) != [] && |Bytes(t.rotated)| + |LinesOf(t.live)[0]| > max)
  }

  lemma AppendKeepsEnough(t: Trail, written: seq<Written>, line: Written, max: nat, renames: bool)
    requires KeepsEnough(t, written, max)
    ensures KeepsEnough(Appended(t, line, max, renames), written + [line], max)
  {
    if !(NeedsRotation(t.live, |line|, max) && renames) {
      assert Retained(t) + [line] == LinesOf(t.rotated) + (LinesOf(t.live) + [line]);
    }
  }

  /** Over any run of appends history is only ever lost to a rotated file that was full. */
  lemma {:induction false} RotationKeepsEnough(t: Trail, written: seq<Written>, appends: seq<Append>, max: nat)
    requires KeepsEnough(t, written, max)
    ensures KeepsEnough(AfterAppends(t, appends, max), written + AppendedLines(appends), max)
    decreases |appends|
  {
    if appends == [] {
      assert written + AppendedLines(appends) == written;
    } else {
      var line := appends[0].line;
      AppendKeepsEnough(t, written, line, max, appends[0].renames);
      RotationKeepsEnough(Appended(t, line, max, appends[0].renames), written + [line], appends[1..], max);
      LinesMove(written, appends);
    }
  }

  /** So whatever is lost, more than a cap's worth of the newest bytes is kept. */
  lemma CapIsRetained(appends: seq<Append>, max: nat)
    ensures var t := AfterAppends(Empty, appends, max);
      Retained(t) == AppendedLines(appends) || |Flatten(Retained(t))| > max
  {
    var t := AfterAppends(Empty, appends, max);
    RotationKeepsEnough(Empty, [], appends, max);
    assert [] + AppendedLines(appends) == AppendedLines(appends);
    if Retained(t) != AppendedLines(appends) { FlattenJoins(LinesOf(t.rotated), LinesOf(t.live)); }
  }

  lemma {:induction false} FlattenJoins(a: seq<Written>, b: seq<Written>)
    ensures Flatten(a + b) == Flatten(a) + Flatten(b)
    decreases |a|
  {
    if a == [] {
      assert a + b == b;
    } else {
      assert (a + b)[1..] == a[1..] + b;
      FlattenJoins(a[1..], b);
    }
  }

  /** Lines that fit the cap together are all still there. */
  lemma FittingRunKeepsAll(appends: seq<Append>, max: nat)
    requires |Flatten(AppendedLines(appends))| <= max
    ensures Retained(AfterAppends(Empty, appends, max)) == AppendedLines(appends)
  {
    CapIsRetained(appends, max);
    var kept, all := Retained(AfterAppends(Empty, appends, max)), AppendedLines(appends);
    RetainedIsSuffix(Empty, [], appends, max);
    assert [] + all == all && all == all[..|all| - |kept|] + kept;
    FlattenJoins(all[..|all| - |kept|], kept);
  }

  // ---- The cap -------------------------------------------------------------------

  /** While renames succeed and every line fits the cap, both files stay within it. */
  lemma {:induction false} FilesStayWithinCap(t: Trail, appends: seq<Append>, max: nat)
    requires |Bytes(t.live)| <= max && |Bytes(t.rotated)| <= max
    requires forall i :: 0 <= i < |appends| ==> appends[i].renames && |appends[i].line| <= max
    ensures var u := AfterAppends(t, appends, max); |Bytes(u.live)| <= max && |Bytes(u.rotated)| <= max
    decreases |appends|
  {
    if appends == [] {
    } else {
      var line := appends[0].line;
      FlattenAppend([], line);
      FlattenAppend(LinesOf(t.live), line);
      assert [] + [line] == [line];
      FilesStayWithinCap(Appended(t, line, max, true), appends[1..], max);
    }
  }

  /** So a trail of records, whatever their fields held, keeps each file within the cap. */
  lemma RecordsStayWithinCap(records: seq<Record>, appends: seq<Append>)
    requires |appends| == |records|
    requires forall i :: 0 <= i < |records| ==>
      InRange(records[i]) && appends[i] == Append(Line(Truncated(records[i])), true)
    ensures var t := AfterAppends(Empty, appends, AUDIT_MAX_BYTES);
      |Bytes(t.live)| <= AUDIT_MAX_BYTES && |Bytes(t.rotated)| <= AUDIT_MAX_BYTES
  {
    forall i | 0 <= i < |appends| ensures appends[i].renames && |appends[i].line| <= AUDIT_MAX_BYTES {
      LineFits(records[i]);
    }
    FilesStayWithinCap(Empty, appends, AUDIT_MAX_BYTES);
  }

  // ---- Reading back --------------------------------------------------------------

  /** What reading one of the two files gives. */
  datatype FileText = Missing | Unreadable | Content(text: Text)

  datatype Entry<R> = Parsed(record: R) | Unrecognized
  datatype Page<R> = Page(entries: seq<Entry<R>>, older: nat)

  const CARRIAGE_RETURN: Byte := 13

  /** A line without its terminator, as `str::lines` yields it. */
  function Chomp(l: Text): Text {
    if l == [] || l[|l| - 1] != NEWLINE then l
    else
      var m := l[..|l| - 1];
      if m != [] && m[|m| - 1] == CARRIAGE_RETURN then m[..|m| - 1] else m
  }

  /** A line reads the same whether it ends in a newline, in both characters, or at the end of the file. */
  lemma ChompMeans(body: Text)
    requires NEWLINE !in body && (body != [] ==> body[|body| - 1] != CARRIAGE_RETURN)
    ensures Chomp(body) == Chomp(body + [NEWLINE]) == Chomp(body + [CARRIAGE_RETURN, NEWLINE]) == body
  {
    var l, m := body + [NEWLINE], body + [CARRIAGE_RETURN, NEWLINE];
    assert l[..|l| - 1] == body && m[..|m| - 1] == body + [CARRIAGE_RETURN];
    assert (body + [CARRIAGE_RETURN])[..|body|] == body;
  }

  function ChompAll(ls: seq<Text>): seq<Text> {
    seq(|ls|, i requires 0 <= i < |ls| => Chomp(ls[i]))
  }

  function TextLines(f: FileText): seq<Text> {
    if f.Content? then ChompAll(Split(f.text, NEWLINE)) else []
  }

  function Recognize<R>(parse: Text -> Option<R>, line: Text): Entry<R> {
    var r := parse(line);
    if r.Some? then Parsed(r.value) else Unrecognized
  }

  /** Line `i` of the newest `limit`, counted from the newest. */
  function Newest(lines: seq<Text>, i: nat): Text
    requires i < |lines|
  {
    lines[|lines| - 1 - i]
  }

  /** The newest `limit` of the lines, newest first, and how many older ones the page leaves out. */
  ghost predicate IsNewestPage<R(!new)>(page: Page<R>, lines: seq<Text>, limit: nat, parse: Text -> Option<R>) {
    && |page.entries| == (if limit < |lines| then limit else |lines|)
    && |page.entries| + page.older == |lines|
    && forall i :: 0 <= i < |page.entries| ==> page.entries[i] == Recognize(parse, Newest(lines, i))
  }

  method TakeNewest<R(!new)>(lines: seq<Text>, limit: nat, parse: Text -> Option<R>) returns (page: Page<R>)
    ensures IsNewestPage(page, lines, limit, parse)
  {
    var older := if |lines| > limit then |lines| - limit else 0;
    var entries: seq<Entry<R>> := [];
    var i := |lines|;
    while i > older
      invariant older <= i <= |lines|
      invariant |entries| == |lines| - i
      invariant forall j :: 0 <= j < |entries| ==> entries[j] == Recognize(parse, Newest(lines, j))
    {
      i := i - 1;
      entries := entries + [Recognize(parse, lines[i])];
    }
    return Page(entries, older);
  }

  /** The page is the newest lines of both files; only an unreadable file is an error. */
  method ReadAt<R(!new)>(rotated: FileText, live: FileText, limit: nat, parse: Text -> Option<R>)
    returns (r: Result<Page<R>, ()>)
    ensures r.Err? <==> rotated.Unreadable? || live.Unreadable?
    ensures r.Ok? ==> IsNewestPage(r.value, TextLines(rotated) + TextLines(live), limit, parse)
  {
    if rotated.Unreadable? { return Err(()); }
    var lines := TextLines(rotated);
    if live.Unreadable? { return Err(()); }
    lines := lines + TextLines(live);
    var page := TakeNewest(lines, limit, parse);
    return Ok(page);
  }

  datatype Rendered<R> = NothingYet | Oldest(entries: seq<Entry<R>>)

  /** The printed order: oldest first, one entry per line. */
  method Render<R>(page: Page<R>) returns (out: Rendered<R>)
    ensures out.NothingYet? <==> page.entries == [] && page.older == 0
    ensures out.Oldest? ==>
      && |out.entries| == |page.entries|
      && forall i :: 0 <= i < |out.entries| ==> out.entries[i] == page.entries[|page.entries| - 1 - i]
  {
    if page.entries == [] && page.older == 0 { return NothingYet; }
    var entries: seq<Entry<R>> := [];
    var i := |page.entries|;
    while i > 0
      invariant 0 <= i <= |page.entries| && |entries| == |page.entries| - i
      invariant forall j :: 0 <= j < |entries| ==> entries[j] == page.entries[|page.entries| - 1 - j]
    {
      i := i - 1;
      entries := entries + [page.entries[i]];
    }
    return Oldest(entries);
  }

  // ---- What was written is what is read ---------------------------------------------

  /** A line as `record` writes it: one newline, at the end, and no carriage return before it. */
  predicate IsRecordLine(l: Written) {
    && l != [] && l[|l| - 1] == NEWLINE && NEWLINE !in l[..|l| - 1]
    && (|l| > 1 ==> l[|l| - 2] != CARRIAGE_RETURN)
  }

  predicate AllRecordLines(ls: seq<Written>) {
    forall i :: 0 <= i < |ls| ==> IsRecordLine(ls[i])
  }

  lemma {:induction false} LineEndOfFirst(l: Written, rest: Text)
    requires IsRecordLine(l)
    ensures LineEnd(l + rest, NEWLINE) == |l|
  {
    var all := l + rest;
    assert forall i :: 0 <= i < |l| - 1 ==> all[i] == l[..|l| - 1][i];
    assert all[|l| - 1] == NEWLINE;
  }

  /** Splitting the bytes of a file recovers the lines written to it. */
  lemma {:induction false} SplitRecovers(ls: seq<Written>)
    requires AllRecordLines(ls)
    ensures Split(Flatten(ls), NEWLINE) == ls
  {
    if ls == [] {
    } else {
      var rest := Flatten(ls[1..]);
      LineEndOfFirst(ls[0], rest);
      SplitRecovers(ls[1..]);
      assert Flatten(ls)[..|ls[0]|] == ls[0] && Flatten(ls)[|ls[0]|..] == rest;
    }
  }

  function FileOf(f: Option<seq<Written>>): FileText {
    if f.Some? then Content(Bytes(f)) else Missing
  }

  /** The texts of lines, without the newlines they were written with. */
  function Bodies(ls: seq<Written>): (r: seq<Text>)
    ensures |r| == |ls|
  {
    seq(|ls|, i requires 0 <= i < |ls| => if ls[i] == [] then [] else ls[i][..|ls[i]| - 1])
  }

  lemma FileReadsBack(f: Option<seq<Written>>)
    requires AllRecordLines(LinesOf(f))
    ensures TextLines(FileOf(f)) == Bodies(LinesOf(f))
  {
    if f.Some? {
      SplitRecovers(f.value);
      assert ChompAll(f.value) == Bodies(f.value);
    }
  }

  /** Reading the two files gives the texts of the retained lines, oldest first. */
  lemma ReadsBack(t: Trail)
    requires AllRecordLines(Retained(t))
    ensures TextLines(FileOf(t.rotated)) + TextLines(FileOf(t.live)) == Bodies(Retained(t))
  {
    Parts(LinesOf(t.rotated), LinesOf(t.live));
    FileReadsBack(t.rotated);
    FileReadsBack(t.live);
  }

  lemma Parts(a: seq<Written>, b: seq<Written>)
    requires AllRecordLines(a + b)
    ensures AllRecordLines(a) && AllRecordLines(b) && Bodies(a) + Bodies(b) == Bodies(a + b)
  {
    assert forall i :: 0 <= i < |a| ==> (a + b)[i] == a[i];
    assert forall i :: 0 <= i < |b| ==> (a + b)[|a| + i] == b[i];
  }

  /**
   From an empty trail and any run of record appends, what the two files read back as is the texts of the last
   lines appended: nothing is reordered, altered or lost from the middle.
   */
  lemma TrailReadsBack(appends: seq<Append>, max: nat)
    requires AllRecordLines(AppendedLines(appends))
    ensures var t := AfterAppends(Empty, appends, max);
      IsSuffix(TextLines(FileOf(t.rotated)) + TextLines(FileOf(t.live)), Bodies(AppendedLines(appends)))
  {
    var t, all := AfterAppends(Empty, appends, max), AppendedLines(appends);
    RetainedIsSuffix(Empty, [], appends, max);
    assert [] + all == all;
    SuffixBodies(Retained(t), all);
    assert forall i :: 0 <= i < |Retained(t)| ==> Retained(t)[i] == all[|all| - |Retained(t)| + i];
    ReadsBack(t);
  }

  lemma SuffixBodies(s: seq<Written>, t: seq<Written>)
    requires IsSuffix(s, t)
    ensures IsSuffix(Bodies(s), Bodies(t))
  {
    assert forall i :: 0 <= i < |s| ==> s[i] == t[|t| - |s| + i];
  }

  /** The lines `record` writes are such lines. */
  lemma RecordLineOk(r: Record)
    requires InRange(r)
    ensures IsRecordLine(Line(Truncated(r)))
  {
    LineFits(r);
    var l := Line(Truncated(r));
    assert l[|l| - 2] == 0x7D;
  }

  function RecordLines(records: seq<Record>): seq<Written> {
    seq(|records|, i requires 0 <= i < |records| => Line(Truncated(records[i])))
  }

  /** So for any records and any failing renames, a reader sees the last of them, whole and in order. */
  lemma RecordsReadBack(records: seq<Record>, appends: seq<Append>, max: nat)
    requires AppendedLines(appends) == RecordLines(records)
    requires forall i :: 0 <= i < |records| ==> InRange(records[i])
    ensures var t := AfterAppends(Empty, appends, max);
      IsSuffix(TextLines(FileOf(t.rotated)) + TextLines(FileOf(t.live)), Bodies(RecordLines(records)))
  {
    forall i | 0 <= i < |records| ensures IsRecordLine(RecordLines(records)[i]) { RecordLineOk(records[i]); }
    TrailReadsBack(appends, max);
  }

  /** Records whose lines fit the cap together are all read back, whichever renames fail. */
  lemma FittingRecordsReadBack(records: seq<Record>, appends: seq<Append>, max: nat)
    requires AppendedLines(appends) == RecordLines(records) && |Flatten(RecordLines(records))| <= max
    requires forall i :: 0 <= i < |records| ==> InRange(records[i])
    ensures var t := AfterAppends(Empty, appends, max);
      TextLines(FileOf(t.rotated)) + TextLines(FileOf(t.live)) == Bodies(RecordLines(records))
  {
    forall i | 0 <= i < |records| ensures IsRecordLine(RecordLines(records)[i]) { RecordLineOk(records[i]); }
    FittingRunKeepsAll(appends, max);
    ReadsBack(AfterAppends(Empty, appends, max));
  }
}
