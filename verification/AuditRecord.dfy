/**
 One audit record and the line it is written as. Six text fields are cut in place before the record is
 serialized, so every line, whatever the fields held, is one line and fits the trail's size cap.
 */
module AuditRecords {
  import opened Wrappers
  import opened Lines
  import opened Utf8

  const AUDIT_MAX_BYTES: nat := 256 * 1024

  datatype Kind =
    | ToolCall | HarnessAdmit | HarnessRefuse | AttachRefuse | BrowserAttach | BrowserRefuse | PairClient
    | RevokeClient | HostKeyRevoke | HostKeyPair | KillEngage | KillRelease | PresenceAssert | Enroll
    | RevokeBrowser | PolicyWrite | ConfirmShown | ConfirmAllowed | ConfirmDenied | EnrollApproved
    | EnrollRejected | EnrollRevoked

  datatype Surface = Cli | Extension | Broker | Host | Core

  function KindName(k: Kind): (n: string)
    ensures |n| <= 15
  {
    match k
    case ToolCall => "tool_call"
    case HarnessAdmit => "harness_admit"
    case HarnessRefuse => "harness_refuse"
    case AttachRefuse => "attach_refuse"
    case BrowserAttach => "browser_attach"
    case BrowserRefuse => "browser_refuse"
    case PairClient => "pair_client"
    case RevokeClient => "revoke_client"
    case HostKeyRevoke => "host_key_revoke"
    case HostKeyPair => "host_key_pair"
    case KillEngage => "kill_engage"
    case KillRelease => "kill_release"
    case PresenceAssert => "presence_assert"
    case Enroll => "enroll"
    case RevokeBrowser => "revoke_browser"
    case PolicyWrite => "policy_write"
    case ConfirmShown => "confirm_shown"
    case ConfirmAllowed => "confirm_allowed"
    case ConfirmDenied => "confirm_denied"
    case EnrollApproved => "enroll_approved"
    case EnrollRejected => "enroll_rejected"
    case EnrollRevoked => "enroll_revoked"
  }

  function SurfaceName(s: Surface): (n: string)
    ensures |n| <= 9
  {
    match s
    case Cli => "cli"
    case Extension => "extension"
    case Broker => "broker"
    case Host => "host"
    case Core => "core"
  }

  datatype Record = Record(
    v: nat,
    tsMs: nat,
    kind: Kind,
    surface: Option<Surface>,
    outcome: Option<Text>,
    tool: Option<Text>,
    code: Option<Text>,
    name: Option<Text>,
    detail: Option<Text>,
    cid: Option<Text>,
    req: Option<nat>,
    conn: Option<nat>,
    durMs: Option<nat>,
    dropped: Option<nat>)

  // ---- Truncation in place -----------------------------------------------------

  function CutField(f: Option<Text>): Option<Text> {
    if f.Some? then Some(Cut(f.value)) else None
  }

  function Truncated(r: Record): Record {
    r.(outcome := CutField(r.outcome), tool := CutField(r.tool), code := CutField(r.code),
       name := CutField(r.name), detail := CutField(r.detail), cid := CutField(r.cid))
  }

  /** The text fields the source walks, in its order. */
  function TextFields(r: Record): seq<Option<Text>> {
    [r.outcome, r.tool, r.code, r.name, r.detail, r.cid]
  }

  lemma TruncatedFields(r: Record, fields: seq<Option<Text>>)
    requires |fields| == |TextFields(r)| && forall i :: 0 <= i < |fields| ==> fields[i] == CutField(TextFields(r)[i])
    ensures fields == TextFields(Truncated(r))
  {
    var texts := TextFields(r);
    assert fields[0] == CutField(texts[0]) && fields[1] == CutField(texts[1]) && fields[2] == CutField(texts[2]);
    assert fields[3] == CutField(texts[3]) && fields[4] == CutField(texts[4]) && fields[5] == CutField(texts[5]);
  }

  /** The source's loop over the six fields, each cut where it stands. */
  method TruncateFields(fields: array<Option<Text>>)
    modifies fields
    ensures forall i :: 0 <= i < fields.Length ==> fields[i] == CutField(old(fields[i]))
  {
    for i := 0 to fields.Length
      invariant forall j :: 0 <= j < i ==> fields[j] == CutField(old(fields[j]))
      invariant forall j :: i <= j < fields.Length ==> fields[j] == old(fields[j])
    {
      if fields[i].Some? {
        var cut := TruncateText(fields[i].value);
        fields[i] := Some(cut);
      }
    }
  }

  /** The loop over a record's own text fields truncates the record, and changes no other field of it. */
  method TruncateRecord(r: Record) returns (out: Record)
    ensures out == Truncated(r)
  {
    var texts := TextFields(r);
    var fields := new Option<Text>[|texts|](i requires 0 <= i < |texts| => texts[i]);
    TruncateFields(fields);
    TruncatedFields(r, fields[..]);
    out := r.(outcome := fields[0], tool := fields[1], code := fields[2],
              name := fields[3], detail := fields[4], cid := fields[5]);
    assert TextFields(out) == fields[..];
  }

  // ---- The line ----------------------------------------------------------------

  function Ascii(s: string): (r: Text)
    ensures |r| == |s|
  {
    seq(|s|, i requires 0 <= i < |s| => (s[i] as int) % 128)
  }

  function HexDigit(n: nat): Byte
    requires n < 16
  {
    if n < 10 then 48 + n else 87 + n
  }

  /** One byte inside a JSON string (RFC 8259, section 7): at most six bytes, and never a raw control byte. */
  function Escape(b: Byte): (r: Text)
    ensures 1 <= |r| <= 6 && NEWLINE !in r
  {
    if b == 0x22 then [0x5C, 0x22]
    else if b == 0x5C then [0x5C, 0x5C]
    else if b == 0x08 then [0x5C, 0x62]
    else if b == 0x09 then [0x5C, 0x74]
    else if b == 0x0A then [0x5C, 0x6E]
    else if b == 0x0C then [0x5C, 0x66]
    else if b == 0x0D then [0x5C, 0x72]
    else if b < 0x20 then [0x5C, 0x75, 0x30, 0x30, HexDigit(b / 16), HexDigit(b % 16)]
    else [b]
  }

  function EscapeAll(t: Text): (r: Text)
    ensures |r| <= 6 * |t| && NEWLINE !in r
  {
    if t == [] then [] else Escape(t[0]) + EscapeAll(t[1..])
  }

  function Decimal(n: nat): (r: Text)
    ensures r != [] && NEWLINE !in r
  {
    if n < 10 then [48 + n] else Decimal(n / 10) + [48 + n % 10]
  }

  function Pow10(k: nat): nat { if k == 0 then 1 else 10 * Pow10(k - 1) }

  lemma {:induction false} DecimalLength(n: nat, k: nat)
    requires k > 0 && n < Pow10(k)
    ensures |Decimal(n)| <= k
  {
    if n >= 10 {
      assert Pow10(1) == 10;
      DecimalLength(n / 10, k - 1);
    }
  }

  lemma U64Fits(n: nat)
    requires n <= U64_MAX
    ensures |Decimal(n)| <= 20
  {
    assert Pow10(5) == 100_000 by { assert Pow10(2) == 100; }
    assert Pow10(10) == 10_000_000_000 by { assert Pow10(7) == 10_000_000; }
    assert Pow10(15) == 1_000_000_000_000_000 by { assert Pow10(12) == 1_000_000_000_000; }
    assert Pow10(20) == 100_000_000_000_000_000_000 by { assert Pow10(17) == 100_000_000_000_000_000; }
    DecimalLength(n, 20);
  }

  const QUOTE: Byte := 0x22

  function Quoted(t: Text): Text { [QUOTE] + EscapeAll(t) + [QUOTE] }

  /** `,"key":value` for a field that is present, nothing for one that is not. */
  function Member(key: string, value: Text): Text {
    [0x2C] + Quoted(Ascii(key)) + [0x3A] + value
  }

  function TextMember(key: string, f: Option<Text>): Text {
    if f.Some? then Member(key, Quoted(f.value)) else []
  }

  function NumberMember(key: string, f: Option<nat>): Text {
    if f.Some? then Member(key, Decimal(f.value)) else []
  }

  function Head(r: Record): Text {
    [0x7B] + Quoted(Ascii("v")) + [0x3A] + Decimal(r.v)
    + Member("ts_ms", Decimal(r.tsMs))
    + Member("event_kind", Quoted(Ascii(KindName(r.kind))))
    + TextMember("surface", if r.surface.Some? then Some(Ascii(SurfaceName(r.surface.value))) else None)
  }

  function Texts(r: Record): Text {
    TextMember("outcome", r.outcome) + TextMember("tool", r.tool) + TextMember("code", r.code)
    + TextMember("name", r.name) + TextMember("detail", r.detail) + TextMember("cid", r.cid)
  }

  function Numbers(r: Record): Text {
    NumberMember("req", r.req) + NumberMember("conn", r.conn)
    + NumberMember("dur_ms", r.durMs) + NumberMember("dropped", r.dropped)
  }

  /** The record as serde_json writes it, without its newline. */
  function Json(r: Record): Text { Head(r) + Texts(r) + Numbers(r) + [0x7D] }

  function Line(r: Record): Text { Json(r) + [NEWLINE] }

  // ---- The bound ---------------------------------------------------------------

  predicate IsU64(n: Option<nat>) { n.Some? ==> n.value <= U64_MAX }

  predicate InRange(r: Record) {
    r.v <= U64_MAX && r.tsMs <= U64_MAX && IsU64(r.req) && IsU64(r.conn) && IsU64(r.durMs) && IsU64(r.dropped)
  }

  lemma MemberBound(key: string, value: Text)
    requires NEWLINE !in value
    ensures |Member(key, value)| <= 6 * |key| + 4 + |value| && NEWLINE !in Member(key, value)
  {
  }

  lemma TextMemberBound(key: string, f: Option<Text>)
    ensures |TextMember(key, CutField(f))| <= 6 * |key| + 3078 && NEWLINE !in TextMember(key, CutField(f))
  {
    if f.Some? { MemberBound(key, Quoted(Cut(f.value))); }
  }

  lemma NumberMemberBound(key: string, f: Option<nat>)
    requires IsU64(f)
    ensures |NumberMember(key, f)| <= 6 * |key| + 24 && NEWLINE !in NumberMember(key, f)
  {
    if f.Some? {
      U64Fits(f.value);
      MemberBound(key, Decimal(f.value));
    }
  }

  lemma HeadBound(r: Record)
    requires InRange(r)
    ensures |Head(r)| <= 500 && NEWLINE !in Head(r)
  {
    U64Fits(r.v);
    U64Fits(r.tsMs);
    MemberBound("ts_ms", Decimal(r.tsMs));
    MemberBound("event_kind", Quoted(Ascii(KindName(r.kind))));
    if r.surface.Some? { MemberBound("surface", Quoted(Ascii(SurfaceName(r.surface.value)))); }
  }

  lemma TextsBound(r: Record)
    ensures |Texts(Truncated(r))| <= 18_700 && NEWLINE !in Texts(Truncated(r))
  {
    TextMemberBound("outcome", r.outcome);
    TextMemberBound("tool", r.tool);
    TextMemberBound("code", r.code);
    TextMemberBound("name", r.name);
    TextMemberBound("detail", r.detail);
    TextMemberBound("cid", r.cid);
  }

  lemma NumbersBound(r: Record)
    requires InRange(r)
    ensures |Numbers(r)| <= 300 && NEWLINE !in Numbers(r)
  {
    NumberMemberBound("req", r.req);
    NumberMemberBound("conn", r.conn);
    NumberMemberBound("dur_ms", r.durMs);
    NumberMemberBound("dropped", r.dropped);
  }

  /** Every record, once its fields are cut, is written as one line well under the trail's cap. */
  lemma LineFits(r: Record)
    requires InRange(r)
    ensures |Line(Truncated(r))| <= 20_000 < AUDIT_MAX_BYTES
    ensures forall i :: 0 <= i < |Line(Truncated(r))| ==>
      (Line(Truncated(r))[i] == NEWLINE <==> i == |Line(Truncated(r))| - 1)
  {
    var t := Truncated(r);
    HeadBound(t);
    TextsBound(r);
    NumbersBound(t);
    assert NEWLINE !in Json(t);
  }
}
