/**
 Reading an audit line back. `ParseRecord` is the strict read: a flat object of known members, each once and of its
 own type, and the supported version. Every stamped record, rendered, is read back as itself.
 */
module AuditParse {
  import opened Wrappers
  import opened Lines
  import opened Utf8
  import opened AuditRecords
  import opened AuditTrails

  const AUDIT_VERSION: nat := 1

  // ---- Names -------------------------------------------------------------------

  datatype Key =
    | V | TsMs | EventKind | SurfaceKey | Outcome | Tool | Code | Name | Detail | Cid | Req | Conn | DurMs | Dropped

  const AllKeys: seq<Key> :=
    [V, TsMs, EventKind, SurfaceKey, Outcome, Tool, Code, Name, Detail, Cid, Req, Conn, DurMs, Dropped]

  const AllKinds: seq<Kind> :=
    [ToolCall, HarnessAdmit, HarnessRefuse, AttachRefuse, BrowserAttach, BrowserRefuse, PairClient, RevokeClient,
     HostKeyRevoke, HostKeyPair, KillEngage, KillRelease, PresenceAssert, Enroll, RevokeBrowser, PolicyWrite,
     ConfirmShown, ConfirmAllowed, ConfirmDenied, EnrollApproved, EnrollRejected, EnrollRevoked]

  const AllSurfaces: seq<Surface> := [Cli, Extension, Broker, Host, Core]

  function KeyName(k: Key): string {
    match k
    case V => "v"
    case TsMs => "ts_ms"
    case EventKind => "event_kind"
    case SurfaceKey => "surface"
    case Outcome => "outcome"
    case Tool => "tool"
    case Code => "code"
    case Name => "name"
    case Detail => "detail"
    case Cid => "cid"
    case Req => "req"
    case Conn => "conn"
    case DurMs => "dur_ms"
    case Dropped => "dropped"
  }

  /** The first of `xs` that the text names. */
  function NamedBy<T>(t: Text, xs: seq<T>, name: T -> string): Option<T> {
    if xs == [] then None
    else if Ascii(name(xs[0])) == t then Some(xs[0])
    else NamedBy(t, xs[1..], name)
  }

  predicate IsAscii(s: string) {
    forall i :: 0 <= i < |s| ==> s[i] as int < 128
  }

  lemma AsciiInjective(a: string, b: string)
    requires IsAscii(a) && IsAscii(b) && Ascii(a) == Ascii(b)
    ensures a == b
  {
    forall i | 0 <= i < |a| ensures a[i] == b[i] { assert Ascii(a)[i] == Ascii(b)[i]; }
  }

  lemma {:induction false} NamedByOwn<T(!new)>(x: T, xs: seq<T>, name: T -> string)
    requires x in xs && forall y :: IsAscii(name(y)) && (name(y) == name(x) ==> y == x)
    ensures NamedBy(Ascii(name(x)), xs, name) == Some(x)
    decreases |xs|
  {
    if Ascii(name(xs[0])) == Ascii(name(x)) {
      AsciiInjective(name(xs[0]), name(x));
    } else {
      NamedByOwn(x, xs[1..], name);
    }
  }

  lemma KeyListed(x: Key)
    ensures x in AllKeys
  {
    match x
    case V => assert AllKeys[0] == x;
    case TsMs => assert AllKeys[1] == x;
    case EventKind => assert AllKeys[2] == x;
    case SurfaceKey => assert AllKeys[3] == x;
    case Outcome => assert AllKeys[4] == x;
    case Tool => assert AllKeys[5] == x;
    case Code => assert AllKeys[6] == x;
    case Name => assert AllKeys[7] == x;
    case Detail => assert AllKeys[8] == x;
    case Cid => assert AllKeys[9] == x;
    case Req => assert AllKeys[10] == x;
    case Conn => assert AllKeys[11] == x;
    case DurMs => assert AllKeys[12] == x;
    case Dropped => assert AllKeys[13] == x;
  }

  lemma KindListed(x: Kind)
    ensures x in AllKinds
  {
    match x
    case ToolCall => assert AllKinds[0] == x;
    case HarnessAdmit => assert AllKinds[1] == x;
    case HarnessRefuse => assert AllKinds[2] == x;
    case AttachRefuse => assert AllKinds[3] == x;
    case BrowserAttach => assert AllKinds[4] == x;
    case BrowserRefuse => assert AllKinds[5] == x;
    case PairClient => assert AllKinds[6] == x;
    case RevokeClient => assert AllKinds[7] == x;
    case HostKeyRevoke => assert AllKinds[8] == x;
    case HostKeyPair => assert AllKinds[9] == x;
    case KillEngage => assert AllKinds[10] == x;
    case KillRelease => assert AllKinds[11] == x;
    case PresenceAssert => assert AllKinds[12] == x;
    case Enroll => assert AllKinds[13] == x;
    case RevokeBrowser => assert AllKinds[14] == x;
    case PolicyWrite => assert AllKinds[15] == x;
    case ConfirmShown => assert AllKinds[16] == x;
    case ConfirmAllowed => assert AllKinds[17] == x;
    case ConfirmDenied => assert AllKinds[18] == x;
    case EnrollApproved => assert AllKinds[19] == x;
    case EnrollRejected => assert AllKinds[20] == x;
    case EnrollRevoked => assert AllKinds[21] == x;
  }

  lemma KeyNames(x: Key, y: Key)
    ensures IsAscii(KeyName(y)) && (KeyName(y) == KeyName(x) ==> y == x)
  {
  }

  lemma KindNames(x: Kind, y: Kind)
    ensures KindName(y) == KindName(x) ==> y == x
  {
  }

  lemma KindIsAscii(y: Kind)
    ensures IsAscii(KindName(y))
  {
    BrokerKindsAscii();
    TrustKindsAscii();
    BrowserKindsAscii();
  }

  lemma BrokerKindsAscii()
    ensures IsAscii("tool_call") && IsAscii("harness_admit") && IsAscii("harness_refuse") && IsAscii("attach_refuse")
    ensures IsAscii("browser_attach") && IsAscii("browser_refuse") && IsAscii("pair_client")
  {
  }

  lemma TrustKindsAscii()
    ensures IsAscii("revoke_client") && IsAscii("host_key_revoke") && IsAscii("host_key_pair")
    ensures IsAscii("kill_engage") && IsAscii("kill_release") && IsAscii("presence_assert") && IsAscii("enroll")
  {
  }

  lemma BrowserKindsAscii()
    ensures IsAscii("revoke_browser") && IsAscii("policy_write") && IsAscii("confirm_shown")
    ensures IsAscii("confirm_allowed") && IsAscii("confirm_denied") && IsAscii("enroll_approved")
    ensures IsAscii("enroll_rejected") && IsAscii("enroll_revoked")
  {
  }

  lemma KeyReads(k: Key)
    ensures NamedBy(Ascii(KeyName(k)), AllKeys, KeyName) == Some(k)
  {
    KeyListed(k);
    forall y ensures IsAscii(KeyName(y)) && (KeyName(y) == KeyName(k) ==> y == k) { KeyNames(k, y); }
    NamedByOwn(k, AllKeys, KeyName);
  }

  lemma KindReads(k: Kind)
    ensures NamedBy(Ascii(KindName(k)), AllKinds, KindName) == Some(k)
  {
    KindListed(k);
    forall y ensures IsAscii(KindName(y)) && (KindName(y) == KindName(k) ==> y == k) {
      KindNames(k, y);
      KindIsAscii(y);
    }
    NamedByOwn(k, AllKinds, KindName);
  }

  lemma SurfaceReads(s: Surface)
    ensures NamedBy(Ascii(SurfaceName(s)), AllSurfaces, SurfaceName) == Some(s)
  {
    assert AllSurfaces[0] == Cli && AllSurfaces[1] == Extension && AllSurfaces[2] == Broker;
    assert AllSurfaces[3] == Host && AllSurfaces[4] == Core;
    NamedByOwn(s, AllSurfaces, SurfaceName);
  }

  // ---- Strings and numbers -------------------------------------------------------

  function UnHex(d: Byte): Option<nat> {
    if 48 <= d <= 57 then Some(d - 48) else if 97 <= d <= 102 then Some(d - 87) else None
  }

  /** The byte an escape of one letter stands for. */
  function Unescaped(letter: Byte): Option<Byte> {
    match letter
    case 0x22 => Some(0x22)
    case 0x5C => Some(0x5C)
    case 0x62 => Some(0x08)
    case 0x74 => Some(0x09)
    case 0x6E => Some(0x0A)
    case 0x66 => Some(0x0C)
    case 0x72 => Some(0x0D)
    case _ => None
  }

  /** The first byte of a string's text and what follows it; nothing at its closing quote or a bad escape. */
  function ReadByte(t: Text): (r: Option<(Byte, Text)>)
    ensures r.Some? ==> |r.value.1| < |t|
  {
    if t == [] || t[0] == QUOTE || t[0] < 0x20 then None
    else if t[0] != 0x5C then Some((t[0], t[1..]))
    else if |t| < 2 then None
    else if t[1] != 0x75 then
      var b := Unescaped(t[1]);
      if b.None? then None else Some((b.value, t[2..]))
    else if |t| < 6 || t[2] != 0x30 || t[3] != 0x30 then None
    else
      var hi, lo := UnHex(t[4]), UnHex(t[5]);
      if hi.None? || lo.None? then None else Some((16 * hi.value + lo.value, t[6..]))
  }

  lemma EscapeReads(b: Byte, rest: Text)
    ensures ReadByte(Escape(b) + rest) == Some((b, rest))
  {
    var t := Escape(b) + rest;
    assert t[|Escape(b)|..] == rest;
    if |Escape(b)| == 6 {
      assert t[4] == HexDigit(b / 16) && t[5] == HexDigit(b % 16);
    }
  }

  /** A string's text up to its closing quote, and what follows the quote. */
  function ReadText(t: Text): (r: Option<(Text, Text)>)
    ensures r.Some? ==> |r.value.1| < |t|
    decreases |t|
  {
    if t != [] && t[0] == QUOTE then Some(([], t[1..]))
    else
      var b := ReadByte(t);
      if b.None? then None
      else
        var more := ReadText(b.value.1);
        if more.None? then None else Some(([b.value.0] + more.value.0, more.value.1))
  }

  lemma {:induction false} TextReads(s: Text, rest: Text)
    ensures ReadText(EscapeAll(s) + [QUOTE] + rest) == Some((s, rest))
    decreases |s|
  {
    if s == [] {
      assert EscapeAll(s) + [QUOTE] + rest == [QUOTE] + rest;
      assert ([QUOTE] + rest)[1..] == rest;
    } else {
      var more := EscapeAll(s[1..]) + [QUOTE] + rest;
      assert EscapeAll(s) + [QUOTE] + rest == Escape(s[0]) + more;
      EscapeReads(s[0], more);
      TextReads(s[1..], rest);
      assert [s[0]] + s[1..] == s;
    }
  }

  predicate IsDigit(b: Byte) { 48 <= b <= 57 }

  function DigitsEnd(t: Text): (n: nat)
    ensures n <= |t| && (forall i :: 0 <= i < n ==> IsDigit(t[i])) && (n < |t| ==> !IsDigit(t[n]))
  {
    if t == [] || !IsDigit(t[0]) then 0 else 1 + DigitsEnd(t[1..])
  }

  function NumberOf(ds: Text): nat
    requires forall i :: 0 <= i < |ds| ==> IsDigit(ds[i])
  {
    assert ds != [] ==> IsDigit(ds[|ds| - 1]);
    if ds == [] then 0 else 10 * NumberOf(ds[..|ds| - 1]) + (ds[|ds| - 1] as int - 48)
  }

  lemma {:induction false} DecimalIs(n: nat)
    ensures (forall i :: 0 <= i < |Decimal(n)| ==> IsDigit(Decimal(n)[i])) && NumberOf(Decimal(n)) == n
  {
    if n < 10 {
      assert [48 + n][..0] == [];
    } else {
      DecimalIs(n / 10);
      var ds := Decimal(n / 10);
      assert (ds + [48 + n % 10])[..|ds|] == ds;
    }
  }

  lemma NumberReads(n: nat, rest: Text)
    requires rest != [] && !IsDigit(rest[0])
    ensures var t := Decimal(n) + rest;
      var k := DigitsEnd(t); k > 0 && t[..k] == Decimal(n) && t[k..] == rest && NumberOf(t[..k]) == n
  {
    DecimalIs(n);
    var ds, t := Decimal(n), Decimal(n) + rest;
    var k := DigitsEnd(t);
    assert t[|ds|] == rest[0];
    assert forall i :: 0 <= i < |ds| ==> t[i] == ds[i] && IsDigit(t[i]);
  }

  // ---- Members -------------------------------------------------------------------

  datatype Value = Word(text: Text) | Number(n: nat)
  datatype Field = Field(key: Key, value: Value)

  function ReadValue(t: Text): (r: Option<(Value, Text)>)
    ensures r.Some? ==> |r.value.1| < |t|
  {
    if t == [] then None
    else if t[0] == QUOTE then
      var s := ReadText(t[1..]);
      if s.None? then None else Some((Word(s.value.0), s.value.1))
    else
      var k := DigitsEnd(t);
      if k == 0 then None else Some((Number(NumberOf(t[..k])), t[k..]))
  }

  /** `"name":value`, the name a known one. */
  function ReadField(t: Text): (r: Option<(Field, Text)>)
    ensures r.Some? ==> |r.value.1| < |t|
  {
    if t == [] || t[0] != QUOTE then None
    else
      var name := ReadText(t[1..]);
      if name.None? || name.value.1 == [] || name.value.1[0] != 0x3A then None
      else
        var key, value := NamedBy(name.value.0, AllKeys, KeyName), ReadValue(name.value.1[1..]);
        if key.None? || value.None? then None else Some((Field(key.value, value.value.0), value.value.1))
  }

  /** The members after the first, up to the closing brace that ends the line. */
  function ReadRest(t: Text): Option<seq<Field>>
    decreases |t|
  {
    if t == [0x7D] then Some([])
    else if t == [] || t[0] != 0x2C then None
    else
      var f := ReadField(t[1..]);
      if f.None? then None
      else
        var more := ReadRest(f.value.1);
        if more.None? then None else Some([f.value.0] + more.value)
  }

  function ReadFields(t: Text): Option<seq<Field>> {
    if t == [] || t[0] != 0x7B then None else ReadRest([0x2C] + t[1..])
  }

  // ---- A record's members ----------------------------------------------------------

  datatype Slot = Slot(key: Key, value: Option<Value>)

  function WordSlot(key: Key, t: Option<Text>): Slot { Slot(key, if t.Some? then Some(Word(t.value)) else None) }
  function NumberSlot(key: Key, n: Option<nat>): Slot { Slot(key, if n.Some? then Some(Number(n.value)) else None) }

  function HeadSlots(r: Record): seq<Slot> {
    [NumberSlot(V, Some(r.v)), NumberSlot(TsMs, Some(r.tsMs)), WordSlot(EventKind, Some(Ascii(KindName(r.kind)))),
     WordSlot(SurfaceKey, SurfaceText(r))]
  }

  function TextSlots(r: Record): seq<Slot> {
    [WordSlot(Outcome, r.outcome), WordSlot(Tool, r.tool), WordSlot(Code, r.code),
     WordSlot(Name, r.name), WordSlot(Detail, r.detail), WordSlot(Cid, r.cid)]
  }

  function NumberSlots(r: Record): seq<Slot> {
    [NumberSlot(Req, r.req), NumberSlot(Conn, r.conn), NumberSlot(DurMs, r.durMs), NumberSlot(Dropped, r.dropped)]
  }

  function Slots(r: Record): seq<Slot> { HeadSlots(r) + TextSlots(r) + NumberSlots(r) }

  /** The members that are there. */
  function Present(slots: seq<Slot>): seq<Field> {
    if slots == [] then []
    else (if slots[0].value.Some? then [Field(slots[0].key, slots[0].value.value)] else []) + Present(slots[1..])
  }

  function RenderValue(v: Value): Text { if v.Word? then Quoted(v.text) else Decimal(v.n) }
  function RenderField(f: Field): Text { Quoted(Ascii(KeyName(f.key))) + [0x3A] + RenderValue(f.value) }

  function RenderRest(fs: seq<Field>): Text {
    if fs == [] then [] else [0x2C] + RenderField(fs[0]) + RenderRest(fs[1..])
  }

  function RenderSlot(s: Slot): Text {
    if s.value.Some? then [0x2C] + RenderField(Field(s.key, s.value.value)) else []
  }

  /** What each slot renders to. */
  function Pieces(slots: seq<Slot>): seq<Text> { Map(RenderSlot, slots) }

  function Map<S, T>(f: S -> T, xs: seq<S>): seq<T> {
    seq(|xs|, i requires 0 <= i < |xs| => f(xs[i]))
  }

  lemma MapJoin<S, T>(f: S -> T, xs: seq<S>, ys: seq<S>)
    ensures Map(f, xs + ys) == Map(f, xs) + Map(f, ys)
  {
  }

  lemma RestCons(f: Field, more: seq<Field>)
    ensures RenderRest([f] + more) == [0x2C] + RenderField(f) + RenderRest(more)
  {
    assert ([f] + more)[1..] == more;
  }

  lemma PiecesCons(slots: seq<Slot>)
    requires slots != []
    ensures Flatten(Pieces(slots)) == RenderSlot(slots[0]) + Flatten(Pieces(slots[1..]))
  {
    assert Pieces(slots)[1..] == Pieces(slots[1..]);
  }

  lemma {:induction false} SlotsRender(slots: seq<Slot>)
    ensures RenderRest(Present(slots)) == Flatten(Pieces(slots))
    decreases |slots|
  {
    if slots == [] {
    } else {
      SlotsRender(slots[1..]);
      PiecesCons(slots);
      var more := Present(slots[1..]);
      if slots[0].value.Some? {
        RestCons(Field(slots[0].key, slots[0].value.value), more);
      } else {
        assert Present(slots) == more && RenderSlot(slots[0]) == [];
      }
    }
  }

  lemma FlattenTwo(a: Text, b: Text)
    ensures Flatten([a, b]) == a + b
  {
    FlattenAppend([], a);
    FlattenAppend([a], b);
    assert [] + [a] == [a] && [a] + [b] == [a, b];
  }

  lemma FlattenFour(a: Text, b: Text, c: Text, d: Text)
    ensures Flatten([a, b, c, d]) == a + b + c + d
  {
    FlattenTwo(a, b);
    FlattenAppend([a, b], c);
    FlattenAppend([a, b, c], d);
    assert [a, b] + [c] == [a, b, c] && [a, b, c] + [d] == [a, b, c, d];
  }

  lemma FlattenThree(a: Text, b: Text, c: Text)
    ensures Flatten([a, b, c]) == a + b + c
  {
    FlattenTwo(a, b);
    FlattenAppend([a, b], c);
    assert [a, b] + [c] == [a, b, c];
  }

  lemma WordRenders(key: Key, t: Option<Text>)
    ensures RenderSlot(WordSlot(key, t)) == TextMember(KeyName(key), t)
  {
    if t.Some? { Joined(Quoted(Ascii(KeyName(key))), Quoted(t.value)); }
  }

  lemma NumberRenders(key: Key, n: Option<nat>)
    ensures RenderSlot(NumberSlot(key, n)) == NumberMember(KeyName(key), n)
  {
    if n.Some? { Joined(Quoted(Ascii(KeyName(key))), Decimal(n.value)); }
  }

  lemma Joined(key: Text, value: Text)
    ensures [0x2C] + (key + [0x3A] + value) == [0x2C] + key + [0x3A] + value
  {
  }

  lemma PiecesJoin(a: seq<Slot>, b: seq<Slot>)
    ensures Flatten(Pieces(a + b)) == Flatten(Pieces(a)) + Flatten(Pieces(b))
  {
    MapJoin(RenderSlot, a, b);
    FlattenJoins(Pieces(a), Pieces(b));
  }

  lemma NumbersRender(r: Record)
    ensures Flatten(Pieces(NumberSlots(r))) == Numbers(r)
  {
    NumberRenders(Req, r.req);
    NumberRenders(Conn, r.conn);
    NumberRenders(DurMs, r.durMs);
    NumberRenders(Dropped, r.dropped);
    var a, b := NumberMember("req", r.req), NumberMember("conn", r.conn);
    var c, d := NumberMember("dur_ms", r.durMs), NumberMember("dropped", r.dropped);
    FourPieces(NumberSlots(r), a, b, c, d);
  }

  lemma FourPieces(ss: seq<Slot>, a: Text, b: Text, c: Text, d: Text)
    requires |ss| == 4 && RenderSlot(ss[0]) == a && RenderSlot(ss[1]) == b
    requires RenderSlot(ss[2]) == c && RenderSlot(ss[3]) == d
    ensures Flatten(Pieces(ss)) == a + b + c + d
  {
    var ps := Pieces(ss);
    assert ps == [ps[0], ps[1], ps[2], ps[3]];
    FlattenFour(ps[0], ps[1], ps[2], ps[3]);
  }

  lemma ThreeWords(p: Slot, q: Slot, s: Slot, a: Text, b: Text, c: Text)
    requires RenderSlot(p) == a && RenderSlot(q) == b && RenderSlot(s) == c
    ensures Flatten(Pieces([p, q, s])) == a + b + c
  {
    var ps := Pieces([p, q, s]);
    assert ps == [ps[0], ps[1], ps[2]];
    FlattenThree(ps[0], ps[1], ps[2]);
  }

  lemma FirstTexts(r: Record)
    ensures Flatten(Pieces(TextSlots(r)[..3])) ==
      TextMember("outcome", r.outcome) + TextMember("tool", r.tool) + TextMember("code", r.code)
  {
    WordRenders(Outcome, r.outcome);
    WordRenders(Tool, r.tool);
    WordRenders(Code, r.code);
    var ss := TextSlots(r);
    assert ss[..3] == [ss[0], ss[1], ss[2]];
    ThreeWords(ss[0], ss[1], ss[2],
               TextMember("outcome", r.outcome), TextMember("tool", r.tool), TextMember("code", r.code));
  }

  lemma LastTexts(r: Record)
    ensures Flatten(Pieces(TextSlots(r)[3..])) ==
      TextMember("name", r.name) + TextMember("detail", r.detail) + TextMember("cid", r.cid)
  {
    WordRenders(Name, r.name);
    WordRenders(Detail, r.detail);
    WordRenders(Cid, r.cid);
    var ss := TextSlots(r);
    assert ss[3..] == [ss[3], ss[4], ss[5]];
    ThreeWords(ss[3], ss[4], ss[5],
               TextMember("name", r.name), TextMember("detail", r.detail), TextMember("cid", r.cid));
  }

  lemma TextsRender(r: Record)
    ensures Flatten(Pieces(TextSlots(r))) == Texts(r)
  {
    FirstTexts(r);
    LastTexts(r);
    var ss := TextSlots(r);
    assert ss == ss[..3] + ss[3..];
    PiecesJoin(ss[..3], ss[3..]);
    Regrouped(TextMember("outcome", r.outcome), TextMember("tool", r.tool), TextMember("code", r.code),
              TextMember("name", r.name), TextMember("detail", r.detail), TextMember("cid", r.cid));
  }

  lemma Regrouped(a: Text, b: Text, c: Text, d: Text, e: Text, f: Text)
    ensures a + b + c + (d + e + f) == a + b + c + d + e + f
  {
  }

  function SurfaceText(r: Record): Option<Text> {
    if r.surface.Some? then Some(Ascii(SurfaceName(r.surface.value))) else None
  }

  lemma HeadPieces(r: Record)
    ensures Flatten(Pieces(HeadSlots(r))) ==
      Member("v", Decimal(r.v)) + Member("ts_ms", Decimal(r.tsMs))
      + Member("event_kind", Quoted(Ascii(KindName(r.kind)))) + TextMember("surface", SurfaceText(r))
  {
    NumberRenders(V, Some(r.v));
    NumberRenders(TsMs, Some(r.tsMs));
    WordRenders(EventKind, Some(Ascii(KindName(r.kind))));
    WordRenders(SurfaceKey, SurfaceText(r));
    FourPieces(HeadSlots(r), Member("v", Decimal(r.v)), Member("ts_ms", Decimal(r.tsMs)),
               Member("event_kind", Quoted(Ascii(KindName(r.kind)))), TextMember("surface", SurfaceText(r)));
  }

  lemma HeadRenders(r: Record)
    ensures [0x2C] + Head(r)[1..] == Flatten(Pieces(HeadSlots(r)))
  {
    HeadPieces(r);
    HeadIs(Quoted(Ascii("v")), Decimal(r.v), Member("ts_ms", Decimal(r.tsMs)),
           Member("event_kind", Quoted(Ascii(KindName(r.kind)))), TextMember("surface", SurfaceText(r)));
  }

  lemma HeadIs(key: Text, value: Text, a: Text, b: Text, c: Text)
    ensures [0x2C] + ([0x7B] + key + [0x3A] + value + a + b + c)[1..] == [0x2C] + key + [0x3A] + value + a + b + c
  {
    assert [0x7B] + key + [0x3A] + value + a + b + c == [0x7B] + (key + [0x3A] + value + a + b + c);
  }

  /** The rendered record is its members between braces, the first without its comma. */
  lemma JsonRenders(r: Record)
    ensures Json(r) != [] && Json(r)[0] == 0x7B && [0x2C] + Json(r)[1..] == RenderRest(Present(Slots(r))) + [0x7D]
  {
    HeadRenders(r);
    TextsRender(r);
    NumbersRender(r);
    PiecesJoin(HeadSlots(r), TextSlots(r));
    PiecesJoin(HeadSlots(r) + TextSlots(r), NumberSlots(r));
    SlotsRender(Slots(r));
    HeadStarts(r);
    Rebraced(Head(r), Texts(r), Numbers(r));
  }

  lemma HeadStarts(r: Record)
    ensures Head(r) != [] && Head(r)[0] == 0x7B
  {
  }

  lemma Rebraced(h: Text, t: Text, n: Text)
    requires h != []
    ensures (h + t + n + [0x7D])[0] == h[0]
    ensures [0x2C] + (h + t + n + [0x7D])[1..] == [0x2C] + h[1..] + t + n + [0x7D]
  {
    assert (h + t + n + [0x7D])[1..] == h[1..] + t + n + [0x7D];
  }

  // ---- Reading them ------------------------------------------------------------------

  lemma Unquoted(e: Text, rest: Text)
    ensures var t := [QUOTE] + e + [QUOTE] + rest; t[0] == QUOTE && t[1..] == e + [QUOTE] + rest
  {
    assert [QUOTE] + e + [QUOTE] + rest == [QUOTE] + (e + [QUOTE] + rest);
  }

  lemma ValueReads(v: Value, rest: Text)
    requires rest != [] && !IsDigit(rest[0])
    ensures ReadValue(RenderValue(v) + rest) == Some((v, rest))
  {
    match v
    case Word(text) => WordReads(text, rest);
    case Number(n) => DecimalReads(n, rest);
  }

  lemma WordReads(text: Text, rest: Text)
    ensures ReadValue(Quoted(text) + rest) == Some((Word(text), rest))
  {
    Unquoted(EscapeAll(text), rest);
    TextReads(text, rest);
  }

  lemma DecimalReads(n: nat, rest: Text)
    requires rest != [] && !IsDigit(rest[0])
    ensures ReadValue(Decimal(n) + rest) == Some((Number(n), rest))
  {
    NumberReads(n, rest);
    DecimalIs(n);
    assert (Decimal(n) + rest)[0] == Decimal(n)[0] && IsDigit(Decimal(n)[0]);
  }

  lemma FieldReads(f: Field, rest: Text)
    requires rest != [] && !IsDigit(rest[0])
    ensures ReadField(RenderField(f) + rest) == Some((f, rest))
  {
    var name, value := Ascii(KeyName(f.key)), RenderValue(f.value);
    Renamed(EscapeAll(name), value, rest);
    TextReads(name, [0x3A] + (value + rest));
    KeyReads(f.key);
    ValueReads(f.value, rest);
    NamedFieldReads(RenderField(f) + rest, name, f.key, value + rest, f.value, rest);
  }

  lemma Renamed(e: Text, value: Text, rest: Text)
    ensures var t := [QUOTE] + e + [QUOTE] + [0x3A] + value + rest;
      t[0] == QUOTE && t[1..] == e + [QUOTE] + ([0x3A] + (value + rest))
  {
    assert [QUOTE] + e + [QUOTE] + [0x3A] + value + rest == [QUOTE] + (e + [QUOTE] + ([0x3A] + (value + rest)));
  }

  lemma NamedFieldReads(t: Text, name: Text, key: Key, value: Text, v: Value, rest: Text)
    requires t != [] && t[0] == QUOTE && ReadText(t[1..]) == Some((name, [0x3A] + value))
    requires NamedBy(name, AllKeys, KeyName) == Some(key) && ReadValue(value) == Some((v, rest))
    ensures ReadField(t) == Some((Field(key, v), rest))
  {
    assert ([0x3A] + value)[1..] == value;
  }

  lemma {:induction false} RestReads(fs: seq<Field>)
    ensures ReadRest(RenderRest(fs) + [0x7D]) == Some(fs)
    decreases |fs|
  {
    if fs == [] {
      assert RenderRest(fs) + [0x7D] == [0x7D];
    } else {
      var more := RenderRest(fs[1..]) + [0x7D];
      RestReads(fs[1..]);
      MoreStarts(fs[1..]);
      FieldReads(fs[0], more);
      Spliced(RenderField(fs[0]), RenderRest(fs[1..]));
      RestStep(RenderField(fs[0]) + more, fs[0], more, fs[1..]);
      assert [fs[0]] + fs[1..] == fs;
    }
  }

  lemma MoreStarts(fs: seq<Field>)
    ensures var more := RenderRest(fs) + [0x7D]; more != [] && !IsDigit(more[0])
  {
  }

  lemma Spliced(field: Text, more: Text)
    ensures [0x2C] + field + more + [0x7D] == [0x2C] + (field + (more + [0x7D]))
  {
  }

  lemma RestStep(t: Text, f: Field, more: Text, fs: seq<Field>)
    requires ReadField(t) == Some((f, more)) && ReadRest(more) == Some(fs)
    ensures ReadRest([0x2C] + t) == Some([f] + fs)
  {
    assert ([0x2C] + t)[1..] == t && ([0x2C] + t)[0] == 0x2C;
  }

  lemma FieldsRead(r: Record)
    ensures ReadFields(Json(r)) == Some(Present(Slots(r)))
  {
    JsonRenders(r);
    RestReads(Present(Slots(r)));
  }

  // ---- The strict parse ----------------------------------------------------------------

  function Get(fs: seq<Field>, key: Key): Option<Value> {
    if fs == [] then None else if fs[0].key == key then Some(fs[0].value) else Get(fs[1..], key)
  }

  predicate Once(fs: seq<Field>) {
    forall i, j :: 0 <= i < j < |fs| ==> fs[i].key != fs[j].key
  }

  predicate IsWord(v: Option<Value>) { v.Some? ==> v.value.Word? }
  predicate IsNumber(v: Option<Value>) { v.Some? ==> v.value.Number? }

  /** What a record's members give, by key. */
  type Values = Key -> Option<Value>

  /** Each member of its own type, and the three that every record has. */
  predicate WellTyped(g: Values) {
    && g(V).Some? && IsNumber(g(V)) && g(TsMs).Some? && IsNumber(g(TsMs))
    && g(EventKind).Some? && IsWord(g(EventKind)) && IsWord(g(SurfaceKey))
    && IsWord(g(Outcome)) && IsWord(g(Tool)) && IsWord(g(Code))
    && IsWord(g(Name)) && IsWord(g(Detail)) && IsWord(g(Cid))
    && IsNumber(g(Req)) && IsNumber(g(Conn)) && IsNumber(g(DurMs)) && IsNumber(g(Dropped))
  }

  function WordOf(v: Option<Value>): Option<Text>
    requires IsWord(v)
  {
    if v.Some? then Some(v.value.text) else None
  }

  function NumberIn(v: Option<Value>): Option<nat>
    requires IsNumber(v)
  {
    if v.Some? then Some(v.value.n) else None
  }

  function FromValues(g: Values): Option<Record> {
    if !WellTyped(g) then None
    else
      var kind := NamedBy(g(EventKind).value.text, AllKinds, KindName);
      var surface := WordOf(g(SurfaceKey));
      var named := if surface.Some? then NamedBy(surface.value, AllSurfaces, SurfaceName) else None;
      if kind.None? || (surface.Some? && named.None?) then None
      else
        Some(Record(g(V).value.n, g(TsMs).value.n, kind.value, named,
                    WordOf(g(Outcome)), WordOf(g(Tool)), WordOf(g(Code)),
                    WordOf(g(Name)), WordOf(g(Detail)), WordOf(g(Cid)),
                    NumberIn(g(Req)), NumberIn(g(Conn)), NumberIn(g(DurMs)), NumberIn(g(Dropped))))
  }

  /** A member given twice is refused. */
  function FromFields(fs: seq<Field>): Option<Record> {
    if Once(fs) then FromValues(k => Get(fs, k)) else None
  }

  /** One line, strictly: a record of known members within their ranges, of the supported version. */
  function ParseRecord(line: Text): Option<Record> {
    var fs := ReadFields(line);
    if fs.None? then None
    else
      var r := FromFields(fs.value);
      if r.Some? && InRange(r.value) && r.value.v == AUDIT_VERSION then r else None
  }

  function Place(k: Key): nat {
    match k
    case V => 0
    case TsMs => 1
    case EventKind => 2
    case SurfaceKey => 3
    case Outcome => 4
    case Tool => 5
    case Code => 6
    case Name => 7
    case Detail => 8
    case Cid => 9
    case Req => 10
    case Conn => 11
    case DurMs => 12
    case Dropped => 13
  }

  /** The slots are in the order of their keys, from place `n` on. */
  predicate InPlace(slots: seq<Slot>, n: nat) {
    forall i :: 0 <= i < |slots| ==> Place(slots[i].key) == n + i
  }

  lemma {:induction false} PresentAfter(slots: seq<Slot>, n: nat)
    requires InPlace(slots, n)
    ensures forall f :: f in Present(slots) ==> Place(f.key) >= n
    ensures Once(Present(slots))
    decreases |slots|
  {
    if slots == [] {
    } else {
      PresentAfter(slots[1..], n + 1);
    }
  }

  lemma {:induction false} GetPresent(slots: seq<Slot>, n: nat, i: nat)
    requires InPlace(slots, n) && i < |slots|
    ensures Get(Present(slots), slots[i].key) == slots[i].value
    decreases |slots|
  {
    var more := Present(slots[1..]);
    PresentAfter(slots[1..], n + 1);
    if i == 0 {
      GetMissing(more, slots[0].key);
      if slots[0].value.Some? {
        assert Present(slots)[0] == Field(slots[0].key, slots[0].value.value);
      } else {
        assert Present(slots) == more;
      }
    } else {
      GetPresent(slots[1..], n + 1, i - 1);
      if slots[0].value.Some? {
        assert Present(slots)[1..] == more;
      } else {
        assert Present(slots) == more;
      }
    }
  }

  lemma {:induction false} GetMissing(fs: seq<Field>, key: Key)
    requires forall f :: f in fs ==> f.key != key
    ensures Get(fs, key).None?
    decreases |fs|
  {
    if fs == [] {
    } else {
      assert fs[0] in fs;
      GetMissing(fs[1..], key);
    }
  }

  lemma SlotsInPlace(r: Record)
    ensures InPlace(Slots(r), 0) && |Slots(r)| == 14
  {
    var a, b, c := HeadSlots(r), TextSlots(r), NumberSlots(r);
    assert InPlace(a, 0) && InPlace(b, 4) && InPlace(c, 10);
  }

  /** Reading a record's own members rebuilds it. */
  lemma FromFieldsRebuilds(r: Record)
    ensures FromFields(Present(Slots(r))) == Some(r)
  {
    SlotsInPlace(r);
    PresentAfter(Slots(r), 0);
    var fs := Present(Slots(r));
    var g: Values := k => Get(fs, k);
    forall i | 0 <= i < 14 ensures g(Slots(r)[i].key) == Slots(r)[i].value { GetPresent(Slots(r), 0, i); }
    GetsAre(r, g);
    KindReads(r.kind);
    if r.surface.Some? { SurfaceReads(r.surface.value); }
    Rebuilt(r, Ascii(KindName(r.kind)), SurfaceText(r), g);
  }

  /** The members are those of the record. */
  predicate Holds(r: Record, kind: Text, surface: Option<Text>, g: Values) {
    && g(V) == Some(Number(r.v)) && g(TsMs) == Some(Number(r.tsMs))
    && g(EventKind) == Some(Word(kind)) && g(SurfaceKey) == WordSlot(SurfaceKey, surface).value
    && g(Outcome) == WordSlot(Outcome, r.outcome).value && g(Tool) == WordSlot(Tool, r.tool).value
    && g(Code) == WordSlot(Code, r.code).value && g(Name) == WordSlot(Name, r.name).value
    && g(Detail) == WordSlot(Detail, r.detail).value && g(Cid) == WordSlot(Cid, r.cid).value
    && g(Req) == NumberSlot(Req, r.req).value && g(Conn) == NumberSlot(Conn, r.conn).value
    && g(DurMs) == NumberSlot(DurMs, r.durMs).value && g(Dropped) == NumberSlot(Dropped, r.dropped).value
  }

  lemma Rebuilt(r: Record, kind: Text, surface: Option<Text>, g: Values)
    requires Holds(r, kind, surface, g) && NamedBy(kind, AllKinds, KindName) == Some(r.kind)
    requires surface.Some? <==> r.surface.Some?
    requires surface.Some? ==> NamedBy(surface.value, AllSurfaces, SurfaceName) == r.surface
    ensures FromValues(g) == Some(r)
  {
  }

  lemma GetsAre(r: Record, g: Values)
    requires |Slots(r)| == 14 && forall i :: 0 <= i < 14 ==> g(Slots(r)[i].key) == Slots(r)[i].value
    ensures Holds(r, Ascii(KindName(r.kind)), SurfaceText(r), g)
  {
    var ss := Slots(r);
    forall i | 0 <= i < 4 ensures ss[i] == HeadSlots(r)[i] {}
    forall i | 0 <= i < 6 ensures ss[4 + i] == TextSlots(r)[i] {}
    forall i | 0 <= i < 4 ensures ss[10 + i] == NumberSlots(r)[i] {}
    assert ss[0] == HeadSlots(r)[0] && ss[1] == HeadSlots(r)[1] && ss[2] == HeadSlots(r)[2];
    assert ss[3] == HeadSlots(r)[3] && ss[4] == TextSlots(r)[0] && ss[5] == TextSlots(r)[1];
    assert ss[6] == TextSlots(r)[2] && ss[7] == TextSlots(r)[3] && ss[8] == TextSlots(r)[4];
    assert ss[9] == TextSlots(r)[5] && ss[10] == NumberSlots(r)[0] && ss[11] == NumberSlots(r)[1];
    assert ss[12] == NumberSlots(r)[2] && ss[13] == NumberSlots(r)[3];
  }

  /** A stamped record, whatever its texts, is parsed back as itself. */
  lemma RecordParsesBack(r: Record)
    requires InRange(r)
    ensures ParseRecord(Json(r)) == if r.v == AUDIT_VERSION then Some(r) else None
  {
    FieldsRead(r);
    FromFieldsRebuilds(r);
  }

  ghost predicate ParseTo<R(!new)>(parse: Text -> Option<R>, all: seq<Text>, shown: seq<R>) {
    |shown| == |all| && forall j :: 0 <= j < |all| ==> Recognize(parse, all[j]) == Parsed(shown[j])
  }

  /** A page over lines that all parse shows what they parse to, newest first, and nothing unrecognized. */
  lemma PageShows<R(!new)>(page: Page<R>, lines: seq<Text>, shown: seq<R>, limit: nat, parse: Text -> Option<R>, i: nat)
    requires IsNewestPage(page, lines, limit, parse) && ParseTo(parse, lines, shown) && i < |page.entries|
    ensures page.entries[i] == Parsed(shown[|shown| - 1 - i])
  {
  }

  lemma SuffixParses<R(!new)>(lines: seq<Text>, all: seq<Text>, shown: seq<R>, parse: Text -> Option<R>)
    requires IsSuffix(lines, all) && ParseTo(parse, all, shown)
    ensures ParseTo(parse, lines, shown[|shown| - |lines|..])
  {
    var k := |all| - |lines|;
    forall j | 0 <= j < |lines| ensures Recognize(parse, lines[j]) == Parsed(shown[k..][j]) {
      assert lines[j] == all[k + j];
    }
  }

  function AllTruncated(records: seq<Record>): (r: seq<Record>)
    ensures |r| == |records| && forall i :: 0 <= i < |records| ==> r[i] == Truncated(records[i])
  {
    Map(Truncated, records)
  }

  /**
   End to end: after any appends of stamped records, whichever renames fail, every line a reader finds parses, and the
   lines parse to the last of the records, each truncated and otherwise whole, in order.
   */
  lemma RecordsParseBack(records: seq<Record>, appends: seq<Append>, max: nat)
    requires AppendedLines(appends) == RecordLines(records)
    requires forall j :: 0 <= j < |records| ==> InRange(records[j]) && records[j].v == AUDIT_VERSION
    ensures var t := AfterAppends(Empty, appends, max);
      var lines := TextLines(FileOf(t.rotated)) + TextLines(FileOf(t.live));
      |lines| <= |records| && ParseTo(ParseRecord, lines, AllTruncated(records)[|records| - |lines|..])
  {
    RecordsReadBack(records, appends, max);
    BodiesParse(records);
    var t := AfterAppends(Empty, appends, max);
    SuffixParses(TextLines(FileOf(t.rotated)) + TextLines(FileOf(t.live)), Bodies(RecordLines(records)),
                 AllTruncated(records), ParseRecord);
  }

  lemma RecordBody(records: seq<Record>, n: nat)
    requires n < |records| && InRange(records[n]) && records[n].v == AUDIT_VERSION
    ensures Recognize(ParseRecord, Bodies(RecordLines(records))[n]) == Parsed(Truncated(records[n]))
  {
    BodyAt(RecordLines(records), n);
    LineAt(records, n);
    BodyParses(records[n]);
  }

  lemma BodiesParse(records: seq<Record>)
    requires forall j :: 0 <= j < |records| ==> InRange(records[j]) && records[j].v == AUDIT_VERSION
    ensures ParseTo(ParseRecord, Bodies(RecordLines(records)), AllTruncated(records))
  {
    forall j | 0 <= j < |records|
      ensures Recognize(ParseRecord, Bodies(RecordLines(records))[j]) == Parsed(AllTruncated(records)[j])
    {
      RecordBody(records, j);
    }
  }

  lemma LineAt(records: seq<Record>, n: nat)
    requires n < |records|
    ensures RecordLines(records)[n] == Line(Truncated(records[n]))
  {
  }

  /** A line without its newline. */
  function BodyOf(l: Written): Text { if l == [] then [] else l[..|l| - 1] }

  lemma BodyAt(ls: seq<Written>, n: nat)
    requires n < |ls|
    ensures Bodies(ls)[n] == BodyOf(ls[n])
  {
  }

  lemma BodyParses(r: Record)
    requires InRange(r) && r.v == AUDIT_VERSION
    ensures Recognize(ParseRecord, BodyOf(Line(Truncated(r)))) == Parsed(Truncated(r))
  {
    BodyIs(Json(Truncated(r)));
    RecordParsesBack(Truncated(r));
  }

  lemma BodyIs(json: Text)
    ensures (json + [NEWLINE])[..|json + [NEWLINE]| - 1] == json
  {
  }
}
