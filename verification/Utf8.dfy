/**
 UTF-8 text as bytes (RFC 3629, sections 3 and 4), and the audit record's truncation of a text field on a
 character boundary.
 */
module Utf8 {
  import opened Wrappers
  import opened Lines

  type Text = seq<Byte>

  /** The bytes a leading byte announces; none for a continuation or an unused byte. */
  function Announced(b: Byte): nat {
    if b < 0x80 then 1
    else if 0xC2 <= b <= 0xDF then 2
    else if 0xE0 <= b <= 0xEF then 3
    else if 0xF0 <= b <= 0xF4 then 4
    else 0
  }

  predicate IsContinuation(b: Byte) {
    0x80 <= b < 0xC0
  }

  /** The second bytes that would spell a surrogate, an overlong form or a value past U+10FFFF are excluded. */
  predicate SecondOk(lead: Byte, second: Byte) {
    && (lead == 0xE0 ==> second >= 0xA0)
    && (lead == 0xED ==> second <= 0x9F)
    && (lead == 0xF0 ==> second >= 0x90)
    && (lead == 0xF4 ==> second <= 0x8F)
  }

  /** The text starts with one well-formed character. */
  predicate StartsWithChar(t: Text) {
    && t != [] && 0 < Announced(t[0]) <= |t|
    && (forall i :: 1 <= i < Announced(t[0]) ==> IsContinuation(t[i]))
    && (Announced(t[0]) > 1 ==> SecondOk(t[0], t[1]))
  }

  predicate Valid(t: Text) {
    t == [] || (StartsWithChar(t) && Valid(t[Announced(t[0])..]))
  }

  predicate IsBoundary(t: Text, i: nat) {
    i == 0 || i == |t| || (i < |t| && !IsContinuation(t[i]))
  }

  /** A boundary splits valid text into two valid texts. */
  lemma {:induction false} BoundarySplits(t: Text, i: nat)
    requires Valid(t) && i <= |t| && IsBoundary(t, i)
    ensures Valid(t[..i]) && Valid(t[i..])
    decreases |t|
  {
    if i == 0 {
      assert t[..i] == [] && t[i..] == t;
    } else {
      var n := Announced(t[0]);
      var rest := t[n..];
      assert i >= n && t[i..] == rest[i - n..];
      BoundarySplits(rest, i - n);
      ValidAfterChar(t, n, i);
    }
  }

  /** A character followed by valid text is valid text. */
  lemma ValidAfterChar(t: Text, n: nat, i: nat)
    requires StartsWithChar(t) && n == Announced(t[0]) <= i <= |t| && Valid(t[n..][..i - n])
    ensures Valid(t[..i])
  {
    var head := t[..i];
    assert head[0] == t[0] && head[n..] == t[n..][..i - n];
    assert StartsWithChar(head);
  }

  /** Some boundary lies at most three bytes before any index. */
  lemma {:induction false} BoundaryNear(t: Text, i: nat) returns (j: nat)
    requires Valid(t) && i <= |t|
    ensures j <= i <= j + 3 && IsBoundary(t, j)
    decreases |t|
  {
    if t == [] || i < Announced(t[0]) {
      j := 0;
    } else {
      var n := Announced(t[0]);
      var k := BoundaryNear(t[n..], i - n);
      j := n + k;
    }
  }

  // ---- Truncation --------------------------------------------------------------

  const AUDIT_MAX_FIELD: nat := 512

  /** The last boundary at or before `i`. */
  function LastBoundary(t: Text, i: nat): (j: nat)
    ensures j <= i && IsBoundary(t, j)
    ensures forall k :: j < k <= i ==> !IsBoundary(t, k)
  {
    if IsBoundary(t, i) then i else LastBoundary(t, i - 1)
  }

  function Cut(t: Text): (r: Text)
    ensures r <= t && |r| <= AUDIT_MAX_FIELD
  {
    if |t| > AUDIT_MAX_FIELD then t[..LastBoundary(t, AUDIT_MAX_FIELD)] else t
  }

  /** A cut field stays valid text and loses no more than the one character that straddles the bound. */
  lemma CutKeepsText(t: Text)
    requires Valid(t)
    ensures Valid(Cut(t))
    ensures |t| <= AUDIT_MAX_FIELD ==> Cut(t) == t
    ensures |t| > AUDIT_MAX_FIELD ==> 509 <= |Cut(t)| <= 512
    ensures |t| > AUDIT_MAX_FIELD ==> forall n :: |Cut(t)| < n <= 512 ==> !Valid(t[..n])
  {
    if |t| > AUDIT_MAX_FIELD {
      var j := BoundaryNear(t, AUDIT_MAX_FIELD);
      var last := LastBoundary(t, AUDIT_MAX_FIELD);
      BoundarySplits(t, last);
      forall n | last < n <= 512 ensures !Valid(t[..n]) {
        if Valid(t[..n]) { ValidPrefixIsBoundary(t, n); }
      }
    }
  }

  /** Two valid texts, one a prefix of the other, meet on a boundary. */
  lemma {:induction false} ValidPrefixIsBoundary(t: Text, n: nat)
    requires Valid(t) && n <= |t| && Valid(t[..n])
    ensures IsBoundary(t, n)
    decreases |t|
  {
    if 0 < n < |t| {
      var k := Announced(t[0]);
      assert t[..n][0] == t[0];
      assert t[..n][k..] == t[k..][..n - k];
      ValidPrefixIsBoundary(t[k..], n - k);
      if n == k { assert StartsWithChar(t[k..]) && t[k..][0] == t[k]; }
    }
  }

  /** The source's search from the bound downwards. */
  method TruncateText(t: Text) returns (r: Text)
    ensures r == Cut(t)
  {
    if |t| <= AUDIT_MAX_FIELD { return t; }
    var cut: nat := AUDIT_MAX_FIELD;
    while !IsBoundary(t, cut)
      invariant cut <= AUDIT_MAX_FIELD
      invariant LastBoundary(t, AUDIT_MAX_FIELD) == LastBoundary(t, cut)
      decreases cut
    {
      cut := cut - 1;
    }
    return t[..cut];
  }
}
