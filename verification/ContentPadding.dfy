/** Per-message content padding: padContent (pkg/signal/send.go) and stripContentPadding
    (pkg/signal/content.go). */
module ContentPadding {
  import opened Bits

  const BUCKET: nat := 160
  const TERMINATOR: Byte := 0x80

  /** The terminator sits at this index and only zero bytes follow it. */
  predicate TerminatedAt(bs: Bytes, idx: nat) {
    idx < |bs| && bs[idx] == TERMINATOR && forall j :: idx < j < |bs| ==> bs[j] == 0
  }

  /** An input with no terminator before its trailing zeros comes back unchanged. */
  ghost predicate Stripped(padded: Bytes, body: Bytes) {
    if exists idx: nat :: TerminatedAt(padded, idx) then TerminatedAt(padded, |body|) && body == padded[..|body|]
    else body == padded
  }

  predicate IsPaddingOf(padded: Bytes, body: Bytes) {
    |body| < |padded| && padded[..|body|] == body && TerminatedAt(padded, |body|)
  }

  /** There is exactly one answer, so a method proved to give a stripped body gives this one. */
  lemma StrippedIsUnique(padded: Bytes, a: Bytes, b: Bytes)
    requires Stripped(padded, a) && Stripped(padded, b)
    ensures a == b
  {}

  /** Stripping undoes padding for every body, whatever bytes the body ends in: a body is the
      stripped form of its own padding, and the only one. */
  lemma StripUndoesPad(body: Bytes, padded: Bytes, stripped: Bytes)
    requires IsPaddingOf(padded, body) && Stripped(padded, stripped)
    ensures stripped == body
  {
    assert TerminatedAt(padded, |body|);
  }

  /** Which inputs come back unchanged: exactly those that end in no terminator and zeros. */
  lemma UnchangedExactly(padded: Bytes, stripped: Bytes)
    requires Stripped(padded, stripped)
    ensures stripped == padded <==> forall idx: nat :: !TerminatedAt(padded, idx)
    ensures stripped != padded ==> IsPaddingOf(padded, stripped)
  {
  }

  method PadContent(body: Bytes) returns (padded: Bytes)
    ensures IsPaddingOf(padded, body)
    ensures |padded| % 160 == 0 && |body| < |padded| <= |body| + 160
    ensures padded[|body|] == 0x80
  {
    var target := BUCKET * (1 + |body| / BUCKET);
    var out := new Byte[target](i requires 0 <= i => if i < |body| then body[i] else 0);
    out[|body|] := TERMINATOR;
    assert out[..|body|] == body;
    return out[..];
  }

  method StripContentPadding(padded: Bytes) returns (body: Bytes)
    ensures Stripped(padded, body)
  {
    var idx := -1;
    var i := |padded| - 1;
    while i >= 0
      invariant -1 <= i < |padded| && idx == -1
      invariant forall j :: i < j < |padded| ==> padded[j] == 0
    {
      if padded[i] == TERMINATOR {
        idx := i;
        break;
      }
      if padded[i] != 0 {
        return padded;
      }
      i := i - 1;
    }
    if idx < 0 {
      return padded;
    }
    assert TerminatedAt(padded, idx);
    return padded[..idx];
  }

  /** Sending and receiving: what the recipient strips is the body that was padded. */
  method SendAndReceive(body: Bytes) returns (received: Bytes)
    ensures received == body
  {
    var padded := PadContent(body);
    received := StripContentPadding(padded);
    StripUndoesPad(body, padded, received);
  }
}
