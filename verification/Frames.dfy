/** Length-prefixed frames of a decrypted backup (internal/backup/frames.go) and the loop that
    imports them (internal/backup/import.go). */
module Frames {
  import opened Wrappers
  import opened Bits

  const MAX_INT64: nat := 0x7FFF_FFFF_FFFF_FFFF

  // ----- Varints, section "Base 128 Varints" of the Protocol Buffers Encoding guide

  /** The number the low seven bits of the bytes denote, least significant group first */
  function Base128(bs: Bytes): nat {
    if bs == [] then 0 else bs[0] % 128 + 128 * Base128(bs[1..])
  }

  /** How many bytes with the continuation bit the input begins with */
  function Continuations(bs: Bytes): (n: nat)
    ensures n <= |bs|
    ensures forall i :: 0 <= i < n ==> bs[i] >= 128
    ensures n < |bs| ==> bs[n] < 128
  {
    if bs == [] || bs[0] < 128 then 0 else 1 + Continuations(bs[1..])
  }

  datatype Varint =
    | Value(value: nat, count: nat)
    | EndOfInput(count: nat)
    | TooLong(count: nat)
    | Overflow(count: nat)
  {
    predicate Failed() { !Value? }
  }

  /** What readVarintCounted makes of the bytes ahead: at most ten are read, the sum is taken
      modulo 2^64, and a sum beyond a Go int is refused. */
  function DecodeVarint(bs: Bytes): (r: Varint)
    ensures r.count <= 10 && r.count <= |bs|
  {
    var k := Continuations(bs);
    if k >= 10 then TooLong(10)
    else if k == |bs| then EndOfInput(k)
    else
      var sum := Base128(bs[..k + 1]) % Pow2(64);
      if sum > MAX_INT64 then Overflow(k + 1) else Value(sum, k + 1)
  }

  /** VarintEncodeLength: binary.PutUvarint writes the low seven bits with the continuation bit
      until fewer than eight bits are left. */
  function EncodeVarint(n: nat): (bs: Bytes)
    ensures bs != []
  {
    if n < 128 then [n] else [n % 128 + 128] + EncodeVarint(n / 128)
  }

  function Pow128(k: nat): (p: nat)
    ensures p >= 1
  {
    if k == 0 then 1 else 128 * Pow128(k - 1)
  }

  lemma {:induction false} Pow128IsPow2(k: nat)
    ensures Pow128(k) == Pow2(7 * k)
  {
    if k > 0 {
      Pow128IsPow2(k - 1);
      var m := 7 * (k - 1);
      assert Pow2(m + 7) == 2 * Pow2(m + 6) == 4 * Pow2(m + 5) == 8 * Pow2(m + 4)
        == 16 * Pow2(m + 3) == 32 * Pow2(m + 2) == 64 * Pow2(m + 1) == 128 * Pow2(m);
    }
  }

  lemma {:induction false} EncodingDenotes(n: nat)
    ensures Base128(EncodeVarint(n)) == n
    ensures Continuations(EncodeVarint(n)) == |EncodeVarint(n)| - 1
  {
    var bs := EncodeVarint(n);
    if n < 128 {
      assert bs[1..] == [];
    } else {
      EncodingDenotes(n / 128);
      assert bs[1..] == EncodeVarint(n / 128);
      assert (n % 128 + 128) % 128 == n % 128;
    }
  }

  lemma {:induction false} EncodingLength(n: nat, k: nat)
    requires n < Pow128(k) && k > 0
    ensures |EncodeVarint(n)| <= k
  {
    if n >= 128 {
      assert n / 128 < Pow128(k - 1);
      EncodingLength(n / 128, k - 1);
    }
  }

  lemma Pow2Values()
    ensures Pow2(7) == 128 && Pow2(63) == MAX_INT64 + 1 && Pow2(64) == 2 * Pow2(63)
  {
    Pow128IsPow2(9);
    assert Pow128(9) == MAX_INT64 + 1 by {
      assert Pow128(1) == 128;
      assert Pow128(2) == 16384;
      assert Pow128(3) == 2097152;
      assert Pow128(4) == 268435456;
      assert Pow128(5) == 34359738368;
      assert Pow128(6) == 4398046511104;
      assert Pow128(7) == 562949953421312;
      assert Pow128(8) == 72057594037927936;
    }
    assert Pow2(7) == Pow128(1) by { Pow128IsPow2(1); }
  }

  lemma {:induction false} Base128Append(bs: Bytes, b: Byte)
    ensures Base128(bs + [b]) == Base128(bs) + b % 128 * Pow2(7 * |bs|)
  {
    if bs == [] {
      assert bs + [b] == [b];
      assert [b][1..] == [];
    } else {
      assert (bs + [b])[1..] == bs[1..] + [b];
      Base128Append(bs[1..], b);
      Pow128IsPow2(|bs|);
      Pow128IsPow2(|bs| - 1);
      assert 128 * (b % 128 * Pow128(|bs| - 1)) == b % 128 * Pow128(|bs|);
    }
  }

  lemma {:induction false} Base128Bound(bs: Bytes)
    ensures Base128(bs) < Pow128(|bs|)
  {
    if bs != [] {
      Base128Bound(bs[1..]);
    }
  }

  /** One turn of the reading loop: or-ing the next group in adds it, modulo 2^64. */
  lemma AccumulateGroup(read: Bytes, b: Byte)
    requires |read| <= 9
    ensures Or(Base128(read), Shl64(b % 128, 7 * |read|)) == Base128(read + [b]) % Pow2(64)
    ensures |read| < 9 ==> Base128(read + [b]) < Pow2(64)
  {
    hide Base128, Pow2, Pow128, Or, Shl64;
    Base128Append(read, b);
    Base128Bound(read);
    Pow128IsPow2(|read|);
    if |read| < 9 {
      Base128Bound(read + [b]);
      Pow128Grows(|read| + 1, 9);
      Pow128IsPow2(9);
      Pow2Values();
      AccumulateLow(Base128(read), b % 128, 7 * |read|);
    } else {
      AccumulateHigh(Base128(read), b % 128);
    }
  }

  lemma AccumulateLow(result: nat, v: nat, s: nat)
    requires result < Pow2(s) && result + v * Pow2(s) < Pow2(64)
    ensures Or(result, Shl64(v, s)) == (result + v * Pow2(s)) % Pow2(64)
  {
    hide Pow2;
    ModOfSmall(v * Pow2(s), Pow2(64));
    ModOfSmall(result + v * Pow2(s), Pow2(64));
    OrAddsHighBits(result, v, s);
  }

  lemma LowBitOnly(result: nat, v: nat, p: nat)
    requires result < p
    ensures v * p % (2 * p) == v % 2 * p
    ensures (result + v * p) % (2 * p) == result + v % 2 * p
  {
    var q, low := v / 2, v % 2;
    assert v * p == q * (2 * p) + low * p by {
      assert (2 * q + low) * p == 2 * q * p + low * p;
    }
    assert low * p == 0 || low * p == p;
    DivModUnique(v * p, 2 * p, q, low * p);
    DivModUnique(result + v * p, 2 * p, q, result + low * p);
  }

  lemma AccumulateHigh(result: nat, v: nat)
    requires result < Pow2(63)
    ensures Or(result, Shl64(v, 63)) == (result + v * Pow2(63)) % Pow2(64)
  {
    hide Pow2, Or;
    Pow2Values();
    LowBitOnly(result, v, Pow2(63));
    OrAddsHighBits(result, v % 2, 63);
  }

  lemma {:induction false} Pow128Grows(i: nat, j: nat)
    requires i <= j
    ensures Pow128(i) <= Pow128(j)
  {
    if i < j {
      Pow128Grows(i, j - 1);
    }
  }

  lemma ByteBits(b: Byte)
    ensures And(b, 0x7f) == b % 128
    ensures And(b, 0x80) == 0 <==> b < 128
  {
    hide And, Pow2;
    Pow2Values();
    AndLowBits(b, 7);
    AndOneBit(b, 7);
  }

  /** Where the reading loop stands after so many bytes with the continuation bit */
  lemma VarintOutcome(bs: Bytes, count: nat)
    requires count <= 10 && count <= |bs|
    requires forall i :: 0 <= i < count ==> bs[i] >= 128
    ensures count == 10 ==> DecodeVarint(bs) == TooLong(10)
    ensures count < 10 && count == |bs| ==> DecodeVarint(bs) == EndOfInput(count)
    ensures count < 10 && count < |bs| && bs[count] < 128 ==>
      DecodeVarint(bs) ==
        var sum := Base128(bs[..count + 1]) % Pow2(64);
        if sum > MAX_INT64 then Overflow(count + 1) else Value(sum, count + 1)
  {
    hide Base128, Pow2;
  }

  lemma {:induction false} ZeroEndsInZero(bs: Bytes)
    requires bs != [] && Base128(bs) == 0
    ensures bs[|bs| - 1] % 128 == 0
  {
    if |bs| > 1 {
      ZeroEndsInZero(bs[1..]);
    }
  }

  /** One varint: continuation bits on all bytes but the last */
  predicate IsVarint(bs: Bytes) {
    bs != [] && bs[|bs| - 1] < 128 && forall i :: 0 <= i < |bs| - 1 ==> bs[i] >= 128
  }

  lemma NoGroups()
    ensures Base128([]) == 0
  {}

  lemma SmallEncoding(n: nat)
    requires n < 128
    ensures EncodeVarint(n) == [n]
  {}

  lemma EncodingStep(q: nat, r: nat)
    requires q > 0 && r < 128
    ensures EncodeVarint(r + 128 * q) == [r + 128] + EncodeVarint(q)
  {
    var n := r + 128 * q;
    assert n >= 128 && n / 128 == q && n % 128 == r;
  }

  lemma Base128Cons(b: Byte, tail: Bytes)
    ensures Base128([b] + tail) == b % 128 + 128 * Base128(tail)
  {
    assert ([b] + tail)[1..] == tail;
  }

  lemma CanonicalStep(b: Byte, tail: Bytes)
    requires b >= 128 && Base128(tail) > 0
    ensures [b] + tail == EncodeVarint(Base128([b] + tail)) <==> tail == EncodeVarint(Base128(tail))
  {
    hide EncodeVarint, Base128;
    var code := EncodeVarint(Base128(tail));
    Base128Cons(b, tail);
    EncodingStep(Base128(tail), b - 128);
    assert ([b] + tail)[1..] == tail && ([b] + code)[1..] == code;
  }

  /** A varint is the encoding of the number it denotes exactly if it does not end in a needless
      zero group. */
  lemma {:induction false} CanonicalVarint(bs: Bytes)
    requires IsVarint(bs)
    ensures bs == EncodeVarint(Base128(bs)) <==> |bs| == 1 || bs[|bs| - 1] != 0
  {
    hide EncodeVarint, Base128;
    var b, tail := bs[0], bs[1..];
    assert bs == [b] + tail;
    Base128Cons(b, tail);
    NoGroups();
    if |bs| == 1 {
      SmallEncoding(b);
    } else {
      CanonicalVarint(tail);
      if Base128(tail) == 0 {
        ZeroEndsInZero(tail);
        SmallEncoding(b % 128);
      } else {
        CanonicalStep(b, tail);
        if |tail| == 1 {
          Base128Cons(tail[0], []);
          assert tail == [tail[0]] + [];
        }
      }
    }
  }

  lemma EncodingIsShort(n: nat)
    requires n <= MAX_INT64
    ensures |EncodeVarint(n)| <= 9 && n < Pow2(64)
  {
    hide EncodeVarint, Pow2, Pow128;
    Pow2Values();
    Pow128IsPow2(9);
    EncodingLength(n, 9);
  }

  /** The reader undoes the encoder for every length a Go int can hold, whatever follows. */
  lemma VarintRoundTrip(n: nat, rest: Bytes)
    requires n <= MAX_INT64
    ensures |EncodeVarint(n)| <= 9
    ensures DecodeVarint(EncodeVarint(n) + rest) == Value(n, |EncodeVarint(n)|)
  {
    hide EncodeVarint, DecodeVarint, Base128, Pow2;
    EncodingIsShort(n);
    EncodingDenotes(n);
    var bs := EncodeVarint(n);
    assert (bs + rest)[..|bs|] == bs;
    VarintOutcome(bs + rest, |bs| - 1);
    ModOfSmall(n, Pow2(64));
  }

  /** What the reader accepts beyond what the encoder writes. A varint of up to nine bytes is read as
      the number it denotes; one of ten bytes as the number of its first nine, its last byte being
      dropped whenever it is even. The input is the encoding of the result exactly if it is shorter
      than ten bytes and does not end in a needless zero. */
  lemma AcceptedVarint(bs: Bytes)
    requires DecodeVarint(bs).Value?
    ensures var v := DecodeVarint(bs);
            var read := bs[..v.count];
            && IsVarint(read)
            && (v.count == 10 ==> v.value == Base128(bs[..9]) && bs[9] % 2 == 0)
            && (v.value == Base128(read) <==> v.count < 10 || bs[9] == 0)
            && (read == EncodeVarint(v.value) <==> v.count == 1 || (v.count < 10 && bs[v.count - 1] != 0))
  {
    var v := DecodeVarint(bs);
    var k := v.count - 1;
    var read := bs[..k + 1];
    assert read == bs[..k] + [bs[k]];
    if k < 9 {
      ShortVarint(read);
      CanonicalVarint(read);
    } else {
      LongVarint(bs[..9], bs[9]);
      EncodingIsShort(v.value);
    }
  }

  lemma ShortVarint(read: Bytes)
    requires |read| <= 9
    ensures Base128(read) % Pow2(64) == Base128(read)
  {
    hide Base128, Pow2, Pow128;
    Base128Bound(read);
    Pow128Grows(|read|, 9);
    Pow128IsPow2(9);
    Pow2Values();
    ModOfSmall(Base128(read), Pow2(64));
  }

  /** The tenth byte shifts all but its lowest bit out, and that bit makes the number too large. */
  lemma LongVarint(front: Bytes, b: Byte)
    requires |front| == 9 && b < 128
    ensures var sum := Base128(front + [b]) % Pow2(64);
            && (sum <= MAX_INT64 <==> b % 2 == 0)
            && (b % 2 == 0 ==> sum == Base128(front))
            && (b % 2 == 0 ==> (sum == Base128(front + [b]) <==> b == 0))
  {
    hide Base128, Pow2, Pow128;
    Base128Append(front, b);
    Base128Bound(front);
    Pow128IsPow2(9);
    Pow2Values();
    LowBitOnly(Base128(front), b, Pow2(63));
    assert b % 128 == b;
    if b > 0 {
      assert b * Pow2(63) >= Pow2(63);
    }
  }

  /** An input the encoder never writes: a needless zero group */
  lemma NeedlessZeroIsRead()
    ensures DecodeVarint(ZeroGroups(1) + [0]) == Value(0, 2)
  {
    ZeroGroupsDenoteZero(1);
    ShortVarint(ZeroGroups(1) + [0]);
    hide Pow2, Base128, ZeroGroups, DecodeVarint;
    Base128Append(ZeroGroups(1), 0);
    UnreadLength(ZeroGroups(1) + [0]);
  }

  /** Another one: 2^64, which is read as 0 */
  lemma WrappedLengthIsRead()
    ensures var wrapped := ZeroGroups(9) + [2];
            DecodeVarint(wrapped) == Value(0, 10) && Base128(wrapped) == Pow2(64)
  {
    hide Pow2, Base128, ZeroGroups, DecodeVarint;
    ZeroGroupsDenoteZero(9);
    LongVarint(ZeroGroups(9), 2);
    Base128Append(ZeroGroups(9), 2);
    UnreadLength(ZeroGroups(9) + [2]);
    Pow2Values();
  }

  lemma UnreadLength(bs: Bytes)
    requires IsVarint(bs) && |bs| <= 10
    ensures DecodeVarint(bs) ==
      var sum := Base128(bs) % Pow2(64);
      if sum > MAX_INT64 then Overflow(|bs|) else Value(sum, |bs|)
  {
    hide DecodeVarint, Base128, Pow2;
    assert bs[..|bs|] == bs;
    VarintOutcome(bs, |bs| - 1);
  }

  function ZeroGroups(n: nat): (bs: Bytes)
    ensures |bs| == n && forall i :: 0 <= i < n ==> bs[i] == 128
  {
    seq(n, _ => 128)
  }

  lemma {:induction false} ZeroGroupsDenoteZero(n: nat)
    ensures Base128(ZeroGroups(n)) == 0
  {
    if n > 0 {
      assert ZeroGroups(n)[1..] == ZeroGroups(n - 1);
      ZeroGroupsDenoteZero(n - 1);
    }
  }

  lemma FrameOutcome(bs: Bytes)
    ensures var v := DecodeVarint(bs);
            && (v.EndOfInput? ==> ReadFrame(bs) == NoFrame)
            && (v.TooLong? || v.Overflow? ==> ReadFrame(bs) == Bad)
            && (v.Value? ==>
                var body := bs[v.count..];
                ReadFrame(bs) == if v.value <= |body| then Frame(body[..v.value], v.count + v.value) else Cut)
            && (ReadFrame(bs).Frame? ==> ReadFrame(bs).used <= |bs|)
  {
    hide DecodeVarint;
  }

  lemma ReadGroup(bs: Bytes, count: nat)
    requires count < |bs| && count <= 9
    ensures var sum := Or(Base128(bs[..count]), Shl64(And(bs[count], 0x7f), 7 * count));
            && sum == Base128(bs[..count + 1]) % Pow2(64)
            && (count < 9 ==> sum == Base128(bs[..count + 1]))
    ensures And(bs[count], 0x80) == 0 <==> bs[count] < 128
  {
    hide Base128, Pow2, Or, And, Shl64;
    ReadOne(bs, count);
    AccumulateGroup(bs[..count], bs[count]);
    ByteBits(bs[count]);
    if count < 9 {
      ModOfSmall(Base128(bs[..count + 1]), Pow2(64));
    }
  }

  lemma ReadOne(bs: Bytes, n: nat)
    requires n < |bs|
    ensures bs[n..] != [] && bs[n..][0] == bs[n] && bs[n..][1..] == bs[n + 1..]
    ensures bs[..n + 1] == bs[..n] + [bs[n]]
  {}

  /** An io.ByteReader, as the bytes it has not handed out yet */
  class ByteReader {
    var rest: Bytes

    constructor (data: Bytes)
      ensures rest == data
    {
      rest := data;
    }

    method ReadByte() returns (b: Option<Byte>)
      modifies this
      ensures old(rest) == [] ==> b == None && rest == []
      ensures old(rest) != [] ==> b == Some(old(rest)[0]) && rest == old(rest)[1..]
    {
      if rest == [] {
        return None;
      }
      b := Some(rest[0]);
      rest := rest[1..];
    }

    method ReadVarintCounted() returns (v: Varint)
      modifies this
      ensures v == DecodeVarint(old(rest)) && rest == old(rest)[v.count..]
    {
      ghost var bs := rest;
      assert bs[..0] == [] && Base128([]) == 0;
      hide Base128, Pow2, Or, And, Shl64, DecodeVarint, Continuations;
      var result, shift, count := 0, 0, 0;
      while true
        invariant count <= |bs| && rest == bs[count..]
        invariant count <= 9 && shift == 7 * count
        invariant forall i :: 0 <= i < count ==> bs[i] >= 128
        invariant result == Base128(bs[..count])
        decreases 10 - count
      {
        VarintOutcome(bs, count);
        if count < |bs| {
          ReadOne(bs, count);
          ReadGroup(bs, count);
        }
        var next := ReadByte();
        if next.None? {
          return EndOfInput(count);
        }
        var b := next.value;
        count := count + 1;
        result := Or(result, Shl64(And(b, 0x7f), shift));
        if And(b, 0x80) == 0 {
          if result > MAX_INT64 {
            return Overflow(count);
          }
          return Value(result, count);
        }
        shift := shift + 7;
        if shift >= 64 {
          VarintOutcome(bs, count);
          return TooLong(count);
        }
      }
    }

    method ReadVarintFrame() returns (f: FrameResult)
      modifies this
      ensures f == ReadFrame(old(rest))
      ensures f.Frame? ==> rest == old(rest)[f.used..]
    {
      hide DecodeVarint, ReadFrame;
      FrameOutcome(rest);
      var length := ReadVarintCounted();
      if length.EndOfInput? {
        return NoFrame;
      }
      if length.Failed() {
        return Bad;
      }
      if length.value == 0 {
        return Frame([], length.count);
      }
      ghost var body := rest;
      var buf: Bytes := [];
      for i := 0 to length.value
        invariant i <= |body| && rest == body[i..] && buf == body[..i]
      {
        if i < |body| {
          ReadOne(body, i);
        }
        var b := ReadByte();
        if b.None? {
          return Cut;
        }
        buf := buf + [b.value];
      }
      return Frame(buf, length.count + length.value);
    }
  }

  // ----- Frames

  /** NoFrame is io.EOF before or inside the length, Cut is the end of input inside the body;
      importing takes both for the end of the stream. */
  datatype FrameResult = Frame(bytes: Bytes, used: nat) | NoFrame | Cut | Bad

  function ReadFrame(bs: Bytes): (f: FrameResult)
    ensures f.Frame? ==> 0 < f.used <= |bs|
  {
    match DecodeVarint(bs)
    case EndOfInput(_) => NoFrame
    case Value(n, c) => if c + n <= |bs| then Frame(bs[c..c + n], c + n) else Cut
    case _ => Bad
  }

  function EncodeFrame(f: Bytes): Bytes {
    EncodeVarint(|f|) + f
  }

  function EncodeFrames(fs: seq<Bytes>): Bytes {
    if fs == [] then [] else EncodeFrame(fs[0]) + EncodeFrames(fs[1..])
  }

  lemma EmptyInput()
    ensures ReadFrame([]) == NoFrame
  {
  }

  /** Every frame read until the input ends, and how it ended */
  function ReadFrames(bs: Bytes): (r: (seq<Bytes>, FrameResult))
    ensures !r.1.Frame?
    decreases |bs|
  {
    var f := ReadFrame(bs);
    if !f.Frame? then ([], f)
    else var (rest, end) := ReadFrames(bs[f.used..]); ([f.bytes] + rest, end)
  }

  /** A Go slice is no longer than an int can say. */
  ghost predicate GoSlices(fs: seq<Bytes>) {
    forall f <- fs :: |f| <= MAX_INT64
  }

  lemma FrameRoundTrip(f: Bytes, rest: Bytes)
    requires |f| <= MAX_INT64
    ensures ReadFrame(EncodeFrame(f) + rest) == Frame(f, |EncodeFrame(f)|)
  {
    var head := EncodeVarint(|f|);
    VarintRoundTrip(|f|, f + rest);
    assert EncodeFrame(f) + rest == head + (f + rest);
  }

  lemma PrefixSplit(bs: Bytes, i: nat, j: nat)
    requires i <= j <= |bs|
    ensures bs[..j] == bs[..i] + bs[i..j] && bs[..j][..i] == bs[..i]
  {}

  /** A frame that is read is the one the encoder writes exactly if its length is written without a
      needless zero and in fewer than ten bytes. */
  lemma AcceptedFrame(bs: Bytes)
    requires ReadFrame(bs).Frame?
    ensures var f := ReadFrame(bs);
            var count := DecodeVarint(bs).count;
            && DecodeVarint(bs).Value? && |f.bytes| == DecodeVarint(bs).value
            && (bs[..f.used] == EncodeFrame(f.bytes) <==> count == 1 || (count < 10 && bs[count - 1] != 0))
  {
    hide DecodeVarint, EncodeVarint;
    var f, v := ReadFrame(bs), DecodeVarint(bs);
    AcceptedVarint(bs);
    var head := EncodeVarint(v.value);
    PrefixSplit(bs, v.count, f.used);
    if bs[..f.used] == EncodeFrame(f.bytes) {
      assert |head| == v.count;
      assert bs[..f.used][..v.count] == bs[..v.count];
      assert EncodeFrame(f.bytes)[..|head|] == head;
    }
  }

  lemma ReadFramesStep(f: Bytes, tail: Bytes)
    requires |f| <= MAX_INT64
    ensures ReadFrames(EncodeFrame(f) + tail) == ([f] + ReadFrames(tail).0, ReadFrames(tail).1)
  {
    hide ReadFrame, EncodeFrame;
    FrameRoundTrip(f, tail);
    assert (EncodeFrame(f) + tail)[|EncodeFrame(f)|..] == tail;
  }

  lemma {:induction false} ReadAfterFrames(fs: seq<Bytes>, rest: Bytes)
    requires GoSlices(fs)
    ensures ReadFrames(EncodeFrames(fs) + rest) == (fs + ReadFrames(rest).0, ReadFrames(rest).1)
  {
    hide ReadFrames, EncodeFrame;
    if fs == [] {
      assert EncodeFrames(fs) + rest == rest;
      assert fs + ReadFrames(rest).0 == ReadFrames(rest).0;
    } else {
      var tail := EncodeFrames(fs[1..]) + rest;
      assert EncodeFrames(fs) + rest == EncodeFrame(fs[0]) + tail;
      ReadFramesStep(fs[0], tail);
      ReadAfterFrames(fs[1..], rest);
      assert [fs[0]] + (fs[1..] + ReadFrames(rest).0) == fs + ReadFrames(rest).0;
    }
  }

  /** Printing any list of frames and reading until the end of input returns the list. */
  lemma FramesRoundTrip(fs: seq<Bytes>)
    requires GoSlices(fs)
    ensures ReadFrames(EncodeFrames(fs)) == (fs, NoFrame)
  {
    ReadAfterFrames(fs, []);
    assert EncodeFrames(fs) + [] == EncodeFrames(fs);
    assert ReadFrames([]) == ([], NoFrame);
    assert fs + [] == fs;
  }

  lemma CutLength(length: nat, n: nat)
    requires length <= MAX_INT64 && n < |EncodeVarint(length)|
    ensures DecodeVarint(EncodeVarint(length)[..n]).EndOfInput?
  {
    hide EncodeVarint, DecodeVarint, Base128;
    var head := EncodeVarint(length);
    EncodingDenotes(length);
    VarintRoundTrip(length, []);
    assert forall i :: 0 <= i < n ==> head[i] >= 128;
    VarintOutcome(head[..n], n);
  }

  /** A frame that is cut off anywhere reads as an end of input, not as an error. */
  lemma CutFrame(f: Bytes, n: nat)
    requires |f| <= MAX_INT64 && n < |EncodeFrame(f)|
    ensures ReadFrame(EncodeFrame(f)[..n]) in {NoFrame, Cut}
  {
    hide EncodeVarint, DecodeVarint;
    var head := EncodeVarint(|f|);
    if n < |head| {
      CutLength(|f|, n);
      assert EncodeFrame(f)[..n] == head[..n];
    } else {
      assert EncodeFrame(f)[..n] == head + f[..n - |head|];
      VarintRoundTrip(|f|, f[..n - |head|]);
    }
  }

  // ----- The import

  datatype IdentityField = Absent | Good | Malformed

  /** What the decoded frame holds, as far as the import looks at it */
  datatype Kind =
    | Unparsable
    | ChatItem
    | Contact(hasAci: bool, hasE164: bool, hasPni: bool, identity: IdentityField)
    | Group(masterKeyLength: nat)
    | OtherFrame

  datatype Target = Target(identities: bool, backupImport: bool, onChatItem: bool)

  datatype Stats = Stats(contacts: nat, groups: nat, identities: nat, frames: nat, chatItems: nat)
  {
    function Plus(t: Stats): Stats {
      Stats(contacts + t.contacts, groups + t.groups, identities + t.identities, frames + t.frames, chatItems + t.chatItems)
    }
  }

  const ZERO := Stats(0, 0, 0, 0, 0)

  /** Protobuf decoding, libsignal's validator, and whether the stores and the chat item handler
      take a frame; validator, stores and handler have seen all frames so far. */
  datatype World = World(
    kind: Bytes -> Kind,
    infoOk: Bytes -> bool,
    accepts: seq<Bytes> -> bool,
    finalizes: seq<Bytes> -> bool,
    sinkOk: seq<Bytes> -> bool)

  /** What one frame adds to the counters when it is imported */
  function Share(k: Kind, t: Target): Stats {
    match k
    case ChatItem => ZERO.(frames := 1, chatItems := 1)
    case Contact(aci, _, _, identity) =>
      ZERO.(frames := 1, contacts := if t.backupImport && aci then 1 else 0,
            identities := if t.identities && aci && identity != Absent then 1 else 0)
    case Group(length) => ZERO.(frames := 1, groups := if t.backupImport && length == 32 then 1 else 0)
    case _ => ZERO.(frames := 1)
  }

  /** Whether importing a frame succeeds: everything it touches must work. */
  predicate Imports(k: Kind, t: Target, sinkOk: bool) {
    match k
    case Unparsable => false
    case ChatItem => t.onChatItem ==> sinkOk
    case Contact(aci, _, _, identity) =>
      && (t.backupImport && aci ==> sinkOk)
      && (t.identities && aci && identity != Absent ==> identity == Good && sinkOk)
    case Group(length) => t.backupImport && length == 32 ==> sinkOk
    case OtherFrame => true
  }

  /** The frames the loop does not skip */
  function Kept(fs: seq<Bytes>): (kept: seq<Bytes>)
    ensures |kept| <= |fs| && [] !in kept
  {
    if fs == [] then [] else (if fs[0] == [] then [] else [fs[0]]) + Kept(fs[1..])
  }

  /** Only empty frames are skipped. */
  lemma {:induction false} KeptWhole(fs: seq<Bytes>)
    requires [] !in fs
    ensures Kept(fs) == fs
  {
    if fs != [] {
      KeptWhole(fs[1..]);
      assert fs == [fs[0]] + fs[1..];
    }
  }

  function Tally(w: World, t: Target, kept: seq<Bytes>): Stats {
    if kept == [] then ZERO else Share(w.kind(kept[0]), t).Plus(Tally(w, t, kept[1..]))
  }

  /** The validator accepts the frames up to this one, and this one imports. */
  ghost predicate ImportsAt(w: World, t: Target, seen: seq<Bytes>, kept: seq<Bytes>, i: nat)
    requires i < |kept|
  {
    w.accepts(seen + kept[..i + 1]) && Imports(w.kind(kept[i]), t, w.sinkOk(seen + kept[..i + 1]))
  }

  ghost predicate AllImport(w: World, t: Target, seen: seq<Bytes>, kept: seq<Bytes>) {
    forall i :: 0 <= i < |kept| ==> ImportsAt(w, t, seen, kept, i)
  }

  /** The frame loop on the bytes left, the frames validated and the counters so far */
  function ImportRest(w: World, t: Target, bs: Bytes, seen: seq<Bytes>, stats: Stats): Option<Stats>
    decreases |bs|
  {
    match ReadFrame(bs)
    case Frame(f, used) =>
      if f == [] then ImportRest(w, t, bs[used..], seen, stats)
      else if !w.accepts(seen + [f]) || !Imports(w.kind(f), t, w.sinkOk(seen + [f])) then None
      else ImportRest(w, t, bs[used..], seen + [f], stats.Plus(Share(w.kind(f), t)))
    case Bad => None
    case _ => if w.finalizes(seen) then Some(stats) else None
  }

  function Import(w: World, t: Target, plain: Bytes): Option<Stats> {
    match ReadFrame(plain)
    case Frame(info, used) => if w.infoOk(info) then ImportRest(w, t, plain[used..], [], ZERO) else None
    case _ => None
  }

  lemma ImportsAtCons(w: World, t: Target, seen: seq<Bytes>, f: Bytes, kept: seq<Bytes>, i: nat)
    requires i < |kept|
    ensures ImportsAt(w, t, seen, [f] + kept, i + 1) == ImportsAt(w, t, seen + [f], kept, i)
  {
    hide Imports;
    var all := [f] + kept;
    assert all[..i + 2] == [f] + kept[..i + 1];
    assert seen + all[..i + 2] == seen + [f] + kept[..i + 1];
  }

  lemma ImportsAtFirst(w: World, t: Target, seen: seq<Bytes>, f: Bytes, kept: seq<Bytes>)
    ensures ImportsAt(w, t, seen, [f] + kept, 0) == (w.accepts(seen + [f]) && Imports(w.kind(f), t, w.sinkOk(seen + [f])))
  {
    hide Imports;
    assert ([f] + kept)[..1] == [f];
  }

  lemma AllImportCons(w: World, t: Target, seen: seq<Bytes>, f: Bytes, kept: seq<Bytes>)
    ensures AllImport(w, t, seen, [f] + kept) <==>
      w.accepts(seen + [f]) && Imports(w.kind(f), t, w.sinkOk(seen + [f])) && AllImport(w, t, seen + [f], kept)
  {
    hide Imports, ImportsAt;
    var all := [f] + kept;
    ImportsAtFirst(w, t, seen, f, kept);
    forall i | 0 <= i < |kept|
      ensures ImportsAt(w, t, seen, all, i + 1) == ImportsAt(w, t, seen + [f], kept, i)
    {
      ImportsAtCons(w, t, seen, f, kept, i);
    }
    if AllImport(w, t, seen, all) {
      assert ImportsAt(w, t, seen, all, 0);
    } else if ImportsAt(w, t, seen, all, 0) {
      var i :| 0 <= i < |all| && !ImportsAt(w, t, seen, all, i);
      assert !ImportsAt(w, t, seen + [f], kept, i - 1);
    }
  }

  lemma NothingImports(w: World, t: Target, seen: seq<Bytes>)
    ensures AllImport(w, t, seen, [])
  {}

  /** The frame loop against the list of frames: when it succeeds, and what it has then counted. */
  lemma {:induction false} ImportCounts(w: World, t: Target, bs: Bytes, seen: seq<Bytes>, stats: Stats)
    ensures var r, kept := ImportRest(w, t, bs, seen, stats), Kept(ReadFrames(bs).0);
            && (r.Some? <==> !ReadFrames(bs).1.Bad? && AllImport(w, t, seen, kept) && w.finalizes(seen + kept))
            && (r.Some? ==> r.value == stats.Plus(Tally(w, t, kept)))
    decreases |bs|
  {
    hide ReadFrame, AllImport, Imports, Share;
    var frame := ReadFrame(bs);
    if frame.Frame? {
      var f, rest := frame.bytes, bs[frame.used..];
      var fs := ReadFrames(bs).0;
      assert fs[0] == f && fs[1..] == ReadFrames(rest).0;
      var kept := Kept(fs[1..]);
      if f == [] {
        assert Kept(fs) == kept;
        ImportCounts(w, t, rest, seen, stats);
      } else {
        assert Kept(fs) == [f] + kept && ([f] + kept)[1..] == kept;
        assert seen + [f] + kept == seen + ([f] + kept);
        AllImportCons(w, t, seen, f, kept);
        ImportCounts(w, t, rest, seen + [f], stats.Plus(Share(w.kind(f), t)));
      }
    } else {
      assert ReadFrames(bs).0 == [];
      NothingImports(w, t, seen);
      assert seen + [] == seen;
    }
  }

  datatype Counter = Contacts | Groups | Identities | ChatItems | Frames

  /** Which frames a counter is about */
  predicate Counted(c: Counter, k: Kind, t: Target) {
    match c
    case Contacts => k.Contact? && k.hasAci && t.backupImport
    case Groups => k.Group? && k.masterKeyLength == 32 && t.backupImport
    case Identities => k.Contact? && k.hasAci && k.identity != Absent && t.identities
    case ChatItems => k.ChatItem?
    case Frames => true
  }

  function Reading(c: Counter, s: Stats): nat {
    match c
    case Contacts => s.contacts
    case Groups => s.groups
    case Identities => s.identities
    case ChatItems => s.chatItems
    case Frames => s.frames
  }

  /** The positions of the frames a counter is about */
  function Where(w: World, t: Target, kept: seq<Bytes>, c: Counter): set<nat> {
    set i: nat | i < |kept| && Counted(c, w.kind(kept[i]), t)
  }

  lemma {:induction false} TallyLast(w: World, t: Target, kept: seq<Bytes>, f: Bytes)
    ensures Tally(w, t, kept + [f]) == Tally(w, t, kept).Plus(Share(w.kind(f), t))
  {
    hide Share;
    if kept == [] {
      assert kept + [f] == [f] && [f][1..] == [];
    } else {
      assert (kept + [f])[1..] == kept[1..] + [f];
      TallyLast(w, t, kept[1..], f);
    }
  }

  lemma ShareReads(k: Kind, t: Target, c: Counter)
    ensures Reading(c, Share(k, t)) == if Counted(c, k, t) then 1 else 0
  {}

  lemma PlusReads(a: Stats, b: Stats, c: Counter)
    ensures Reading(c, a.Plus(b)) == Reading(c, a) + Reading(c, b)
  {}

  lemma WhereLast(w: World, t: Target, kept: seq<Bytes>, f: Bytes, c: Counter)
    ensures |Where(w, t, kept + [f], c)| == |Where(w, t, kept, c)| + if Counted(c, w.kind(f), t) then 1 else 0
  {
    hide Counted;
    var here: set<nat> := if Counted(c, w.kind(f), t) then {|kept|} else {};
    assert Where(w, t, kept + [f], c) == Where(w, t, kept, c) + here;
  }

  /** Each counter is the number of frames it is about. */
  lemma {:induction false} TallyCounts(w: World, t: Target, kept: seq<Bytes>, c: Counter)
    ensures Reading(c, Tally(w, t, kept)) == |Where(w, t, kept, c)|
    decreases |kept|
  {
    hide Share, Counted, Reading;
    if kept == [] {
      assert Where(w, t, kept, c) == {};
      ZeroReads(c);
    } else {
      var front, f := kept[..|kept| - 1], kept[|kept| - 1];
      assert kept == front + [f];
      TallyCounts(w, t, front, c);
      TallyLast(w, t, front, f);
      PlusReads(Tally(w, t, front), Share(w.kind(f), t), c);
      ShareReads(w.kind(f), t, c);
      WhereLast(w, t, front, f, c);
    }
  }

  lemma ZeroReads(c: Counter)
    ensures Reading(c, ZERO) == 0
  {}

  ghost predicate CountsAll(w: World, t: Target, kept: seq<Bytes>, s: Stats) {
    && s.contacts == |Where(w, t, kept, Contacts)|
    && s.groups == |Where(w, t, kept, Groups)|
    && s.identities == |Where(w, t, kept, Identities)|
    && s.chatItems == |Where(w, t, kept, ChatItems)|
    && s.frames == |kept|
  }

  lemma TallyCountsAll(w: World, t: Target, kept: seq<Bytes>)
    ensures CountsAll(w, t, kept, Tally(w, t, kept))
  {
    hide Tally, Where;
    TallyCounts(w, t, kept, Contacts);
    TallyCounts(w, t, kept, Groups);
    TallyCounts(w, t, kept, Identities);
    TallyCounts(w, t, kept, ChatItems);
    TallyCounts(w, t, kept, Frames);
    AllPositions(w, t, kept);
  }

  lemma {:induction false} AllPositions(w: World, t: Target, kept: seq<Bytes>)
    ensures |Where(w, t, kept, Frames)| == |kept|
    decreases |kept|
  {
    if kept == [] {
      assert Where(w, t, kept, Frames) == {};
    } else {
      var front, f := kept[..|kept| - 1], kept[|kept| - 1];
      assert kept == front + [f];
      AllPositions(w, t, front);
      WhereLast(w, t, front, f, Frames);
    }
  }

  lemma ImportStarts(w: World, t: Target, info: Bytes, rest: Bytes)
    requires |info| <= MAX_INT64
    ensures Import(w, t, EncodeFrame(info) + rest) ==
      if w.infoOk(info) then ImportRest(w, t, rest, [], ZERO) else None
  {
    hide ReadFrame, EncodeFrame, ImportRest;
    FrameRoundTrip(info, rest);
    assert (EncodeFrame(info) + rest)[|EncodeFrame(info)|..] == rest;
  }

  lemma EncodeFramesCons(f: Bytes, fs: seq<Bytes>)
    ensures EncodeFrames([f] + fs) == EncodeFrame(f) + EncodeFrames(fs)
  {
    assert ([f] + fs)[1..] == fs;
  }

  /** Importing a well-formed stream succeeds exactly if the info frame is good, every non-empty
      frame after it is accepted and imports, and the validator accepts the whole. Each counter is
      then the number of those frames that are of its kind. */
  lemma ImportIsExact(w: World, t: Target, info: Bytes, fs: seq<Bytes>)
    requires |info| <= MAX_INT64 && GoSlices(fs)
    ensures var r, kept := Import(w, t, EncodeFrames([info] + fs)), Kept(fs);
            && (r.Some? <==> w.infoOk(info) && AllImport(w, t, [], kept) && w.finalizes(kept))
            && (r.Some? ==> CountsAll(w, t, kept, r.value))
            && ([] !in fs ==> kept == fs)
  {
    hide *;
    if [] !in fs { KeptWhole(fs); }
    EncodeFramesCons(info, fs);
    ImportStarts(w, t, info, EncodeFrames(fs));
    FramesRoundTrip(fs);
    TallyCountsAll(w, t, Kept(fs));
    ImportCounts(w, t, EncodeFrames(fs), [], ZERO);
    assert [] + Kept(fs) == Kept(fs);
    PlusZero(Tally(w, t, Kept(fs)));
  }

  lemma PlusZero(s: Stats)
    ensures ZERO.Plus(s) == s
  {}

  /** A cut inside the info frame is reported. */
  lemma CutInfoIsReported(w: World, t: Target, info: Bytes, n: nat)
    requires |info| <= MAX_INT64 && n < |EncodeFrame(info)|
    ensures Import(w, t, EncodeFrame(info)[..n]) == None
  {
    hide ReadFrame, EncodeFrame;
    CutFrame(info, n);
  }

  /** A stream cut inside any later frame imports like the whole frames before the cut: nothing
      reports the loss. */
  lemma TruncationIsSilent(w: World, t: Target, info: Bytes, fs: seq<Bytes>, f: Bytes, n: nat)
    requires |info| <= MAX_INT64 && GoSlices(fs) && |f| <= MAX_INT64 && n < |EncodeFrame(f)|
    ensures Import(w, t, EncodeFrames([info] + fs) + EncodeFrame(f)[..n]) == Import(w, t, EncodeFrames([info] + fs))
  {
    hide Import, ImportRest, ReadFrame, EncodeFrames, EncodeFrame;
    var cut := EncodeFrame(f)[..n];
    CutFrame(f, n);
    EncodeFramesCons(info, fs);
    assert EncodeFrames([info] + fs) + cut == EncodeFrame(info) + (EncodeFrames(fs) + cut);
    ImportStarts(w, t, info, EncodeFrames(fs) + cut);
    ImportStarts(w, t, info, EncodeFrames(fs));
    ImportIgnoresCut(w, t, fs, cut, [], ZERO);
  }

  lemma {:induction false} ImportIgnoresCut(w: World, t: Target, fs: seq<Bytes>, cut: Bytes, seen: seq<Bytes>, stats: Stats)
    requires GoSlices(fs) && ReadFrame(cut) in {NoFrame, Cut}
    ensures ImportRest(w, t, EncodeFrames(fs) + cut, seen, stats) == ImportRest(w, t, EncodeFrames(fs), seen, stats)
    decreases fs
  {
    hide ReadFrame, EncodeFrame;
    if fs == [] {
      assert EncodeFrames(fs) + cut == cut;
      EmptyInput();
    } else {
      var f, rest := fs[0], EncodeFrames(fs[1..]);
      assert EncodeFrames(fs) + cut == EncodeFrame(f) + (rest + cut);
      FrameRoundTrip(f, rest + cut);
      FrameRoundTrip(f, rest);
      assert (EncodeFrames(fs) + cut)[|EncodeFrame(f)|..] == rest + cut;
      assert EncodeFrames(fs)[|EncodeFrame(f)|..] == rest;
      if f == [] {
        ImportIgnoresCut(w, t, fs[1..], cut, seen, stats);
      } else {
        ImportIgnoresCut(w, t, fs[1..], cut, seen + [f], stats.Plus(Share(w.kind(f), t)));
      }
    }
  }

  /** Whether the frame is handed to a store or to the handler */
  predicate Writes(k: Kind, t: Target) {
    || Counted(Contacts, k, t) || Counted(Groups, k, t) || Counted(Identities, k, t)
    || (Counted(ChatItems, k, t) && t.onChatItem)
  }

  /** One frame's own counters, `frames` aside: one more wherever the frame counts */
  ghost predicate CountsOne(k: Kind, t: Target, before: Stats, after: Stats) {
    && after.frames == before.frames
    && forall c: Counter :: c != Frames ==> Reading(c, after) == Reading(c, before) + if Counted(c, k, t) then 1 else 0
  }

  lemma CountsOneIsShare(k: Kind, t: Target, stats: Stats)
    ensures CountsOne(k, t, stats, stats.Plus(Share(k, t).(frames := 0)))
  {}

  /** A frame imports exactly if it decodes, holds no malformed identity that is looked at, and
      what it is handed to takes it. */
  lemma ImportsExactly(k: Kind, t: Target, sinkOk: bool)
    ensures Imports(k, t, sinkOk) <==>
              && !k.Unparsable?
              && (Counted(Identities, k, t) ==> k.identity == Good)
              && (Writes(k, t) ==> sinkOk)
  {}

  method ImportContact(k: Kind, t: Target, sinkOk: bool, stats: Stats) returns (r: Option<Stats>)
    requires k.Contact?
    ensures r.Some? <==> (Counted(Identities, k, t) ==> k.identity == Good) && (Writes(k, t) ==> sinkOk)
    ensures r.Some? ==> r.value == stats.Plus(Share(k, t).(frames := 0)) && CountsOne(k, t, stats, r.value)
  {
    CountsOneIsShare(k, t, stats);
    var after := stats;
    if !k.hasAci && !k.hasE164 && !k.hasPni {
      return Some(after);
    }
    if t.backupImport && k.hasAci {
      if !sinkOk {
        return None;
      }
      after := after.(contacts := after.contacts + 1);
    }
    if t.identities && k.hasAci && k.identity != Absent {
      if k.identity == Malformed || !sinkOk {
        return None;
      }
      after := after.(identities := after.identities + 1);
    }
    return Some(after);
  }

  method ImportFrame(k: Kind, t: Target, sinkOk: bool, stats: Stats) returns (r: Option<Stats>)
    ensures r.Some? <==> Imports(k, t, sinkOk)
    ensures r.Some? ==> r.value == stats.Plus(Share(k, t).(frames := 0)) && CountsOne(k, t, stats, r.value)
  {
    ImportsExactly(k, t, sinkOk);
    CountsOneIsShare(k, t, stats);
    match k {
      case Unparsable =>
        return None;
      case ChatItem =>
        if t.onChatItem && !sinkOk {
          return None;
        }
        return Some(stats.(chatItems := stats.chatItems + 1));
      case Contact(_, _, _, _) =>
        r := ImportContact(k, t, sinkOk, stats);
      case Group(length) =>
        if !t.backupImport || length != 32 {
          return Some(stats);
        }
        if !sinkOk {
          return None;
        }
        return Some(stats.(groups := stats.groups + 1));
      case OtherFrame =>
        return Some(stats);
    }
  }

  lemma ImportRestStep(w: World, t: Target, bs: Bytes, seen: seq<Bytes>, stats: Stats, frame: FrameResult)
    requires frame == ReadFrame(bs)
    ensures frame.Frame? && frame.bytes == [] ==>
      ImportRest(w, t, bs, seen, stats) == ImportRest(w, t, bs[frame.used..], seen, stats)
    ensures frame.Frame? && frame.bytes != [] ==>
      var f := frame.bytes;
      ImportRest(w, t, bs, seen, stats) ==
        if !w.accepts(seen + [f]) || !Imports(w.kind(f), t, w.sinkOk(seen + [f])) then None
        else ImportRest(w, t, bs[frame.used..], seen + [f], stats.Plus(Share(w.kind(f), t)))
    ensures frame.Bad? ==> ImportRest(w, t, bs, seen, stats) == None
    ensures frame.NoFrame? || frame.Cut? ==>
      ImportRest(w, t, bs, seen, stats) == if w.finalizes(seen) then Some(stats) else None
  {
    hide ReadFrame;
  }

  /** Whatever the stream, the counters returned are those of the frames read. */
  lemma ImportCountsKinds(w: World, t: Target, plain: Bytes)
    requires Import(w, t, plain).Some?
    ensures ReadFrame(plain).Frame?
    ensures CountsAll(w, t, Kept(ReadFrames(plain[ReadFrame(plain).used..]).0), Import(w, t, plain).value)
  {
    hide ReadFrame, ImportRest, Tally, CountsAll;
    var rest := plain[ReadFrame(plain).used..];
    ImportCounts(w, t, rest, [], ZERO);
    TallyCountsAll(w, t, Kept(ReadFrames(rest).0));
    PlusZero(Tally(w, t, Kept(ReadFrames(rest).0)));
  }

  method ImportPlaintext(w: World, t: Target, plain: Bytes) returns (r: Option<Stats>)
    ensures r == Import(w, t, plain)
    ensures r.Some? ==>
      ReadFrame(plain).Frame? && CountsAll(w, t, Kept(ReadFrames(plain[ReadFrame(plain).used..]).0), r.value)
  {
    hide ReadFrame, ReadFrames, Kept, ImportRest, Imports, CountsAll;
    var reader := new ByteReader(plain);
    var first := reader.ReadVarintFrame();
    if !first.Frame? || !w.infoOk(first.bytes) {
      return None;
    }
    var seen: seq<Bytes>, stats := [], ZERO;
    while true
      invariant ImportRest(w, t, reader.rest, seen, stats) == Import(w, t, plain)
      decreases |reader.rest|
    {
      ghost var bs := reader.rest;
      var frame := reader.ReadVarintFrame();
      ImportRestStep(w, t, bs, seen, stats, frame);
      if frame.NoFrame? || frame.Cut? {
        break;
      }
      if frame.Bad? {
        return None;
      }
      if frame.bytes == [] {
        continue;
      }
      seen := seen + [frame.bytes];
      if !w.accepts(seen) {
        return None;
      }
      stats := stats.(frames := stats.frames + 1);
      var imported := ImportFrame(w.kind(frame.bytes), t, w.sinkOk(seen), stats);
      if imported.None? {
        return None;
      }
      stats := imported.value;
    }
    if !w.finalizes(seen) {
      return None;
    }
    ImportCountsKinds(w, t, plain);
    return Some(stats);
  }
}
