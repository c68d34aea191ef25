/** PKCS#7 padding (section 6.3 of RFC 5652): the padder of internal/attachment/cipher.go and the
    three unpadders of attachments, backups and provisioning. */
module Pkcs7 {
  import opened Wrappers
  import opened Bits

  const AES_BLOCK: nat := 16

  function Repeat(b: Byte, n: nat): (r: Bytes)
    ensures |r| == n && forall i :: 0 <= i < n ==> r[i] == b
  {
    seq(n, _ => b)
  }

  function PadLength(n: nat, blockSize: nat): (k: nat)
    requires blockSize > 0
    ensures 1 <= k <= blockSize && (n + k) % blockSize == 0
  {
    PadLengthAligns(n, blockSize);
    blockSize - n % blockSize
  }

  lemma PadLengthAligns(n: nat, blockSize: nat)
    requires blockSize > 0
    ensures (n + (blockSize - n % blockSize)) % blockSize == 0
  {
    var q := n / blockSize;
    assert n == q * blockSize + n % blockSize;
    assert n + (blockSize - n % blockSize) == (q + 1) * blockSize;
    DivModUnique((q + 1) * blockSize, blockSize, q + 1, 0);
  }

  /** Only one padding length between 1 and the block size reaches a multiple of it. */
  lemma PadLengthUnique(n: nat, k: nat, blockSize: nat)
    requires 1 <= k <= blockSize && (n + k) % blockSize == 0
    ensures k == PadLength(n, blockSize)
  {
    var q := (n + k) / blockSize;
    assert n + k == q * blockSize;
    assert n == (q - 1) * blockSize + (blockSize - k);
    DivModUnique(n, blockSize, q - 1, blockSize - k);
  }

  /** The plaintext followed by as many bytes as are missing, each holding that number */
  function Pad(p: Bytes, blockSize: nat): (d: Bytes)
    requires 0 < blockSize < 256
  {
    p + Repeat(PadLength(|p|, blockSize), PadLength(|p|, blockSize))
  }

  /** The last byte says how many bytes to drop, and all of those hold it. */
  predicate EndsInPadding(d: Bytes, blockSize: nat) {
    && d != []
    && 1 <= d[|d| - 1] <= blockSize && d[|d| - 1] <= |d|
    && forall i :: |d| - d[|d| - 1] <= i < |d| ==> d[i] == d[|d| - 1]
  }

  function UnpadAnyLength(d: Bytes, blockSize: nat): Option<Bytes> {
    if EndsInPadding(d, blockSize) then Some(d[..|d| - d[|d| - 1]]) else None
  }

  function Unpad(d: Bytes, blockSize: nat): Option<Bytes>
    requires blockSize > 0
  {
    if |d| % blockSize == 0 then UnpadAnyLength(d, blockSize) else None
  }

  lemma PaddedLength(p: Bytes, blockSize: nat)
    requires 0 < blockSize < 256
    ensures |Pad(p, blockSize)| % blockSize == 0
    ensures |Pad(p, blockSize)| == (|p| / blockSize + 1) * blockSize
  {
    var q := |p| / blockSize;
    assert |p| == q * blockSize + |p| % blockSize;
  }

  /** Unpadding undoes padding, and what it accepts is exactly the padding of what it returns. */
  lemma UnpadInvertsPad(d: Bytes, p: Bytes, blockSize: nat)
    requires 0 < blockSize < 256
    ensures Unpad(d, blockSize) == Some(p) <==> d == Pad(p, blockSize)
  {
    if d == Pad(p, blockSize) {
      PaddedLength(p, blockSize);
      assert d[|d| - 1] == PadLength(|p|, blockSize);
      assert d[..|p|] == p;
    }
    if Unpad(d, blockSize) == Some(p) {
      var k := d[|d| - 1];
      PadLengthUnique(|p|, k, blockSize);
      assert d == p + Repeat(k, k);
    }
  }

  /** Without the alignment check the provisioning unpadder accepts more: the two differ exactly
      on the unaligned inputs that end in something like padding, such as any that end in 1. */
  lemma AlignmentCheckMatters(d: Bytes, p: Bytes)
    ensures Unpad(d, AES_BLOCK) == UnpadAnyLength(d, AES_BLOCK) <==>
      |d| % AES_BLOCK == 0 || !EndsInPadding(d, AES_BLOCK)
    ensures UnpadAnyLength(p + [1], AES_BLOCK) == Some(p)
    ensures Unpad(p + [1], AES_BLOCK) == Some(p) <==> |p| % AES_BLOCK == AES_BLOCK - 1
  {
    assert (p + [1])[..|p|] == p;
  }

  /** pkcs7Pad of attachments */
  method PadAttachment(data: Bytes, blockSize: nat) returns (padded: Bytes)
    requires 0 < blockSize < 256
    ensures padded == Pad(data, blockSize)
  {
    var padding := blockSize - |data| % blockSize;
    if padding == 0 {
      padding := blockSize;
    }
    var out := new Byte[|data| + padding](i requires 0 <= i => if i < |data| then data[i] else 0);
    for i := |data| to out.Length
      invariant out[..|data|] == data
      invariant forall j :: |data| <= j < i ==> out[j] == padding
    {
      out[i] := padding;
    }
    return out[..];
  }

  /** pkcs7Unpad of attachments, comparing byte by byte */
  method UnpadAttachment(data: Bytes, blockSize: nat) returns (plain: Option<Bytes>)
    requires blockSize > 0
    ensures plain == Unpad(data, blockSize)
  {
    if |data| == 0 || |data| % blockSize != 0 {
      return None;
    }
    var padding := data[|data| - 1];
    if padding == 0 || padding > blockSize || padding > |data| {
      return None;
    }
    for i := |data| - padding to |data|
      invariant forall j :: |data| - padding <= j < i ==> data[j] == padding
    {
      if data[i] != padding {
        return None;
      }
    }
    return Some(data[..|data| - padding]);
  }

  /** pkcs7Unpad of backups, accumulating the differences over the tail */
  method UnpadBackup(data: Bytes, blockSize: nat) returns (plain: Option<Bytes>)
    requires blockSize > 0
    ensures plain == Unpad(data, blockSize)
  {
    if |data| == 0 || |data| % blockSize != 0 {
      return None;
    }
    var padLen := data[|data| - 1];
    if padLen == 0 || padLen > blockSize || padLen > |data| {
      return None;
    }
    var diff: nat := 0;
    var tail := data[|data| - padLen..];
    for i := 0 to |tail|
      invariant diff == 0 <==> forall j :: 0 <= j < i ==> tail[j] == padLen
    {
      OrIsZero(diff, Xor(tail[i], padLen));
      XorIsZero(tail[i], padLen);
      diff := Or(diff, Xor(tail[i], padLen));
    }
    if diff != 0 {
      return None;
    }
    assert forall j :: |data| - padLen <= j < |data| ==> data[j] == tail[j - (|data| - padLen)];
    return Some(data[..|data| - padLen]);
  }

  /** pkcs7Unpad of provisioning, accumulating by index, without an alignment check of its own */
  method UnpadProvisioning(data: Bytes) returns (plain: Option<Bytes>)
    ensures plain == UnpadAnyLength(data, AES_BLOCK)
    ensures |data| % AES_BLOCK == 0 ==> plain == Unpad(data, AES_BLOCK)
  {
    if |data| == 0 {
      return None;
    }
    var padLen := data[|data| - 1];
    if padLen == 0 || padLen > AES_BLOCK || padLen > |data| {
      return None;
    }
    var diff: nat := 0;
    for i := |data| - padLen to |data|
      invariant diff == 0 <==> forall j :: |data| - padLen <= j < i ==> data[j] == padLen
    {
      OrIsZero(diff, Xor(data[i], padLen));
      XorIsZero(data[i], padLen);
      diff := Or(diff, Xor(data[i], padLen));
    }
    if diff != 0 {
      return None;
    }
    return Some(data[..|data| - padLen]);
  }
}
