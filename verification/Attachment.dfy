/** Attachment encryption (internal/attachment): the v1 and v2 blob formats, the logarithmic
    plaintext padding of v2, and the choice between the two when decrypting. */
module Attachment {
  import opened Wrappers
  import opened Bits
  import opened Pkcs7
  import opened Primitives

  const MAX_INT64: int := 0x7FFF_FFFF_FFFF_FFFF

  datatype Error =
    | KeySize | TooShort | DigestSize | MacMismatch | DigestMismatch | Unaligned | BadPadding
    | ShorterThanExpected | ChunkSizeRequired | IncrementalMacFailed

  // ----- The blob both formats share

  /** The IV, the padded plaintext encrypted, and a tag over both */
  function Seal(c: Crypto, key: Bytes, iv: Bytes, plain: Bytes): Bytes
    requires |key| == COMBINED_KEY_SIZE
  {
    var body := iv + c.encrypt(CipherKey(key), iv, Pad(plain, AES_BLOCK));
    body + c.hmac(MacKey(key), body)
  }

  function Tag(blob: Bytes): Bytes
    requires |blob| >= MAC_SIZE
  {
    blob[|blob| - MAC_SIZE..]
  }

  function Body(blob: Bytes): Bytes
    requires |blob| >= MAC_SIZE
  {
    blob[..|blob| - MAC_SIZE]
  }

  function DecryptBody(c: Crypto, key: Bytes, body: Bytes): Result<Bytes, Error>
    requires |key| == COMBINED_KEY_SIZE && |body| >= IV_SIZE
  {
    var iv, enc := body[..IV_SIZE], body[IV_SIZE..];
    if |enc| % AES_BLOCK != 0 then Err(Unaligned)
    else
      match Unpad(c.decrypt(CipherKey(key), iv, enc), AES_BLOCK)
      case Some(plain) => Ok(plain)
      case None => Err(BadPadding)
  }

  /** Whether a blob is the sealing of this plaintext under its own first 16 bytes */
  ghost predicate Seals(c: Crypto, key: Bytes, blob: Bytes, plain: Bytes)
    requires |key| == COMBINED_KEY_SIZE
  {
    |blob| >= IV_SIZE && blob == Seal(c, key, blob[..IV_SIZE], plain)
  }

  /** IV, whole blocks with at least one byte of padding, and tag */
  function SealedLength(n: nat): nat {
    IV_SIZE + (n / AES_BLOCK + 1) * AES_BLOCK + MAC_SIZE
  }

  lemma SealShape(c: Crypto, key: Bytes, iv: Bytes, plain: Bytes)
    requires Laws(c) && |key| == COMBINED_KEY_SIZE && |iv| == IV_SIZE
    ensures var blob := Seal(c, key, iv, plain);
            && |blob| == SealedLength(|plain|)
            && blob[..IV_SIZE] == iv
            && Body(blob) == iv + c.encrypt(CipherKey(key), iv, Pad(plain, AES_BLOCK))
            && Tag(blob) == c.hmac(MacKey(key), Body(blob))
  {
    PaddedLength(plain, AES_BLOCK);
    var body := iv + c.encrypt(CipherKey(key), iv, Pad(plain, AES_BLOCK));
    var blob := Seal(c, key, iv, plain);
    assert Body(blob) == body;
    assert blob[..IV_SIZE] == iv;
  }

  /** An authentic blob decrypts to exactly the plaintext it seals, and to nothing if it seals none. */
  lemma OpensExactlySeals(c: Crypto, key: Bytes, blob: Bytes, plain: Bytes)
    requires Laws(c) && |key| == COMBINED_KEY_SIZE
    requires |blob| > IV_SIZE + MAC_SIZE && Tag(blob) == c.hmac(MacKey(key), Body(blob))
    ensures DecryptBody(c, key, Body(blob)) == Ok(plain) <==> Seals(c, key, blob, plain)
  {
    var body, k := Body(blob), CipherKey(key);
    var iv, enc := body[..IV_SIZE], body[IV_SIZE..];
    assert iv == blob[..IV_SIZE] && body == iv + enc && blob == body + Tag(blob);
    var padded := Pad(plain, AES_BLOCK);
    PaddedLength(plain, AES_BLOCK);
    if Seals(c, key, blob, plain) {
      SealShape(c, key, iv, plain);
      assert enc == c.encrypt(k, iv, padded);
    }
    if |enc| % AES_BLOCK == 0 {
      UnpadInvertsPad(c.decrypt(k, iv, enc), plain, AES_BLOCK);
    }
  }

  // ----- Version 1

  /** Decrypt: checks in their order, then the body, then the optional truncation */
  function Open(c: Crypto, blob: Bytes, key: Bytes, digest: Option<Bytes>, plaintextLen: int): Result<Bytes, Error> {
    if |key| != COMBINED_KEY_SIZE then Err(KeySize)
    else if |blob| <= IV_SIZE + MAC_SIZE then Err(TooShort)
    else if digest.Some? && |digest.value| != 32 then Err(DigestSize)
    else if c.hmac(MacKey(key), Body(blob)) != Tag(blob) then Err(MacMismatch)
    else if digest.Some? && c.sha256(blob) != digest.value then Err(DigestMismatch)
    else
      match DecryptBody(c, key, Body(blob))
      case Err(e) => Err(e)
      case Ok(plain) =>
        if plaintextLen <= 0 then Ok(plain)
        else if |plain| < plaintextLen then Err(ShorterThanExpected)
        else Ok(plain[..plaintextLen])
  }

  /** Decrypting undoes encrypting, for every plaintext: with or without the digest, and cut to the
      length that was asked for. */
  lemma RoundTrip(c: Crypto, key: Bytes, iv: Bytes, plain: Bytes, digest: Option<Bytes>, n: int)
    requires Laws(c) && |key| == COMBINED_KEY_SIZE && |iv| == IV_SIZE
    requires digest.Some? ==> digest.value == c.sha256(Seal(c, key, iv, plain))
    ensures Open(c, Seal(c, key, iv, plain), key, digest, n) ==
      if n <= 0 then Ok(plain) else if n > |plain| then Err(ShorterThanExpected) else Ok(plain[..n])
    ensures Open(c, Seal(c, key, iv, plain), key, digest, |plain|) == Ok(plain)
  {
    hide Seal, Body, Tag, DecryptBody, Pad;
    SealShape(c, key, iv, plain);
    OpensExactlySeals(c, key, Seal(c, key, iv, plain), plain);
    assert plain[..|plain|] == plain;
  }

  /** The blob seals some plaintext, and the digest, if given, is that of the blob. */
  ghost predicate Sealed(c: Crypto, blob: Bytes, key: Bytes, digest: Option<Bytes>) {
    && |key| == COMBINED_KEY_SIZE
    && (exists plain :: Seals(c, key, blob, plain))
    && (digest.Some? ==> digest.value == c.sha256(blob))
  }

  /** All checks before the body succeed. */
  predicate Authentic(c: Crypto, blob: Bytes, key: Bytes, digest: Option<Bytes>) {
    && |key| == COMBINED_KEY_SIZE && |blob| > IV_SIZE + MAC_SIZE
    && Tag(blob) == c.hmac(MacKey(key), Body(blob))
    && (digest.Some? ==> digest.value == c.sha256(blob))
  }

  lemma SealedIsAuthentic(c: Crypto, blob: Bytes, key: Bytes, digest: Option<Bytes>)
    requires Laws(c)
    ensures Sealed(c, blob, key, digest) ==> Authentic(c, blob, key, digest)
  {
    hide Seal;
    if Sealed(c, blob, key, digest) {
      var plain :| Seals(c, key, blob, plain);
      SealShape(c, key, blob[..IV_SIZE], plain);
    }
  }

  /** Decrypting succeeds exactly on sealed blobs with the right digest and a length that is not
      beyond the plaintext, and returns that plaintext up to the length. */
  lemma AcceptsExactlySealed(c: Crypto, blob: Bytes, key: Bytes, digest: Option<Bytes>, n: int, r: Bytes)
    requires Laws(c)
    ensures Open(c, blob, key, digest, n) == Ok(r) <==>
      && Sealed(c, blob, key, digest)
      && exists plain :: Seals(c, key, blob, plain) && n <= |plain| && r == if n <= 0 then plain else plain[..n]
  {
    var open := Open(c, blob, key, digest, n);
    hide Seal, Seals, DecryptBody, Body, Tag;
    SealedIsAuthentic(c, blob, key, digest);
    if Authentic(c, blob, key, digest) {
      DigestSizes(c, blob, digest);
      forall plain {
        OpensExactlySeals(c, key, blob, plain);
      }
    }
  }

  lemma DigestSizes(c: Crypto, blob: Bytes, digest: Option<Bytes>)
    requires Laws(c)
    ensures digest.Some? && digest.value == c.sha256(blob) ==> |digest.value| == 32
  {}

  /** Two's complement truncation to 64 bits */
  function Int64(x: int): int {
    var low := x % 0x1_0000_0000_0000_0000;
    if low > MAX_INT64 then low - 0x1_0000_0000_0000_0000 else low
  }

  function CiphertextLength(plaintextLen: int): int {
    if plaintextLen < 0 then 0
    else
      var padded := Int64((plaintextLen / AES_BLOCK + 1) * AES_BLOCK);
      Int64(IV_SIZE + padded + MAC_SIZE)
  }

  /** The formula is the length of the real blob, for every plaintext whose blob has an int64 length. */
  lemma CiphertextLengthIsExact(c: Crypto, key: Bytes, iv: Bytes, plain: Bytes)
    requires Laws(c) && |key| == COMBINED_KEY_SIZE && |iv| == IV_SIZE && |plain| <= MAX_INT64
    ensures CiphertextLength(|plain|) == |Seal(c, key, iv, plain)| <==> |Seal(c, key, iv, plain)| <= MAX_INT64
  {
    hide Seal, Laws;
    SealShape(c, key, iv, plain);
  }

  /** Encrypt, the random IV given */
  method Encrypt(c: Crypto, plain: Bytes, key: Bytes, iv: Bytes) returns (r: Result<(Bytes, Bytes), Error>)
    requires |iv| == IV_SIZE
    ensures |key| != 64 ==> r == Err(KeySize)
    ensures |key| == 64 ==>
      var body := iv + c.encrypt(key[..32], iv, Pad(plain, 16));
      var blob := body + c.hmac(key[32..], body);
      r == Ok((blob, c.sha256(blob))) && blob == Seal(c, key, iv, plain)
  {
    if |key| != COMBINED_KEY_SIZE {
      return Err(KeySize);
    }
    var cipherKey, macKey := key[..CIPHER_KEY_SIZE], key[CIPHER_KEY_SIZE..];
    var padded := PadAttachment(plain, AES_BLOCK);
    var encrypted := c.encrypt(cipherKey, iv, padded);
    var tag := c.hmac(macKey, iv + encrypted);
    var out := iv;
    out := out + encrypted;
    out := out + tag;
    return Ok((out, c.sha256(out)));
  }

  method Decrypt(c: Crypto, blob: Bytes, key: Bytes, digest: Option<Bytes>, plaintextLen: int)
    returns (r: Result<Bytes, Error>)
    ensures r == Open(c, blob, key, digest, plaintextLen)
    ensures |key| != 64 <==> r == Err(KeySize)
    ensures |key| == 64 && |blob| <= 48 <==> r == Err(TooShort)
    ensures |key| == 64 && |blob| > 48 && digest.Some? && |digest.value| != 32 <==> r == Err(DigestSize)
    ensures |key| == 64 && |blob| > 48 && (digest.Some? ==> |digest.value| == 32) ==>
      var end := |blob| - 32;
      if c.hmac(key[32..], blob[..end]) != blob[end..] then r == Err(MacMismatch)
      else if digest.Some? && c.sha256(blob) != digest.value then r == Err(DigestMismatch)
      else r == Err(Unaligned) <==> (|blob| - 48) % 16 != 0
  {
    if |key| != COMBINED_KEY_SIZE {
      return Err(KeySize);
    }
    if |blob| <= IV_SIZE + MAC_SIZE {
      return Err(TooShort);
    }
    if digest.Some? && |digest.value| != 32 {
      return Err(DigestSize);
    }
    var bodyEnd := |blob| - MAC_SIZE;
    if c.hmac(key[CIPHER_KEY_SIZE..], blob[..bodyEnd]) != blob[bodyEnd..] {
      return Err(MacMismatch);
    }
    if digest.Some? && c.sha256(blob) != digest.value {
      return Err(DigestMismatch);
    }
    assert Body(blob)[..IV_SIZE] == blob[..IV_SIZE] && Body(blob)[IV_SIZE..] == blob[IV_SIZE..bodyEnd];
    var iv, enc := blob[..IV_SIZE], blob[IV_SIZE..bodyEnd];
    if |enc| % AES_BLOCK != 0 {
      return Err(Unaligned);
    }
    var unpadded := UnpadAttachment(c.decrypt(key[..CIPHER_KEY_SIZE], iv, enc), AES_BLOCK);
    if unpadded.None? {
      return Err(BadPadding);
    }
    var plain := unpadded.value;
    if plaintextLen > 0 {
      if |plain| < plaintextLen {
        return Err(ShorterThanExpected);
      }
      plain := plain[..plaintextLen];
    }
    return Ok(plain);
  }

  // ----- Logarithmic padding

  const MIN_PADDED: nat := 541

  function Growth(e: nat): (g: real)
    ensures g >= 1.0
  {
    if e == 0 then 1.0 else 1.05 * Growth(e - 1)
  }

  /** The least exponent, from this one on, at which 1.05 to it reaches the size */
  function LeastExponent(size: nat, e: nat): (r: nat)
    requires e == 0 || Growth(e - 1) < size as real
    ensures Growth(r) >= size as real && (r == 0 || Growth(r - 1) < size as real)
    decreases if Growth(e) >= size as real then 0 else ((size as real - Growth(e)) * 20.0).Floor + 1
  {
    if Growth(e) >= size as real then e
    else
      assert Growth(e + 1) >= Growth(e) + 0.05;
      LeastExponent(size, e + 1)
  }

  function LogPadSize(size: int): (n: nat) {
    if size <= 0 then MIN_PADDED
    else
      var n := Growth(LeastExponent(size, 0)).Floor;
      if n > MIN_PADDED then n else MIN_PADDED
  }

  /** Over exact rationals a plaintext grows to the minimum or by at most a twentieth. */
  lemma LogPadBounds(size: nat)
    ensures size <= LogPadSize(size)
    ensures LogPadSize(size) == MIN_PADDED || LogPadSize(size) as real <= 1.05 * size as real
  {
  }

  lemma {:induction false} GrowthIsMonotone(a: nat, b: nat)
    requires a <= b
    ensures Growth(a) <= Growth(b)
  {
    if a < b {
      GrowthIsMonotone(a, b - 1);
    }
  }

  /** Longer plaintexts never get shorter paddings. */
  lemma LogPadIsMonotone(a: int, b: int)
    requires a <= b
    ensures LogPadSize(a) <= LogPadSize(b)
  {
    if 0 < a {
      var i, j := LeastExponent(a, 0), LeastExponent(b, 0);
      if i > j {
        GrowthIsMonotone(j, i - 1);
        assert false;
      }
      GrowthIsMonotone(i, j);
    }
  }

  lemma {:induction false} GrowthAdds(a: nat, b: nat)
    ensures Growth(a + b) == Growth(a) * Growth(b)
  {
    if b == 0 {
      assert Growth(0) == 1.0;
    } else {
      GrowthAdds(a, b - 1);
      assert Growth(a + b) == 1.05 * Growth(a + (b - 1)) && Growth(b) == 1.05 * Growth(b - 1);
      assert 1.05 * (Growth(a) * Growth(b - 1)) == Growth(a) * (1.05 * Growth(b - 1));
    }
  }

  lemma SquareBounds(g: real, low: real, high: real)
    requires 0.0 < low <= g <= high
    ensures low * low <= g * g <= high * high
  {
    assert low * low <= low * g <= g * g;
    assert g * g <= g * high <= high * high;
  }

  lemma GrowthDoubles(e: nat, low: real, high: real)
    requires 0.0 < low <= Growth(e) <= high
    ensures low * low <= Growth(2 * e) <= high * high
  {
    hide Growth;
    assert 2 * e == e + e;
    GrowthAdds(e, e);
    SquareBounds(Growth(e), low, high);
  }

  const MIN_EXPONENT: nat := 129

  lemma FourthPower()
    ensures Growth(1) == 1.05 && Growth(4) == 1.21550625
  {
    assert Growth(1) == 1.05;
    assert Growth(2) == 1.1025;
    assert Growth(3) == 1.157625;
  }

  /** The minimum is a power of 1.05 rounded down, like every other padded size. */
  lemma MinimumIsAPower()
    ensures Growth(MIN_EXPONENT).Floor == MIN_PADDED
  {
    hide Growth;
    FourthPower();
    GrowthDoubles(4, 1.21550625, 1.21550625);
    GrowthDoubles(8, 1.477455, 1.477456);
    GrowthDoubles(16, 2.182873, 2.182877);
    GrowthDoubles(32, 4.76493, 4.764953);
    GrowthDoubles(64, 22.7045, 22.7048);
    GrowthAdds(128, 1);
    assert 541.0 <= Growth(129) < 542.0;
  }

  /** The padded size is the least of the powers of 1.05, rounded down, that are neither below the
      minimum nor below the size. */
  lemma LogPadIsLeastPower(size: int)
    ensures exists e :: e >= MIN_EXPONENT && LogPadSize(size) == Growth(e).Floor
    ensures forall e :: e >= MIN_EXPONENT && Growth(e).Floor >= size ==> LogPadSize(size) <= Growth(e).Floor
  {
    MinimumIsAPower();
    var i := if size <= 0 then 0 else LeastExponent(size, 0);
    forall e: nat | e >= MIN_EXPONENT && Growth(e).Floor >= size
      ensures Growth(e).Floor >= MIN_PADDED && Growth(e) >= Growth(i)
    {
      GrowthIsMonotone(MIN_EXPONENT, e);
      if e < i {
        GrowthIsMonotone(e, i - 1);
        assert false;
      }
      GrowthIsMonotone(i, e);
    }
    if i <= MIN_EXPONENT {
      GrowthIsMonotone(i, MIN_EXPONENT);
      assert LogPadSize(size) == Growth(MIN_EXPONENT).Floor;
    } else {
      GrowthIsMonotone(MIN_EXPONENT, i);
      assert LogPadSize(size) == Growth(i).Floor;
    }
  }

  /** A padded size is its own padded size. */
  lemma LogPadIsIdempotent(size: int)
    ensures LogPadSize(LogPadSize(size)) == LogPadSize(size)
  {
    var n := LogPadSize(size);
    LogPadIsLeastPower(size);
    LogPadIsLeastPower(n);
    LogPadBounds(n);
    var e :| e >= MIN_EXPONENT && n == Growth(e).Floor;
    assert LogPadSize(n) <= Growth(e).Floor;
  }

  function LogPad(plain: Bytes): (padded: Bytes)
    ensures |padded| == LogPadSize(|plain|) && plain <= padded
    ensures forall i :: |plain| <= i < |padded| ==> padded[i] == 0
  {
    LogPadBounds(|plain|);
    plain + Repeat(0, LogPadSize(|plain|) - |plain|)
  }

  function TrimLogPad(padded: Bytes, plaintextLen: int): Bytes {
    if plaintextLen <= 0 || plaintextLen > |padded| then padded else padded[..plaintextLen]
  }

  /** Trimming recovers the plaintext exactly when there is one: an empty plaintext leaves zeros. */
  lemma TrimUndoesLogPad(plain: Bytes)
    ensures TrimLogPad(LogPad(plain), |plain|) == if plain == [] then Repeat(0, MIN_PADDED) else plain
  {
    if plain == [] {
      assert LogPad([]) == Repeat(0, MIN_PADDED);
    } else {
      assert LogPad(plain)[..|plain|] == plain;
    }
  }

  method PadLogarithmically(plain: Bytes) returns (padded: Bytes)
    ensures padded == LogPad(plain)
  {
    var target := LogPadSize(|plain|);
    LogPadBounds(|plain|);
    if target <= |plain| {
      return plain;
    }
    var out := new Byte[target](_ => 0);
    for i := 0 to |plain|
      invariant forall j :: 0 <= j < i ==> out[j] == plain[j]
      invariant forall j :: |plain| <= j < target ==> out[j] == 0
    {
      out[i] := plain[i];
    }
    return out[..];
  }

  // ----- Version 2

  datatype SealedV2 = SealedV2(
    ciphertext: Bytes, digest: Bytes, plaintextHash: Bytes, incrementalMac: Bytes, chunkSize: nat)

  predicate SupportsIncrementalMac(contentType: string) {
    contentType == "video/mp4"
  }

  function SealV2(c: Crypto, key: Bytes, iv: Bytes, plain: Bytes, contentType: string): Result<SealedV2, Error> {
    if |key| != COMBINED_KEY_SIZE then Err(KeySize)
    else
      var blob := Seal(c, key, iv, LogPad(plain));
      var sealed := SealedV2(blob, c.sha256(blob), c.sha256(plain), [], 0);
      if !SupportsIncrementalMac(contentType) then Ok(sealed)
      else
        match c.macChunkSize(|blob| % 0x1_0000_0000)
        case None => Err(IncrementalMacFailed)
        case Some(size) =>
          match c.incrementalMac(MacKey(key), size, blob)
          case None => Err(IncrementalMacFailed)
          case Some(mac) => Ok(sealed.(incrementalMac := mac, chunkSize := size))
  }

  function OpenV2(c: Crypto, blob: Bytes, key: Bytes, digest: Option<Bytes>, incrementalMac: Bytes, chunkSize: nat,
                  plaintextLen: int): Result<Bytes, Error>
  {
    if |key| != COMBINED_KEY_SIZE then Err(KeySize)
    else if |blob| <= IV_SIZE + MAC_SIZE then Err(TooShort)
    else if digest.Some? && |digest.value| != 32 then Err(DigestSize)
    else if digest.Some? && c.sha256(blob) != digest.value then Err(DigestMismatch)
    else if incrementalMac != [] && chunkSize == 0 then Err(ChunkSizeRequired)
    else if incrementalMac != [] && !c.incrementalCheck(MacKey(key), chunkSize, incrementalMac, blob) then
      Err(IncrementalMacFailed)
    else if c.hmac(MacKey(key), Body(blob)) != Tag(blob) then Err(MacMismatch)
    else
      match DecryptBody(c, key, Body(blob))
      case Err(e) => Err(e)
      case Ok(plain) => Ok(TrimLogPad(plain, plaintextLen))
  }

  function OpenAuto(c: Crypto, blob: Bytes, key: Bytes, digest: Option<Bytes>, incrementalMac: Bytes, chunkSize: nat,
                    plaintextLen: int): Result<Bytes, Error>
  {
    if incrementalMac != [] || chunkSize > 0 then OpenV2(c, blob, key, digest, incrementalMac, chunkSize, plaintextLen)
    else
      var v2 := OpenV2(c, blob, key, digest, [], 0, plaintextLen);
      if v2.Ok? then v2 else Open(c, blob, key, digest, plaintextLen)
  }

  /** Decrypting what EncryptV2 returned, with its own metadata, gives the padded plaintext cut to
      the length asked for. */
  lemma OpenV2AfterSealV2(c: Crypto, key: Bytes, iv: Bytes, plain: Bytes, contentType: string, n: int)
    requires Laws(c) && |iv| == IV_SIZE && SealV2(c, key, iv, plain, contentType).Ok?
    ensures var s := SealV2(c, key, iv, plain, contentType).value;
            OpenV2(c, s.ciphertext, key, Some(s.digest), s.incrementalMac, s.chunkSize, n)
              == Ok(TrimLogPad(LogPad(plain), n))
  {
    hide Seal, Body, Tag, DecryptBody, LogPad, TrimLogPad;
    var padded := LogPad(plain);
    SealShape(c, key, iv, padded);
    OpensExactlySeals(c, key, Seal(c, key, iv, padded), padded);
  }

  /** DecryptV2 undoes EncryptV2, given the true length, exactly for the non-empty plaintexts. */
  lemma RoundTripV2(c: Crypto, key: Bytes, iv: Bytes, plain: Bytes, contentType: string)
    requires Laws(c) && |iv| == IV_SIZE && SealV2(c, key, iv, plain, contentType).Ok?
    ensures var s := SealV2(c, key, iv, plain, contentType).value;
            var r := OpenV2(c, s.ciphertext, key, Some(s.digest), s.incrementalMac, s.chunkSize, |plain|);
            && (r == Ok(plain) <==> plain != [])
            && (plain == [] ==> r == Ok(Repeat(0, MIN_PADDED)))
  {
    hide SealV2, OpenV2, LogPad, TrimLogPad;
    OpenV2AfterSealV2(c, key, iv, plain, contentType, |plain|);
    TrimUndoesLogPad(plain);
  }

  /** Without incremental metadata, whatever DecryptV2 refuses Decrypt refuses too, so falling back
      to it never succeeds: DecryptAuto is DecryptV2 up to the error reported. */
  lemma FallbackNeverHelps(c: Crypto, blob: Bytes, key: Bytes, digest: Option<Bytes>, n: int)
    ensures OpenV2(c, blob, key, digest, [], 0, n).Err? ==> Open(c, blob, key, digest, n).Err?
    ensures OpenAuto(c, blob, key, digest, [], 0, n).Ok? <==> OpenV2(c, blob, key, digest, [], 0, n).Ok?
    ensures OpenAuto(c, blob, key, digest, [], 0, n).Ok? ==>
      OpenAuto(c, blob, key, digest, [], 0, n) == OpenV2(c, blob, key, digest, [], 0, n)
  {
    hide Body, Tag, DecryptBody, TrimLogPad;
  }

  /** DecryptAuto, given the true length, recovers every v1 plaintext and every non-empty v2 one. */
  lemma AutoRecoversBoth(c: Crypto, key: Bytes, iv: Bytes, plain: Bytes, contentType: string)
    requires Laws(c) && |key| == COMBINED_KEY_SIZE && |iv| == IV_SIZE
    ensures var blob := Seal(c, key, iv, plain);
            OpenAuto(c, blob, key, Some(c.sha256(blob)), [], 0, |plain|) == Ok(plain)
    ensures var r := SealV2(c, key, iv, plain, contentType);
            r.Ok? ==>
              var s := r.value;
              var plainAgain := OpenAuto(c, s.ciphertext, key, Some(s.digest), s.incrementalMac, s.chunkSize, |plain|);
              plainAgain == Ok(plain) <==> plain != []
  {
    hide Seal, Body, Tag, DecryptBody, LogPad, SealV2;
    SealShape(c, key, iv, plain);
    OpensExactlySeals(c, key, Seal(c, key, iv, plain), plain);
    assert plain[..|plain|] == plain;
    if SealV2(c, key, iv, plain, contentType).Ok? {
      RoundTripV2(c, key, iv, plain, contentType);
    }
  }

  /** DecryptV2 succeeds exactly on sealed blobs with the right digest and incremental MAC, whether
      or not what was sealed is log-padded, and returns the plaintext trimmed. */
  lemma V2AcceptsExactlySealed(c: Crypto, blob: Bytes, key: Bytes, digest: Option<Bytes>, mac: Bytes, chunkSize: nat,
                               n: int, r: Bytes)
    requires Laws(c)
    ensures OpenV2(c, blob, key, digest, mac, chunkSize, n) == Ok(r) <==>
      && Sealed(c, blob, key, digest)
      && (mac != [] ==> chunkSize > 0 && c.incrementalCheck(MacKey(key), chunkSize, mac, blob))
      && exists plain :: Seals(c, key, blob, plain) && r == TrimLogPad(plain, n)
  {
    hide Seal, Seals, DecryptBody, Body, Tag, TrimLogPad;
    SealedIsAuthentic(c, blob, key, digest);
    if Authentic(c, blob, key, digest) {
      DigestSizes(c, blob, digest);
      forall plain {
        OpensExactlySeals(c, key, blob, plain);
      }
    }
  }

  /** A stated length beyond the plaintext is an error to Decrypt. DecryptAuto never reports it, for
      any blob and metadata, and without incremental metadata it returns the whole plaintext. */
  lemma OverlongLengthPasses(c: Crypto, blob: Bytes, key: Bytes, digest: Option<Bytes>, mac: Bytes, chunkSize: nat, n: int)
    ensures OpenAuto(c, blob, key, digest, mac, chunkSize, n) != Err(ShorterThanExpected)
    ensures Open(c, blob, key, digest, n) == Err(ShorterThanExpected) ==>
      Open(c, blob, key, digest, 0).Ok? && OpenAuto(c, blob, key, digest, [], 0, n) == Open(c, blob, key, digest, 0)
  {
    DecryptBodyErrors(c, key, blob);
    hide Body, Tag, DecryptBody;
  }

  lemma DecryptBodyErrors(c: Crypto, key: Bytes, blob: Bytes)
    ensures |key| == COMBINED_KEY_SIZE && |blob| > IV_SIZE + MAC_SIZE ==>
      DecryptBody(c, key, Body(blob)) != Err(ShorterThanExpected)
  {}

  method CiphertextLengthV2(plaintextLen: int) returns (n: nat)
    ensures n == SealedLength(LogPadSize(plaintextLen))
  {
    var padded := LogPadSize(plaintextLen);
    var encLen := (padded / AES_BLOCK + 1) * AES_BLOCK;
    if padded % AES_BLOCK == 0 {
      encLen := padded + AES_BLOCK;
    }
    return IV_SIZE + encLen + MAC_SIZE;
  }

  /** What CiphertextLengthV2 returns is the length of the real blob, which is at most a twentieth
      and 64 bytes longer than the plaintext, or below 600 bytes. */
  lemma V2LengthIsExact(c: Crypto, key: Bytes, iv: Bytes, plain: Bytes, contentType: string)
    requires Laws(c) && |iv| == IV_SIZE && SealV2(c, key, iv, plain, contentType).Ok?
    ensures var n := |SealV2(c, key, iv, plain, contentType).value.ciphertext|;
            && n == SealedLength(LogPadSize(|plain|))
            && (n < 600 || n as real <= 1.05 * |plain| as real + 64.0)
  {
    SealShape(c, key, iv, LogPad(plain));
    LogPadBounds(|plain|);
  }

  method EncryptV2(c: Crypto, plain: Bytes, key: Bytes, contentType: string, iv: Bytes)
    returns (r: Result<SealedV2, Error>)
    requires |iv| == IV_SIZE
    ensures r == SealV2(c, key, iv, plain, contentType)
    ensures |key| != 64 <==> r == Err(KeySize)
    ensures contentType != "video/mp4" && |key| == 64 ==>
      r.Ok? && r.value.incrementalMac == [] && r.value.chunkSize == 0
    ensures r.Ok? ==>
      var body := iv + c.encrypt(key[..32], iv, Pad(LogPad(plain), 16));
      var blob := body + c.hmac(key[32..], body);
      && r.value.ciphertext == blob && r.value.digest == c.sha256(blob) && r.value.plaintextHash == c.sha256(plain)
      && (contentType == "video/mp4" ==>
            && c.macChunkSize(|blob| % 0x1_0000_0000) == Some(r.value.chunkSize)
            && c.incrementalMac(key[32..], r.value.chunkSize, blob) == Some(r.value.incrementalMac))
  {
    if |key| != COMBINED_KEY_SIZE {
      return Err(KeySize);
    }
    var aesKey, macKey := CipherKey(key), MacKey(key);
    var padded := PadLogarithmically(plain);
    var pkcs := PadAttachment(padded, AES_BLOCK);
    var body := iv + c.encrypt(aesKey, iv, pkcs);
    var ciphertext := body + c.hmac(macKey, body);
    var result := SealedV2(ciphertext, c.sha256(ciphertext), c.sha256(plain), [], 0);
    if SupportsIncrementalMac(contentType) {
      var size := c.macChunkSize(|ciphertext| % 0x1_0000_0000);
      if size.None? {
        return Err(IncrementalMacFailed);
      }
      var mac := c.incrementalMac(macKey, size.value, ciphertext);
      if mac.None? {
        return Err(IncrementalMacFailed);
      }
      result := result.(incrementalMac := mac.value, chunkSize := size.value);
    }
    return Ok(result);
  }

  method DecryptV2(c: Crypto, blob: Bytes, key: Bytes, digest: Option<Bytes>, incrementalMac: Bytes, chunkSize: nat,
                   plaintextLen: int) returns (r: Result<Bytes, Error>)
    ensures r == OpenV2(c, blob, key, digest, incrementalMac, chunkSize, plaintextLen)
    ensures |key| != 64 <==> r == Err(KeySize)
    ensures |key| == 64 && |blob| <= 48 <==> r == Err(TooShort)
    ensures |key| == 64 && |blob| > 48 && digest.Some? && |digest.value| != 32 <==> r == Err(DigestSize)
    ensures |key| == 64 && |blob| > 48 && (digest.Some? ==> |digest.value| == 32) ==>
      var end, checked := |blob| - 32, incrementalMac != [];
      if digest.Some? && c.sha256(blob) != digest.value then r == Err(DigestMismatch)
      else if checked && chunkSize == 0 then r == Err(ChunkSizeRequired)
      else if checked && !c.incrementalCheck(key[32..], chunkSize, incrementalMac, blob) then r == Err(IncrementalMacFailed)
      else if c.hmac(key[32..], blob[..end]) != blob[end..] then r == Err(MacMismatch)
      else r == Err(Unaligned) <==> (|blob| - 48) % 16 != 0
  {
    if |key| != COMBINED_KEY_SIZE {
      return Err(KeySize);
    }
    if |blob| <= IV_SIZE + MAC_SIZE {
      return Err(TooShort);
    }
    if digest.Some? && |digest.value| != 32 {
      return Err(DigestSize);
    }
    var aesKey, macKey := CipherKey(key), MacKey(key);
    if digest.Some? && c.sha256(blob) != digest.value {
      return Err(DigestMismatch);
    }
    if |incrementalMac| > 0 {
      if chunkSize == 0 {
        return Err(ChunkSizeRequired);
      }
      if !c.incrementalCheck(macKey, chunkSize, incrementalMac, blob) {
        return Err(IncrementalMacFailed);
      }
    }
    var bodyEnd := |blob| - MAC_SIZE;
    if c.hmac(macKey, blob[..bodyEnd]) != blob[bodyEnd..] {
      return Err(MacMismatch);
    }
    assert Body(blob)[..IV_SIZE] == blob[..IV_SIZE] && Body(blob)[IV_SIZE..] == blob[IV_SIZE..bodyEnd];
    var iv, enc := blob[..IV_SIZE], blob[IV_SIZE..bodyEnd];
    if |enc| % AES_BLOCK != 0 {
      return Err(Unaligned);
    }
    var unpadded := UnpadAttachment(c.decrypt(aesKey, iv, enc), AES_BLOCK);
    if unpadded.None? {
      return Err(BadPadding);
    }
    return Ok(TrimLogPad(unpadded.value, plaintextLen));
  }

  method DecryptAuto(c: Crypto, blob: Bytes, key: Bytes, digest: Option<Bytes>, incrementalMac: Bytes, chunkSize: nat,
                     plaintextLen: int) returns (r: Result<Bytes, Error>)
    ensures r == OpenAuto(c, blob, key, digest, incrementalMac, chunkSize, plaintextLen)
  {
    if |incrementalMac| > 0 || chunkSize > 0 {
      r := DecryptV2(c, blob, key, digest, incrementalMac, chunkSize, plaintextLen);
      return;
    }
    r := DecryptV2(c, blob, key, digest, [], 0, plaintextLen);
    if r.Err? {
      r := Decrypt(c, blob, key, digest, plaintextLen);
    }
  }
}
