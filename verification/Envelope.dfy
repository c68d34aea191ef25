/** The provisioning envelope a linking device receives (internal/provisioning/cipher.go). */
module Envelope {
  import opened Wrappers
  import opened Bits
  import opened Pkcs7
  import opened Primitives

  const VERSION: Byte := 1

  datatype Error = NoPublicKey | TooShort | WrongVersion | NoSharedKeys | BadMac | Unaligned | BadPadding

  /** Version byte, IV, encrypted and padded message, and the tag over all of it */
  function Seal(c: Crypto, keys: Bytes, iv: Bytes, message: Bytes): Bytes
    requires |keys| == COMBINED_KEY_SIZE
  {
    var portion := [VERSION] + iv + c.encrypt(CipherKey(keys), iv, Pad(message, AES_BLOCK));
    portion + c.hmac(MacKey(keys), portion)
  }

  /** Whether the body is the envelope of this message under the IV it carries */
  ghost predicate Carries(c: Crypto, keys: Bytes, body: Bytes, message: Bytes)
    requires |keys| == COMBINED_KEY_SIZE
  {
    |body| >= 1 + IV_SIZE && body == Seal(c, keys, body[1..1 + IV_SIZE], message)
  }

  /** Long enough, of the known version, and tagged under these keys */
  ghost predicate Authentic(c: Crypto, keys: Bytes, body: Bytes)
    requires |keys| == COMBINED_KEY_SIZE
  {
    && |body| >= 1 + IV_SIZE + AES_BLOCK + MAC_SIZE
    && body[0] == VERSION
    && body[|body| - MAC_SIZE..] == c.hmac(MacKey(keys), body[..|body| - MAC_SIZE])
  }

  lemma SealShape(c: Crypto, keys: Bytes, iv: Bytes, message: Bytes)
    requires Laws(c) && |keys| == COMBINED_KEY_SIZE && |iv| == IV_SIZE
    ensures var body := Seal(c, keys, iv, message);
            var macStart := |body| - MAC_SIZE;
            && Authentic(c, keys, body)
            && body[1..1 + IV_SIZE] == iv
            && body[1 + IV_SIZE..macStart] == c.encrypt(CipherKey(keys), iv, Pad(message, AES_BLOCK))
  {
    PaddedLength(message, AES_BLOCK);
    var portion := [VERSION] + iv + c.encrypt(CipherKey(keys), iv, Pad(message, AES_BLOCK));
    var body := Seal(c, keys, iv, message);
    assert body[..|body| - MAC_SIZE] == portion;
    assert body[1..1 + IV_SIZE] == iv;
  }

  /** An authentic, aligned body carries exactly the message its payload unpads to. */
  lemma UnpadsExactlyCarried(c: Crypto, keys: Bytes, body: Bytes, message: Bytes)
    requires Laws(c) && |keys| == COMBINED_KEY_SIZE && Authentic(c, keys, body)
    ensures var iv, enc := body[1..1 + IV_SIZE], body[1 + IV_SIZE..|body| - MAC_SIZE];
            Carries(c, keys, body, message) <==>
            |enc| % AES_BLOCK == 0 && Unpad(c.decrypt(CipherKey(keys), iv, enc), AES_BLOCK) == Some(message)
  {
    var k, iv, enc := CipherKey(keys), body[1..1 + IV_SIZE], body[1 + IV_SIZE..|body| - MAC_SIZE];
    assert body[..|body| - MAC_SIZE] == [VERSION] + iv + enc;
    var padded := Pad(message, AES_BLOCK);
    PaddedLength(message, AES_BLOCK);
    if Carries(c, keys, body, message) {
      SealShape(c, keys, iv, message);
    }
    if |enc| % AES_BLOCK == 0 {
      UnpadInvertsPad(c.decrypt(k, iv, enc), message, AES_BLOCK);
    }
  }

  /** DecryptEnvelope, given the outcome of the key agreement with the peer's public key: it returns
      a message exactly if there is such a key, the agreement works and the body carries the
      message, although the unpadder it calls does not check alignment. */
  method Decrypt(c: Crypto, publicKey: Bytes, body: Bytes, keys: Option<Bytes>) returns (r: Result<Bytes, Error>)
    requires Laws(c) && (keys.Some? ==> |keys.value| == COMBINED_KEY_SIZE)
    ensures forall message ::
              r == Ok(message) <==> publicKey != [] && keys.Some? && Carries(c, keys.value, body, message)
    ensures publicKey == [] <==> r == Err(NoPublicKey)
    ensures publicKey != [] && |body| < 1 + 16 + 32 + 16 <==> r == Err(TooShort)
    ensures publicKey != [] && |body| >= 1 + 16 + 32 + 16 ==>
      && (body[0] != 1 <==> r == Err(WrongVersion))
      && (body[0] == 1 && keys.None? <==> r == Err(NoSharedKeys))
  {
    if |publicKey| == 0 {
      return Err(NoPublicKey);
    }
    if keys.Some? {
      forall message | Carries(c, keys.value, body, message) ensures Authentic(c, keys.value, body) {
        SealShape(c, keys.value, body[1..1 + IV_SIZE], message);
      }
    }
    hide Seal, Unpad, UnpadAnyLength;
    if |body| < 1 + IV_SIZE + MAC_SIZE + AES_BLOCK {
      return Err(TooShort);
    }
    if body[0] != VERSION {
      return Err(WrongVersion);
    }
    if keys.None? {
      return Err(NoSharedKeys);
    }
    var aesKey, hmacKey := CipherKey(keys.value), MacKey(keys.value);
    var macStart := |body| - MAC_SIZE;
    if body[macStart..] != c.hmac(hmacKey, body[..macStart]) {
      return Err(BadMac);
    }
    forall message {
      UnpadsExactlyCarried(c, keys.value, body, message);
    }
    var iv, ciphertext := body[1..1 + IV_SIZE], body[1 + IV_SIZE..macStart];
    if |ciphertext| % AES_BLOCK != 0 {
      return Err(Unaligned);
    }
    var plaintext := UnpadProvisioning(c.decrypt(aesKey, iv, ciphertext));
    if plaintext.None? {
      return Err(BadPadding);
    }
    return Ok(plaintext.value);
  }
}
