/** The cryptographic primitives the codecs call, as functions with the laws they are used for. */
module Primitives {
  import opened Wrappers
  import opened Bits
  import opened Pkcs7

  const COMBINED_KEY_SIZE: nat := 64
  const CIPHER_KEY_SIZE: nat := 32
  const IV_SIZE: nat := 16
  const MAC_SIZE: nat := 32

  /** AES-256-CBC, HMAC-SHA256, SHA-256 and libsignal's incremental MAC, as functions */
  datatype Crypto = Crypto(
    encrypt: (Bytes, Bytes, Bytes) -> Bytes,
    decrypt: (Bytes, Bytes, Bytes) -> Bytes,
    hmac: (Bytes, Bytes) -> Bytes,
    sha256: Bytes -> Bytes,
    macChunkSize: nat -> Option<nat>,
    incrementalMac: (Bytes, nat, Bytes) -> Option<Bytes>,
    incrementalCheck: (Bytes, nat, Bytes, Bytes) -> bool)

  /** CBC decryption inverts encryption on whole blocks, tags and digests have 32 bytes, and the
      incremental check accepts what was computed with the same key and chunk size. */
  ghost predicate Laws(c: Crypto) {
    && (forall k, iv, p ::
          var e := c.encrypt(k, iv, p);
          |k| == CIPHER_KEY_SIZE && |iv| == IV_SIZE && |p| % AES_BLOCK == 0 ==>
            |e| == |p| && c.decrypt(k, iv, e) == p)
    && (forall k, iv, e ::
          var p := c.decrypt(k, iv, e);
          |k| == CIPHER_KEY_SIZE && |iv| == IV_SIZE && |e| % AES_BLOCK == 0 ==>
            |p| == |e| && c.encrypt(k, iv, p) == e)
    && (forall k, data :: |c.hmac(k, data)| == MAC_SIZE)
    && (forall data :: |c.sha256(data)| == 32)
    && (forall n :: c.macChunkSize(n).Some? ==> c.macChunkSize(n).value > 0)
    && (forall k, n, data ::
          var mac := c.incrementalMac(k, n, data);
          mac.Some? ==> c.incrementalCheck(k, n, mac.value, data))
  }

  /** The laws ask for nothing impossible. */
  lemma LawsCanHold()
    ensures exists c :: Laws(c)
  {
    var zeros := Repeat(0, MAC_SIZE);
    var c := Crypto((_, _, p) => p, (_, _, e) => e, (_, _) => zeros, _ => zeros,
                    _ => Some(1), (_, _, _) => None, (_, _, _, _) => true);
    assert Laws(c);
  }

  function CipherKey(key: Bytes): Bytes
    requires |key| == COMBINED_KEY_SIZE
  {
    key[..CIPHER_KEY_SIZE]
  }

  function MacKey(key: Bytes): Bytes
    requires |key| == COMBINED_KEY_SIZE
  {
    key[CIPHER_KEY_SIZE..]
  }
}
