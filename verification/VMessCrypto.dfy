/** The library primitives the VMess codec calls, as parameters with the laws it relies on. */
module VMessCrypto {
  import opened Bytes

  const TAG: nat := 16

  datatype Alg = Aes128Gcm | ChaCha20Poly1305

  datatype Cipher = Cipher(alg: Alg, key: bytes)

  datatype Suite = Suite(
    sha256: bytes -> bytes,
    md5: bytes -> bytes,
    /** SHAKE-128(iv): the i-th output byte. */
    shake: (bytes, nat) -> byte,
    /** cipher, nonce, plaintext, associated data */
    seal: (Cipher, bytes, bytes, bytes) -> bytes,
    /** cipher, nonce, ciphertext, associated data; None is the library's InvalidTag */
    open: (Cipher, bytes, bytes, bytes) -> Option<bytes>,
    /** cmdKey, authID: the time inside an authID that decrypts to a block with a valid CRC */
    authTime: (bytes, bytes) -> Option<int>)

  /** The interface of section 2 of RFC 5116, with the 16-byte tag of both algorithms. */
  ghost predicate Lawful(su: Suite) {
    && (forall c, n, m, a ::
          |su.seal(c, n, m, a)| == |m| + TAG && su.open(c, n, su.seal(c, n, m, a), a) == Some(m))
    && (forall c, n, x, a :: su.open(c, n, x, a).Some? ==> |x| == |su.open(c, n, x, a).value| + TAG)
  }

  /** The laws can be met: append sixteen zero bytes. */
  lemma LawfulSuiteExists() returns (su: Suite)
    ensures Lawful(su)
  {
    su := Suite(
      x => x,
      x => x,
      (iv, i) => 0,
      (c, n, m, a) => m + seq(TAG, i => 0),
      (c, n, x: bytes, a) => if |x| >= TAG then Some(x[..|x| - TAG]) else None,
      (k, id) => Some(0));
    forall c: Cipher, n: bytes, m: bytes, a: bytes
      ensures |su.seal(c, n, m, a)| == |m| + TAG && su.open(c, n, su.seal(c, n, m, a), a) == Some(m)
    {
      assert (m + seq(TAG, i => 0))[..|m|] == m;
    }
  }

  const SEC_AES128_GCM: nat := 3
  const SEC_CHACHA20_POLY1305: nat := 4

  /** make_body_aead: None is the VMessError for an unsupported security. */
  function BodyCipher(su: Suite, key: bytes, security: nat): Option<Cipher> {
    if security == SEC_AES128_GCM then
      Some(Cipher(Aes128Gcm, key))
    else if security == SEC_CHACHA20_POLY1305 then
      Some(Cipher(ChaCha20Poly1305, su.md5(key) + su.md5(su.md5(key))))
    else
      None
  }

  method MakeBodyAead(su: Suite, bodyKey: bytes, security: nat) returns (r: Option<Cipher>)
    ensures r == BodyCipher(su, bodyKey, security)
  {
    if security == 3 {
      return Some(Cipher(Aes128Gcm, bodyKey));
    }
    if security == 4 {
      var first := su.md5(bodyKey);
      return Some(Cipher(ChaCha20Poly1305, first + su.md5(first)));
    }
    return None;
  }

  /** Security 3 is AES-128-GCM under the key itself; security 4 is ChaCha20-Poly1305 under 32 bytes, the
      digest of the key and the digest of that; there is no other. */
  lemma BodyCipherOf(su: Suite, key: bytes, security: nat)
    requires |su.md5(key)| == |su.md5(su.md5(key))| == 16
    ensures BodyCipher(su, key, security).Some? <==> security == 3 || security == 4
    ensures security == 3 ==>
      BodyCipher(su, key, security).value.alg == Aes128Gcm && BodyCipher(su, key, security).value.key == key
    ensures security == 4 ==>
      var c := BodyCipher(su, key, security).value;
      && c.alg == ChaCha20Poly1305 && |c.key| == 32
      && c.key[..16] == su.md5(key) && c.key[16..] == su.md5(c.key[..16])
  {
    var first := su.md5(key);
    assert (first + su.md5(first))[..16] == first && (first + su.md5(first))[16..] == su.md5(first);
  }
}
