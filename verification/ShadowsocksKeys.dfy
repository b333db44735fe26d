/** Key derivation of the Shadowsocks server (protocol/shadowsocks/shadowsocks.py:58-74). HMAC-SHA1 and
    MD5 are given as functions. */
module ShadowsocksKeys {
  import opened Bytes

  const SHA1_LEN: nat := 20
  const MD5_LEN: nat := 16

  /** An HMAC-SHA1 and an MD5, as far as their lengths go. */
  datatype Hashes = Hashes(hmac: (bytes, bytes) -> bytes, md5: bytes -> bytes)

  ghost predicate Lawful(h: Hashes) {
    && (forall k, m {:trigger h.hmac(k, m)} :: |h.hmac(k, m)| == SHA1_LEN)
    && (forall m {:trigger h.md5(m)} :: |h.md5(m)| == MD5_LEN)
  }

  lemma LawfulHashesExist() returns (h: Hashes)
    ensures Lawful(h)
  {
    h := Hashes((_, _) => seq(SHA1_LEN, _ => 0), _ => seq(MD5_LEN, _ => 0));
  }

  /** T(i) of section 2.3 of RFC 5869. The counter is one byte, so there is no T(256). */
  function T(h: Hashes, prk: bytes, info: bytes, i: nat): bytes
    requires i <= 255
  {
    if i == 0 then [] else h.hmac(prk, T(h, prk, info, i - 1) + info + [i])
  }

  /** Block i of the derived password key: the MD5 of the block before it and the password. */
  function D(h: Hashes, password: bytes, i: nat): bytes {
    if i == 0 then [] else h.md5(D(h, password, i - 1) + password)
  }

  /** The largest output the one-byte counter allows. */
  const HKDF_MAX: nat := 255 * SHA1_LEN

  /** out is the first length bytes of T(1) T(2) ... */
  ghost predicate IsExpansion(h: Hashes, prk: bytes, info: bytes, out: bytes) {
    forall k: nat :: k < |out| && k / SHA1_LEN < 255 && |T(h, prk, info, k / SHA1_LEN + 1)| == SHA1_LEN ==>
      out[k] == T(h, prk, info, k / SHA1_LEN + 1)[k % SHA1_LEN]
  }

  ghost predicate IsChain(h: Hashes, password: bytes, out: bytes) {
    forall k: nat :: k < |out| && |D(h, password, k / MD5_LEN + 1)| == MD5_LEN ==>
      out[k] == D(h, password, k / MD5_LEN + 1)[k % MD5_LEN]
  }

  /** _hkdf_sha1: the ValueError of the 256th counter byte is None. It is raised exactly for more than
      5100 bytes; otherwise the result is the expansion of the extracted key, cut to length. */
  method HkdfSha1(h: Hashes, key: bytes, salt: bytes, info: bytes, length: nat) returns (r: Option<bytes>)
    requires Lawful(h)
    ensures r.Some? <==> length <= 5100
    ensures r.Some? ==> |r.value| == length && IsExpansion(h, h.hmac(salt, key), info, r.value)
  {
    var prk := h.hmac(salt, key);
    var okm: bytes := [];
    var t: bytes := [];
    var i := 1;
    while |okm| < length
      invariant 1 <= i <= 256 && t == T(h, prk, info, i - 1)
      invariant |okm| == (i - 1) * SHA1_LEN && (i > 1 ==> |okm| < length + SHA1_LEN)
      invariant IsExpansion(h, prk, info, okm)
    {
      if i > 255 {
        return None;
      }
      var block := h.hmac(prk, t + info + [i]);
      assert block == T(h, prk, info, i);
      GrowExpansion(h, prk, info, okm, block, i);
      t := block;
      okm := okm + t;
      i := i + 1;
    }
    return Some(okm[..length]);
  }

  lemma GrowExpansion(h: Hashes, prk: bytes, info: bytes, okm: bytes, block: bytes, i: nat)
    requires 1 <= i <= 255 && block == T(h, prk, info, i) && |block| == SHA1_LEN
    requires |okm| == (i - 1) * SHA1_LEN && IsExpansion(h, prk, info, okm)
    ensures IsExpansion(h, prk, info, okm + block)
  {
    forall k: nat | k < |okm + block| && k / SHA1_LEN < 255 && |T(h, prk, info, k / SHA1_LEN + 1)| == SHA1_LEN
      ensures (okm + block)[k] == T(h, prk, info, k / SHA1_LEN + 1)[k % SHA1_LEN]
    {
      if k >= |okm| {
        assert k / SHA1_LEN == i - 1 && k % SHA1_LEN == k - |okm|;
      }
    }
  }

  /** derive_key */
  method DeriveKey(h: Hashes, password: bytes, keyLen: nat) returns (key: bytes)
    requires Lawful(h)
    ensures |key| == keyLen && IsChain(h, password, key)
  {
    var d: bytes := [];
    var prev: bytes := [];
    ghost var i := 0;
    while |d| < keyLen
      invariant |d| == i * MD5_LEN && prev == D(h, password, i) && IsChain(h, password, d)
      decreases keyLen + MD5_LEN - |d|
    {
      prev := h.md5(prev + password);
      GrowChain(h, password, d, prev, i + 1);
      d := d + prev;
      i := i + 1;
    }
    return d[..keyLen];
  }

  lemma GrowChain(h: Hashes, password: bytes, d: bytes, block: bytes, i: nat)
    requires i >= 1 && block == D(h, password, i) && |block| == MD5_LEN
    requires |d| == (i - 1) * MD5_LEN && IsChain(h, password, d)
    ensures IsChain(h, password, d + block)
  {
    forall k: nat | k < |d + block| && |D(h, password, k / MD5_LEN + 1)| == MD5_LEN
      ensures (d + block)[k] == D(h, password, k / MD5_LEN + 1)[k % MD5_LEN]
    {
      if k >= |d| {
        assert k / MD5_LEN == i - 1 && k % MD5_LEN == k - |d|;
      }
    }
  }

  lemma TLength(h: Hashes, prk: bytes, info: bytes, i: nat)
    requires Lawful(h) && 1 <= i <= 255
    ensures |T(h, prk, info, i)| == SHA1_LEN
  {
  }

  lemma DLength(h: Hashes, password: bytes, i: nat)
    requires Lawful(h) && i >= 1
    ensures |D(h, password, i)| == MD5_LEN
  {
  }

  /** Being an expansion leaves no choice: of two for one key and info the shorter is the beginning of
      the longer. A cipher with a shorter key uses the beginning of the longer one's. */
  lemma ExpansionsNest(h: Hashes, prk: bytes, info: bytes, a: bytes, b: bytes)
    requires Lawful(h) && |a| <= |b| <= HKDF_MAX
    requires IsExpansion(h, prk, info, b)
    ensures IsExpansion(h, prk, info, a) <==> a <= b
  {
    forall k: nat | k < |b|
      ensures k / SHA1_LEN < 255 && |T(h, prk, info, k / SHA1_LEN + 1)| == SHA1_LEN
    {
      TLength(h, prk, info, k / SHA1_LEN + 1);
    }
    if IsExpansion(h, prk, info, a) {
      forall k: nat | k < |a|
        ensures a[k] == b[k]
      {
      }
      assert a == b[..|a|];
    }
  }

  lemma ChainsNest(h: Hashes, password: bytes, a: bytes, b: bytes)
    requires Lawful(h) && |a| <= |b| && IsChain(h, password, b)
    ensures IsChain(h, password, a) <==> a <= b
  {
    forall k: nat | k < |b|
      ensures |D(h, password, k / MD5_LEN + 1)| == MD5_LEN
    {
      DLength(h, password, k / MD5_LEN + 1);
    }
    if IsChain(h, password, a) {
      forall k: nat | k < |a|
        ensures a[k] == b[k]
      {
      }
      assert a == b[..|a|];
    }
  }
}
