/** The VMess key derivation (protocol/vmess/vmess.py:84-195): a chain of HMAC objects in which
    every link above the first uses one and the same object as its inner and its outer hash. */
module Kdf {
  import opened Bytes

  const BLOCK: nat := 64

  const VMESS_AEAD_KDF: bytes := Ascii("VMess AEAD KDF")

  type Hash = bytes -> bytes

  /** The two pads one link is keyed with. */
  datatype Pad = Pad(inner: bytes, outer: bytes)

  /** k.ljust(64, b"\x00") */
  function Justify(k: bytes): bytes {
    if |k| < BLOCK then k + seq(BLOCK - |k|, i => 0) else k
  }

  function XorWith(k: bytes, x: byte): bytes {
    seq(|k|, i requires 0 <= i < |k| => Xor8(k[i], x))
  }

  function PadOf(k: bytes): Pad {
    Pad(XorWith(Justify(k), 0x36), XorWith(Justify(k), 0x5C))
  }

  // ---------------------------------------------------------------------------------------
  // The pads of section 2 of RFC 2104.

  /** Byte i of a key of at most one block that was filled up with zeros. */
  function KeyByte(key: bytes, i: nat): byte {
    if i < |key| then key[i] else 0
  }

  /** A whole block: every byte of the zero-filled key, exclusive-ored with x. */
  predicate IsPad(pad: bytes, key: bytes, x: byte) {
    && |pad| == 64
    && forall i: nat, j: nat :: i < 64 && j < 8 ==> Bit(pad[i], j) == (Bit(KeyByte(key, i), j) + Bit(x, j)) % 2
  }

  /** HMAC of m under a key of at most one block, from any pads that are as RFC 2104 wants them. */
  ghost predicate IsHmac(H: Hash, key: bytes, m: bytes, r: bytes) {
    exists ipad, opad :: IsPad(ipad, key, 0x36) && IsPad(opad, key, 0x5C) && r == H(opad + H(ipad + m))
  }

  /** Both pads have a block; behind the key they are 0x36 and 0x5C, and inside it they mask back to it. */
  lemma PadsAreRfc2104(k: bytes)
    requires |k| <= BLOCK
    ensures IsPad(PadOf(k).inner, k, 0x36) && IsPad(PadOf(k).outer, k, 0x5C)
    ensures
      var p := PadOf(k);
      forall i: nat :: i < BLOCK ==>
        if i < |k| then Xor8(p.inner[i], 0x36) == k[i] && Xor8(p.outer[i], 0x5C) == k[i]
        else p.inner[i] == 0x36 && p.outer[i] == 0x5C
  {
    var p := PadOf(k);
    forall i: nat | i < BLOCK
      ensures p.inner[i] == Xor8(KeyByte(k, i), 0x36) && p.outer[i] == Xor8(KeyByte(k, i), 0x5C)
    {
    }
    forall i: nat, j: nat | i < 64 && j < 8
      ensures Bit(p.inner[i], j) == (Bit(KeyByte(k, i), j) + Bit(0x36, j)) % 2
      ensures Bit(p.outer[i], j) == (Bit(KeyByte(k, i), j) + Bit(0x5C, j)) % 2
    {
      XorIsBitwise(8, KeyByte(k, i), 0x36, j);
      XorIsBitwise(8, KeyByte(k, i), 0x5C, j);
    }
    forall i: nat | i < BLOCK
      ensures Xor8(p.inner[i], 0x36) == KeyByte(k, i) && Xor8(p.outer[i], 0x5C) == KeyByte(k, i)
      ensures i >= |k| ==> p.inner[i] == 0x36 && p.outer[i] == 0x5C
    {
      assert Pow2(8) == 256;
      XorTwice(8, KeyByte(k, i), 0x36);
      XorTwice(8, KeyByte(k, i), 0x5C);
      Xor8Determines(0, 0, 0x36);
      Xor8Determines(0, 0, 0x5C);
    }
  }

  /** The two pads leave no choice, so there is only one HMAC. */
  lemma PadIsDetermined(p: bytes, q: bytes, key: bytes, x: byte)
    requires IsPad(p, key, x) && IsPad(q, key, x)
    ensures p == q
  {
    forall i: nat | i < 64
      ensures p[i] == q[i]
    {
      assert Pow2(8) == 256;
      forall j: nat | j < 8
        ensures Bit(p[i], j) == Bit(q[i], j)
      {
        assert Bit(p[i], j) == (Bit(KeyByte(key, i), j) + Bit(x, j)) % 2;
      }
      BitsDetermine(8, p[i], q[i]);
    }
  }

  // ---------------------------------------------------------------------------------------
  // What the objects compute, as functions of the bytes the innermost hash has absorbed.

  /** What a chain has absorbed right after a reset: every inner pad, innermost link first. */
  function Fresh(pads: seq<Pad>): bytes {
    if pads == [] then [] else Fresh(pads[..|pads| - 1]) + pads[|pads| - 1].inner
  }

  /** The digest the top link returns when the innermost hash has absorbed c. */
  function Digest(H: Hash, pads: seq<Pad>, c: bytes): bytes
    requires pads != []
    decreases |pads|
  {
    if |pads| == 1 then
      H(pads[0].outer + H(c))
    else
      var below := pads[..|pads| - 1];
      Digest(H, below, Fresh(below) + pads[|pads| - 1].outer + Digest(H, below, c))
  }

  /** What the innermost hash has absorbed after that digest was taken: only a chain of one
      link leaves it alone. */
  function Residue(H: Hash, pads: seq<Pad>, c: bytes): bytes
    requires pads != []
    decreases |pads|
  {
    if |pads| == 1 then
      c
    else
      var below := pads[..|pads| - 1];
      Residue(H, below, Fresh(below) + pads[|pads| - 1].outer + Digest(H, below, c))
  }

  datatype Chain = Chain(pads: seq<Pad>, absorbed: bytes)

  /** The chain after one more link was put on top of it. A salt longer than a block is first
      digested by the very object that then serves as the new link's inner hash. */
  function Extend(H: Hash, ch: Chain, salt: bytes): (r: Chain)
    requires ch.pads != []
    ensures |r.pads| == |ch.pads| + 1
  {
    if |salt| <= BLOCK then
      Chain(ch.pads + [PadOf(salt)], ch.absorbed + PadOf(salt).inner)
    else
      var p := PadOf(Digest(H, ch.pads, ch.absorbed + salt));
      Chain(ch.pads + [p], Residue(H, ch.pads, ch.absorbed + salt) + p.inner)
  }

  function ChainOf(H: Hash, salts: seq<bytes>): (r: Chain)
    ensures |r.pads| == |salts| + 1
  {
    if salts == [] then
      Chain([PadOf(VMESS_AEAD_KDF)], PadOf(VMESS_AEAD_KDF).inner)
    else
      Extend(H, ChainOf(H, salts[..|salts| - 1]), salts[|salts| - 1])
  }

  /** kdf(key, *salts), for salts of every length. */
  function KdfValue(H: Hash, key: bytes, salts: seq<bytes>): bytes {
    var ch := ChainOf(H, salts);
    Digest(H, ch.pads, ch.absorbed + key)
  }

  function Kdf16(H: Hash, key: bytes, salts: seq<bytes>): bytes {
    Take(KdfValue(H, key, salts), 16)
  }

  // ---------------------------------------------------------------------------------------
  // The clean definition: nested keyed hashes without any shared object.

  /** F_0 is HMAC (section 2 of RFC 2104); F_i is HMAC with F_{i-1} in place of the hash. */
  function Nested(H: Hash, pads: seq<Pad>, m: bytes): bytes
    requires pads != []
    decreases |pads|
  {
    var top := pads[|pads| - 1];
    if |pads| == 1 then
      H(top.outer + H(top.inner + m))
    else
      var below := pads[..|pads| - 1];
      Nested(H, below, top.outer + Nested(H, below, top.inner + m))
  }

  function PadsOf(salts: seq<bytes>): (p: seq<Pad>)
    ensures |p| == |salts| + 1
  {
    if salts == [] then [PadOf(VMESS_AEAD_KDF)] else PadsOf(salts[..|salts| - 1]) + [PadOf(salts[|salts| - 1])]
  }

  predicate Short(salts: seq<bytes>) {
    forall i :: 0 <= i < |salts| ==> |salts[i]| <= BLOCK
  }

  /** Taking a digest from a freshly reset chain that absorbed m is the nested keyed hash of m,
      although both passes of every link run through one object. */
  lemma {:induction false} DigestIsNested(H: Hash, pads: seq<Pad>, m: bytes)
    requires pads != []
    ensures Digest(H, pads, Fresh(pads) + m) == Nested(H, pads, m)
    decreases |pads|
  {
    var below, top := pads[..|pads| - 1], pads[|pads| - 1];
    if |pads| == 1 {
      assert Fresh(pads) == top.inner by { assert Fresh(below) == []; }
    } else {
      assert Fresh(pads) + m == Fresh(below) + (top.inner + m);
      DigestIsNested(H, below, top.inner + m);
      var t := Nested(H, below, top.inner + m);
      assert Fresh(below) + top.outer + t == Fresh(below) + (top.outer + t);
      DigestIsNested(H, below, top.outer + t);
    }
  }

  /** F_0 is HMAC, and each further link is HMAC with the link below in place of the hash. */
  lemma NestedIsHmac(H: Hash, key: bytes, m: bytes)
    requires |key| <= BLOCK
    ensures IsHmac(H, key, m, Nested(H, [PadOf(key)], m))
  {
    PadsAreRfc2104(key);
  }

  lemma NestedStep(H: Hash, salts: seq<bytes>, salt: bytes, m: bytes)
    requires |salt| <= BLOCK
    ensures IsHmac(x => Nested(H, PadsOf(salts), x), salt, m, Nested(H, PadsOf(salts + [salt]), m))
  {
    PadsAreRfc2104(salt);
    assert (salts + [salt])[..|salts|] == salts;
    var pads := PadsOf(salts + [salt]);
    assert pads[..|pads| - 1] == PadsOf(salts) && pads[|pads| - 1] == PadOf(salt);
  }

  lemma {:induction false} ShortChain(H: Hash, salts: seq<bytes>)
    requires Short(salts)
    ensures ChainOf(H, salts) == Chain(PadsOf(salts), Fresh(PadsOf(salts)))
  {
    if salts == [] {
      assert PadsOf(salts)[..0] == [];
    } else {
      var front := salts[..|salts| - 1];
      ShortChain(H, front);
      assert PadsOf(salts)[..|salts|] == PadsOf(front);
    }
  }

  /** For salts of at most one block the aliased chain computes the clean definition. */
  lemma KdfIsNested(H: Hash, key: bytes, salts: seq<bytes>)
    requires Short(salts)
    ensures KdfValue(H, key, salts) == Nested(H, PadsOf(salts), key)
    ensures salts == [] ==> IsHmac(H, Ascii("VMess AEAD KDF"), key, KdfValue(H, key, salts))
    ensures salts != [] ==>
      var front := salts[..|salts| - 1];
      IsHmac(x => Nested(H, PadsOf(front), x), salts[|salts| - 1], key, KdfValue(H, key, salts))
  {
    if salts == [] {
      NestedIsHmac(H, VMESS_AEAD_KDF, key);
    } else {
      var front := salts[..|salts| - 1];
      assert front + [salts[|salts| - 1]] == salts;
      NestedStep(H, front, salts[|salts| - 1], key);
    }
    ShortChain(H, salts);
    DigestIsNested(H, PadsOf(salts), key);
  }

  /** The hand-derived formula for one salt, built from four plain hashes. */
  function ClosedFormKdf1(H: Hash, key: bytes, salt: bytes): bytes {
    var k, s := PadOf(VMESS_AEAD_KDF), PadOf(salt);
    var d := H(k.outer + H(k.inner + s.inner + key));
    H(k.outer + H(k.inner + s.outer + d))
  }

  /** With one short salt the chain is the closed form. */
  lemma OneSaltIsClosedForm(H: Hash, key: bytes, salt: bytes)
    requires |salt| <= BLOCK
    ensures KdfValue(H, key, [salt]) == ClosedFormKdf1(H, key, salt)
    ensures exists ik, ok, i', o' ::
      && IsPad(ik, Ascii("VMess AEAD KDF"), 0x36) && IsPad(ok, Ascii("VMess AEAD KDF"), 0x5C)
      && IsPad(i', salt, 0x36) && IsPad(o', salt, 0x5C)
      && ClosedFormKdf1(H, key, salt) == H(ok + H(ik + o' + H(ok + H(ik + i' + key))))
  {
    PadsAreRfc2104(VMESS_AEAD_KDF);
    PadsAreRfc2104(salt);
    KdfIsNested(H, key, [salt]);
    var k, s := PadOf(VMESS_AEAD_KDF), PadOf(salt);
    assert PadsOf([salt]) == [k, s];
    assert [k, s][..1] == [k];
    var d := H(k.outer + H(k.inner + s.inner + key));
    assert k.inner + (s.inner + key) == k.inner + s.inner + key;
    assert k.inner + (s.outer + d) == k.inner + s.outer + d;
  }

  /** Two links: what the first pass saw behind the inner pad of the base does not reach the
      second pass but through its digest. */
  lemma TwoLinks(H: Hash, k: Pad, p: Pad, x: bytes)
    ensures Fresh([k]) == k.inner
    ensures Digest(H, [k, p], k.inner + x) == Nested(H, [k], p.outer + Nested(H, [k], x))
  {
    assert [k][..0] == [] && [k, p][..1] == [k];
    assert Fresh([k]) == k.inner;
    DigestIsNested(H, [k], x);
    var t := Nested(H, [k], x);
    assert k.inner + p.outer + t == k.inner + (p.outer + t);
    DigestIsNested(H, [k], p.outer + t);
  }

  lemma ChainOfLongSalt(H: Hash, salt: bytes)
    requires |salt| > BLOCK
    ensures
      var k := PadOf(VMESS_AEAD_KDF);
      var p := PadOf(Nested(H, [k], salt));
      ChainOf(H, [salt]) == Chain([k, p], k.inner + salt + p.inner)
  {
    var k := PadOf(VMESS_AEAD_KDF);
    assert [salt][..0] == [];
    DigestIsNested(H, [k], salt);
    assert [k] + [PadOf(Nested(H, [k], salt))] == [k, PadOf(Nested(H, [k], salt))];
  }

  lemma KdfOfLongSalt(H: Hash, key: bytes, salt: bytes)
    requires |salt| > BLOCK
    ensures
      var k := PadOf(VMESS_AEAD_KDF);
      var p := PadOf(Nested(H, [k], salt));
      KdfValue(H, key, [salt]) == Digest(H, [k, p], k.inner + (salt + p.inner + key))
  {
    var k := PadOf(VMESS_AEAD_KDF);
    var p := PadOf(Nested(H, [k], salt));
    ChainOfLongSalt(H, salt);
    assert k.inner + salt + p.inner + key == k.inner + (salt + p.inner + key);
  }

  /** A salt longer than a block is where the aliasing shows: the bytes of the salt itself stay
      in front of the pad in the first pass, which the clean definition does not have. */
  lemma LongSaltLeavesItsBytes(H: Hash, key: bytes, salt: bytes)
    requires |salt| > BLOCK
    ensures
      var base := [PadOf(VMESS_AEAD_KDF)];
      var p := PadOf(Nested(H, base, salt));
      KdfValue(H, key, [salt]) == Nested(H, base, p.outer + Nested(H, base, salt + p.inner + key))
  {
    var k := PadOf(VMESS_AEAD_KDF);
    var p := PadOf(Nested(H, [k], salt));
    KdfOfLongSalt(H, key, salt);
    TwoLinks(H, k, p, salt + p.inner + key);
  }

  /** The key RFC 2104 would use for a salt: itself, or its digest when it is longer than a block. */
  function CleanPads(H: Hash, salt: bytes): seq<Pad> {
    var base := [PadOf(VMESS_AEAD_KDF)];
    base + [PadOf(if |salt| <= BLOCK then salt else Nested(H, base, salt))]
  }

  predicate Collision(H: Hash, xy: (bytes, bytes)) {
    xy.0 != xy.1 && H(xy.0) == H(xy.1)
  }

  /** What the hash is fed in the last two passes of the base link: on the left in the chain, on the right
      in the clean definition. */
  function HashedPairs(H: Hash, key: bytes, salt: bytes): seq<(bytes, bytes)> {
    var k := PadOf(VMESS_AEAD_KDF);
    var p := PadOf(Nested(H, [k], salt));
    var x, y := k.inner + (salt + p.inner + key), k.inner + (p.inner + key);
    var v, w := k.inner + (p.outer + H(k.outer + H(x))), k.inner + (p.outer + H(k.outer + H(y)));
    [(x, y), (k.outer + H(x), k.outer + H(y)), (v, w), (k.outer + H(v), k.outer + H(w))]
  }

  /** For every hash, key and salt above one block: the chain agrees with the clean definition if and only
      if one of these four pairs is a collision of the hash. */
  lemma LongSaltAgreesOnlyByCollision(H: Hash, key: bytes, salt: bytes)
    requires |salt| > BLOCK
    ensures KdfValue(H, key, [salt]) == Nested(H, CleanPads(H, salt), key)
       <==> exists xy :: xy in HashedPairs(H, key, salt) && Collision(H, xy)
  {
    var k := PadOf(VMESS_AEAD_KDF);
    var p := PadOf(Nested(H, [k], salt));
    LongSaltLeavesItsBytes(H, key, salt);
    assert CleanPads(H, salt) == [k, p] && [k, p][..1] == [k];
    var pairs := HashedPairs(H, key, salt);
    assert |pairs[0].0| == |k.inner| + |salt| + |p.inner| + |key|;
    assert KdfValue(H, key, [salt]) == H(pairs[3].0);
    assert Nested(H, [k, p], key) == H(pairs[3].1);
    CollisionAmongFour(H, k, p, pairs[0].0, pairs[0].1);
    assert pairs[0] in pairs && pairs[1] in pairs && pairs[2] in pairs && pairs[3] in pairs;
    forall xy | xy in pairs
      ensures xy == pairs[0] || xy == pairs[1] || xy == pairs[2] || xy == pairs[3]
    {
    }
  }

  /** Two different messages and what two passes under the same pads make of them. */
  lemma CollisionAmongFour(H: Hash, k: Pad, p: Pad, x: bytes, y: bytes)
    requires x != y
    ensures
      var x1, y1 := k.outer + H(x), k.outer + H(y);
      var v, w := k.inner + (p.outer + H(x1)), k.inner + (p.outer + H(y1));
      var v1, w1 := k.outer + H(v), k.outer + H(w);
      H(v1) == H(w1) <==>
        Collision(H, (x, y)) || Collision(H, (x1, y1)) || Collision(H, (v, w)) || Collision(H, (v1, w1))
  {
    Behind(k.outer, H(x), H(y));
    var x1, y1 := k.outer + H(x), k.outer + H(y);
    Behind(p.outer, H(x1), H(y1));
    Behind(k.inner, p.outer + H(x1), p.outer + H(y1));
    var v, w := k.inner + (p.outer + H(x1)), k.inner + (p.outer + H(y1));
    Behind(k.outer, H(v), H(w));
  }

  lemma Behind(front: bytes, a: bytes, b: bytes)
    ensures front + a == front + b <==> a == b
  {
    assert (front + a)[|front|..] == a && (front + b)[|front|..] == b;
  }

  /** The restriction to one block is exact: under a hash without collisions, such as the identity, the
      chain agrees with the clean definition for precisely the salts of at most one block. */
  lemma AgreesOnlyUpToOneBlock(H: Hash, key: bytes, salt: bytes)
    requires forall xy :: !Collision(H, xy)
    ensures KdfValue(H, key, [salt]) == Nested(H, CleanPads(H, salt), key) <==> |salt| <= BLOCK
  {
    if |salt| <= BLOCK {
      KdfIsNested(H, key, [salt]);
      assert [salt][..0] == [];
      assert PadsOf([salt]) == CleanPads(H, salt);
    } else {
      LongSaltAgreesOnlyByCollision(H, key, salt);
    }
  }

  lemma IdentityHasNoCollision() returns (H: Hash)
    ensures forall xy :: !Collision(H, xy)
  {
    H := x => x;
  }

  // ---------------------------------------------------------------------------------------
  // The objects.

  class GoSha256 {
    const hash: Hash
    var data: bytes

    constructor (hash: Hash)
      ensures this.hash == hash && data == []
    {
      this.hash := hash;
      data := [];
    }

    method Write(p: bytes)
      modifies this
      ensures data == old(data) + p
    {
      data := data + p;
    }

    method Sum(b: bytes) returns (r: bytes)
      ensures r == b + hash(data)
    {
      r := b + hash(data);
    }

    method Reset()
      modifies this
      ensures data == []
    {
      data := [];
    }

    method Marshal() returns (st: bytes)
      ensures st == data
    {
      st := data;
    }

    method Unmarshal(st: bytes)
      modifies this
      ensures data == st
    {
      data := st;
    }
  }

  /** What a link may delegate to. Only the plain hash can be marshalled. */
  datatype Hasher = Sha(s: GoSha256) | Link(h: GoHmac)

  class GoHmac {
    const inner: Hasher
    const outer: Hasher
    const ipad: bytes
    const opad: bytes
    var marshaled: bool
    var ipadState: Option<bytes>
    var opadState: Option<bytes>

    ghost const hash: Hash
    ghost const pads: seq<Pad>
    ghost const Repr: set<object>

    /** The parts of a chain that never change. */
    ghost predicate Shape()
      decreases |pads|
    {
      && pads != []
      && pads[|pads| - 1] == Pad(ipad, opad)
      && this in Repr
      && (|pads| == 1 ==>
            && inner.Sha? && outer.Sha? && inner.s != outer.s
            && inner.s.hash == hash && outer.s.hash == hash
            && Repr == {this, inner.s, outer.s})
      && (|pads| > 1 ==>
            && inner.Link? && outer == inner
            && inner.h.pads == pads[..|pads| - 1]
            && inner.h.hash == hash
            && this !in inner.h.Repr
            && Repr == {this} + inner.h.Repr
            && inner.h.Shape())
    }

    /** The one hash object every link of the chain finally writes to. */
    ghost function Innermost(): (b: GoSha256)
      requires Shape()
      ensures b in Repr
      decreases |pads|
    {
      if |pads| == 1 then inner.s else inner.h.Innermost()
    }

    /** Only the first link ever gets into the marshalled state, and then its saved states are
        exactly its pads. */
    ghost predicate Valid()
      reads Repr
      decreases |pads|
    {
      && Shape()
      && (|pads| == 1 ==> (marshaled ==> ipadState == Some(ipad) && opadState == Some(opad)))
      && (|pads| > 1 ==> !marshaled && inner.h.Valid())
    }

    ghost function Absorbed(): bytes
      requires Shape()
      reads Innermost()
    {
      Innermost().data
    }

    /** factory = _GoSHA256: two separate hash objects. */
    constructor First(H: Hash, key: bytes)
      ensures Valid() && fresh(Repr) && hash == H
      ensures
        var p := PadOf(if |key| <= BLOCK then key else H(key));
        pads == [p] && Absorbed() == p.inner
      ensures |key| <= BLOCK ==> IsPad(Absorbed(), key, 0x36) && IsPad(opad, key, 0x5C)
    {
      var out := new GoSha256(H);
      var inn := new GoSha256(H);
      var k := key;
      if |k| > BLOCK {
        out.Write(k);
        k := out.Sum([]);
        assert [] + key == key && k == H(key);
      }
      inner, outer := Sha(inn), Sha(out);
      ipad, opad := PadOf(k).inner, PadOf(k).outer;
      marshaled, ipadState, opadState := false, None, None;
      hash, pads, Repr := H, [PadOf(k)], {this, inn, out};
      new;
      inn.Write(ipad);
      assert inn.data == [] + ipad == ipad;
      if |key| <= BLOCK {
        PadsAreRfc2104(key);
      }
    }

    /** factory = lambda: prev: both calls return the same object. */
    constructor Over(prev: GoHmac, key: bytes)
      requires prev.Valid()
      modifies prev.Repr
      ensures Valid() && hash == prev.hash && fresh(Repr - prev.Repr)
      ensures Chain(pads, Absorbed()) == Extend(hash, old(Chain(prev.pads, prev.Absorbed())), key)
      ensures |key| <= BLOCK ==> IsPad(ipad, key, 0x36) && IsPad(opad, key, 0x5C)
    {
      ghost var ch := Chain(prev.pads, prev.Absorbed());
      var k := key;
      if |k| > BLOCK {
        prev.Write(k);
        k := prev.Sum([]);
        assert k == Digest(prev.hash, ch.pads, ch.absorbed + key);
      }
      ghost var c := prev.Absorbed();
      var pad := PadOf(k);
      assert Extend(prev.hash, ch, key) == Chain(ch.pads + [pad], c + pad.inner);
      inner, outer := Link(prev), Link(prev);
      ipad, opad := pad.inner, pad.outer;
      marshaled, ipadState, opadState := false, None, None;
      hash, pads, Repr := prev.hash, prev.pads + [pad], {this} + prev.Repr;
      new;
      prev.Write(ipad);
      if |key| <= BLOCK {
        PadsAreRfc2104(key);
      }
      assert pads[..|pads| - 1] == prev.pads;
      assert Innermost() == prev.Innermost();
    }

    method Write(p: bytes)
      requires Valid()
      modifies Innermost()
      ensures Valid() && Absorbed() == old(Absorbed()) + p
      decreases |pads|
    {
      match inner {
        case Sha(s) => s.Write(p);
        case Link(h) => h.Write(p);
      }
    }

    /** Returns the digest behind the caller's prefix. It is destructive above the first link. */
    method Sum(prefix: bytes) returns (r: bytes)
      requires Valid()
      modifies Repr
      ensures Valid()
      ensures r == prefix + Digest(hash, pads, old(Absorbed()))
      ensures Absorbed() == Residue(hash, pads, old(Absorbed()))
      decreases |pads|
    {
      match inner {
        case Sha(s) =>
          var t := s.Sum(prefix);
          if marshaled {
            outer.s.Unmarshal(opadState.value);
          } else {
            outer.s.Reset();
            outer.s.Write(opad);
            assert outer.s.data == [] + opad == opad;
          }
          outer.s.Write(t[|prefix|..]);
          r := outer.s.Sum(prefix[..|prefix|]);
        case Link(h) =>
          var t := h.Sum(prefix);
          // never marshalled here, so the shared object is reset and rekeyed
          h.Reset();
          h.Write(opad);
          h.Write(t[|prefix|..]);
          r := h.Sum(prefix[..|prefix|]);
      }
    }

    /** After a reset the chain has absorbed exactly its inner pads, whatever came before. */
    method Reset()
      requires Valid()
      modifies Repr
      ensures Valid() && Absorbed() == Fresh(pads)
      decreases |pads|
    {
      if marshaled {
        inner.s.Unmarshal(ipadState.value);
        assert pads[..0] == [];
        return;
      }
      match inner {
        case Sha(s) =>
          s.Reset();
          s.Write(ipad);
          var st := s.Marshal();
          ipadState := Some(st);
          outer.s.Reset();
          outer.s.Write(opad);
          st := outer.s.Marshal();
          opadState := Some(st);
          marshaled := true;
          assert [] + ipad == ipad && [] + opad == opad && pads[..0] == [];
        case Link(h) =>
          h.Reset();
          h.Write(ipad);
          // h has no marshal: the exception handler leaves the link unmarshalled
          marshaled := false;
      }
    }
  }

  lemma ChainOfMore(H: Hash, salts: seq<bytes>, i: nat)
    requires i < |salts|
    ensures ChainOf(H, salts[..i + 1]) == Extend(H, ChainOf(H, salts[..i]), salts[i])
  {
    assert salts[..i + 1][..i] == salts[..i];
  }

  /** The object chain for some salts, ready for the key. */
  method ChainFor(H: Hash, salts: seq<bytes>) returns (h: GoHmac)
    ensures h.Valid() && h.hash == H && fresh(h.Repr)
    ensures Chain(h.pads, h.Absorbed()) == ChainOf(H, salts)
  {
    h := new GoHmac.First(H, VMESS_AEAD_KDF);
    assert Chain(h.pads, h.Absorbed()) == ChainOf(H, []);
    for i := 0 to |salts|
      invariant h.Valid() && h.hash == H && fresh(h.Repr)
      invariant Chain(h.pads, h.Absorbed()) == ChainOf(H, salts[..i])
    {
      h := new GoHmac.Over(h, salts[i]);
      ChainOfMore(H, salts, i);
    }
    assert salts[..|salts|] == salts;
  }

  method Kdf(H: Hash, key: bytes, salts: seq<bytes>) returns (r: bytes)
    ensures r == KdfValue(H, key, salts)
    ensures Short(salts) ==> r == Nested(H, PadsOf(salts), key)
  {
    var h := ChainFor(H, salts);
    h.Write(key);
    r := h.Sum([]);
    if Short(salts) {
      KdfIsNested(H, key, salts);
    }
  }
}
