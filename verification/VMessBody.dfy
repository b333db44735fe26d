/** The chunked VMess body (protocol/vmess/vmess.py:391-564): the two ends as objects, and what
    they do as functions of three counters and the unread bytes. */
module VMessBody {
  import opened Bytes
  import opened VMessCrypto
  import Kdf
  import WsStream

  const OPT_CHUNK_MASKING: nat := 0x04
  const OPT_GLOBAL_PADDING: nat := 0x08
  const OPT_AUTH_LENGTH: nat := 0x10
  const MAX_CHUNK: nat := 0x4000
  const AUTH_LEN: bytes := Ascii("auth_len")

  /** bool(option & bit), for a bit that is a power of two */
  predicate Has(option: nat, bit: nat)
    requires bit > 0
  {
    (option / bit) % 2 == 1
  }

  lemma BitTwo(a: nat)
    ensures Bit(a, 2) == a / 4 % 2
  {
    assert Bit(a, 2) == Bit(a / 2, 1) == Bit(a / 2 / 2, 0);
    assert a / 4 == a / 2 / 2;
  }

  lemma BitThree(a: nat)
    ensures Bit(a, 3) == a / 8 % 2
  {
    BitTwo(a / 2);
    assert a / 8 == a / 2 / 4;
  }

  lemma BitFour(a: nat)
    ensures Bit(a, 4) == a / 16 % 2
  {
    BitThree(a / 2);
    assert a / 16 == a / 2 / 8;
  }

  /** Masking, padding and authenticated lengths are bits 2, 3 and 4 of the option byte. */
  lemma OptionBits(option: nat)
    ensures Has(option, OPT_CHUNK_MASKING) <==> Bit(option, 2) == 1
    ensures Has(option, OPT_GLOBAL_PADDING) <==> Bit(option, 3) == 1
    ensures Has(option, OPT_AUTH_LENGTH) <==> Bit(option, 4) == 1
  {
    BitTwo(option);
    BitThree(option);
    BitFour(option);
  }

  /** What both ends are constructed from: the options, and the keys made from the body key. */
  datatype Config = Config(su: Suite, payload: Cipher, length: Cipher, iv: bytes, option: nat) {
    predicate AuthLen() {
      Has(option, OPT_AUTH_LENGTH)
    }

    /** An authenticated length replaces the masked one. */
    predicate Masked() {
      Has(option, OPT_CHUNK_MASKING) && !AuthLen()
    }

    predicate PadOption() {
      Has(option, OPT_GLOBAL_PADDING) && !AuthLen()
    }

    /** The writer draws padding lengths from the mask stream, so it fails without one. */
    predicate Writable() {
      PadOption() ==> Has(option, OPT_CHUNK_MASKING)
    }
  }

  function LengthKey(su: Suite, key: bytes): bytes {
    Kdf.Kdf16(su.sha256, key, [AUTH_LEN])
  }

  /** The configuration for a body key; the security must be one make_body_aead accepts. */
  function ConfigFor(su: Suite, key: bytes, iv: bytes, security: nat, option: nat): Config
    requires BodyCipher(su, key, security).Some?
  {
    Config(su, BodyCipher(su, key, security).value,
           BodyCipher(su, LengthKey(su, key), security).value, iv, option)
  }

  /** make_body_aead(kdf16(body_key, "auth_len"), security) */
  method LengthAead(su: Suite, key: bytes, security: nat) returns (r: Option<Cipher>)
    requires BodyCipher(su, key, security).Some?
    ensures r.Some? && r.value == ConfigFor(su, key, [], security, 0).length
  {
    var derived := Kdf.Kdf(su.sha256, key, [Ascii("auth_len")]);
    var lengthKey := Take(derived, 16);
    r := MakeBodyAead(su, lengthKey, security);
  }

  /** Chunk nonces drawn for payloads, chunk nonces drawn for lengths, mask bytes consumed. */
  datatype Counters = Counters(payload: nat, length: nat, shake: nat)

  const START := Counters(0, 0, 0)

  function NonceAt(iv: bytes, count: nat): bytes
    requires |iv| == 16
  {
    (Be16(count % 0x1_0000) + iv[2..])[..12]
  }

  /** The two counter bytes are all that changes: nonces come again after 65536 chunks, and not before. */
  lemma NonceRepeats(iv: bytes, i: nat, j: nat)
    requires |iv| == 16
    ensures NonceAt(iv, i) == NonceAt(iv, j) <==> i % 0x1_0000 == j % 0x1_0000
  {
    Be16RoundTrip(i % 0x1_0000);
    Be16RoundTrip(j % 0x1_0000);
    assert NonceAt(iv, i)[..2] == Be16(i % 0x1_0000) && NonceAt(iv, j)[..2] == Be16(j % 0x1_0000);
  }

  /** Twelve bytes: the count modulo 65536, high byte first, and bytes 2 to 11 of the IV. */
  lemma NonceBytes(iv: bytes, count: nat)
    requires |iv| == 16
    ensures
      var n := NonceAt(iv, count);
      && |n| == 12 && n[0] as int * 256 + n[1] as int == count % 65536
      && forall i :: 2 <= i < 12 ==> n[i] == iv[i]
  {
  }

  function ShakeWord(su: Suite, iv: bytes, pos: nat): u16 {
    FromBe16([su.shake(iv, pos), su.shake(iv, pos + 1)])
  }

  // ---------------------------------------------------------------------------------------
  // One chunk on the wire.

  function PadLen(g: Config, c: Counters): (n: nat)
    ensures n < 64
  {
    if g.PadOption() && g.Masked() then ShakeWord(g.su, g.iv, c.shake) % 64 else 0
  }

  /** The mask follows the padding length in the mask stream. */
  function MaskAt(g: Config, c: Counters): u16 {
    if g.Masked() then ShakeWord(g.su, g.iv, c.shake + if g.PadOption() then 2 else 0) else 0
  }

  function LengthField(g: Config): nat {
    if g.AuthLen() then 2 + TAG else 2
  }

  /** The counters after one whole chunk. */
  function Next(g: Config, c: Counters): Counters {
    Counters(c.payload + 1,
             c.length + if g.AuthLen() then 1 else 0,
             AfterLength(g, c))
  }

  function AfterLength(g: Config, c: Counters): nat {
    c.shake + (if g.Masked() && g.PadOption() then 2 else 0) + (if g.Masked() then 2 else 0)
  }

  function Masking(g: Config, mask: u16, v: u16): u16 {
    if g.Masked() then Xor16(v, mask) else v
  }

  function SizeField(g: Config, c: Counters, n: nat): bytes
    requires |g.iv| == 16 && n <= MAX_CHUNK
  {
    if g.AuthLen() then
      g.su.seal(g.length, NonceAt(g.iv, c.length), Be16(n), [])
    else
      Be16(Masking(g, MaskAt(g, c), n + TAG + PadLen(g, c)))
  }

  function Sealed(g: Config, c: Counters, payload: bytes): bytes
    requires |g.iv| == 16
  {
    g.su.seal(g.payload, NonceAt(g.iv, c.payload), payload, [])
  }

  predicate Fits(chunks: seq<bytes>) {
    forall i :: 0 <= i < |chunks| ==> |chunks[i]| <= MAX_CHUNK
  }

  /** A chunk on the wire: bytes that are determined, then padding bytes that are not. */
  datatype Frame = Frame(head: bytes, pad: nat)

  function FrameOf(g: Config, c: Counters, payload: bytes): Frame
    requires |g.iv| == 16 && |payload| <= MAX_CHUNK
  {
    Frame(SizeField(g, c, |payload|) + Sealed(g, c, payload), PadLen(g, c))
  }

  function Frames(g: Config, c: Counters, chunks: seq<bytes>): (fs: seq<Frame>)
    requires |g.iv| == 16 && Fits(chunks)
    ensures |fs| == |chunks|
    decreases |chunks|
  {
    if chunks == [] then [] else [FrameOf(g, c, chunks[0])] + Frames(g, Next(g, c), chunks[1..])
  }

  predicate Framed(fs: seq<Frame>, w: bytes) {
    if fs == [] then
      w == []
    else
      var n := |fs[0].head| + fs[0].pad;
      n <= |w| && w[..|fs[0].head|] == fs[0].head && Framed(fs[1..], w[n..])
  }

  /** w is a wire image of the chunks. */
  predicate IsWire(g: Config, c: Counters, chunks: seq<bytes>, w: bytes)
    requires |g.iv| == 16 && Fits(chunks)
  {
    Framed(Frames(g, c, chunks), w)
  }

  /** The counters after k chunks. */
  function After(g: Config, c: Counters, k: nat): Counters
    decreases k
  {
    if k == 0 then c else After(g, Next(g, c), k - 1)
  }

  lemma {:induction false} FramedConcat(a: seq<Frame>, v: bytes, b: seq<Frame>, w: bytes)
    requires Framed(a, v) && Framed(b, w)
    ensures Framed(a + b, v + w)
  {
    if a == [] {
      assert a + b == b && v + w == w;
    } else {
      var h, n := |a[0].head|, |a[0].head| + a[0].pad;
      FramedConcat(a[1..], v[n..], b, w);
      assert (a + b)[1..] == a[1..] + b;
      assert (v + w)[n..] == v[n..] + w;
      assert (v + w)[..h] == v[..h];
    }
  }

  lemma {:induction false} AfterSum(g: Config, c: Counters, m: nat, n: nat)
    ensures After(g, c, m + n) == After(g, After(g, c, m), n)
    decreases m
  {
    if m == 0 {
    } else {
      AfterSum(g, Next(g, c), m - 1, n);
    }
  }

  lemma AfterBoth(g: Config, c: Counters, a: seq<bytes>, b: seq<bytes>)
    ensures After(g, c, |a + b|) == After(g, After(g, c, |a|), |b|)
  {
    AfterSum(g, c, |a|, |b|);
  }

  lemma FitsBoth(a: seq<bytes>, b: seq<bytes>)
    requires Fits(a) && Fits(b)
    ensures Fits(a + b)
  {
  }

  lemma {:induction false} FramesConcat(g: Config, c: Counters, a: seq<bytes>, b: seq<bytes>)
    requires |g.iv| == 16 && Fits(a) && Fits(b) && Fits(a + b)
    ensures Frames(g, c, a + b) == Frames(g, c, a) + Frames(g, After(g, c, |a|), b)
    decreases |a|
  {
    if a == [] {
      assert a + b == b;
    } else {
      assert (a + b)[1..] == a[1..] + b;
      FitsBoth(a[1..], b);
      FramesConcat(g, Next(g, c), a[1..], b);
      assert (a + b)[0] == a[0];
    }
  }

  /** Wires written one after the other are a wire of all their chunks. */
  lemma WireConcat(g: Config, c: Counters, a: seq<bytes>, v: bytes, b: seq<bytes>, w: bytes)
    requires |g.iv| == 16 && Fits(a) && Fits(b)
    requires IsWire(g, c, a, v) && IsWire(g, After(g, c, |a|), b, w)
    ensures Fits(a + b) && IsWire(g, c, a + b, v + w)
    ensures After(g, c, |a + b|) == After(g, After(g, c, |a|), |b|)
  {
    FitsBoth(a, b);
    FramesConcat(g, c, a, b);
    AfterBoth(g, c, a, b);
    FramedConcat(Frames(g, c, a), v, Frames(g, After(g, c, |a|), b), w);
  }

  lemma AppendChunk(g: Config, c: Counters, a: seq<bytes>, v: bytes, p: bytes, w: bytes)
    requires |g.iv| == 16 && Fits(a) && |p| <= MAX_CHUNK
    requires IsWire(g, c, a, v) && IsWire(g, After(g, c, |a|), [p], w)
    ensures Fits(a + [p]) && IsWire(g, c, a + [p], v + w)
    ensures After(g, c, |a| + 1) == Next(g, After(g, c, |a|))
  {
    WireConcat(g, c, a, v, [p], w);
    assert After(g, After(g, c, |a|), 1) == After(g, Next(g, After(g, c, |a|)), 0);
  }

  // ---------------------------------------------------------------------------------------
  // The writer.

  /** The masked size word differs from payload, tag and padding length exactly in the bits of the mask, and
      the mask is the stream's word behind the one the padding was drawn from. */
  lemma SizeWordIsMasked(g: Config, c: Counters, n: nat, i: nat)
    requires |g.iv| == 16 && g.Masked() && n <= MAX_CHUNK && i < 16
    ensures
      var word := SizeField(g, c, n);
      && |word| == 2
      && Bit(word[0] as int * 256 + word[1] as int, i) == (Bit(n + 16 + PadLen(g, c), i) + Bit(MaskAt(g, c), i)) % 2
    ensures
      var at := if g.PadOption() then c.shake + 2 else c.shake;
      MaskAt(g, c) == g.su.shake(g.iv, at) as int * 256 + g.su.shake(g.iv, at + 1) as int
    ensures g.PadOption() ==>
      PadLen(g, c) == (g.su.shake(g.iv, c.shake) as int * 256 + g.su.shake(g.iv, c.shake + 1) as int) % 64
  {
    XorIsBitwise(16, n + TAG + PadLen(g, c), MaskAt(g, c), i);
  }

  lemma FramedOne(f: Frame, w: bytes)
    requires Framed([f], w)
    ensures |w| == |f.head| + f.pad && w[..|f.head|] == f.head
  {
    assert [f][1..] == [];
    assert Framed([], w[|f.head| + f.pad..]);
  }

  /** One chunk on the wire, byte range by byte range. */
  lemma ChunkLayout(g: Config, c: Counters, p: bytes, w: bytes)
    requires |g.iv| == 16 && Lawful(g.su) && |p| <= MAX_CHUNK && IsWire(g, c, [p], w)
    ensures
      var head := if g.AuthLen() then 18 else 2;
      && |w| == head + (|p| + 16) + PadLen(g, c)
      && w[head..head + |p| + 16] == g.su.seal(g.payload, NonceAt(g.iv, c.payload), p, [])
      && (g.AuthLen() ==> w[..18] == g.su.seal(g.length, NonceAt(g.iv, c.length), Be16(|p|), []))
      && (!g.AuthLen() ==> w[..2] == SizeField(g, c, |p|))
      && (!g.AuthLen() && !g.Masked() ==> w[0] as int * 256 + w[1] as int == |p| + 16)
  {
    var f := FrameOf(g, c, p);
    assert [p][1..] == [];
    assert Frames(g, c, [p]) == [f];
    FramedOne(f, w);
    var field, sealed := SizeField(g, c, |p|), Sealed(g, c, p);
    assert w[..|field + sealed|] == field + sealed;
    assert w[..|field|] == (field + sealed)[..|field|] == field;
    assert w[|field|..|field| + |sealed|] == (field + sealed)[|field|..] == sealed;
  }

  /** How write_chunk cuts a payload. */
  function Pieces(payload: bytes): (ps: seq<bytes>)
    ensures Fits(ps) && Flatten(ps) == payload
    ensures payload != [] ==> [] !in ps
    decreases |payload|
  {
    if |payload| <= MAX_CHUNK then
      assert Flatten([payload]) == payload + Flatten([]);
      [payload]
    else
      var ps := Pieces(payload[MAX_CHUNK..]);
      assert ([payload[..MAX_CHUNK]] + ps)[1..] == ps;
      [payload[..MAX_CHUNK]] + ps
  }

  /** The chunks of a sequence of payloads. */
  function AllPieces(payloads: seq<bytes>): (ps: seq<bytes>)
    ensures Fits(ps)
  {
    if payloads == [] then [] else Pieces(payloads[0]) + AllPieces(payloads[1..])
  }

  /** The pieces of what is left from position at on. */
  function PiecesAt(payload: bytes, at: nat): seq<bytes> {
    if at < |payload| then Pieces(payload[at..]) else []
  }

  /** payload[at:at + MAX_CHUNK] */
  function PieceAt(payload: bytes, at: nat): (p: bytes)
    requires at < |payload|
    ensures |p| <= MAX_CHUNK
  {
    payload[at..if at + MAX_CHUNK <= |payload| then at + MAX_CHUNK else |payload|]
  }

  lemma PiecesFrom(payload: bytes, at: nat, done: seq<bytes>)
    requires at < |payload|
    ensures done + PiecesAt(payload, at) == (done + [PieceAt(payload, at)]) + PiecesAt(payload, at + MAX_CHUNK)
  {
    var left := payload[at..];
    if |left| > MAX_CHUNK {
      assert left[..MAX_CHUNK] == payload[at..at + MAX_CHUNK];
      assert left[MAX_CHUNK..] == payload[at + MAX_CHUNK..];
    } else {
      assert left == payload[at..|payload|];
    }
  }

  class ChunkNonce {
    const iv: bytes
    var buffer: bytes
    var count: nat

    ghost predicate Valid()
      reads this
    {
      |iv| == 16 && |buffer| == 16 && buffer[2..] == iv[2..]
    }

    constructor (iv: bytes)
      requires |iv| == 16
      ensures Valid() && this.iv == iv && count == 0
    {
      this.iv := iv;
      buffer, count := iv, 0;
    }

    method Next() returns (n: bytes)
      requires Valid()
      modifies this
      ensures Valid() && count == old(count) + 1
      ensures n == NonceAt(iv, old(count))
    {
      buffer := Be16(count % 0x1_0000) + buffer[2..];
      count := count + 1;
      n := buffer[..12];
    }
  }

  class ShakeStream {
    const su: Suite
    const iv: bytes
    var consumed: nat

    constructor (su: Suite, iv: bytes)
      ensures this.su == su && this.iv == iv && consumed == 0
    {
      this.su, this.iv := su, iv;
      consumed := 0;
    }

    method Next16() returns (v: u16)
      modifies this
      ensures v == ShakeWord(su, iv, old(consumed)) && consumed == old(consumed) + 2
    {
      var digest := seq<byte>(consumed + 2, i requires 0 <= i => su.shake(iv, i));
      v := FromBe16(digest[consumed..]);
      consumed := consumed + 2;
    }
  }

  class BodyWriter {
    ghost const g: Config
    const su: Suite
    const cipher: Cipher
    const masking: bool
    const padding: bool
    const authlen: bool
    const lenCipher: Cipher
    const payloadNonce: ChunkNonce
    const lenNonce: ChunkNonce?
    const shake: ShakeStream?

    ghost predicate Valid()
      reads this, payloadNonce, lenNonce, shake
    {
      && |g.iv| == 16 && su == g.su
      && cipher == g.payload
      && masking == Has(g.option, OPT_CHUNK_MASKING)
      && authlen == g.AuthLen()
      && padding == g.PadOption()
      && payloadNonce.Valid() && payloadNonce.iv == g.iv
      && (lenNonce != null <==> authlen)
      && (lenNonce != null ==> lenCipher == g.length && lenNonce.Valid() && lenNonce.iv == g.iv
                               && lenNonce != payloadNonce)
      && (shake != null <==> masking)
      && (shake != null ==> shake.su == su && shake.iv == g.iv)
    }

    ghost function State(): Counters
      reads this, payloadNonce, lenNonce, shake
    {
      Counters(payloadNonce.count,
               if lenNonce == null then 0 else lenNonce.count,
               if shake == null then 0 else shake.consumed)
    }

    constructor (su: Suite, key: bytes, iv: bytes, security: nat, option: nat)
      requires |iv| == 16 && BodyCipher(su, key, security).Some?
      ensures Valid() && g == ConfigFor(su, key, iv, security, option) && State() == START
      ensures fresh(payloadNonce) && fresh({lenNonce, shake} - {null})
    {
      this.g, this.su := ConfigFor(su, key, iv, security, option), su;
      var aead := MakeBodyAead(su, key, security);
      cipher := aead.value;
      masking := Has(option, OPT_CHUNK_MASKING);
      padding := Has(option, OPT_GLOBAL_PADDING) && !Has(option, OPT_AUTH_LENGTH);
      authlen := Has(option, OPT_AUTH_LENGTH);
      var ln: ChunkNonce? := null;
      var lenAead := aead;
      if Has(option, OPT_AUTH_LENGTH) {
        lenAead := LengthAead(su, key, security);
        ln := new ChunkNonce(iv);
      }
      lenCipher := lenAead.value;
      lenNonce := ln;
      var sh: ShakeStream? := null;
      if Has(option, OPT_CHUNK_MASKING) {
        sh := new ShakeStream(su, iv);
      }
      shake := sh;
      payloadNonce := new ChunkNonce(iv);
    }

    /** One chunk with padding bytes taken from rnd. Fails with an attribute error, and nothing
        written, exactly when the options ask for padding without a mask stream. */
    method Seal(payload: bytes, rnd: nat -> byte) returns (r: Option<bytes>)
      requires Valid() && |payload| <= MAX_CHUNK && Lawful(su)
      modifies payloadNonce, lenNonce, shake
      ensures Valid()
      ensures r.Some? <==> g.Writable()
      ensures r.Some? ==> State() == Next(g, old(State())) && IsWire(g, old(State()), [payload], r.value)
    {
      ghost var c := State();
      var paddingSize := 0;
      if padding {
        if shake == null {
          return None;
        }
        var v := shake.Next16();
        paddingSize := v % 64;
      }
      assert paddingSize == PadLen(g, c);
      var encryptedSize := |payload| + TAG;
      var out: bytes := [];
      if authlen {
        var n := lenNonce.Next();
        out := out + su.seal(lenCipher, n, Be16(|payload|), []);
      } else {
        var sizeVal := encryptedSize + paddingSize;
        if shake != null {
          var mask := shake.Next16();
          out := out + Be16(Xor16(sizeVal, mask));
        } else {
          out := out + Be16(sizeVal);
        }
      }
      assert out == SizeField(g, c, |payload|);
      var n := payloadNonce.Next();
      out := out + su.seal(cipher, n, payload, []);
      ghost var head := out;
      assert head == SizeField(g, c, |payload|) + Sealed(g, c, payload);
      out := out + seq(paddingSize, i requires 0 <= i => rnd(i));
      assert out[..|head|] == head && out[|head| + paddingSize..] == [];
      assert [payload][1..] == [];
      r := Some(out);
    }

    /** Writes a payload of any size; the wire carries its pieces in order. */
    method WriteChunk(payload: bytes, rnd: (nat, nat) -> byte) returns (r: Option<bytes>)
      requires Valid() && Lawful(su)
      modifies payloadNonce, lenNonce, shake
      ensures Valid()
      ensures r.Some? <==> g.Writable()
      ensures r.Some? ==>
        && State() == After(g, old(State()), |Pieces(payload)|)
        && IsWire(g, old(State()), Pieces(payload), r.value)
    {
      if |payload| <= MAX_CHUNK {
        ghost var c := State();
        r := Seal(payload, i => rnd(0, i));
        assert Pieces(payload) == [payload] && After(g, c, 1) == After(g, Next(g, c), 0);
      } else {
        r := WritePieces(payload, rnd);
      }
    }

    /** Seals one more piece behind what was written since the counters stood at c. */
    method PutPiece(out: bytes, piece: bytes, rnd: nat -> byte, ghost c: Counters, ghost done: seq<bytes>)
      returns (r: Option<bytes>)
      requires Valid() && Lawful(su) && |piece| <= MAX_CHUNK
      requires Fits(done) && IsWire(g, c, done, out) && State() == After(g, c, |done|)
      modifies payloadNonce, lenNonce, shake
      ensures Valid()
      ensures r.Some? <==> g.Writable()
      ensures r.Some? ==>
        Fits(done + [piece]) && IsWire(g, c, done + [piece], r.value) && State() == After(g, c, |done| + 1)
    {
      var part := Seal(piece, rnd);
      if part.Some? {
        AppendChunk(g, c, done, out, piece, part.value);
        r := Some(out + part.value);
      } else {
        r := None;
      }
    }

    method WritePieces(payload: bytes, rnd: (nat, nat) -> byte) returns (r: Option<bytes>)
      requires Valid() && Lawful(su) && payload != []
      modifies payloadNonce, lenNonce, shake
      ensures Valid()
      ensures r.Some? <==> g.Writable()
      ensures r.Some? ==>
        && State() == After(g, old(State()), |Pieces(payload)|)
        && IsWire(g, old(State()), Pieces(payload), r.value)
    {
      ghost var c := State();
      var out: bytes, at, k := [], 0, 0;
      ghost var done: seq<bytes> := [];
      while at < |payload|
        invariant Valid() && (at > 0 ==> g.Writable())
        invariant Fits(done) && IsWire(g, c, done, out) && State() == After(g, c, |done|)
        invariant Pieces(payload) == done + PiecesAt(payload, at)
        decreases |payload| - at
      {
        var piece := PieceAt(payload, at);
        PiecesFrom(payload, at, done);
        var longer := PutPiece(out, piece, i => rnd(k, i), c, done);
        if longer.None? {
          return None;
        }
        out := longer.value;
        done := done + [piece];
        at, k := at + MAX_CHUNK, k + 1;
      }
      assert done + [] == done;
      r := Some(out);
    }

    method WriteEof(rnd: nat -> byte) returns (r: Option<bytes>)
      requires Valid() && Lawful(su)
      modifies payloadNonce, lenNonce, shake
      ensures Valid()
      ensures r.Some? <==> g.Writable()
      ensures r.Some? ==> State() == Next(g, old(State())) && IsWire(g, old(State()), [[]], r.value)
    {
      r := Seal([], rnd);
    }
  }

  /** What becomes of the i-th piece of data in a relay loop: it passes, check_and_use refuses it, or the
      other side breaks while it is sent. */
  datatype Fate = Passed | Refused | Broken

  /** Beyond the list everything passes. */
  function FateAt(fates: seq<Fate>, i: nat): Fate {
    if i < |fates| then fates[i] else Passed
  }

  predicate AllPass(fates: seq<Fate>, n: nat) {
    forall j: nat :: j < n ==> FateAt(fates, j) == Passed
  }

  /** The first of n pieces that does not pass. */
  function FirstStop(fates: seq<Fate>, n: nat): (k: nat)
    ensures k <= n && AllPass(fates, k) && (k < n ==> FateAt(fates, k) != Passed)
  {
    if n == 0 then 0
    else
      var k := FirstStop(fates, n - 1);
      if k == n - 1 && FateAt(fates, k) == Passed then n else k
  }

  lemma StopsAt(fates: seq<Fate>, n: nat, i: nat)
    requires i <= n && AllPass(fates, i) && (i < n ==> FateAt(fates, i) != Passed)
    ensures FirstStop(fates, n) == i
  {
    var k := FirstStop(fates, n);
    assert AllPass(fates, k) && (k < n ==> FateAt(fates, k) != Passed);
  }

  /** The relay's downlink loop (protocol/vmess/tunnel.py:145-164): one write per read from the target,
      up to a refusal, which comes before the writer is asked, or a break, which comes behind it, or else
      the closing chunk. None is the writer's failure on options that ask for padding without a mask
      stream. */
  method Respond(writer: BodyWriter, payloads: seq<bytes>, fates: seq<Fate>, rnd: (nat, nat, nat) -> byte)
    returns (r: Option<bytes>)
    requires writer.Valid() && Lawful(writer.su)
    modifies writer.payloadNonce, writer.lenNonce, writer.shake
    ensures writer.Valid()
    ensures
      var n := FirstStop(fates, |payloads|);
      && (r.Some? <==> writer.g.Writable() || (payloads != [] && FateAt(fates, 0) == Refused))
      && (r.Some? ==> IsWire(writer.g, old(writer.State()),
                             AllPieces(payloads[..n]) + if n == |payloads| then [[]] else [], r.value))
  {
    ghost var c := writer.State();
    var wire: bytes := [];
    var i := 0;
    while i < |payloads| && FateAt(fates, i) == Passed
      invariant i <= |payloads| && writer.Valid()
      invariant i > 0 ==> writer.g.Writable()
      invariant AllPass(fates, i)
      invariant IsWire(writer.g, c, AllPieces(payloads[..i]), wire)
      invariant writer.State() == After(writer.g, c, |AllPieces(payloads[..i])|)
    {
      var longer := SendOne(writer, wire, payloads, i, (j, k) => rnd(i, j, k), c);
      if longer.None? {
        StopsLater(fates, |payloads|, i);
        return None;
      }
      wire := longer.value;
      i := i + 1;
    }
    StopsAt(fates, |payloads|, i);
    if i < |payloads| {
      assert AllPieces(payloads[..i]) + [] == AllPieces(payloads[..i]);
      if FateAt(fates, i) == Broken {
        // sealed, but not sent
        var lost := writer.WriteChunk(payloads[i], (j, k) => rnd(i, j, k));
        if lost.None? {
          return None;
        }
      }
      return Some(wire);
    }
    var last := writer.WriteEof(k => rnd(|payloads|, 0, k));
    if last.None? {
      return None;
    }
    WireConcat(writer.g, c, AllPieces(payloads[..i]), wire, [[]], last.value);
    r := Some(wire + last.value);
  }

  /** One more payload behind the wire of the first i. */
  method SendOne(writer: BodyWriter, wire: bytes, payloads: seq<bytes>, i: nat, rnd: (nat, nat) -> byte,
                 ghost c: Counters)
    returns (r: Option<bytes>)
    requires writer.Valid() && Lawful(writer.su) && i < |payloads|
    requires IsWire(writer.g, c, AllPieces(payloads[..i]), wire)
    requires writer.State() == After(writer.g, c, |AllPieces(payloads[..i])|)
    modifies writer.payloadNonce, writer.lenNonce, writer.shake
    ensures writer.Valid()
    ensures r.Some? <==> writer.g.Writable()
    ensures r.Some? ==>
      && IsWire(writer.g, c, AllPieces(payloads[..i + 1]), r.value)
      && writer.State() == After(writer.g, c, |AllPieces(payloads[..i + 1])|)
  {
    var part := writer.WriteChunk(payloads[i], rnd);
    if part.None? {
      return None;
    }
    WireConcat(writer.g, c, AllPieces(payloads[..i]), wire, Pieces(payloads[i]), part.value);
    AllPiecesSnoc(payloads, i);
    r := Some(wire + part.value);
  }

  lemma StopsLater(fates: seq<Fate>, n: nat, i: nat)
    requires i < n && AllPass(fates, i + 1)
    ensures FirstStop(fates, n) > i
  {
  }

  /** The downlink when nothing is refused or breaks. */
  method RespondAll(writer: BodyWriter, payloads: seq<bytes>, rnd: (nat, nat, nat) -> byte) returns (r: Option<bytes>)
    requires writer.Valid() && Lawful(writer.su)
    modifies writer.payloadNonce, writer.lenNonce, writer.shake
    ensures writer.Valid()
    ensures r.Some? <==> writer.g.Writable()
    ensures r.Some? ==> IsWire(writer.g, old(writer.State()), AllPieces(payloads) + [[]], r.value)
  {
    StopsAt([], |payloads|, |payloads|);
    assert payloads[..|payloads|] == payloads;
    r := Respond(writer, payloads, [], rnd);
  }

  lemma AllPiecesSnoc(payloads: seq<bytes>, i: nat)
    requires i < |payloads|
    ensures AllPieces(payloads[..i + 1]) == AllPieces(payloads[..i]) + Pieces(payloads[i])
  {
    assert payloads[..i + 1] == payloads[..i] + [payloads[i]];
    AllPiecesConcat(payloads[..i], [payloads[i]]);
    assert AllPieces([payloads[i]]) == Pieces(payloads[i]) + AllPieces([]);
  }

  lemma {:induction false} AllPiecesConcat(a: seq<bytes>, b: seq<bytes>)
    ensures AllPieces(a + b) == AllPieces(a) + AllPieces(b)
  {
    if a == [] {
      assert a + b == b;
    } else {
      assert (a + b)[1..] == a[1..] + b;
      AllPiecesConcat(a[1..], b);
    }
  }

  // ---------------------------------------------------------------------------------------
  // The reader as a function of the unread bytes.

  /** What one read gives: a payload, the end of the stream (b""), or an exception. */
  datatype Event = Chunk(payload: bytes) | Eof | Error

  datatype Reading = Reading(counters: Counters, done: bool, rest: bytes)

  datatype Step = Step(event: Event, next: Reading)

  function ReadStep(g: Config, r: Reading): (s: Step)
    requires |g.iv| == 16
    ensures s.event.Chunk? ==> |s.next.rest| < |r.rest|
  {
    if r.done then
      Step(Eof, r)
    else if |r.rest| < LengthField(g) then
      Step(Eof, r.(done := true))
    else if g.AuthLen() then
      ReadAuthenticated(g, r)
    else
      ReadPlain(g, r)
  }

  function ReadAuthenticated(g: Config, r: Reading): (s: Step)
    requires |g.iv| == 16 && |r.rest| >= 2 + TAG
    ensures s.event.Chunk? ==> |s.next.rest| < |r.rest|
  {
    var c := r.counters;
    var plain := g.su.open(g.length, NonceAt(g.iv, c.length), r.rest[..2 + TAG], []);
    var r1 := Reading(c.(length := c.length + 1), false, r.rest[2 + TAG..]);
    if plain.None? || |plain.value| != 2 then
      Step(Error, r1)
    else
      var size := FromBe16(plain.value) + TAG;
      if size == TAG then Step(Eof, r1.(done := true))
      else if size > MAX_CHUNK + TAG then Step(Error, r1)
      else ReadPayload(g, r1, size, 0)
  }

  function ReadPlain(g: Config, r: Reading): (s: Step)
    requires |g.iv| == 16 && |r.rest| >= 2
    ensures s.event.Chunk? ==> |s.next.rest| < |r.rest|
  {
    var c := r.counters;
    var pad := PadLen(g, c);
    var size := Masking(g, MaskAt(g, c), FromBe16(r.rest[..2]));
    var r1 := Reading(c.(shake := AfterLength(g, c)), false, r.rest[2..]);
    if size == TAG + pad then Step(Eof, r1.(done := true))
    else if size < TAG + pad || size > MAX_CHUNK + TAG + 64 then Step(Error, r1)
    else ReadPayload(g, r1, size, pad)
  }

  function ReadPayload(g: Config, r: Reading, size: nat, pad: nat): (s: Step)
    requires |g.iv| == 16 && pad <= size
    ensures |s.next.rest| <= |r.rest|
  {
    if |r.rest| < size then
      Step(Error, r)
    else
      var c := r.counters;
      var plain := g.su.open(g.payload, NonceAt(g.iv, c.payload), r.rest[..size - pad], []);
      var r1 := Reading(c.(payload := c.payload + 1), false, r.rest[size..]);
      if plain.None? then Step(Error, r1) else Step(Chunk(plain.value), r1)
  }

  /** Reading until the first b"" or exception. */
  datatype Run = Run(chunks: seq<bytes>, end: Event)

  function Drain(g: Config, r: Reading): (d: Run)
    requires |g.iv| == 16
    decreases |r.rest|
  {
    var s := ReadStep(g, r);
    if s.event.Chunk? then
      var d := Drain(g, s.next);
      Run([s.event.payload] + d.chunks, d.end)
    else
      Run([], s.event)
  }

  /** A run whose first chunks were read already. */
  function Behind(chunks: seq<bytes>, d: Run): Run {
    Run(chunks + d.chunks, d.end)
  }

  lemma DrainStep(g: Config, r: Reading, chunks: seq<bytes>)
    requires |g.iv| == 16
    ensures
      var s := ReadStep(g, r);
      Behind(chunks, Drain(g, r)) ==
      if s.event.Chunk? then Behind(chunks + [s.event.payload], Drain(g, s.next)) else Run(chunks, s.event)
  {
    var s := ReadStep(g, r);
    if s.event.Chunk? {
      var rest := Drain(g, s.next).chunks;
      assert chunks + ([s.event.payload] + rest) == chunks + [s.event.payload] + rest;
    } else {
      assert chunks + [] == chunks;
    }
  }

  lemma TakesChunk(g: Config, r: Reading, chunks: seq<bytes>, e: Event, next: Reading)
    requires |g.iv| == 16 && e.Chunk? && Step(e, next) == ReadStep(g, r)
    ensures |next.rest| < |r.rest|
    ensures Behind(chunks, Drain(g, r)) == Behind(chunks + [e.payload], Drain(g, next))
    ensures Flatten(chunks + [e.payload]) == Flatten(chunks) + e.payload
  {
    DrainStep(g, r, chunks);
    FlattenSnoc(chunks, e.payload);
  }

  /** What becomes of a plain size, once it is unmasked: at the padding and an empty payload the stream ends;
      below that, and above a full chunk with 64 more bytes, the reader raises; a size in between is read to
      its last byte or raises, and the payload in front of the padding is opened. */
  lemma SizesThatAreRead(g: Config, r: Reading)
    requires |g.iv| == 16 && !g.AuthLen() && !r.done && |r.rest| >= 2
    ensures
      var word := r.rest[0] as int * 256 + r.rest[1] as int;
      var size: int := if g.Masked() then Xor16(word, MaskAt(g, r.counters)) else word;
      var pad := PadLen(g, r.counters);
      var s := ReadStep(g, r);
      && (s.event.Eof? <==> size == 16 + pad)
      && (s.event.Eof? ==> s.next.done)
      && (size < 16 + pad || size > 0x4000 + 16 + 64 ==> s.event.Error?)
      && (s.event.Chunk? ==>
            && 16 + pad < size <= 0x4000 + 16 + 64 && size <= |r.rest| - 2
            && g.su.open(g.payload, NonceAt(g.iv, r.counters.payload), r.rest[2..][..size - pad], [])
               == Some(s.event.payload)
            && s.next.rest == r.rest[2..][size..])
      && ((&& 16 + pad < size <= 0x4000 + 16 + 64 && size <= |r.rest| - 2
           && g.su.open(g.payload, NonceAt(g.iv, r.counters.payload), r.rest[2..][..size - pad], []).Some?) ==>
            s.event.Chunk?)
  {
  }

  /** The same for sealed sizes, which count the payload without its tag. */
  lemma SealedSizesThatAreRead(g: Config, r: Reading, n: nat)
    requires |g.iv| == 16 && g.AuthLen() && !r.done && |r.rest| >= 18 && n < 65536
    requires g.su.open(g.length, NonceAt(g.iv, r.counters.length), r.rest[..18], []) == Some(Be16(n))
    ensures
      var s := ReadStep(g, r);
      && (s.event.Eof? <==> n == 0)
      && (n > 0x4000 ==> s.event.Error?)
      && (s.event.Chunk? ==>
            && 0 < n <= 0x4000 && n + 16 <= |r.rest| - 18
            && g.su.open(g.payload, NonceAt(g.iv, r.counters.payload), r.rest[18..][..n + 16], [])
               == Some(s.event.payload)
            && s.next.rest == r.rest[18..][n + 16..])
      && ((&& 0 < n <= 0x4000 && n + 16 <= |r.rest| - 18
           && g.su.open(g.payload, NonceAt(g.iv, r.counters.payload), r.rest[18..][..n + 16], []).Some?) ==>
            s.event.Chunk?)
  {
    Be16RoundTrip(n);
  }

  /** After the end of the stream every further read gives the end again, and changes nothing. */
  lemma EofForever(g: Config, r: Reading)
    requires |g.iv| == 16
    ensures var s := ReadStep(g, r); s.event.Eof? ==> ReadStep(g, s.next) == Step(Eof, s.next)
  {
  }

  // ---------------------------------------------------------------------------------------
  // Round trip and truncation.

  function ChunkSize(g: Config, c: Counters, payload: bytes): nat {
    LengthField(g) + |payload| + TAG + PadLen(g, c)
  }

  /** What must come out of the first n bytes of a wire: the chunks that lie wholly inside, then
      the end of the stream if the cut falls before or inside a length field or behind an empty
      chunk's length, and an error if it falls inside a payload or its padding. */
  function Delivered(g: Config, c: Counters, chunks: seq<bytes>, n: nat): Run
    decreases |chunks|
  {
    if chunks == [] || n < LengthField(g) || chunks[0] == [] then
      Run([], Eof)
    else if n < ChunkSize(g, c, chunks[0]) then
      Run([], Error)
    else
      var d := Delivered(g, Next(g, c), chunks[1..], n - ChunkSize(g, c, chunks[0]));
      Run([chunks[0]] + d.chunks, d.end)
  }

  lemma HeadSize(g: Config, c: Counters, payload: bytes)
    requires |g.iv| == 16 && |payload| <= MAX_CHUNK && Lawful(g.su)
    ensures |SizeField(g, c, |payload|)| == LengthField(g)
    ensures |SizeField(g, c, |payload|) + Sealed(g, c, payload)| + PadLen(g, c) == ChunkSize(g, c, payload)
  {
  }

  /** Where field and sealed payload are found again in the first n bytes of a wire. */
  lemma SplitHead(x: bytes, n: nat, field: bytes, sealed: bytes, pad: nat)
    requires |field| <= n <= |x| && |field| + |sealed| <= |x| && x[..|field| + |sealed|] == field + sealed
    ensures x[..n][..|field|] == field
    ensures n >= |field| + |sealed| + pad ==>
      && x[..n][|field|..][..|sealed|] == sealed
      && x[..n][|field|..][|sealed| + pad..] == x[..n][|field| + |sealed| + pad..]
  {
    assert x[..n][..|field|] == x[..|field| + |sealed|][..|field|];
    if n >= |field| + |sealed| + pad {
      assert x[..n][|field|..][..|sealed|] == x[..|field| + |sealed|][|field|..];
    }
  }

  lemma ReadsPayload(g: Config, c: Counters, p: bytes, rest: bytes, pad: nat)
    requires |g.iv| == 16 && Lawful(g.su)
    requires |Sealed(g, c, p)| + pad <= |rest| && rest[..|Sealed(g, c, p)|] == Sealed(g, c, p)
    ensures ReadPayload(g, Reading(c, false, rest), |p| + TAG + pad, pad)
         == Step(Chunk(p), Reading(c.(payload := c.payload + 1), false, rest[|p| + TAG + pad..]))
  {
    assert |Sealed(g, c, p)| == |p| + TAG;
  }

  /** One read against the start of a wire image, with authenticated lengths. */
  lemma ReadsAuthenticated(g: Config, c: Counters, p: bytes, x: bytes, n: nat)
    requires |g.iv| == 16 && g.AuthLen() && Lawful(g.su) && |p| <= MAX_CHUNK
    requires 2 + TAG <= n <= |x|
    requires
      var f := FrameOf(g, c, p);
      |f.head| + f.pad <= |x| && x[..|f.head|] == f.head
    ensures
      var s := ReadAuthenticated(g, Reading(c, false, x[..n]));
      if p == [] then s.event == Eof
      else if n < ChunkSize(g, c, p) then s.event == Error
      else s == Step(Chunk(p), Reading(Next(g, c), false, x[..n][ChunkSize(g, c, p)..]))
  {
    var field, sealed := SizeField(g, c, |p|), Sealed(g, c, p);
    HeadSize(g, c, p);
    SplitHead(x, n, field, sealed, PadLen(g, c));
    Be16RoundTrip(|p|);
  }

  /** The plain size field, unmasked at the same position of the mask stream. */
  lemma UnmasksSize(g: Config, c: Counters, n: nat)
    requires |g.iv| == 16 && !g.AuthLen() && n <= MAX_CHUNK
    ensures |SizeField(g, c, n)| == 2
    ensures Masking(g, MaskAt(g, c), FromBe16(SizeField(g, c, n))) == n + TAG + PadLen(g, c)
  {
    var v := n + TAG + PadLen(g, c);
    Be16RoundTrip(Masking(g, MaskAt(g, c), v));
    Xor16Twice(v, MaskAt(g, c));
  }

  /** The same with plain or masked lengths. */
  lemma ReadsPlain(g: Config, c: Counters, p: bytes, x: bytes, n: nat)
    requires |g.iv| == 16 && !g.AuthLen() && Lawful(g.su) && |p| <= MAX_CHUNK
    requires 2 <= n <= |x|
    requires
      var f := FrameOf(g, c, p);
      |f.head| + f.pad <= |x| && x[..|f.head|] == f.head
    ensures
      var s := ReadPlain(g, Reading(c, false, x[..n]));
      if p == [] then s.event == Eof
      else if n < ChunkSize(g, c, p) then s.event == Error
      else s == Step(Chunk(p), Reading(Next(g, c), false, x[..n][ChunkSize(g, c, p)..]))
  {
    var field, sealed, pad := SizeField(g, c, |p|), Sealed(g, c, p), PadLen(g, c);
    HeadSize(g, c, p);
    SplitHead(x, n, field, sealed, pad);
    UnmasksSize(g, c, |p|);
    if n >= ChunkSize(g, c, p) {
      ReadsPayload(g, c.(shake := AfterLength(g, c)), p, x[..n][2..], pad);
    }
  }

  /** One step of reading a prefix of a wire. */
  lemma ReadsChunk(g: Config, c: Counters, chunks: seq<bytes>, w: bytes, n: nat)
    requires |g.iv| == 16 && Lawful(g.su)
    requires Fits(chunks) && chunks != [] && IsWire(g, c, chunks, w)
    requires LengthField(g) <= n <= |w|
    ensures
      var s := ReadStep(g, Reading(c, false, w[..n]));
      var size := ChunkSize(g, c, chunks[0]);
      && size <= |w|
      && IsWire(g, Next(g, c), chunks[1..], w[size..])
      && (if chunks[0] == [] then s.event == Eof
          else if n < size then s.event == Error
          else s == Step(Chunk(chunks[0]), Reading(Next(g, c), false, w[..n][size..])))
  {
    HeadSize(g, c, chunks[0]);
    assert Frames(g, c, chunks)[1..] == Frames(g, Next(g, c), chunks[1..]);
    if g.AuthLen() {
      ReadsAuthenticated(g, c, chunks[0], w, n);
    } else {
      ReadsPlain(g, c, chunks[0], w, n);
    }
  }

  /** Every prefix of a wire delivers exactly the chunks that lie wholly inside it. */
  lemma {:induction false} PrefixDelivers(g: Config, c: Counters, chunks: seq<bytes>, w: bytes, n: nat)
    requires |g.iv| == 16 && Lawful(g.su)
    requires Fits(chunks) && IsWire(g, c, chunks, w) && n <= |w|
    ensures Drain(g, Reading(c, false, w[..n])) == Delivered(g, c, chunks, n)
    decreases |chunks|
  {
    if chunks == [] || n < LengthField(g) {
    } else {
      ReadsChunk(g, c, chunks, w, n);
      var size := ChunkSize(g, c, chunks[0]);
      if chunks[0] != [] && n >= size {
        PrefixDelivers(g, Next(g, c), chunks[1..], w[size..], n - size);
        assert w[..n][size..] == w[size..][..n - size];
      }
    }
  }

  /** The chunks before the first empty one. */
  function UpToEmpty(chunks: seq<bytes>): seq<bytes> {
    if chunks == [] || chunks[0] == [] then [] else [chunks[0]] + UpToEmpty(chunks[1..])
  }

  lemma {:induction false} WholeWire(g: Config, c: Counters, chunks: seq<bytes>, w: bytes)
    requires |g.iv| == 16 && Lawful(g.su) && Fits(chunks) && IsWire(g, c, chunks, w)
    ensures Delivered(g, c, chunks, |w|) == Run(UpToEmpty(chunks), Eof)
    decreases |chunks|
  {
    if chunks == [] {
    } else {
      HeadSize(g, c, chunks[0]);
      assert Frames(g, c, chunks)[1..] == Frames(g, Next(g, c), chunks[1..]);
      WholeWire(g, Next(g, c), chunks[1..], w[ChunkSize(g, c, chunks[0])..]);
    }
  }

  /** The whole wire gives back the chunks, however many there are, up to the first empty one. */
  lemma RoundTrip(g: Config, c: Counters, chunks: seq<bytes>, w: bytes)
    requires |g.iv| == 16 && Lawful(g.su)
    requires Fits(chunks) && IsWire(g, c, chunks, w)
    ensures Drain(g, Reading(c, false, w)) == Run(UpToEmpty(chunks), Eof)
  {
    assert w[..|w|] == w;
    PrefixDelivers(g, c, chunks, w, |w|);
    WholeWire(g, c, chunks, w);
  }

  lemma {:induction false} DeliveredIsPrefix(g: Config, c: Counters, chunks: seq<bytes>, n: nat)
    ensures Delivered(g, c, chunks, n).chunks <= UpToEmpty(chunks)
    ensures !Delivered(g, c, chunks, n).end.Chunk?
    decreases |chunks|
  {
    if chunks == [] || n < LengthField(g) || chunks[0] == [] || n < ChunkSize(g, c, chunks[0]) {
    } else {
      DeliveredIsPrefix(g, Next(g, c), chunks[1..], n - ChunkSize(g, c, chunks[0]));
    }
  }

  /** Cutting a wire anywhere never makes the reader deliver a chunk that was not written, or a
      part of one, and never out of order. */
  lemma TruncationIsSafe(g: Config, c: Counters, chunks: seq<bytes>, w: bytes, n: nat)
    requires |g.iv| == 16 && Lawful(g.su)
    requires Fits(chunks) && IsWire(g, c, chunks, w) && n <= |w|
    ensures
      var cut := Drain(g, Reading(c, false, w[..n]));
      cut.chunks <= Drain(g, Reading(c, false, w)).chunks && !cut.end.Chunk?
  {
    var cut, whole := Drain(g, Reading(c, false, w[..n])), Drain(g, Reading(c, false, w));
    assert cut == Delivered(g, c, chunks, n) by { PrefixDelivers(g, c, chunks, w, n); }
    assert whole.chunks == UpToEmpty(chunks) by { RoundTrip(g, c, chunks, w); }
    DeliveredIsPrefix(g, c, chunks, n);
  }

  lemma {:induction false} UpToEmptyOfFull(a: seq<bytes>, b: seq<bytes>)
    requires [] !in a
    ensures UpToEmpty(a + b) == a + UpToEmpty(b)
  {
    if a == [] {
      assert a + b == b;
    } else {
      assert (a + b)[1..] == a[1..] + b;
      UpToEmptyOfFull(a[1..], b);
    }
  }

  lemma {:induction false} AllPiecesFlatten(payloads: seq<bytes>)
    requires WsStream.NonEmpty(payloads)
    ensures [] !in AllPieces(payloads) && Flatten(AllPieces(payloads)) == Flatten(payloads)
  {
    if payloads == [] {
    } else {
      AllPiecesFlatten(payloads[1..]);
      FlattenConcat(Pieces(payloads[0]), AllPieces(payloads[1..]));
    }
  }

  /** Non-empty payloads of any size, with or without the closing empty chunk, come back as the
      same bytes in the same order and then the stream ends. */
  lemma PayloadsComeBack(g: Config, c: Counters, payloads: seq<bytes>, eof: bool, w: bytes)
    requires |g.iv| == 16 && Lawful(g.su) && WsStream.NonEmpty(payloads)
    requires
      var chunks := AllPieces(payloads) + if eof then [[]] else [];
      IsWire(g, c, chunks, w)
    ensures
      var d := Drain(g, Reading(c, false, w));
      Flatten(d.chunks) == Flatten(payloads) && d.end == Eof
  {
    var tail: seq<bytes> := if eof then [[]] else [];
    var d := Drain(g, Reading(c, false, w));
    assert d == Run(UpToEmpty(AllPieces(payloads) + tail), Eof) by {
      RoundTrip(g, c, AllPieces(payloads) + tail, w);
    }
    AllPiecesFlatten(payloads);
    UpToEmptyOfFull(AllPieces(payloads), tail);
    assert AllPieces(payloads) + [] == AllPieces(payloads);
  }

  // ---------------------------------------------------------------------------------------
  // The reader as an object on top of a message stream.

  class BodyReader {
    ghost const g: Config
    const su: Suite
    const cipher: Cipher
    const authlen: bool
    const masking: bool
    const padding: bool
    const lenCipher: Cipher
    const payloadNonce: ChunkNonce
    const lenNonce: ChunkNonce?
    const shake: ShakeStream?
    const stream: WsStream.Stream
    var buf: bytes
    var done: bool

    ghost predicate Valid()
      reads this, payloadNonce, lenNonce, shake, stream
    {
      && |g.iv| == 16 && su == g.su
      && cipher == g.payload
      && authlen == g.AuthLen()
      && masking == g.Masked()
      && padding == g.PadOption()
      && payloadNonce.Valid() && payloadNonce.iv == g.iv
      && (lenNonce != null <==> authlen)
      && (lenNonce != null ==> lenCipher == g.length && lenNonce.Valid() && lenNonce.iv == g.iv
                               && lenNonce != payloadNonce)
      && (shake != null <==> masking)
      && (shake != null ==> shake.su == su && shake.iv == g.iv)
      && WsStream.NonEmpty(stream.incoming)
    }

    ghost function State(): Reading
      reads this, payloadNonce, lenNonce, shake, stream
    {
      Reading(Counters(payloadNonce.count,
                       if lenNonce == null then 0 else lenNonce.count,
                       if shake == null then 0 else shake.consumed),
              done,
              buf + stream.Rest())
    }

    constructor (su: Suite, key: bytes, iv: bytes, security: nat, option: nat, stream: WsStream.Stream)
      requires |iv| == 16 && BodyCipher(su, key, security).Some?
      requires WsStream.NonEmpty(stream.incoming)
      ensures Valid() && g == ConfigFor(su, key, iv, security, option) && this.stream == stream
      ensures State() == Reading(START, false, stream.Rest())
      ensures fresh(payloadNonce) && fresh({lenNonce, shake} - {null})
    {
      this.g, this.su := ConfigFor(su, key, iv, security, option), su;
      var aead := MakeBodyAead(su, key, security);
      cipher := aead.value;
      var auth := Has(option, OPT_AUTH_LENGTH);
      authlen := auth;
      var mask := Has(option, OPT_CHUNK_MASKING) && !auth;
      masking := mask;
      padding := Has(option, OPT_GLOBAL_PADDING) && !auth;
      var ln: ChunkNonce? := null;
      var lenAead := aead;
      if auth {
        lenAead := LengthAead(su, key, security);
        ln := new ChunkNonce(iv);
      }
      lenCipher := lenAead.value;
      lenNonce := ln;
      var sh: ShakeStream? := null;
      if mask {
        sh := new ShakeStream(su, iv);
      }
      shake := sh;
      payloadNonce := new ChunkNonce(iv);
      this.stream := stream;
      buf, done := [], false;
      new;
      assert buf + stream.Rest() == stream.Rest();
    }

    /** Buffers n bytes if the stream still has them. */
    method Need(n: nat) returns (ok: bool)
      requires Valid()
      modifies this`buf, stream
      ensures Valid() && State() == old(State())
      ensures ok <==> n <= |State().rest|
      ensures ok ==> n <= |buf|
    {
      while |buf| < n
        invariant Valid() && State() == old(State())
        decreases |stream.Rest()|
      {
        ghost var before := stream.Rest();
        var chunk := stream.Fill();
        if chunk == [] {
          assert stream.Rest() == before == [];
          return false;
        }
        assert |before| == |chunk| + |stream.Rest()|;
        assert buf + before == (buf + chunk) + stream.Rest();
        buf := buf + chunk;
      }
      return true;
    }

    /** One read. It depends on the unread bytes alone, not on how messages cut them. */
    method Read() returns (e: Event)
      requires Valid()
      modifies this, payloadNonce, lenNonce, shake, stream
      ensures Valid()
      ensures Step(e, State()) == ReadStep(g, old(State()))
    {
      if done {
        return Eof;
      }
      if authlen {
        e := ReadAuthenticatedChunk();
      } else {
        e := ReadPlainChunk();
      }
    }

    method ReadAuthenticatedChunk() returns (e: Event)
      requires Valid() && authlen && !done
      modifies this, payloadNonce, lenNonce, stream
      ensures Valid()
      ensures Step(e, State()) == ReadStep(g, old(State()))
    {
      ghost var r := State();
      var ok := Need(2 + TAG);
      if !ok {
        done := true;
        return Eof;
      }
      var encSize := buf[..2 + TAG];
      assert encSize == r.rest[..2 + TAG];
      buf := buf[2 + TAG..];
      assert State().rest == r.rest[2 + TAG..];
      var n := lenNonce.Next();
      var plain := su.open(lenCipher, n, encSize, []);
      if plain.None? || |plain.value| != 2 {
        return Error;
      }
      var size := FromBe16(plain.value) + TAG;
      if size == TAG {
        done := true;
        return Eof;
      }
      if size < TAG || size > MAX_CHUNK + TAG {
        return Error;
      }
      e := TakePayload(size, 0);
    }

    method ReadPlainChunk() returns (e: Event)
      requires Valid() && !authlen && !done
      modifies this, payloadNonce, shake, stream
      ensures Valid()
      ensures Step(e, State()) == ReadStep(g, old(State()))
    {
      ghost var r := State();
      var ok := Need(2);
      if !ok {
        done := true;
        return Eof;
      }
      var padLen := 0;
      if padding && shake != null {
        var v := shake.Next16();
        padLen := v % 64;
      }
      var rawSize := FromBe16(buf[..2]);
      assert buf[..2] == r.rest[..2];
      buf := buf[2..];
      assert State().rest == r.rest[2..];
      var size := rawSize;
      if shake != null {
        var mask := shake.Next16();
        size := Xor16(rawSize, mask);
      }
      assert padLen == PadLen(g, r.counters) && size == Masking(g, MaskAt(g, r.counters), rawSize);
      if size == TAG + padLen {
        done := true;
        return Eof;
      }
      if size < TAG + padLen || size > MAX_CHUNK + TAG + 64 {
        return Error;
      }
      e := TakePayload(size, padLen);
    }

    method TakePayload(size: nat, padLen: nat) returns (e: Event)
      requires Valid() && !done && padLen <= size
      modifies this`buf, payloadNonce, stream
      ensures Valid()
      ensures Step(e, State()) == ReadPayload(g, old(State()), size, padLen)
    {
      ghost var r := State();
      var ok := Need(size);
      if !ok {
        return Error;
      }
      var encPayload := buf[..size - padLen];
      assert encPayload == r.rest[..size - padLen];
      buf := buf[size..];
      assert State().rest == r.rest[size..];
      var n := payloadNonce.Next();
      var plain := su.open(cipher, n, encPayload, []);
      return if plain.None? then Error else Chunk(plain.value);
    }

    /** The turns of the uplink loop that pass, and the read behind them, which starts at r. */
    method ForwardPassed(fates: seq<Fate>)
      returns (out: bytes, ghost chunks: seq<bytes>, e: Event, i: nat, ghost r: Reading)
      requires Valid()
      modifies this, payloadNonce, lenNonce, shake, stream
      ensures Valid()
      ensures out == Flatten(chunks) && i == |chunks| && AllPass(fates, i)
      ensures Drain(g, old(State())) == Behind(chunks, Drain(g, r))
      ensures e == ReadStep(g, r).event && (e.Chunk? ==> FateAt(fates, i) != Passed)
    {
      out, chunks, i := [], [], 0;
      r := State();
      ghost var d := Drain(g, r);
      e := Read();
      while e.Chunk? && FateAt(fates, i) == Passed
        invariant Valid() && out == Flatten(chunks) && i == |chunks|
        invariant AllPass(fates, i)
        invariant Step(e, State()) == ReadStep(g, r)
        invariant d == Behind(chunks, Drain(g, r))
        decreases |r.rest|
      {
        TakesChunk(g, r, chunks, e, State());
        out := out + e.payload;
        chunks := chunks + [e.payload];
        i := i + 1;
        r := State();
        e := Read();
      }
    }

    /** The relay's uplink loop (protocol/vmess/tunnel.py:111-143): read and forward until the end of the
        stream, an exception, a refusal or a break. */
    method Forward(fates: seq<Fate>) returns (out: bytes, ghost chunks: seq<bytes>, end: Ending)
      requires Valid() && Lawful(su)
      modifies this, payloadNonce, lenNonce, shake, stream
      ensures Valid()
      ensures
        var d := Drain(g, old(State()));
        chunks == Through(d.chunks, fates) && out == Flatten(chunks) && end == EndingOf(d, fates)
    {
      ghost var d := Drain(g, State());
      var e, i;
      ghost var r;
      out, chunks, e, i, r := ForwardPassed(fates);
      ForwardEnds(g, r, d, fates, chunks);
      if !e.Chunk? {
        end := Ended(e);
      } else {
        end := Stopped(FateAt(fates, i));
        if FateAt(fates, i) == Broken {
          FlattenSnoc(chunks, e.payload);
          out := out + e.payload;
          chunks := chunks + [e.payload];
        }
      }
    }

    /** The uplink when nothing is refused or breaks. */
    method ForwardAll() returns (out: bytes, ghost chunks: seq<bytes>, end: Event)
      requires Valid() && Lawful(su)
      modifies this, payloadNonce, lenNonce, shake, stream
      ensures Valid()
      ensures Run(chunks, end) == Drain(g, old(State())) && out == Flatten(chunks)
    {
      AllThrough(Drain(g, State()).chunks);
      var ending;
      out, chunks, ending := Forward([]);
      end := ending.event;
    }
  }

  /** How the uplink loop ends. */
  datatype Ending = Ended(event: Event) | Stopped(fate: Fate)

  /** The chunks that reach the target: a refusal comes before the chunk is written, a break behind it. */
  function Through(chunks: seq<bytes>, fates: seq<Fate>): seq<bytes> {
    var n := FirstStop(fates, |chunks|);
    if n < |chunks| && FateAt(fates, n) == Broken then chunks[..n + 1] else chunks[..n]
  }

  function EndingOf(d: Run, fates: seq<Fate>): Ending {
    var n := FirstStop(fates, |d.chunks|);
    if n < |d.chunks| then Stopped(FateAt(fates, n)) else Ended(d.end)
  }

  /** Where the loop stands when it stops. */
  lemma ForwardEnds(g: Config, r: Reading, d: Run, fates: seq<Fate>, chunks: seq<bytes>)
    requires |g.iv| == 16 && d == Behind(chunks, Drain(g, r))
    requires AllPass(fates, |chunks|)
    requires ReadStep(g, r).event.Chunk? ==> FateAt(fates, |chunks|) != Passed
    ensures
      var e := ReadStep(g, r).event;
      if e.Chunk? then
        && Through(d.chunks, fates) == (if FateAt(fates, |chunks|) == Broken then chunks + [e.payload] else chunks)
        && EndingOf(d, fates) == Stopped(FateAt(fates, |chunks|))
      else Through(d.chunks, fates) == chunks && EndingOf(d, fates) == Ended(e)
  {
    DrainStep(g, r, chunks);
    var e := ReadStep(g, r).event;
    if e.Chunk? {
      StopsInside(d, fates, chunks, e.payload);
    } else {
      EndsBehind(d, fates);
    }
  }

  lemma EndsBehind(d: Run, fates: seq<Fate>)
    requires AllPass(fates, |d.chunks|)
    ensures Through(d.chunks, fates) == d.chunks && EndingOf(d, fates) == Ended(d.end)
  {
    StopsAt(fates, |d.chunks|, |d.chunks|);
    assert d.chunks[..|d.chunks|] == d.chunks;
  }

  lemma AllThrough(chunks: seq<bytes>)
    ensures FirstStop([], |chunks|) == |chunks| && Through(chunks, []) == chunks
  {
    StopsAt([], |chunks|, |chunks|);
    assert chunks[..|chunks|] == chunks;
  }

  lemma StopsInside(d: Run, fates: seq<Fate>, front: seq<bytes>, p: bytes)
    requires front + [p] <= d.chunks
    requires AllPass(fates, |front|) && FateAt(fates, |front|) != Passed
    ensures Through(d.chunks, fates) == if FateAt(fates, |front|) == Broken then front + [p] else front
    ensures EndingOf(d, fates) == Stopped(FateAt(fates, |front|))
  {
    var n := |front|;
    StopsAt(fates, |d.chunks|, n);
    assert d.chunks[..n + 1] == front + [p];
    assert d.chunks[..n] == front;
  }

  /** A way of cutting any byte string into non-empty messages. */
  ghost predicate Cuts(cut: bytes -> seq<bytes>) {
    forall w :: Flatten(cut(w)) == w && WsStream.NonEmpty(cut(w))
  }

  lemma OneMessageCuts() returns (cut: bytes -> seq<bytes>)
    ensures Cuts(cut)
  {
    cut := w => if w == [] then [] else [w];
    forall w
      ensures Flatten(cut(w)) == w && WsStream.NonEmpty(cut(w))
    {
      if w != [] {
        assert Flatten([w]) == w + Flatten([]);
      }
    }
  }

  /** Both ends together: what one relay loop writes, cut into messages in any way, the other loop
      forwards unchanged; with the options the writer refuses, nothing is sent. */
  method FromEndToEnd(su: Suite, key: bytes, iv: bytes, security: nat, option: nat, payloads: seq<bytes>,
                      rnd: (nat, nat, nat) -> byte, cut: bytes -> seq<bytes>)
    returns (r: Option<bytes>)
    requires Lawful(su) && |iv| == 16 && BodyCipher(su, key, security).Some?
    requires WsStream.NonEmpty(payloads) && Cuts(cut)
    ensures r == if ConfigFor(su, key, iv, security, option).Writable() then Some(Flatten(payloads)) else None
  {
    var writer := new BodyWriter(su, key, iv, security, option);
    var wire := RespondAll(writer, payloads, rnd);
    if wire.None? {
      return None;
    }
    var stream := new WsStream.Stream(cut(wire.value));
    assert stream.Rest() == wire.value;
    var reader := new BodyReader(su, key, iv, security, option, stream);
    PayloadsComeBack(reader.g, START, payloads, true, wire.value);
    var out, chunks, end := reader.ForwardAll();
    r := Some(out);
  }
}
