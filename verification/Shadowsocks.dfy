/** The Shadowsocks AEAD stream (protocol/shadowsocks/shadowsocks.py:81-166). */
module Shadowsocks {
  import opened Bytes

  const TAG: nat := 16
  const SALT_LEN: nat := 32
  const NONCE_LEN: nat := 12
  const MAX_PAYLOAD: nat := 0x3FFF
  /** 2 + tag_len: an encrypted length block */
  const BLOCK: nat := 18

  /** Library primitives: the session subkey of a master key and a salt, and the AEAD. */
  datatype Library = Library(
    subkey: (bytes, bytes) -> bytes,
    seal: (bytes, bytes, bytes) -> bytes,
    open: (bytes, bytes, bytes) -> Option<bytes>)

  /** Section 2 of RFC 5116, and: what was sealed under one nonce does not open under another. */
  ghost predicate LawfulLibrary(l: Library) {
    && (forall k, n, m :: |l.seal(k, n, m)| == |m| + TAG && l.open(k, n, l.seal(k, n, m)) == Some(m))
    && (forall k, n, n', m :: |n| == |n'| == NONCE_LEN && n != n' ==> l.open(k, n', l.seal(k, n, m)) == None)
  }

  /** The laws can be met: the tag is the nonce and four zero bytes. */
  lemma LawfulLibraryExists() returns (l: Library)
    ensures LawfulLibrary(l)
  {
    var tag := (n: bytes) => Take(n + seq(TAG, i => 0), TAG);
    l := Library(
      (k, s) => k,
      (k, n, m) => m + tag(n),
      (k, n, x: bytes) => if |x| >= TAG && x[|x| - TAG..] == tag(n) then Some(x[..|x| - TAG]) else None);
    forall k: bytes, n: bytes, m: bytes
      ensures |l.seal(k, n, m)| == |m| + TAG && l.open(k, n, l.seal(k, n, m)) == Some(m)
    {
      assert (m + tag(n))[..|m|] == m && (m + tag(n))[|m|..] == tag(n);
    }
    forall k: bytes, n: bytes, n': bytes, m: bytes | |n| == |n'| == NONCE_LEN && n != n'
      ensures l.open(k, n', l.seal(k, n, m)) == None
    {
      assert (m + tag(n))[|m|..] == tag(n);
      assert tag(n)[..NONCE_LEN] == n && tag(n')[..NONCE_LEN] == n';
    }
  }

  /** counter.to_bytes(width, "little") */
  function Le(n: nat, width: nat): (b: bytes)
    ensures |b| == width
  {
    if width == 0 then [] else [n % 256] + Le(n / 256, width - 1)
  }

  function Pow256(n: nat): (p: nat)
    ensures p > 0
  {
    if n == 0 then 1 else 256 * Pow256(n - 1)
  }

  lemma {:induction false} LeDetermines(m: nat, n: nat, width: nat)
    requires m < Pow256(width) && n < Pow256(width) && Le(m, width) == Le(n, width)
    ensures m == n
  {
    if width == 0 {
    } else {
      assert Le(m, width)[0] == m % 256 && Le(n, width)[0] == n % 256;
      assert Le(m, width)[1..] == Le(m / 256, width - 1) && Le(n, width)[1..] == Le(n / 256, width - 1);
      assert m / 256 < Pow256(width - 1) && n / 256 < Pow256(width - 1);
      LeDetermines(m / 256, n / 256, width - 1);
    }
  }

  lemma DivTwice(n: nat, m: nat)
    requires m > 0
    ensures n / 256 / m == n / (256 * m)
  {
    var q, r := n / 256 / m, n / 256 % m;
    var s := n % 256;
    assert n / 256 == q * m + r;
    assert n == (256 * m) * q + (256 * r + s);
    assert 256 * r + s < 256 * m;
    QuotientIs(n, 256 * m, q, 256 * r + s);
  }

  lemma MulSum(d: nat, a: nat, k: nat)
    ensures d * (a + 1 + k) == d * a + d + d * k && d * k >= 0
  {
  }

  lemma Compare(d: nat, a: nat, b: nat)
    ensures a < b ==> d * a + d <= d * b
    ensures b < a ==> d * b + d <= d * a
  {
    if a < b {
      MulSum(d, a, b - a - 1);
    } else if b < a {
      MulSum(d, b, a - b - 1);
    }
  }

  lemma QuotientIs(n: nat, d: nat, q: nat, r: nat)
    requires d > 0 && n == d * q + r && r < d
    ensures n / d == q
  {
    Compare(d, n / d, q);
  }

  /** counter.to_bytes(width, "little"): byte i is the i-th digit to the base 256, the lowest first. */
  lemma {:induction false} LeBytes(n: nat, width: nat, i: nat)
    requires i < width
    ensures Le(n, width)[i] == n / Pow256(i) % 256
  {
    if i == 0 {
    } else {
      LeBytes(n / 256, width - 1, i - 1);
      DivTwice(n, Pow256(i - 1));
    }
  }

  /** The nonce of the library for a counter: twelve bytes, the lowest first. */
  predicate IsNonce(nonce: bytes, n: nat) {
    |nonce| == 12 && forall i: nat :: i < 12 ==> nonce[i] == n / Pow256(i) % 256
  }

  lemma NonceIsLittleEndian(n: nat)
    ensures IsNonce(Le(n, NONCE_LEN), n)
  {
    forall i: nat | i < 12
      ensures Le(n, NONCE_LEN)[i] == n / Pow256(i) % 256
    {
      LeBytes(n, NONCE_LEN, i);
    }
  }

  /** The library used with counters below `limit` for nonces. */
  datatype Aead = Aead(
    limit: nat,
    subkey: (bytes, bytes) -> bytes,
    seal: (bytes, nat, bytes) -> bytes,
    open: (bytes, nat, bytes) -> Option<bytes>)

  ghost predicate Lawful(a: Aead) {
    && (forall k: bytes, n: nat, m: bytes {:trigger a.seal(k, n, m)} ::
          |a.seal(k, n, m)| == |m| + TAG && (n < a.limit ==> a.open(k, n, a.seal(k, n, m)) == Some(m)))
    && (forall k: bytes, n: nat, n': nat, m: bytes :: n < a.limit && n' < a.limit && n != n' ==>
          a.open(k, n', a.seal(k, n, m)) == None)
  }

  function OpenAt(l: Library, k: bytes, n: nat, x: bytes): Option<bytes> {
    if n >= Pow256(NONCE_LEN) then None else l.open(k, Le(n, NONCE_LEN), x)
  }

  function SealAt(l: Library, k: bytes, n: nat, m: bytes): bytes {
    l.seal(k, Le(n, NONCE_LEN), m)
  }

  /** Little-endian counter nonces; a counter that does not fit raises. */
  function Counted(l: Library): Aead {
    Aead(Pow256(NONCE_LEN), l.subkey, (k, n, m) => SealAt(l, k, n, m), (k, n, x) => OpenAt(l, k, n, x))
  }

  /** Distinct counters are distinct nonces, so the laws carry over. */
  lemma CountedIsLawful(l: Library)
    requires LawfulLibrary(l)
    ensures Lawful(Counted(l))
  {
    var a := Counted(l);
    forall k: bytes, n: nat, m: bytes
      ensures |a.seal(k, n, m)| == |m| + TAG && (n < a.limit ==> a.open(k, n, a.seal(k, n, m)) == Some(m))
    {
      assert a.seal(k, n, m) == SealAt(l, k, n, m);
    }
    forall k: bytes, n: nat, n': nat, m: bytes | n < a.limit && n' < a.limit && n != n'
      ensures a.open(k, n', a.seal(k, n, m)) == None
    {
      if Le(n, NONCE_LEN) == Le(n', NONCE_LEN) {
        LeDetermines(n, n', NONCE_LEN);
      }
      assert OpenAt(l, k, n', SealAt(l, k, n, m)) == None;
    }
  }

  // ---------------------------------------------------------------------------------------
  // The wire.

  function ChunkWire(a: Aead, key: bytes, n: nat, p: bytes): bytes
    requires |p| < 0x1_0000
  {
    a.seal(key, n, Be16(|p|)) + a.seal(key, n + 1, p)
  }

  /** A chunk as the library makes it: the length, high byte first, under the nonce of the counter, and the
      payload under that of the next. */
  lemma ChunkOfLibrary(l: Library, key: bytes, n: nat, p: bytes) returns (n1: bytes, n2: bytes, size: bytes)
    requires |p| < 0x1_0000
    ensures IsNonce(n1, n) && IsNonce(n2, n + 1)
    ensures |size| == 2 && 256 * size[0] as int + size[1] as int == |p|
    ensures ChunkWire(Counted(l), key, n, p) == l.seal(key, n1, size) + l.seal(key, n2, p)
  {
    n1, n2, size := Le(n, NONCE_LEN), Le(n + 1, NONCE_LEN), Be16(|p|);
    NonceIsLittleEndian(n);
    NonceIsLittleEndian(n + 1);
    CountedChunk(l, key, n, p);
  }

  /** And the decoder opens under the same nonces. */
  lemma OpenOfLibrary(l: Library, key: bytes, n: nat, x: bytes) returns (nonce: bytes)
    requires n < Pow256(NONCE_LEN)
    ensures IsNonce(nonce, n) && Counted(l).open(key, n, x) == l.open(key, nonce, x)
  {
    nonce := Le(n, NONCE_LEN);
    NonceIsLittleEndian(n);
  }

  predicate Fit(ps: seq<bytes>) {
    forall i :: 0 <= i < |ps| ==> |ps[i]| <= MAX_PAYLOAD
  }

  function Wire(a: Aead, key: bytes, n: nat, ps: seq<bytes>): bytes
    requires Fit(ps)
    decreases |ps|
  {
    if ps == [] then [] else ChunkWire(a, key, n, ps[0]) + Wire(a, key, n + 2, ps[1..])
  }

  /** The salt goes out with the first chunk. */
  function Salted(a: Aead, key: bytes, salt: bytes, ps: seq<bytes>): bytes
    requires Fit(ps)
  {
    if ps == [] then [] else salt + Wire(a, key, 0, ps)
  }

  function ChunkSize(p: bytes): nat {
    BLOCK + |p| + TAG
  }

  // ---------------------------------------------------------------------------------------
  // The decoder.

  datatype Decoder = Decoder(key: Option<bytes>, nonce: nat, buf: bytes)

  /** What one pass over the buffer yields; not ok is the ValueError. */
  datatype Pass = Pass(out: seq<bytes>, next: Decoder, ok: bool)

  /** One turn of the decoder's loop: it ends the pass, or yields a payload. */
  datatype Turn = Stop(next: Decoder, ok: bool) | Yield(payload: bytes, next: Decoder)

  function ChunkStep(a: Aead, d: Decoder): (t: Turn)
    requires d.key.Some?
    ensures t.Yield? ==> t.next.key == d.key && |t.next.buf| < |d.buf|
  {
    if |d.buf| < BLOCK then
      Stop(d, true)
    else
      var plain := a.open(d.key.value, d.nonce, d.buf[..BLOCK]);
      if plain.None? || |plain.value| != 2 then
        Stop(d, false)
      else
        var d1 := d.(nonce := d.nonce + 1);
        var need := BLOCK + FromBe16(plain.value) + TAG;
        if FromBe16(plain.value) > MAX_PAYLOAD then Stop(d1, false)
        else if |d.buf| < need then Stop(d1, true)
        else
          var payload := a.open(d.key.value, d1.nonce, d.buf[BLOCK..need]);
          if payload.None? then Stop(d1.(buf := d.buf[need..]), false)
          else Yield(payload.value, Decoder(d.key, d.nonce + 2, d.buf[need..]))
  }

  function DecodeChunks(a: Aead, d: Decoder): Pass
    requires d.key.Some?
    decreases |d.buf|
  {
    var t := ChunkStep(a, d);
    if t.Yield? then Onto([t.payload], DecodeChunks(a, t.next)) else Pass([], t.next, t.ok)
  }

  /** A pass that continues behind payloads already yielded. */
  function Onto(out: seq<bytes>, p: Pass): Pass {
    Pass(out + p.out, p.next, p.ok)
  }

  /** try_decrypt_chunks, consumed to its end. */
  function DecodePass(a: Aead, master: bytes, d: Decoder): Pass {
    if d.key.Some? then DecodeChunks(a, d)
    else if |d.buf| < SALT_LEN then Pass([], d, true)
    else DecodeChunks(a, d.(key := Some(a.subkey(master, d.buf[..SALT_LEN])), buf := d.buf[SALT_LEN..]))
  }

  /** feed and decode, fragment after fragment, until the first error. */
  function FeedAll(a: Aead, master: bytes, d: Decoder, parts: seq<bytes>): Pass
    decreases |parts|
  {
    if parts == [] then
      Pass([], d, true)
    else
      var p := DecodePass(a, master, d.(buf := d.buf + parts[0]));
      if !p.ok then p
      else
        var rest := FeedAll(a, master, p.next, parts[1..]);
        Pass(p.out + rest.out, rest.next, rest.ok)
  }

  const FRESH := Decoder(None, 0, [])

  // ---------------------------------------------------------------------------------------
  // Where a pass stops.

  /** Chunks that lie wholly in the first m bytes, and the bytes behind them. */
  function Whole(ps: seq<bytes>, m: nat): (j: nat)
    ensures j <= |ps|
    decreases |ps|
  {
    if ps == [] || m < ChunkSize(ps[0]) then 0 else 1 + Whole(ps[1..], m - ChunkSize(ps[0]))
  }

  function Left(ps: seq<bytes>, m: nat): nat
    decreases |ps|
  {
    if ps == [] || m < ChunkSize(ps[0]) then m else Left(ps[1..], m - ChunkSize(ps[0]))
  }

  lemma ChunkSizeOfWire(a: Aead, key: bytes, n: nat, p: bytes)
    requires Lawful(a) && |p| < 0x1_0000
    ensures |ChunkWire(a, key, n, p)| == ChunkSize(p)
  {
  }

  /** A wire is its first chunk and the wire of the others. */
  lemma WireSplit(a: Aead, key: bytes, n: nat, ps: seq<bytes>, m: nat)
    requires Lawful(a) && Fit(ps) && ps != [] && m <= |Wire(a, key, n, ps)|
    ensures
      var w, tail, size := Wire(a, key, n, ps), Wire(a, key, n + 2, ps[1..]), ChunkSize(ps[0]);
      && ChunkWire(a, key, n, ps[0]) <= w && |w| == size + |tail|
      && (size <= m ==> w[..m][size..] == tail[..m - size] && w[m..] == tail[m - size..])
  {
    ChunkSizeOfWire(a, key, n, ps[0]);
    var c, tail := ChunkWire(a, key, n, ps[0]), Wire(a, key, n + 2, ps[1..]);
    assert Wire(a, key, n, ps) == c + tail;
    SplitAt(c, tail, m);
  }

  lemma SplitAt(c: bytes, tail: bytes, m: nat)
    requires m <= |c| + |tail|
    ensures c <= c + tail
    ensures |c| <= m ==> (c + tail)[..m][|c|..] == tail[..m - |c|] && (c + tail)[m..] == tail[m - |c|..]
  {
  }

  /** Feeding the next part moves the boundary in the unsplit bytes. */
  lemma Advance(w: bytes, m: nat, parts: seq<bytes>)
    requires m <= |w| && parts != [] && Flatten(parts) == w[m..]
    ensures
      var t := m + |parts[0]|;
      t <= |w| && w[..m] + parts[0] == w[..t] && Flatten(parts[1..]) == w[t..]
  {
    var x, rest := parts[0], Flatten(parts[1..]);
    assert w[m..] == x + rest;
    assert w[m..][..|x|] == x && w[m..][|x|..] == rest;
  }

  /** One step of a pass at the start of a chunk of which m bytes are there. */
  lemma DecodesOne(a: Aead, key: bytes, n: nat, p: bytes, w: bytes, m: nat)
    requires Lawful(a) && |p| <= MAX_PAYLOAD && n + 1 < a.limit
    requires BLOCK <= m <= |w| && ChunkWire(a, key, n, p) <= w
    ensures
      ChunkStep(a, Decoder(Some(key), n, w[..m])) ==
      if m < ChunkSize(p) then Stop(Decoder(Some(key), n + 1, w[..m]), true)
      else Yield(p, Decoder(Some(key), n + 2, w[..m][ChunkSize(p)..]))
  {
    var head, body := a.seal(key, n, Be16(|p|)), a.seal(key, n + 1, p);
    assert w[..m][..BLOCK] == w[..|head + body|][..BLOCK] == head;
    Be16RoundTrip(|p|);
    if m >= ChunkSize(p) {
      assert w[..m][BLOCK..ChunkSize(p)] == w[..|head + body|][BLOCK..] == body;
    }
  }

  /** The first m bytes of a wire are Whole chunks and Left bytes of the wire of the others. */
  lemma {:induction false} CutsWire(a: Aead, key: bytes, n: nat, ps: seq<bytes>, m: nat)
    requires Lawful(a) && Fit(ps) && m <= |Wire(a, key, n, ps)|
    ensures
      var j, left := Whole(ps, m), Left(ps, m);
      var rest := Wire(a, key, n + 2 * j, ps[j..]);
      left <= |rest| && Wire(a, key, n, ps)[m..] == rest[left..]
    decreases |ps|
  {
    assert ps[0..] == ps;
    if ps == [] || m < ChunkSize(ps[0]) {
    } else {
      WireSplit(a, key, n, ps, m);
      CutsWire(a, key, n + 2, ps[1..], m - ChunkSize(ps[0]));
      WholeStep(ps, m);
    }
  }

  /** Behind a whole chunk the rest of the payloads is the same seen from either. */
  lemma WholeStep(ps: seq<bytes>, m: nat)
    requires ps != [] && m >= ChunkSize(ps[0])
    ensures Whole(ps, m) == 1 + Whole(ps[1..], m - ChunkSize(ps[0]))
    ensures Left(ps, m) == Left(ps[1..], m - ChunkSize(ps[0]))
    ensures ps[Whole(ps, m)..] == ps[1..][Whole(ps[1..], m - ChunkSize(ps[0]))..]
  {
  }

  lemma {:induction false} LeftIsPartial(ps: seq<bytes>, m: nat)
    ensures Whole(ps, m) < |ps| ==> Left(ps, m) < ChunkSize(ps[Whole(ps, m)])
    decreases |ps|
  {
    if ps == [] || m < ChunkSize(ps[0]) {
    } else {
      LeftIsPartial(ps[1..], m - ChunkSize(ps[0]));
    }
  }

  /** What a pass over the first m bytes of a wire gives: the whole chunks. If it stops behind a full
      length block it leaves the nonce one ahead of the unconsumed block. */
  function PassOver(a: Aead, key: bytes, n: nat, ps: seq<bytes>, m: nat): Pass
    requires Fit(ps)
    decreases |ps|
  {
    var j, left := Whole(ps, m), Left(ps, m);
    Pass(ps[..j],
         Decoder(Some(key), n + 2 * j + (if left >= BLOCK then 1 else 0),
                 Take(Wire(a, key, n + 2 * j, ps[j..]), left)),
         true)
  }

  lemma PartialPass(a: Aead, key: bytes, n: nat, ps: seq<bytes>, m: nat)
    requires Lawful(a) && Fit(ps) && n + 2 * |ps| <= a.limit && m <= |Wire(a, key, n, ps)|
    requires ps == [] || m < ChunkSize(ps[0])
    ensures DecodeChunks(a, Decoder(Some(key), n, Wire(a, key, n, ps)[..m])) == PassOver(a, key, n, ps, m)
  {
    assert ps[0..] == ps;
    if ps != [] && m >= BLOCK {
      WireSplit(a, key, n, ps, m);
      DecodesOne(a, key, n, ps[0], Wire(a, key, n, ps), m);
    }
  }

  lemma {:induction false} AlignedPass(a: Aead, key: bytes, n: nat, ps: seq<bytes>, m: nat)
    requires Lawful(a) && Fit(ps) && n + 2 * |ps| <= a.limit && m <= |Wire(a, key, n, ps)|
    ensures DecodeChunks(a, Decoder(Some(key), n, Wire(a, key, n, ps)[..m])) == PassOver(a, key, n, ps, m)
    decreases |ps|
  {
    if ps == [] || m < ChunkSize(ps[0]) {
      PartialPass(a, key, n, ps, m);
    } else {
      RestOfWire(a, key, n, ps, m);
      AlignedPass(a, key, n + 2, ps[1..], m - ChunkSize(ps[0]));
      AlignedStep(a, key, n, ps, m);
    }
  }

  lemma RestOfWire(a: Aead, key: bytes, n: nat, ps: seq<bytes>, m: nat)
    requires Lawful(a) && Fit(ps) && m <= |Wire(a, key, n, ps)| && ps != [] && m >= ChunkSize(ps[0])
    ensures m - ChunkSize(ps[0]) <= |Wire(a, key, n + 2, ps[1..])|
  {
    WireSplit(a, key, n, ps, m);
  }

  lemma AlignedStep(a: Aead, key: bytes, n: nat, ps: seq<bytes>, m: nat)
    requires Lawful(a) && Fit(ps) && n + 2 * |ps| <= a.limit && m <= |Wire(a, key, n, ps)|
    requires ps != [] && m >= ChunkSize(ps[0]) && m - ChunkSize(ps[0]) <= |Wire(a, key, n + 2, ps[1..])|
    requires
      var rest := m - ChunkSize(ps[0]);
      DecodeChunks(a, Decoder(Some(key), n + 2, Wire(a, key, n + 2, ps[1..])[..rest]))
      == PassOver(a, key, n + 2, ps[1..], rest)
    ensures DecodeChunks(a, Decoder(Some(key), n, Wire(a, key, n, ps)[..m])) == PassOver(a, key, n, ps, m)
  {
    FirstChunk(a, key, n, ps, m);
    PassOverStep(a, key, n, ps, m);
  }

  /** A pass over at least one whole chunk yields its payload and is then a pass over the others. */
  lemma FirstChunk(a: Aead, key: bytes, n: nat, ps: seq<bytes>, m: nat)
    requires Lawful(a) && Fit(ps) && n + 2 * |ps| <= a.limit && m <= |Wire(a, key, n, ps)|
    requires ps != [] && m >= ChunkSize(ps[0])
    ensures m - ChunkSize(ps[0]) <= |Wire(a, key, n + 2, ps[1..])|
    ensures
      var next := Decoder(Some(key), n + 2, Wire(a, key, n + 2, ps[1..])[..m - ChunkSize(ps[0])]);
      DecodeChunks(a, Decoder(Some(key), n, Wire(a, key, n, ps)[..m])) == Onto([ps[0]], DecodeChunks(a, next))
  {
    WireSplit(a, key, n, ps, m);
    DecodesOne(a, key, n, ps[0], Wire(a, key, n, ps), m);
  }

  lemma PassOverStep(a: Aead, key: bytes, n: nat, ps: seq<bytes>, m: nat)
    requires Fit(ps) && ps != [] && m >= ChunkSize(ps[0])
    ensures
      var rest := PassOver(a, key, n + 2, ps[1..], m - ChunkSize(ps[0]));
      PassOver(a, key, n, ps, m) == Onto([ps[0]], rest)
  {
    var j := Whole(ps[1..], m - ChunkSize(ps[0]));
    assert ps[1..][j..] == ps[j + 1..] && ps[..j + 1] == [ps[0]] + ps[1..][..j];
  }

  /** The next pass then opens that block under the wrong nonce. */
  lemma MisalignedPass(a: Aead, key: bytes, n: nat, ps: seq<bytes>, m: nat)
    requires Lawful(a) && Fit(ps) && ps != [] && n + 1 < a.limit
    requires BLOCK <= m <= |Wire(a, key, n, ps)|
    ensures !DecodeChunks(a, Decoder(Some(key), n + 1, Wire(a, key, n, ps)[..m])).ok
  {
    var w := Wire(a, key, n, ps);
    var head := a.seal(key, n, Be16(|ps[0]|));
    ChunkSizeOfWire(a, key, n, ps[0]);
    assert w[..m][..BLOCK] == ChunkWire(a, key, n, ps[0])[..BLOCK] == head;
  }

  /** After every fragment fewer than 18 bytes of the next chunk are buffered. */
  predicate SafeStops(ps: seq<bytes>, m: nat, parts: seq<bytes>)
    decreases |parts|
  {
    parts == [] ||
    var t := m + |parts[0]|;
    Left(ps, t) < BLOCK && SafeStops(ps[Whole(ps, t)..], Left(ps, t), parts[1..])
  }

  /** The same, for a stream of which `have` bytes of the salt are buffered. */
  predicate SafeStream(ps: seq<bytes>, have: nat, parts: seq<bytes>)
    requires have < SALT_LEN
    decreases |parts|
  {
    parts == [] ||
    var t := have + |parts[0]|;
    if t < SALT_LEN then SafeStream(ps, t, parts[1..])
    else
      var m := t - SALT_LEN;
      Left(ps, m) < BLOCK && SafeStops(ps[Whole(ps, m)..], Left(ps, m), parts[1..])
  }

  /** From a chunk boundary: the payloads come out, and both counters end up equal, exactly if every
      pass stops safely. */
  lemma {:induction false} FeedsAligned(a: Aead, master: bytes, key: bytes, n: nat, ps: seq<bytes>, m: nat,
                                        parts: seq<bytes>)
    requires Lawful(a) && Fit(ps) && n + 2 * |ps| <= a.limit
    requires m < BLOCK && m <= |Wire(a, key, n, ps)| && Flatten(parts) == Wire(a, key, n, ps)[m..]
    ensures
      var r := FeedAll(a, master, Decoder(Some(key), n, Wire(a, key, n, ps)[..m]), parts);
      && r.ok == SafeStops(ps, m, parts)
      && (r.ok ==> r.out == ps && r.next == Decoder(Some(key), n + 2 * |ps|, []))
    decreases |parts|, 0
  {
    if parts == [] {
      FeedsNothing(a, master, key, n, ps, m);
    } else {
      Advance(Wire(a, key, n, ps), m, parts);
      AfterPass(a, master, key, n, ps, m + |parts[0]|, parts[1..]);
      JoinsPass(a, master, key, n, ps, m, parts);
    }
  }

  lemma FeedsNothing(a: Aead, master: bytes, key: bytes, n: nat, ps: seq<bytes>, m: nat)
    requires Lawful(a) && Fit(ps) && m < BLOCK && m <= |Wire(a, key, n, ps)| && Wire(a, key, n, ps)[m..] == []
    ensures
      var r := FeedAll(a, master, Decoder(Some(key), n, Wire(a, key, n, ps)[..m]), []);
      && r.ok == SafeStops(ps, m, [])
      && (r.ok ==> r.out == ps && r.next == Decoder(Some(key), n + 2 * |ps|, []))
  {
    NothingLeft(a, key, n, ps, m);
  }

  /** A first pass and what is fed behind it. */
  lemma JoinsPass(a: Aead, master: bytes, key: bytes, n: nat, ps: seq<bytes>, m: nat, parts: seq<bytes>)
    requires Lawful(a) && Fit(ps) && n + 2 * |ps| <= a.limit && parts != []
    requires m <= |Wire(a, key, n, ps)| && Flatten(parts) == Wire(a, key, n, ps)[m..]
    requires
      var t := m + |parts[0]|;
      var p := PassOver(a, key, n, ps, t);
      var r := FeedAll(a, master, p.next, parts[1..]);
      && r.ok == (Left(ps, t) < BLOCK && SafeStops(ps[Whole(ps, t)..], Left(ps, t), parts[1..]))
      && (r.ok ==> p.out + r.out == ps && r.next == Decoder(Some(key), n + 2 * |ps|, []))
    ensures
      var r := FeedAll(a, master, Decoder(Some(key), n, Wire(a, key, n, ps)[..m]), parts);
      && r.ok == SafeStops(ps, m, parts)
      && (r.ok ==> r.out == ps && r.next == Decoder(Some(key), n + 2 * |ps|, []))
  {
    NextPass(a, master, key, n, ps, m, parts);
  }

  lemma NothingLeft(a: Aead, key: bytes, n: nat, ps: seq<bytes>, m: nat)
    requires Lawful(a) && Fit(ps) && m < BLOCK && m <= |Wire(a, key, n, ps)| && Wire(a, key, n, ps)[m..] == []
    ensures ps == [] && Wire(a, key, n, ps)[..m] == []
  {
    assert |Wire(a, key, n, ps)[m..]| == 0;
    if ps != [] {
      WireSplit(a, key, n, ps, m);
    }
  }

  /** The pass behind the next fragment. */
  lemma NextPass(a: Aead, master: bytes, key: bytes, n: nat, ps: seq<bytes>, m: nat, parts: seq<bytes>)
    requires Lawful(a) && Fit(ps) && n + 2 * |ps| <= a.limit && parts != []
    requires m <= |Wire(a, key, n, ps)| && Flatten(parts) == Wire(a, key, n, ps)[m..]
    ensures
      var t := m + |parts[0]|;
      var p := PassOver(a, key, n, ps, t);
      var r := FeedAll(a, master, p.next, parts[1..]);
      && t <= |Wire(a, key, n, ps)| && Flatten(parts[1..]) == Wire(a, key, n, ps)[t..]
      && FeedAll(a, master, Decoder(Some(key), n, Wire(a, key, n, ps)[..m]), parts) == Pass(p.out + r.out, r.next, r.ok)
  {
    var w, t := Wire(a, key, n, ps), m + |parts[0]|;
    Advance(w, m, parts);
    AlignedPass(a, key, n, ps, t);
    assert Decoder(Some(key), n, w[..m]).(buf := w[..m] + parts[0]) == Decoder(Some(key), n, w[..t]);
    OnePass(a, master, Decoder(Some(key), n, w[..m]), parts, PassOver(a, key, n, ps, t));
  }

  /** The rest of the stream after a pass over the first t bytes. */
  lemma {:induction false} AfterPass(a: Aead, master: bytes, key: bytes, n: nat, ps: seq<bytes>, t: nat,
                                     parts: seq<bytes>)
    requires Lawful(a) && Fit(ps) && n + 2 * |ps| <= a.limit
    requires t <= |Wire(a, key, n, ps)| && Flatten(parts) == Wire(a, key, n, ps)[t..]
    ensures
      var p := PassOver(a, key, n, ps, t);
      var r := FeedAll(a, master, p.next, parts);
      && r.ok == (Left(ps, t) < BLOCK && SafeStops(ps[Whole(ps, t)..], Left(ps, t), parts))
      && (r.ok ==> p.out + r.out == ps && r.next == Decoder(Some(key), n + 2 * |ps|, []))
    decreases |parts|, 2
  {
    CutsWire(a, key, n, ps, t);
    if Left(ps, t) < BLOCK {
      AfterSafePass(a, master, key, n, ps, t, parts);
    } else {
      var j, left := Whole(ps, t), Left(ps, t);
      var n', ps' := n + 2 * j, ps[j..];
      assert PassOver(a, key, n, ps, t).next == Decoder(Some(key), n' + 1, Wire(a, key, n', ps')[..left]);
      WholeLeavesSome(a, key, n, ps, t);
      assert ps'[0] == ps[j];
      LeftIsPartial(ps, t);
      FeedsMisaligned(a, master, key, n', ps', left, parts);
    }
  }

  /** The case of a pass that stopped at a safe place. */
  lemma AfterSafePass(a: Aead, master: bytes, key: bytes, n: nat, ps: seq<bytes>, t: nat, parts: seq<bytes>)
    requires Lawful(a) && Fit(ps) && n + 2 * |ps| <= a.limit
    requires t <= |Wire(a, key, n, ps)| && Flatten(parts) == Wire(a, key, n, ps)[t..] && Left(ps, t) < BLOCK
    ensures
      var p := PassOver(a, key, n, ps, t);
      var r := FeedAll(a, master, p.next, parts);
      && r.ok == SafeStops(ps[Whole(ps, t)..], Left(ps, t), parts)
      && (r.ok ==> p.out + r.out == ps && r.next == Decoder(Some(key), n + 2 * |ps|, []))
    decreases |parts|, 1
  {
    CutsWire(a, key, n, ps, t);
    var j, left := Whole(ps, t), Left(ps, t);
    var n', ps' := n + 2 * j, ps[j..];
    var p := PassOver(a, key, n, ps, t);
    assert p.next == Decoder(Some(key), n', Wire(a, key, n', ps')[..left]) && p.out == ps[..j];
    FeedsAligned(a, master, key, n', ps', left, parts);
    assert ps[..j] + ps' == ps;
  }

  lemma WholeLeavesSome(a: Aead, key: bytes, n: nat, ps: seq<bytes>, t: nat)
    requires Lawful(a) && Fit(ps) && t <= |Wire(a, key, n, ps)| && Left(ps, t) >= BLOCK
    ensures Whole(ps, t) < |ps|
  {
    CutsWire(a, key, n, ps, t);
    assert ps[|ps|..] == [];
  }

  lemma FeedsMisaligned(a: Aead, master: bytes, key: bytes, n: nat, ps: seq<bytes>, m: nat, parts: seq<bytes>)
    requires Lawful(a) && Fit(ps) && ps != [] && n + 2 * |ps| <= a.limit
    requires BLOCK <= m < ChunkSize(ps[0]) && m <= |Wire(a, key, n, ps)|
    requires Flatten(parts) == Wire(a, key, n, ps)[m..]
    ensures !FeedAll(a, master, Decoder(Some(key), n + 1, Wire(a, key, n, ps)[..m]), parts).ok
  {
    var w := Wire(a, key, n, ps);
    WireSplit(a, key, n, ps, m);
    assert |w[m..]| > 0;
    Advance(w, m, parts);
    MisalignedPass(a, key, n, ps, m + |parts[0]|);
  }

  /** From the start of the stream. Any split of the wire is decoded correctly if and only if every
      pass stops inside the salt or with less than a length block of the next chunk buffered. */
  lemma {:induction false} DecodesExactlyWhenSafe(a: Aead, master: bytes, salt: bytes, ps: seq<bytes>, have: nat,
                                                  parts: seq<bytes>)
    requires Lawful(a) && Fit(ps) && 2 * |ps| <= a.limit && |salt| == SALT_LEN && have < SALT_LEN
    requires Flatten(parts) == (salt + Wire(a, a.subkey(master, salt), 0, ps))[have..]
    ensures
      var r := FeedAll(a, master, Decoder(None, 0, salt[..have]), parts);
      && r.ok == SafeStream(ps, have, parts)
      && (r.ok ==> r.out == ps && r.next == Decoder(Some(a.subkey(master, salt)), 2 * |ps|, []))
    decreases |parts|
  {
    SomethingToFeed(salt, Wire(a, a.subkey(master, salt), 0, ps), have, parts);
    if have + |parts[0]| < SALT_LEN {
      SaltGrows(salt, Wire(a, a.subkey(master, salt), 0, ps), have, parts);
      SaltPassWaits(a, master, salt, have, parts);
      DecodesExactlyWhenSafe(a, master, salt, ps, have + |parts[0]|, parts[1..]);
    } else {
      SaltCompletes(a, master, salt, ps, have, parts);
    }
  }

  lemma SomethingToFeed(salt: bytes, w: bytes, have: nat, parts: seq<bytes>)
    requires have < |salt| && Flatten(parts) == (salt + w)[have..]
    ensures parts != []
  {
    assert |(salt + w)[have..]| > 0;
  }

  /** A part that does not complete the salt. */
  lemma SaltGrows(salt: bytes, w: bytes, have: nat, parts: seq<bytes>)
    requires parts != [] && have < |salt| && have + |parts[0]| < |salt|
    requires Flatten(parts) == (salt + w)[have..]
    ensures salt[..have] + parts[0] == salt[..have + |parts[0]|]
    ensures Flatten(parts[1..]) == (salt + w)[have + |parts[0]|..]
  {
    var u, t := salt + w, have + |parts[0]|;
    Advance(u, have, parts);
    assert u[..have] == salt[..have] && u[..t] == salt[..t];
  }

  /** Such a part only lengthens the buffer. */
  lemma SaltPassWaits(a: Aead, master: bytes, salt: bytes, have: nat, parts: seq<bytes>)
    requires |salt| == SALT_LEN && parts != [] && have + |parts[0]| < SALT_LEN
    requires salt[..have] + parts[0] == salt[..have + |parts[0]|]
    ensures
      var r := FeedAll(a, master, Decoder(None, 0, salt[..have + |parts[0]|]), parts[1..]);
      FeedAll(a, master, Decoder(None, 0, salt[..have]), parts) == r
  {
    var next := Decoder(None, 0, salt[..have + |parts[0]|]);
    OnePass(a, master, Decoder(None, 0, salt[..have]), parts, Pass([], next, true));
    assert [] + FeedAll(a, master, next, parts[1..]).out == FeedAll(a, master, next, parts[1..]).out;
  }

  lemma SaltCompletes(a: Aead, master: bytes, salt: bytes, ps: seq<bytes>, have: nat, parts: seq<bytes>)
    requires Lawful(a) && Fit(ps) && 2 * |ps| <= a.limit && |salt| == SALT_LEN && have < SALT_LEN
    requires Flatten(parts) == (salt + Wire(a, a.subkey(master, salt), 0, ps))[have..]
    requires parts != [] && have + |parts[0]| >= SALT_LEN
    ensures
      var m := have + |parts[0]| - SALT_LEN;
      var r := FeedAll(a, master, Decoder(None, 0, salt[..have]), parts);
      && r.ok == (Left(ps, m) < BLOCK && SafeStops(ps[Whole(ps, m)..], Left(ps, m), parts[1..]))
      && (r.ok ==> r.out == ps && r.next == Decoder(Some(a.subkey(master, salt)), 2 * |ps|, []))
  {
    var key := a.subkey(master, salt);
    SaltPart(salt, Wire(a, key, 0, ps), have, parts);
    AfterPass(a, master, key, 0, ps, have + |parts[0]| - SALT_LEN, parts[1..]);
    JoinsKeyedPass(a, master, salt, key, ps, have, parts);
  }

  lemma JoinsKeyedPass(a: Aead, master: bytes, salt: bytes, key: bytes, ps: seq<bytes>, have: nat, parts: seq<bytes>)
    requires Lawful(a) && Fit(ps) && 2 * |ps| <= a.limit && |salt| == SALT_LEN && have < SALT_LEN
    requires key == a.subkey(master, salt) && Flatten(parts) == (salt + Wire(a, key, 0, ps))[have..]
    requires parts != [] && have + |parts[0]| >= SALT_LEN
    requires
      var m := have + |parts[0]| - SALT_LEN;
      var p := PassOver(a, key, 0, ps, m);
      var r := FeedAll(a, master, p.next, parts[1..]);
      && r.ok == (Left(ps, m) < BLOCK && SafeStops(ps[Whole(ps, m)..], Left(ps, m), parts[1..]))
      && (r.ok ==> p.out + r.out == ps && r.next == Decoder(Some(key), 2 * |ps|, []))
    ensures
      var m := have + |parts[0]| - SALT_LEN;
      var r := FeedAll(a, master, Decoder(None, 0, salt[..have]), parts);
      && r.ok == (Left(ps, m) < BLOCK && SafeStops(ps[Whole(ps, m)..], Left(ps, m), parts[1..]))
      && (r.ok ==> r.out == ps && r.next == Decoder(Some(key), 2 * |ps|, []))
  {
    FirstKeyedPass(a, master, salt, key, ps, have, parts);
  }

  /** The pass over the part that completes the salt, and what is fed behind it. */
  lemma FirstKeyedPass(a: Aead, master: bytes, salt: bytes, key: bytes, ps: seq<bytes>, have: nat, parts: seq<bytes>)
    requires Lawful(a) && Fit(ps) && 2 * |ps| <= a.limit && |salt| == SALT_LEN && have < SALT_LEN
    requires key == a.subkey(master, salt) && Flatten(parts) == (salt + Wire(a, key, 0, ps))[have..]
    requires parts != [] && have + |parts[0]| >= SALT_LEN
    ensures
      var m := have + |parts[0]| - SALT_LEN;
      var p := PassOver(a, key, 0, ps, m);
      var r := FeedAll(a, master, p.next, parts[1..]);
      FeedAll(a, master, Decoder(None, 0, salt[..have]), parts) == Pass(p.out + r.out, r.next, r.ok)
  {
    SaltPart(salt, Wire(a, key, 0, ps), have, parts);
    SaltPass(a, master, salt, key, ps, have + |parts[0]| - SALT_LEN, salt[..have], parts[0]);
    OnePass(a, master, Decoder(None, 0, salt[..have]), parts, PassOver(a, key, 0, ps, have + |parts[0]| - SALT_LEN));
  }

  /** The part that completes the salt. */
  lemma SaltPart(salt: bytes, w: bytes, have: nat, parts: seq<bytes>)
    requires parts != [] && have < |salt| <= have + |parts[0]|
    requires Flatten(parts) == (salt + w)[have..]
    ensures
      var m := have + |parts[0]| - |salt|;
      m <= |w| && salt[..have] + parts[0] == salt + w[..m] && Flatten(parts[1..]) == w[m..]
  {
    var t := have + |parts[0]|;
    Advance(salt + w, have, parts);
    SplitAt(salt, w, t);
    assert (salt + w)[..have] == salt[..have];
    assert (salt + w)[..t] == salt + w[..t - |salt|];
  }

  lemma SaltPass(a: Aead, master: bytes, salt: bytes, key: bytes, ps: seq<bytes>, m: nat, buf: bytes, part: bytes)
    requires Lawful(a) && Fit(ps) && 2 * |ps| <= a.limit && |salt| == SALT_LEN && key == a.subkey(master, salt)
    requires m <= |Wire(a, key, 0, ps)| && buf + part == salt + Wire(a, key, 0, ps)[..m]
    ensures DecodePass(a, master, Decoder(None, 0, buf).(buf := buf + part)) == PassOver(a, key, 0, ps, m)
  {
    var x := Wire(a, key, 0, ps)[..m];
    assert (salt + x)[..SALT_LEN] == salt && (salt + x)[SALT_LEN..] == x;
    KeyedPass(a, master, salt, salt + x, x);
    AlignedPass(a, key, 0, ps, m);
  }

  lemma OnePass(a: Aead, master: bytes, d: Decoder, parts: seq<bytes>, p: Pass)
    requires parts != [] && p.ok && DecodePass(a, master, d.(buf := d.buf + parts[0])) == p
    ensures
      var r := FeedAll(a, master, p.next, parts[1..]);
      FeedAll(a, master, d, parts) == Pass(p.out + r.out, r.next, r.ok)
  {
  }

  lemma KeyedPass(a: Aead, master: bytes, salt: bytes, buf: bytes, rest: bytes)
    requires |salt| == SALT_LEN <= |buf| && buf[..SALT_LEN] == salt && buf[SALT_LEN..] == rest
    ensures DecodePass(a, master, Decoder(None, 0, buf))
         == DecodeChunks(a, Decoder(Some(a.subkey(master, salt)), 0, rest))
  {
  }

  /** One chunk of a payload the encoder accepts, with whatever behind it: the decoder yields the payload
      and goes on, if and only if the payload has at most 0x3FFF bytes. A longer one makes it raise. */
  lemma OversizeIsRefused(a: Aead, key: bytes, n: nat, p: bytes, rest: bytes)
    requires Lawful(a) && |p| < 0x1_0000 && n + 1 < a.limit
    ensures
      var t := ChunkStep(a, Decoder(Some(key), n, ChunkWire(a, key, n, p) + rest));
      if |p| <= 0x3FFF then t == Yield(p, Decoder(Some(key), n + 2, rest)) else t.Stop? && !t.ok
  {
    var head, body := a.seal(key, n, Be16(|p|)), a.seal(key, n + 1, p);
    var w := ChunkWire(a, key, n, p) + rest;
    assert w[..BLOCK] == head;
    Be16RoundTrip(|p|);
    if |p| <= MAX_PAYLOAD {
      assert w[BLOCK..ChunkSize(p)] == body && w[ChunkSize(p)..] == rest;
    }
  }

  /** The payloads before the first that is too long. */
  function UpToOversize(ps: seq<bytes>): seq<bytes> {
    if ps == [] || |ps[0]| > MAX_PAYLOAD then [] else [ps[0]] + UpToOversize(ps[1..])
  }

  lemma FitCons(ps: seq<bytes>)
    requires ps != []
    ensures Fit(ps) <==> |ps[0]| <= MAX_PAYLOAD && Fit(ps[1..])
  {
    assert forall i :: 1 <= i < |ps| ==> ps[i] == ps[1..][i - 1];
    assert forall i :: 0 <= i < |ps[1..]| ==> ps[1..][i] == ps[i + 1];
  }

  lemma {:induction false} UpToOversizeIsAll(ps: seq<bytes>)
    ensures UpToOversize(ps) == ps <==> Fit(ps)
  {
    if ps == [] {
    } else {
      FitCons(ps);
      UpToOversizeIsAll(ps[1..]);
      assert ps == [ps[0]] + ps[1..];
    }
  }

  /** What the two length bytes can say; longer payloads make the encoder raise. */
  predicate Packable(ps: seq<bytes>) {
    forall i :: 0 <= i < |ps| ==> |ps[i]| < 0x1_0000
  }

  /** What the encoder hands out, call by call. */
  function Frames(a: Aead, key: bytes, n: nat, ps: seq<bytes>): seq<bytes>
    requires Packable(ps)
    decreases |ps|
  {
    if ps == [] then [] else [ChunkWire(a, key, n, ps[0])] + Frames(a, key, n + 2, ps[1..])
  }

  /** For payloads that fit the frames together are the wire. */
  lemma {:induction false} FramesAreTheWire(a: Aead, key: bytes, n: nat, ps: seq<bytes>)
    requires Fit(ps)
    ensures Packable(ps) && Flatten(Frames(a, key, n, ps)) == Wire(a, key, n, ps)
    decreases |ps|
  {
    if ps == [] {
    } else {
      FramesAreTheWire(a, key, n + 2, ps[1..]);
      assert Frames(a, key, n, ps)[1..] == Frames(a, key, n + 2, ps[1..]);
    }
  }

  lemma {:induction false} UnsplitDecodes(a: Aead, key: bytes, n: nat, ps: seq<bytes>)
    requires Lawful(a) && Packable(ps) && n + 2 * |ps| <= a.limit
    ensures
      var r := DecodeChunks(a, Decoder(Some(key), n, Flatten(Frames(a, key, n, ps))));
      r.out == UpToOversize(ps) && (r.ok <==> Fit(ps))
    decreases |ps|
  {
    if ps == [] {
    } else {
      var rest := Flatten(Frames(a, key, n + 2, ps[1..]));
      assert Frames(a, key, n, ps)[1..] == Frames(a, key, n + 2, ps[1..]);
      assert Flatten(Frames(a, key, n, ps)) == ChunkWire(a, key, n, ps[0]) + rest;
      FitCons(ps);
      OversizeIsRefused(a, key, n, ps[0], rest);
      if |ps[0]| <= MAX_PAYLOAD {
        UnsplitDecodes(a, key, n + 2, ps[1..]);
      }
    }
  }

  /** Everything the encoder accepts, in one piece: the decoder gives the payloads before the first that
      is too long. It accepts the frames, and gives all payloads, if and only if none is. */
  lemma UnsplitDecodesExactlyWhen(a: Aead, key: bytes, n: nat, ps: seq<bytes>)
    requires Lawful(a) && Packable(ps) && n + 2 * |ps| <= a.limit
    ensures
      var r := DecodeChunks(a, Decoder(Some(key), n, Flatten(Frames(a, key, n, ps))));
      && r.out == UpToOversize(ps)
      && (r.ok <==> Fit(ps)) && (r.out == ps <==> Fit(ps))
  {
    UnsplitDecodes(a, key, n, ps);
    UpToOversizeIsAll(ps);
  }

  lemma CountedChunk(l: Library, key: bytes, n: nat, p: bytes)
    requires |p| < 0x1_0000
    ensures ChunkWire(Counted(l), key, n, p) == SealAt(l, key, n, Be16(|p|)) + SealAt(l, key, n + 1, p)
  {
  }

  // ---------------------------------------------------------------------------------------
  // The object.

  class AeadStream {
    const lib: Library
    const masterKey: bytes
    const encSalt: bytes
    var encNonce: nat
    var encSaltSent: bool
    var decKey: Option<bytes>
    var decNonce: nat
    var buf: bytes

    constructor (lib: Library, masterKey: bytes, encSalt: bytes)
      ensures this.lib == lib && this.masterKey == masterKey && this.encSalt == encSalt
      ensures encNonce == 0 && !encSaltSent && Dec() == FRESH
    {
      this.lib, this.masterKey, this.encSalt := lib, masterKey, encSalt;
      encNonce, encSaltSent, decKey, decNonce, buf := 0, false, None, 0, [];
    }

    ghost function Dec(): Decoder
      reads this
    {
      Decoder(decKey, decNonce, buf)
    }

    /** None is the struct or overflow error; the salt then counts as sent but is lost. */
    method EncryptChunk(payload: bytes) returns (r: Option<bytes>)
      modifies this`encNonce, this`encSaltSent
      ensures r.Some? <==> |payload| < 0x1_0000 && old(encNonce) + 1 < Pow256(NONCE_LEN)
      ensures r.Some? ==> encSaltSent && encNonce == old(encNonce) + 2
      ensures r.Some? ==>
        r.value == (if old(encSaltSent) then [] else encSalt)
                   + ChunkWire(Counted(lib), lib.subkey(masterKey, encSalt), old(encNonce), payload)
    {
      var out: bytes := [];
      if !encSaltSent {
        out := out + encSalt;
        encSaltSent := true;
      }
      assert out == if old(encSaltSent) then [] else encSalt;
      var chunk := SealChunk(payload);
      r := if chunk.None? then None else Some(out + chunk.value);
    }

    /** The sealed length and the sealed payload; None is the struct or overflow error. */
    method SealChunk(payload: bytes) returns (r: Option<bytes>)
      modifies this`encNonce
      ensures r.Some? <==> |payload| < 0x1_0000 && old(encNonce) + 1 < Pow256(NONCE_LEN)
      ensures r.Some? ==>
        && encNonce == old(encNonce) + 2
        && r.value == ChunkWire(Counted(lib), lib.subkey(masterKey, encSalt), old(encNonce), payload)
    {
      if |payload| >= 0x1_0000 || encNonce >= Pow256(NONCE_LEN) {
        return None;
      }
      var key := lib.subkey(masterKey, encSalt);
      var encLen := SealAt(lib, key, encNonce, Be16(|payload|));
      encNonce := encNonce + 1;
      if encNonce >= Pow256(NONCE_LEN) {
        return None;
      }
      var encPayload := SealAt(lib, key, encNonce, payload);
      CountedChunk(lib, key, old(encNonce), payload);
      encNonce := encNonce + 1;
      r := Some(encLen + encPayload);
    }

    /** One more frame behind those of the first i payloads. */
    method EncryptNext(sent: bytes, payloads: seq<bytes>, i: nat) returns (wire: bytes)
      requires Fit(payloads) && i < |payloads| && 2 * |payloads| <= Pow256(NONCE_LEN)
      requires encNonce == 2 * i && encSaltSent == (i > 0)
      requires sent == Salted(Counted(lib), lib.subkey(masterKey, encSalt), encSalt, payloads[..i])
      modifies this`encNonce, this`encSaltSent
      ensures encNonce == 2 * (i + 1) && encSaltSent
      ensures wire == Salted(Counted(lib), lib.subkey(masterKey, encSalt), encSalt, payloads[..i + 1])
    {
      var frame := EncryptChunk(payloads[i]);
      SaltedSnoc(Counted(lib), lib.subkey(masterKey, encSalt), encSalt, payloads, i);
      wire := sent + frame.value;
    }

    /** A relay's frames: the frames are together the salt and the wire of the payloads. */
    method EncryptAll(payloads: seq<bytes>) returns (wire: bytes)
      requires Fit(payloads) && !encSaltSent && encNonce == 0 && 2 * |payloads| <= Pow256(NONCE_LEN)
      modifies this`encNonce, this`encSaltSent
      ensures encNonce == 2 * |payloads|
      ensures wire == Salted(Counted(lib), lib.subkey(masterKey, encSalt), encSalt, payloads)
    {
      wire := [];
      ghost var a, key := Counted(lib), lib.subkey(masterKey, encSalt);
      for i := 0 to |payloads|
        invariant encNonce == 2 * i && encSaltSent == (i > 0)
        invariant wire == Salted(a, key, encSalt, payloads[..i])
      {
        wire := EncryptNext(wire, payloads, i);
      }
      assert payloads[..|payloads|] == payloads;
    }

    method Feed(data: bytes)
      modifies this`buf
      ensures Dec() == old(Dec()).(buf := old(buf) + data)
    {
      buf := buf + data;
    }

    /** A relay that feeds and decodes fragment after fragment, until the first error. */
    method FeedParts(parts: seq<bytes>) returns (out: seq<bytes>, ok: bool)
      modifies this`decKey, this`decNonce, this`buf
      ensures Pass(out, Dec(), ok) == FeedAll(Counted(lib), masterKey, old(Dec()), parts)
    {
      out, ok := [], true;
      ghost var a, total := Counted(lib), FeedAll(Counted(lib), masterKey, Dec(), parts);
      var i := 0;
      while i < |parts|
        invariant i <= |parts| && ok
        invariant total == Onto(out, FeedAll(a, masterKey, Dec(), parts[i..]))
      {
        OntoPart(a, masterKey, Dec(), parts[i..], out);
        assert parts[i..][1..] == parts[i + 1..];
        Feed(parts[i]);
        var more;
        more, ok := TryDecryptChunks();
        out := out + more;
        if !ok {
          return;
        }
        i := i + 1;
      }
      assert out + [] == out;
    }

    method EnsureDecKey() returns (ok: bool)
      modifies this`decKey, this`buf
      ensures
        Dec() ==
        if old(decKey).Some? || |old(buf)| < 32 then old(Dec())
        else Decoder(Some(lib.subkey(masterKey, old(buf)[..32])), decNonce, old(buf)[32..])
      ensures ok == decKey.Some?
    {
      if decKey.Some? {
        return true;
      }
      if |buf| < SALT_LEN {
        return false;
      }
      decKey := Some(lib.subkey(masterKey, buf[..SALT_LEN]));
      buf := buf[SALT_LEN..];
      return true;
    }

    method TryDecryptChunks() returns (out: seq<bytes>, ok: bool)
      modifies this`decKey, this`decNonce, this`buf
      ensures Pass(out, Dec(), ok) == DecodePass(Counted(lib), masterKey, old(Dec()))
    {
      var ready := EnsureDecKey();
      if ready {
        out, ok := DecryptBuffered();
      } else {
        out, ok := [], true;
      }
    }

    method DecryptBuffered() returns (out: seq<bytes>, ok: bool)
      requires decKey.Some?
      modifies this`decNonce, this`buf
      ensures Pass(out, Dec(), ok) == DecodeChunks(Counted(lib), old(Dec()))
    {
      out, ok := [], true;
      ghost var a, d0 := Counted(lib), Dec();
      var more := true;
      while more
        invariant decKey.Some?
        invariant more ==> ok && DecodeChunks(a, d0) == Onto(out, DecodeChunks(a, Dec()))
        invariant !more ==> DecodeChunks(a, d0) == Pass(out, Dec(), ok)
        decreases more, |buf|
      {
        OntoStep(a, Dec(), out);
        var payload;
        payload, ok := TakeChunk();
        if payload.Some? {
          out := out + [payload.value];
        } else {
          more := false;
        }
      }
    }

    /** The body of the loop: a payload to yield, or the end of the pass. */
    method TakeChunk() returns (payload: Option<bytes>, ok: bool)
      requires decKey.Some?
      modifies this`decNonce, this`buf
      ensures
        ChunkStep(Counted(lib), old(Dec())) ==
        if payload.Some? then Yield(payload.value, Dec()) else Stop(Dec(), ok)
      ensures payload.Some? ==> ok
    {
      if |buf| < 2 + TAG {
        return None, true;
      }
      var lengthBytes := OpenAt(lib, decKey.value, decNonce, buf[..2 + TAG]);
      if lengthBytes.None? || |lengthBytes.value| != 2 {
        return None, false;
      }
      decNonce := decNonce + 1;
      var length := FromBe16(lengthBytes.value);
      if length > MAX_PAYLOAD {
        return None, false;
      }
      var need := 2 + TAG + length + TAG;
      if |buf| < need {
        return None, true;
      }
      var encPayload := buf[2 + TAG..need];
      buf := buf[need..];
      payload := OpenAt(lib, decKey.value, decNonce, encPayload);
      if payload.None? {
        return None, false;
      }
      decNonce := decNonce + 1;
      ok := true;
    }
  }

  lemma {:induction false} WireSnoc(a: Aead, key: bytes, n: nat, ps: seq<bytes>, i: nat)
    requires Fit(ps) && i < |ps|
    ensures Wire(a, key, n, ps[..i + 1]) == Wire(a, key, n, ps[..i]) + ChunkWire(a, key, n + 2 * i, ps[i])
    decreases i
  {
    if i == 0 {
      assert ps[..1] == [ps[0]] && ps[..1][1..] == [];
    } else {
      WireSnoc(a, key, n + 2, ps[1..], i - 1);
      assert ps[..i + 1][1..] == ps[1..][..i] && ps[..i][1..] == ps[1..][..i - 1];
    }
  }

  lemma SaltedSnoc(a: Aead, key: bytes, salt: bytes, ps: seq<bytes>, i: nat)
    requires Fit(ps) && i < |ps|
    ensures
      Salted(a, key, salt, ps[..i + 1]) ==
      Salted(a, key, salt, ps[..i]) + ((if i > 0 then [] else salt) + ChunkWire(a, key, 2 * i, ps[i]))
  {
    WireSnoc(a, key, 0, ps, i);
    var w, c := Wire(a, key, 0, ps[..i]), ChunkWire(a, key, 2 * i, ps[i]);
    assert salt + (w + c) == (salt + w) + c;
    if i > 0 {
      assert [] + c == c;
    } else {
      assert w == [] && [] + (salt + c) == salt + c && [] + c == c;
    }
  }

  lemma OntoStep(a: Aead, d: Decoder, out: seq<bytes>)
    requires d.key.Some?
    ensures
      var t := ChunkStep(a, d);
      Onto(out, DecodeChunks(a, d)) ==
      if t.Yield? then Onto(out + [t.payload], DecodeChunks(a, t.next)) else Pass(out, t.next, t.ok)
  {
    var t := ChunkStep(a, d);
    if t.Yield? {
      var rest := DecodeChunks(a, t.next).out;
      assert out + ([t.payload] + rest) == out + [t.payload] + rest;
    } else {
      assert out + [] == out;
    }
  }

  lemma OntoPart(a: Aead, master: bytes, d: Decoder, parts: seq<bytes>, out: seq<bytes>)
    requires parts != []
    ensures
      var p := DecodePass(a, master, d.(buf := d.buf + parts[0]));
      Onto(out, FeedAll(a, master, d, parts)) ==
      if p.ok then Onto(out + p.out, FeedAll(a, master, p.next, parts[1..])) else Pass(out + p.out, p.next, false)
  {
    var p := DecodePass(a, master, d.(buf := d.buf + parts[0]));
    if p.ok {
      var rest := FeedAll(a, master, p.next, parts[1..]);
      assert out + (p.out + rest.out) == out + p.out + rest.out;
    }
  }

  /** One end encrypts, the other decrypts what arrives in the given fragments: the payloads come out,
      unless some pass stops where the decoder loses step, and then it raises. */
  method FromEndToEnd(l: Library, master: bytes, salt: bytes, payloads: seq<bytes>, cut: bytes -> seq<bytes>)
    returns (r: Option<seq<bytes>>)
    requires LawfulLibrary(l) && |salt| == SALT_LEN
    requires payloads != [] && Fit(payloads) && 2 * |payloads| <= Pow256(NONCE_LEN)
    requires forall w :: Flatten(cut(w)) == w
    ensures
      var parts := cut(salt + Wire(Counted(l), l.subkey(master, salt), 0, payloads));
      r == if SafeStream(payloads, 0, parts) then Some(payloads) else None
  {
    var sender := new AeadStream(l, master, salt);
    var wire := sender.EncryptAll(payloads);
    assert wire == salt + Wire(Counted(l), l.subkey(master, salt), 0, payloads);
    var receiver := new AeadStream(l, master, salt);
    var out, ok := receiver.FeedParts(cut(wire));
    CountedIsLawful(l);
    assert wire[0..] == wire && salt[..0] == [];
    DecodesExactlyWhenSafe(Counted(l), master, salt, payloads, 0, cut(wire));
    r := if ok then Some(out) else None;
  }
}
