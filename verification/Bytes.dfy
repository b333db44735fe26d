/** Byte strings, the small amount of arithmetic on them that the codecs share, and the
    result type that stands for the source's exceptions. */
module Bytes {

  type byte = x: int | 0 <= x < 256
  type bytes = seq<byte>

  datatype Option<+T> = None | Some(value: T)

  /** Success, or the exception the source raises. */
  datatype Result<+T, +E> = Success(value: T) | Failure(error: E)

  /** Bitwise exclusive or of the low `bits` bits. */
  function Xor(bits: nat, a: nat, b: nat): nat {
    if bits == 0 then 0 else 2 * Xor(bits - 1, a / 2, b / 2) + (a % 2 + b % 2) % 2
  }

  function Pow2(n: nat): (p: nat)
    ensures p > 0
  {
    if n == 0 then 1 else 2 * Pow2(n - 1)
  }

  lemma {:induction false} XorBound(bits: nat, a: nat, b: nat)
    ensures Xor(bits, a, b) < Pow2(bits)
  {
    if bits == 0 {
    } else {
      XorBound(bits - 1, a / 2, b / 2);
    }
  }

  /** Bit i of a, counted from the lowest. */
  function Bit(a: nat, i: nat): (b: nat)
    ensures b < 2
  {
    if i == 0 then a % 2 else Bit(a / 2, i - 1)
  }

  /** Every bit of an exclusive or is the sum modulo 2 of the bits of both operands. */
  lemma {:induction false} XorIsBitwise(bits: nat, a: nat, b: nat, i: nat)
    requires i < bits
    ensures Bit(Xor(bits, a, b), i) == (Bit(a, i) + Bit(b, i)) % 2
  {
    var x, low := Xor(bits - 1, a / 2, b / 2), (a % 2 + b % 2) % 2;
    HalfAndLow(x, low);
    if i == 0 {
    } else {
      XorIsBitwise(bits - 1, a / 2, b / 2, i - 1);
    }
  }

  /** Numbers below 2^bits with the same bits are the same. */
  lemma {:induction false} BitsDetermine(bits: nat, a: nat, b: nat)
    requires a < Pow2(bits) && b < Pow2(bits)
    requires forall i: nat :: i < bits ==> Bit(a, i) == Bit(b, i)
    ensures a == b
  {
    if bits == 0 {
    } else {
      assert Bit(a, 0) == Bit(b, 0);
      forall i: nat | i < bits - 1
        ensures Bit(a / 2, i) == Bit(b / 2, i)
      {
        assert Bit(a, i + 1) == Bit(b, i + 1);
      }
      BitsDetermine(bits - 1, a / 2, b / 2);
    }
  }

  lemma LowBits(a: nat, b: nat)
    ensures ((a % 2 + b % 2) % 2 + b % 2) % 2 == a % 2
  {
    if b % 2 == 0 {
      assert (a % 2 + b % 2) % 2 == a % 2;
    }
  }

  lemma HalfAndLow(x: nat, low: nat)
    requires low < 2
    ensures (2 * x + low) / 2 == x && (2 * x + low) % 2 == low
  {
  }

  /** Masking twice with the same mask gives the value back. */
  lemma {:induction false} XorTwice(bits: nat, a: nat, b: nat)
    requires a < Pow2(bits)
    ensures Xor(bits, Xor(bits, a, b), b) == a
  {
    if bits == 0 {
    } else {
      var x, low := Xor(bits - 1, a / 2, b / 2), (a % 2 + b % 2) % 2;
      XorTwice(bits - 1, a / 2, b / 2);
      HalfAndLow(x, low);
      LowBits(a, b);
      assert Xor(bits, 2 * x + low, b) == 2 * Xor(bits - 1, x, b / 2) + (low + b % 2) % 2;
    }
  }

  function Xor8(a: byte, b: byte): byte {
    XorBound(8, a, b);
    assert Pow2(8) == 256;
    Xor(8, a, b)
  }

  type u16 = x: int | 0 <= x < 0x1_0000

  function Xor16(a: u16, b: u16): u16 {
    Pow2Of16();
    XorBound(16, a, b);
    Xor(16, a, b)
  }

  lemma Pow2Of16()
    ensures Pow2(16) == 0x1_0000
  {
    assert Pow2(8) == 256;
    assert Pow2(12) == 4096;
  }

  lemma Xor16Twice(a: u16, b: u16)
    ensures Xor16(Xor16(a, b), b) == a
  {
    Pow2Of16();
    XorTwice(16, a, b);
  }

  /** The second operand can be told from the result and the first. */
  lemma XorDetermines(bits: nat, a: nat, b: nat, c: nat)
    requires b < Pow2(bits) && c < Pow2(bits) && Xor(bits, a, b) == Xor(bits, a, c)
    ensures b == c
  {
    forall i: nat | i < bits
      ensures Bit(b, i) == Bit(c, i)
    {
      XorIsBitwise(bits, a, b, i);
      XorIsBitwise(bits, a, c, i);
    }
    BitsDetermine(bits, b, c);
  }

  /** The same mask makes different numbers different, and 0 leaves a number alone. */
  lemma Xor8Determines(a: byte, b: byte, m: byte)
    ensures Xor8(a, m) == Xor8(b, m) <==> a == b
    ensures Xor8(0, m) == m
  {
    assert Pow2(8) == 256;
    XorTwice(8, a, m);
    XorTwice(8, b, m);
    XorOfZero(8, m);
  }

  lemma {:induction false} XorOfZero(bits: nat, b: nat)
    requires b < Pow2(bits)
    ensures Xor(bits, 0, b) == b
  {
    if bits == 0 {
    } else {
      XorOfZero(bits - 1, b / 2);
    }
  }

  /** struct.pack(">H", n): the high byte comes first. */
  function Be16(n: u16): (b: bytes)
    ensures |b| == 2 && 256 * b[0] as int + b[1] as int == n
  {
    [n / 256, n % 256]
  }

  /** struct.unpack(">H", b)[0] */
  function FromBe16(b: bytes): u16
    requires |b| == 2
  {
    var hi: int := b[0];
    hi * 256 + b[1]
  }

  lemma Be16RoundTrip(n: u16)
    ensures FromBe16(Be16(n)) == n
  {
  }

  /** b"".join(parts) */
  function Flatten(parts: seq<bytes>): bytes {
    if parts == [] then [] else parts[0] + Flatten(parts[1..])
  }

  lemma {:induction false} FlattenConcat(a: seq<bytes>, b: seq<bytes>)
    ensures Flatten(a + b) == Flatten(a) + Flatten(b)
  {
    if a == [] {
      assert a + b == b;
    } else {
      assert (a + b)[1..] == a[1..] + b;
      FlattenConcat(a[1..], b);
    }
  }

  lemma FlattenSnoc(a: seq<bytes>, b: bytes)
    ensures Flatten(a + [b]) == Flatten(a) + b
  {
    FlattenConcat(a, [b]);
    assert Flatten([b]) == b + Flatten([]);
  }

  /** A label's bytes; every label here is plain ASCII. */
  function Ascii(s: string): (b: bytes)
    ensures |b| == |s|
  {
    seq<byte>(|s|, i requires 0 <= i < |s| => s[i] as int % 256)
  }

  /** Cutting the middle out of three parts. */
  lemma Middle<T>(a: seq<T>, m: seq<T>, b: seq<T>)
    ensures (a + m + b)[|a|..|a| + |m|] == m && (a + m + b)[|a| + |m|..] == b && (a + m + b)[|a|..] == m + b
    ensures forall i :: 0 <= i < |m| ==> (a + m + b)[|a| + i] == m[i]
  {
  }

  /** The first n bytes, or all of them when there are fewer: b[:n] */
  function Take(b: bytes, n: nat): (r: bytes)
    ensures r <= b && |r| == (if |b| < n then |b| else n)
  {
    if |b| < n then b else b[..n]
  }
}
