/** The command header inside a VMess request (protocol/vmess/vmess.py:303-384). */
module VMessHeader {
  import opened Bytes

  type u32 = x: int | 0 <= x < 0x1_0000_0000

  const FNV_BASIS: u32 := 0x811C9DC5
  const FNV_PRIME: nat := 0x01000193

  /** FNV-1a, 32 bits. */
  function Fnv(data: bytes): u32 {
    if data == [] then FNV_BASIS else FnvStep(Fnv(data[..|data| - 1]), data[|data| - 1])
  }

  function FnvStep(h: u32, b: byte): u32 {
    (Xor32(h, b) * FNV_PRIME) % 0x1_0000_0000
  }

  method Fnv1a32(data: bytes) returns (h: u32)
    ensures h == Fnv(data)
  {
    h := 0x811C9DC5;
    for i := 0 to |data|
      invariant h == Fnv(data[..i])
    {
      assert data[..i + 1][..i] == data[..i];
      h := Xor32(h, data[i]);
      var product: nat := h * 0x01000193;
      h := product % 0x1_0000_0000;
    }
    assert data[..|data|] == data;
  }

  function Xor32(a: u32, b: u32): u32 {
    Pow2Of32();
    XorBound(32, a, b);
    Xor(32, a, b)
  }

  lemma Pow2Of32()
    ensures Pow2(32) == 0x1_0000_0000
  {
    Pow2Of16();
    assert Pow2(20) == 0x10_0000;
    assert Pow2(24) == 0x100_0000;
    assert Pow2(28) == 0x1000_0000;
  }

  // ---------------------------------------------------------------------------------------
  // What the checksum notices.

  /** Either operand of an exclusive or can be told from the result and the other one. */
  lemma Xor32Determines(a: u32, b: u32, c: u32)
    ensures Xor32(a, b) == Xor32(a, c) <==> b == c
    ensures Xor32(b, a) == Xor32(c, a) <==> b == c
  {
    Pow2Of32();
    XorTwice(32, b, a);
    XorTwice(32, c, a);
    if Xor32(a, b) == Xor32(a, c) {
      XorDetermines(32, a, b, c);
    }
  }

  lemma RemainderIs(n: int, q: int, r: int)
    requires n == 0x1_0000_0000 * q + r && 0 <= r < 0x1_0000_0000
    ensures n % 0x1_0000_0000 == r
  {
  }

  /** The factor is odd, so the multiplication modulo 2^32 can be undone. */
  lemma ProductDetermines(x: u32)
    ensures (x * FNV_PRIME % 0x1_0000_0000) * 0x359C449B % 0x1_0000_0000 == x
  {
    var a, r := x * FNV_PRIME / 0x1_0000_0000, x * FNV_PRIME % 0x1_0000_0000;
    assert FNV_PRIME * 0x359C449B == 0x1_0000_0000 * 3513497 + 1;
    assert r == x * FNV_PRIME - 0x1_0000_0000 * a;
    assert r * 0x359C449B == 0x1_0000_0000 * (3513497 * x - 0x359C449B * a) + x;
    RemainderIs(r * 0x359C449B, 3513497 * x - 0x359C449B * a, x);
  }

  /** Each step keeps states and bytes apart. */
  lemma StepDetermines(g: u32, h: u32, b: byte, c: byte)
    ensures FnvStep(h, b) == FnvStep(h, c) <==> b == c
    ensures FnvStep(g, b) == FnvStep(h, b) <==> g == h
  {
    Xor32Determines(h, b, c);
    Xor32Determines(b, g, h);
    ProductDetermines(Xor32(h, b));
    ProductDetermines(Xor32(h, c));
    ProductDetermines(Xor32(g, b));
  }

  lemma {:induction false} FnvBehind(a: bytes, b: bytes, rest: bytes)
    ensures Fnv(a + rest) == Fnv(b + rest) <==> Fnv(a) == Fnv(b)
    decreases |rest|
  {
    if rest == [] {
      assert a + rest == a && b + rest == b;
    } else {
      var n := |rest| - 1;
      assert (a + rest)[..|a + rest| - 1] == a + rest[..n];
      assert (b + rest)[..|b + rest| - 1] == b + rest[..n];
      FnvBehind(a, b, rest[..n]);
      StepDetermines(Fnv(a + rest[..n]), Fnv(b + rest[..n]), rest[n], rest[n]);
    }
  }

  /** One more byte is masked into the checksum first, and the product follows. */
  lemma ChecksumOfOneMore(data: bytes, b: byte)
    ensures Fnv([]) == 0x811C9DC5 && Fnv(data + [b]) == Xor(32, Fnv(data), b) * 0x01000193 % 0x1_0000_0000
  {
    assert (data + [b])[..|data|] == data;
  }

  /** Changing any one byte changes the checksum, wherever the byte stands. */
  lemma OneByteChangesTheChecksum(a: bytes, b: byte, c: byte, rest: bytes)
    ensures Fnv(a + [b] + rest) == Fnv(a + [c] + rest) <==> b == c
  {
    FnvBehind(a + [b], a + [c], rest);
    assert (a + [b])[..|a|] == a && (a + [c])[..|a|] == a;
    StepDetermines(Fnv(a), Fnv(a), b, c);
  }

  /** struct.pack(">I", n) and its inverse */
  function Be32(n: u32): (b: bytes)
    ensures |b| == 4
    ensures ((b[0] as int * 256 + b[1] as int) * 256 + b[2] as int) * 256 + b[3] as int == n
  {
    Be16(n / 0x1_0000) + Be16(n % 0x1_0000)
  }

  function FromBe32(b: bytes): u32
    requires |b| == 4
  {
    var hi: int := FromBe16(b[..2]);
    hi * 0x1_0000 + FromBe16(b[2..])
  }

  lemma Be32RoundTrip(n: u32)
    ensures FromBe32(Be32(n)) == n
  {
    assert Be32(n)[..2] == Be16(n / 0x1_0000) && Be32(n)[2..] == Be16(n % 0x1_0000);
    Be16RoundTrip(n / 0x1_0000);
    Be16RoundTrip(n % 0x1_0000);
  }

  lemma Be32Unique(b: bytes)
    requires |b| == 4
    ensures Be32(FromBe32(b)) == b
  {
    var hi, lo := FromBe16(b[..2]), FromBe16(b[2..]);
    assert FromBe32(b) / 0x1_0000 == hi && FromBe32(b) % 0x1_0000 == lo;
    assert Be16(hi) == b[..2] && Be16(lo) == b[2..];
    assert b == b[..2] + b[2..];
  }

  // ---------------------------------------------------------------------------------------
  // Addresses.

  datatype Target = IPv4(octets: bytes) | Domain(name: bytes) | IPv6(groups: bytes)

  predicate ValidTarget(t: Target) {
    match t
    case IPv4(o) => |o| == 4
    case Domain(n) => |n| < 256
    case IPv6(g) => |g| == 16
  }

  function Digit(n: nat): char
    requires n < 16
  {
    if n < 10 then '0' + n as char else 'a' + (n - 10) as char
  }

  function Decimal(n: byte): string {
    if n < 10 then [Digit(n)]
    else if n < 100 then [Digit(n / 10), Digit(n % 10)]
    else [Digit(n / 100), Digit(n / 10 % 10), Digit(n % 10)]
  }

  function Hex2(n: byte): (s: string)
    ensures |s| == 2
  {
    [Digit(n / 16), Digit(n % 16)]
  }

  /** ".".join(str(b) for b in o) */
  function Dotted(o: bytes): string {
    if o == [] then "" else if |o| == 1 then Decimal(o[0]) else Decimal(o[0]) + "." + Dotted(o[1..])
  }

  /** ":".join of the two-byte groups */
  function Colons(g: bytes): string
    requires |g| % 2 == 0
  {
    if g == [] then ""
    else if |g| == 2 then Hex2(g[0]) + Hex2(g[1])
    else Hex2(g[0]) + Hex2(g[1]) + ":" + Colons(g[2..])
  }

  /** The address string, given the library's lossy UTF-8 decoder. */
  function Text(decode: bytes -> string, t: Target): string
    requires ValidTarget(t)
  {
    match t
    case IPv4(o) => Dotted(o)
    case Domain(n) => decode(n)
    case IPv6(g) => Colons(g)
  }

  lemma {:induction false} ColonsDetermine(g: bytes, h: bytes)
    requires |g| == |h| && |g| % 2 == 0 && Colons(g) == Colons(h)
    ensures g == h
  {
    if g == [] {
    } else {
      var s, t := Colons(g), Colons(h);
      assert s[..4] == Hex2(g[0]) + Hex2(g[1]) && t[..4] == Hex2(h[0]) + Hex2(h[1]);
      assert s[0] == t[0] && s[1] == t[1] && s[2] == t[2] && s[3] == t[3];
      Hex2Determines(g[0], h[0]);
      Hex2Determines(g[1], h[1]);
      if |g| > 2 {
        assert s[5..] == Colons(g[2..]) && t[5..] == Colons(h[2..]);
        ColonsDetermine(g[2..], h[2..]);
        assert g == [g[0], g[1]] + g[2..] && h == [h[0], h[1]] + h[2..];
      }
    }
  }

  lemma DigitDetermines(m: nat, n: nat)
    requires m < 16 && n < 16 && Digit(m) == Digit(n)
    ensures m == n
  {
  }

  lemma Hex2Determines(a: byte, b: byte)
    requires Hex2(a) == Hex2(b)
    ensures a == b
  {
    assert Hex2(a)[0] == Hex2(b)[0] && Hex2(a)[1] == Hex2(b)[1];
    DigitDetermines(a / 16, b / 16);
    DigitDetermines(a % 16, b % 16);
  }

  // ---------------------------------------------------------------------------------------
  // What the texts say, read back at their separators.

  /** str.split(sep) */
  function Split(s: string, sep: char): (parts: seq<string>)
    ensures |parts| > 0
  {
    if s == "" then [""]
    else
      var rest := Split(s[1..], sep);
      if s[0] == sep then [""] + rest else [[s[0]] + rest[0]] + rest[1..]
  }

  /** The number a text of digits says to a base; None for any other text. */
  function Value(s: string, base: nat): Option<nat> {
    if s == "" then None
    else
      var d := DigitValue(s[|s| - 1]);
      if d.None? || d.value >= base then None
      else if |s| == 1 then d
      else
        var front := Value(s[..|s| - 1], base);
        if front.None? then None else Some(front.value * base + d.value)
  }

  function DigitValue(c: char): Option<nat> {
    if '0' <= c <= '9' then Some(c as int - '0' as int)
    else if 'a' <= c <= 'f' then Some(c as int - 'a' as int + 10)
    else None
  }

  /** A decimal without leading zeros. */
  predicate IsDecimal(s: string, n: nat) {
    Value(s, 10) == Some(n) && '.' !in s && s != "" && (s[0] == '0' ==> |s| == 1)
  }

  /** Four decimals without leading zeros, the i-th of which says o[i]. */
  predicate SaysIPv4(text: string, o: bytes) {
    var parts := Split(text, '.');
    && |parts| == |o| == 4
    && forall i :: 0 <= i < 4 ==> IsDecimal(parts[i], o[i])
  }

  /** Eight groups of four hexadecimal digits, the i-th of which says bytes 2i and 2i + 1. */
  predicate SaysIPv6(text: string, g: bytes) {
    var parts := Split(text, ':');
    && |parts| == 8 && |g| == 16
    && forall i :: 0 <= i < 8 ==>
         |parts[i]| == 4 && Value(parts[i], 16) == Some(g[2 * i] as int * 256 + g[2 * i + 1] as int)
  }

  /** The address string says the target. */
  predicate Says(decode: bytes -> string, text: string, t: Target) {
    match t
    case IPv4(o) => SaysIPv4(text, o)
    case Domain(n) => text == decode(n)
    case IPv6(g) => SaysIPv6(text, g)
  }

  lemma {:induction false} SplitFirst(part: string, sep: char, rest: string)
    requires sep !in part
    ensures Split(part + [sep] + rest, sep) == [part] + Split(rest, sep)
    ensures Split(part, sep) == [part]
  {
    if part == "" {
      assert part + [sep] + rest == [sep] + rest;
    } else {
      var s := part + [sep] + rest;
      assert s[1..] == part[1..] + [sep] + rest;
      SplitFirst(part[1..], sep, rest);
      assert [part[0]] + part[1..] == part;
    }
  }

  lemma DigitSays(n: nat)
    requires n < 16
    ensures DigitValue(Digit(n)) == Some(n) && Digit(n) != '.' && Digit(n) != ':'
    ensures Digit(n) == '0' <==> n == 0
  {
  }

  lemma OneDigit(a: nat, base: nat)
    requires a < base <= 16
    ensures Value([Digit(a)], base) == Some(a)
  {
    DigitSays(a);
  }

  lemma OneMoreDigit(front: string, v: nat, a: nat, base: nat)
    requires a < base <= 16 && front != "" && Value(front, base) == Some(v)
    ensures Value(front + [Digit(a)], base) == Some(v * base + a)
  {
    DigitSays(a);
    var s := front + [Digit(a)];
    assert s[..|s| - 1] == front;
  }

  lemma ThreeDigits(a: nat, b: nat, c: nat)
    requires 0 < a < 10 && b < 10 && c < 10
    ensures
      var s := [Digit(a), Digit(b), Digit(c)];
      Value(s, 10) == Some(a * 100 + b * 10 + c) && '.' !in s && s[0] != '0'
  {
    DigitSays(a);
    DigitSays(b);
    DigitSays(c);
    OneDigit(a, 10);
    OneMoreDigit([Digit(a)], a, b, 10);
    OneMoreDigit([Digit(a)] + [Digit(b)], a * 10 + b, c, 10);
    assert [Digit(a), Digit(b), Digit(c)] == [Digit(a)] + [Digit(b)] + [Digit(c)];
  }

  lemma TwoDigits(a: nat, b: nat)
    requires 0 < a < 10 && b < 10
    ensures
      var s := [Digit(a), Digit(b)];
      Value(s, 10) == Some(a * 10 + b) && '.' !in s && s[0] != '0'
  {
    DigitSays(a);
    DigitSays(b);
    OneDigit(a, 10);
    OneMoreDigit([Digit(a)], a, b, 10);
    assert [Digit(a), Digit(b)] == [Digit(a)] + [Digit(b)];
  }

  lemma DecimalSays(n: byte)
    ensures IsDecimal(Decimal(n), n)
  {
    if n < 10 {
      DigitSays(n);
      OneDigit(n, 10);
    } else if n < 100 {
      TwoDigits(n / 10, n % 10);
    } else {
      ThreeDigits(n / 100, n / 10 % 10, n % 10);
    }
  }

  lemma {:induction false} DottedSplits(o: bytes)
    requires o != []
    ensures
      var parts := Split(Dotted(o), '.');
      |parts| == |o| && forall i :: 0 <= i < |o| ==> parts[i] == Decimal(o[i])
  {
    DecimalSays(o[0]);
    if |o| == 1 {
      SplitFirst(Decimal(o[0]), '.', "");
    } else {
      DottedSplits(o[1..]);
      SplitFirst(Decimal(o[0]), '.', Dotted(o[1..]));
      assert Decimal(o[0]) + "." + Dotted(o[1..]) == Decimal(o[0]) + ['.'] + Dotted(o[1..]);
    }
  }

  lemma GroupSays(a: byte, b: byte)
    ensures
      var s := Hex2(a) + Hex2(b);
      |s| == 4 && ':' !in s && Value(s, 16) == Some(a as int * 256 + b as int)
  {
    var d0: nat, d1: nat, d2: nat, d3: nat := a / 16, a % 16, b / 16, b % 16;
    DigitSays(d0);
    DigitSays(d1);
    DigitSays(d2);
    DigitSays(d3);
    OneDigit(d0, 16);
    OneMoreDigit([Digit(d0)], d0, d1, 16);
    OneMoreDigit([Digit(d0)] + [Digit(d1)], d0 * 16 + d1, d2, 16);
    OneMoreDigit([Digit(d0)] + [Digit(d1)] + [Digit(d2)], (d0 * 16 + d1) * 16 + d2, d3, 16);
    assert Hex2(a) + Hex2(b) == [Digit(d0)] + [Digit(d1)] + [Digit(d2)] + [Digit(d3)];
  }

  lemma {:induction false} ColonsSplit(g: bytes)
    requires g != [] && |g| % 2 == 0
    ensures
      var parts := Split(Colons(g), ':');
      |parts| == |g| / 2 && forall i :: 0 <= i < |g| / 2 ==> parts[i] == Hex2(g[2 * i]) + Hex2(g[2 * i + 1])
  {
    var group := Hex2(g[0]) + Hex2(g[1]);
    GroupSays(g[0], g[1]);
    if |g| == 2 {
      SplitFirst(group, ':', "");
    } else {
      ColonsSplit(g[2..]);
      SplitFirst(group, ':', Colons(g[2..]));
      assert Hex2(g[0]) + Hex2(g[1]) + ":" + Colons(g[2..]) == group + [':'] + Colons(g[2..]);
      var parts, rest := Split(Colons(g), ':'), Split(Colons(g[2..]), ':');
      forall i | 0 <= i < |g| / 2
        ensures parts[i] == Hex2(g[2 * i]) + Hex2(g[2 * i + 1])
      {
        if i > 0 {
          assert parts[i] == rest[i - 1];
          assert g[2..][2 * (i - 1)] == g[2 * i] && g[2..][2 * (i - 1) + 1] == g[2 * i + 1];
        }
      }
    }
  }

  /** The text of every target says that target: octets and groups in their order, and each in full. */
  lemma TextSays(decode: bytes -> string, t: Target)
    requires ValidTarget(t)
    ensures Says(decode, Text(decode, t), t)
  {
    match t {
      case IPv4(o) =>
        DottedSplits(o);
        forall i | 0 <= i < 4
          ensures IsDecimal(Decimal(o[i]), o[i])
        {
          DecimalSays(o[i]);
        }
      case Domain(n) =>
      case IPv6(g) =>
        ColonsSplit(g);
        forall i | 0 <= i < 8
          ensures |Hex2(g[2 * i]) + Hex2(g[2 * i + 1])| == 4
          ensures Value(Hex2(g[2 * i]) + Hex2(g[2 * i + 1]), 16) == Some(g[2 * i] as int * 256 + g[2 * i + 1] as int)
        {
          GroupSays(g[2 * i], g[2 * i + 1]);
        }
    }
  }

  // ---------------------------------------------------------------------------------------
  // The layout, as a client prints it.

  datatype Header = Header(version: byte, bodyIv: bytes, bodyKey: bytes, token: byte, option: byte,
                           security: nat, reserved: byte, command: byte, port: u16,
                           target: Target, padding: bytes)

  predicate ValidHeader(h: Header) {
    && |h.bodyIv| == 16 && |h.bodyKey| == 16
    && h.security < 16 && |h.padding| < 16
    && ValidTarget(h.target)
  }

  function PrintTarget(t: Target): bytes
    requires ValidTarget(t)
  {
    match t
    case IPv4(o) => [1] + o
    case Domain(n) => [2, |n|] + n
    case IPv6(g) => [3] + g
  }

  /** The types of address, and their lengths. */
  lemma TargetLayout(t: Target)
    requires ValidTarget(t)
    ensures
      var p := PrintTarget(t);
      match t
      case IPv4(o) => |p| == 5 && p[0] == 1 && p[1..] == o
      case Domain(n) => |p| == 2 + |n| && p[0] == 2 && p[1] == |n| && p[2..] == n
      case IPv6(g) => |p| == 17 && p[0] == 3 && p[1..] == g
  {
  }

  function Body(h: Header): bytes
    requires ValidHeader(h)
  {
    [h.version] + h.bodyIv + h.bodyKey
    + [h.token, h.option, |h.padding| * 16 + h.security, h.reserved, h.command]
    + Be16(h.port) + PrintTarget(h.target) + h.padding
  }

  function Print(h: Header): (p: bytes)
    requires ValidHeader(h)
    ensures |p| < 0x1_0000
  {
    Body(h) + Be32(Fnv(Body(h)))
  }

  // ---------------------------------------------------------------------------------------
  // The parser.

  datatype Request = Request(version: byte, bodyKey: bytes, bodyIv: bytes, token: byte, option: byte,
                             paddingLen: nat, security: nat, command: byte, address: string, port: u16)

  /** The request a printed header stands for. */
  function RequestOf(decode: bytes -> string, h: Header): Request
    requires ValidHeader(h)
  {
    Request(h.version, h.bodyKey, h.bodyIv, h.token, h.option, |h.padding|, h.security, h.command,
            Text(decode, h.target), h.port)
  }

  /** The target at pos and the position behind it. */
  function ParseTarget(payload: bytes, pos: nat): (r: Option<(Target, nat)>)
    requires pos <= |payload|
    ensures r.Some? ==>
      && ValidTarget(r.value.0) && pos <= r.value.1 <= |payload|
      && payload[pos..r.value.1] == PrintTarget(r.value.0)
  {
    if |payload| < pos + 1 then None
    else if payload[pos] == 1 then
      if |payload| < pos + 5 then None
      else Some((IPv4(payload[pos + 1..pos + 5]), pos + 5))
    else if payload[pos] == 2 then
      if |payload| < pos + 2 then None
      else
        var dlen := payload[pos + 1];
        if |payload| < pos + 2 + dlen then None
        else Some((Domain(payload[pos + 2..pos + 2 + dlen]), pos + 2 + dlen))
    else if payload[pos] == 3 then
      if |payload| < pos + 17 then None
      else Some((IPv6(payload[pos + 1..pos + 17]), pos + 17))
    else None
  }

  /** parse_command_header: None is any of its VMessErrors. */
  function ParseHeader(decode: bytes -> string, payload: bytes): Option<Request> {
    if |payload| < 40 then
      None
    else
      var paddingLen := payload[35] / 16;
      var t := ParseTarget(payload, 40);
      if t.None? then
        None
      else
        var pos := t.value.1 + paddingLen;
        if |payload| < pos + 4 then None
        else if Fnv(payload[..pos]) != FromBe32(payload[pos..pos + 4]) then None
        else
          Some(Request(payload[0], payload[17..33], payload[1..17], payload[33], payload[34],
                       paddingLen, payload[35] % 16, payload[37], Text(decode, t.value.0),
                       FromBe16(payload[38..40])))
  }

  lemma ParsesPrintedTarget(t: Target, a: bytes, b: bytes)
    requires ValidTarget(t)
    ensures ParseTarget(a + PrintTarget(t) + b, |a|) == Some((t, |a| + |PrintTarget(t)|))
  {
    Middle(a, PrintTarget(t), b);
    var p := a + PrintTarget(t) + b;
    assert p[|a|] == PrintTarget(t)[0];
    match t {
      case IPv4(o) =>
        assert p[|a| + 1..|a| + 5] == o;
      case Domain(n) =>
        assert p[|a| + 1] == |n|;
        assert p[|a| + 2..|a| + 2 + |n|] == n;
      case IPv6(g) =>
        assert p[|a| + 1..|a| + 17] == g;
    }
  }

  function Fixed(h: Header): (f: bytes)
    requires ValidHeader(h)
    ensures |f| == 40
  {
    [h.version] + h.bodyIv + h.bodyKey
    + [h.token, h.option, |h.padding| * 16 + h.security, h.reserved, h.command] + Be16(h.port)
  }

  lemma FixedFields(h: Header, p: bytes)
    requires ValidHeader(h) && Fixed(h) <= p
    ensures p[0] == h.version && p[1..17] == h.bodyIv && p[17..33] == h.bodyKey
    ensures p[33] == h.token && p[34] == h.option && p[35] == |h.padding| * 16 + h.security
    ensures p[36] == h.reserved && p[37] == h.command && p[38..40] == Be16(h.port)
  {
    var f := Fixed(h);
    assert p[..40] == f;
    assert f[1..17] == h.bodyIv && f[17..33] == h.bodyKey && f[38..40] == Be16(h.port);
    assert p[1..17] == p[..40][1..17] && p[17..33] == p[..40][17..33] && p[38..40] == p[..40][38..40];
    assert forall i :: 0 <= i < 40 ==> p[i] == f[i];
  }

  /** Regrouping five parts. */
  lemma FiveParts(f: bytes, t: bytes, d: bytes, sum: bytes, extra: bytes)
    ensures
      var p := f + t + d + sum + extra;
      && p == f + t + (d + sum + extra)
      && f <= p
      && p[..|f + t + d|] == f + t + d
      && p[|f + t + d|..|f + t + d| + |sum|] == sum
  {
    Middle(f + t + d, sum, extra);
  }

  lemma ParsesParts(decode: bytes -> string, h: Header, p: bytes, end: nat)
    requires ValidHeader(h) && Fixed(h) <= p
    requires ParseTarget(p, 40) == Some((h.target, end))
    requires
      var n := end + |h.padding|;
      n + 4 <= |p| && Fnv(p[..n]) == FromBe32(p[n..n + 4])
    ensures ParseHeader(decode, p) == Some(RequestOf(decode, h))
  {
    FixedFields(h, p);
    assert p[35] / 16 == |h.padding| && p[35] % 16 == h.security;
    Be16RoundTrip(h.port);
  }

  lemma ParsesFields(decode: bytes -> string, h: Header, extra: bytes)
    requires ValidHeader(h)
    ensures ParseHeader(decode, Print(h) + extra) == Some(RequestOf(decode, h))
  {
    var f, t, sum := Fixed(h), PrintTarget(h.target), Be32(Fnv(Body(h)));
    assert Body(h) == f + t + h.padding;
    var p := f + t + h.padding + sum + extra;
    FiveParts(f, t, h.padding, sum, extra);
    ParsesPrintedTarget(h.target, f, h.padding + sum + extra);
    Be32RoundTrip(Fnv(Body(h)));
    ParsesParts(decode, h, p, 40 + |t|);
  }

  /** A printed header is recovered field for field, and bytes behind it do not matter; the address
      string says the target. */
  lemma ParsesPrinted(decode: bytes -> string, h: Header, extra: bytes)
    requires ValidHeader(h)
    ensures ParseHeader(decode, Print(h) + extra) == Some(RequestOf(decode, h))
    ensures Says(decode, RequestOf(decode, h).address, h.target)
  {
    ParsesFields(decode, h, extra);
    TextSays(decode, h.target);
  }

  /** The header whose fields stand in the first 40 bytes. */
  function FieldsOf(payload: bytes, target: Target, padding: bytes): Header
    requires |payload| >= 40
  {
    Header(payload[0], payload[1..17], payload[17..33], payload[33], payload[34],
           payload[35] % 16, payload[36], payload[37], FromBe16(payload[38..40]), target, padding)
  }

  lemma FixedOfFields(payload: bytes, target: Target, padding: bytes)
    requires |payload| >= 40 && ValidTarget(target) && |padding| == payload[35] / 16
    ensures ValidHeader(FieldsOf(payload, target, padding))
    ensures Fixed(FieldsOf(payload, target, padding)) == payload[..40]
  {
    var h := FieldsOf(payload, target, padding);
    assert Be16(h.port) == payload[38..40];
    assert |h.padding| * 16 + h.security == payload[35];
    assert payload[..40] == payload[..1] + payload[1..17] + payload[17..33]
                            + [payload[33], payload[34], payload[35], payload[36], payload[37]] + payload[38..40];
  }

  lemma BodyOfFields(payload: bytes, target: Target, end: nat, pos: nat)
    requires 40 <= end <= pos <= |payload| && pos - end == payload[35] / 16
    requires ValidTarget(target) && payload[40..end] == PrintTarget(target)
    ensures ValidHeader(FieldsOf(payload, target, payload[end..pos]))
    ensures Body(FieldsOf(payload, target, payload[end..pos])) == payload[..pos]
  {
    var h := FieldsOf(payload, target, payload[end..pos]);
    FixedOfFields(payload, target, payload[end..pos]);
    assert Body(h) == Fixed(h) + PrintTarget(target) + payload[end..pos];
    assert payload[..pos] == payload[..40] + payload[40..end] + payload[end..pos];
  }

  /** Conversely, whatever is accepted is a printed header followed by ignored bytes: in
      particular it carries the checksum of everything before the checksum. */
  lemma AcceptedIsPrinted(decode: bytes -> string, payload: bytes) returns (h: Header, extra: bytes)
    requires ParseHeader(decode, payload).Some?
    ensures ValidHeader(h) && payload == Print(h) + extra
    ensures ParseHeader(decode, payload) == Some(RequestOf(decode, h))
  {
    var t := ParseTarget(payload, 40).value;
    var pos := t.1 + payload[35] / 16;
    h := FieldsOf(payload, t.0, payload[t.1..pos]);
    extra := payload[pos + 4..];
    BodyOfFields(payload, t.0, t.1, pos);
    assert payload[pos..pos + 4] == Be32(Fnv(Body(h))) by {
      Be32Unique(payload[pos..pos + 4]);
    }
    assert payload == Print(h) + extra by {
      assert payload == payload[..pos] + payload[pos..pos + 4] + extra;
    }
    ParsesFields(decode, h, extra);
  }
}
