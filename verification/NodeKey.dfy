/** The keys by which panels are linked (main.py:294 and 885-916): "rvg-", the issuing panel's host in unpadded
    base64url (section 5 of RFC 4648) of its UTF-8 form (RFC 3629), a dot, and a secret. */
module NodeKey {
  import opened Bytes

  const PREFIX := "rvg-"

  // ---------------------------------------------------------------- text as bytes

  function EncodeChar(c: char): (b: bytes)
    ensures 1 <= |b| <= 4
  {
    var n := c as int;
    if n < 0x80 then [n]
    else if n < 0x800 then [0xC0 + n / 64, 0x80 + n % 64]
    else if n < 0x1_0000 then [0xE0 + n / 4096, 0x80 + n / 64 % 64, 0x80 + n % 64]
    else [0xF0 + n / 262144, 0x80 + n / 4096 % 64, 0x80 + n / 64 % 64, 0x80 + n % 64]
  }

  function EncodeText(s: string): bytes {
    if s == "" then [] else EncodeChar(s[0]) + EncodeText(s[1..])
  }

  predicate Continues(bs: bytes, k: nat) {
    k < |bs| && 0x80 <= bs[k] < 0xC0
  }

  /** The six bits of a continuation byte behind those read so far. */
  function Tail(bs: bytes, high: nat, k: nat): (n: nat)
    requires Continues(bs, k)
    ensures high * 64 <= n < high * 64 + 64
  {
    high * 64 + (bs[k] as int - 0x80)
  }

  /** The character at the front and how many bytes it takes; overlong forms, surrogates and numbers
      beyond 0x10FFFF are no characters. */
  function DecodeChar(bs: bytes): Option<(char, nat)> {
    if bs == [] then None
    else if bs[0] < 0x80 then Some((bs[0] as char, 1))
    else if 0xC2 <= bs[0] < 0xE0 && Continues(bs, 1) then
      Some((Tail(bs, bs[0] - 0xC0, 1) as char, 2))
    else if 0xE0 <= bs[0] < 0xF0 && Continues(bs, 1) && Continues(bs, 2) then
      var n := Tail(bs, Tail(bs, bs[0] - 0xE0, 1), 2);
      if n < 0x800 || 0xD800 <= n < 0xE000 then None else Some((n as char, 3))
    else if 0xF0 <= bs[0] < 0xF5 && Continues(bs, 1) && Continues(bs, 2) && Continues(bs, 3) then
      var n := Tail(bs, Tail(bs, Tail(bs, bs[0] - 0xF0, 1), 2), 3);
      if n < 0x1_0000 || 0x11_0000 <= n then None else Some((n as char, 4))
    else None
  }

  function DecodeText(bs: bytes): Option<string>
    decreases |bs|
  {
    if bs == [] then Some("")
    else
      var c := DecodeChar(bs);
      if c.None? then None
      else if c.value.1 == 0 || c.value.1 > |bs| then None
      else
        var rest := DecodeText(bs[c.value.1..]);
        if rest.None? then None else Some([c.value.0] + rest.value)
  }

  lemma TwoByteChar(n: nat, rest: bytes)
    requires 0x80 <= n < 0x800
    ensures DecodeChar([0xC0 + n / 64, 0x80 + n % 64] + rest) == Some((n as char, 2))
  {
    var bs: bytes := [0xC0 + n / 64, 0x80 + n % 64] + rest;
    assert bs[0] == 0xC0 + n / 64 && bs[1] == 0x80 + n % 64;
    assert Tail(bs, n / 64, 1) == n;
  }

  lemma ThreeByteChar(n: nat, rest: bytes)
    requires 0x800 <= n < 0xD800 || 0xE000 <= n < 0x1_0000
    ensures DecodeChar([0xE0 + n / 4096, 0x80 + n / 64 % 64, 0x80 + n % 64] + rest) == Some((n as char, 3))
  {
    var bs: bytes := [0xE0 + n / 4096, 0x80 + n / 64 % 64, 0x80 + n % 64] + rest;
    assert bs[0] == 0xE0 + n / 4096 && bs[1] == 0x80 + n / 64 % 64 && bs[2] == 0x80 + n % 64;
    assert Tail(bs, n / 4096, 1) == n / 64;
    assert Tail(bs, n / 64, 2) == n;
  }

  lemma FourByteChar(n: nat, rest: bytes)
    requires 0x1_0000 <= n < 0x11_0000
    ensures DecodeChar([0xF0 + n / 262144, 0x80 + n / 4096 % 64, 0x80 + n / 64 % 64, 0x80 + n % 64] + rest)
            == Some((n as char, 4))
  {
    var bs: bytes := [0xF0 + n / 262144, 0x80 + n / 4096 % 64, 0x80 + n / 64 % 64, 0x80 + n % 64] + rest;
    assert bs[0] == 0xF0 + n / 262144 && bs[1] == 0x80 + n / 4096 % 64;
    assert bs[2] == 0x80 + n / 64 % 64 && bs[3] == 0x80 + n % 64;
    assert Tail(bs, n / 262144, 1) == n / 4096;
    assert Tail(bs, n / 4096, 2) == n / 64;
    assert Tail(bs, n / 64, 3) == n;
  }

  lemma CharComesBack(c: char, rest: bytes)
    ensures DecodeChar(EncodeChar(c) + rest) == Some((c, |EncodeChar(c)|))
  {
    var n := c as int;
    if 0x1_0000 <= n {
      FourByteChar(n, rest);
    } else if 0x800 <= n {
      ThreeByteChar(n, rest);
    } else if 0x80 <= n {
      TwoByteChar(n, rest);
    }
  }

  lemma {:induction false} TextComesBack(s: string)
    ensures DecodeText(EncodeText(s)) == Some(s)
  {
    if s == "" {
    } else {
      CharComesBack(s[0], EncodeText(s[1..]));
      TextComesBack(s[1..]);
      var bs := EncodeText(s);
      assert bs[|EncodeChar(s[0])|..] == EncodeText(s[1..]);
      assert s == [s[0]] + s[1..];
    }
  }

  // ---------------------------------------------------------------- base64url

  function Digit(v: int): char
    requires 0 <= v < 64
  {
    if v < 26 then ('A' as int + v) as char
    else if v < 52 then ('a' as int + v - 26) as char
    else if v < 62 then ('0' as int + v - 52) as char
    else if v == 62 then '-' else '_'
  }

  /** Both alphabets are read; every other character has no value. */
  function ValueOf(c: char): (v: Option<nat>)
    ensures v.Some? ==> v.value < 64
  {
    if 'A' <= c <= 'Z' then Some(c as int - 'A' as int)
    else if 'a' <= c <= 'z' then Some(c as int - 'a' as int + 26)
    else if '0' <= c <= '9' then Some(c as int - '0' as int + 52)
    else if c == '-' || c == '+' then Some(62)
    else if c == '_' || c == '/' then Some(63)
    else None
  }

  /** The padded encoding. */
  function Encode64(bs: bytes): string {
    if bs == [] then ""
    else if |bs| == 1 then [Digit(bs[0] / 4), Digit(bs[0] % 4 * 16), '=', '=']
    else if |bs| == 2 then
      [Digit(bs[0] / 4), Digit(bs[0] % 4 * 16 + bs[1] / 16), Digit(bs[1] % 16 * 4), '=']
    else
      [Digit(bs[0] / 4), Digit(bs[0] % 4 * 16 + bs[1] / 16), Digit(bs[1] % 16 * 4 + bs[2] / 64), Digit(bs[2] % 64)]
      + Encode64(bs[3..])
  }

  /** rstrip("="). */
  function Unpad(s: string): string {
    if s != "" && s[|s| - 1] == '=' then Unpad(s[..|s| - 1]) else s
  }

  /** As many '=' as bring n characters to a multiple of four. */
  function Padding(n: nat): string {
    seq((4 - n % 4) % 4, _ => '=')
  }

  function B64Encode(s: string): string {
    Unpad(Encode64(EncodeText(s)))
  }

  /** The library's forgiving decoder: quad characters of the present group have been read, left holds
      the bits of the last one, pads the '=' since. Foreign characters are skipped; padding that
      completes a group ends the input; a group left open is an error. */
  function Decode64(s: string, quad: nat, left: nat, pads: nat): Option<bytes>
    requires quad < 4 && left < 64
    requires (quad == 2 ==> left < 16) && (quad == 3 ==> left < 4)
    decreases |s|
  {
    if s == "" then (if quad == 0 then Some([]) else None)
    else if s[0] == '=' then
      if quad >= 2 && quad + pads + 1 >= 4 then Some([])
      else Decode64(s[1..], quad, left, if quad >= 2 then pads + 1 else pads)
    else
      var v := ValueOf(s[0]);
      if v.None? then Decode64(s[1..], quad, left, pads)
      else if quad == 0 then Decode64(s[1..], 1, v.value, 0)
      else if quad == 1 then Cons(left * 4 + v.value / 16, Decode64(s[1..], 2, v.value % 16, 0))
      else if quad == 2 then Cons(left * 16 + v.value / 4, Decode64(s[1..], 3, v.value % 4, 0))
      else Cons(left * 64 + v.value, Decode64(s[1..], 0, 0, 0))
  }

  function Cons(b: byte, rest: Option<bytes>): Option<bytes> {
    if rest.None? then None else Some([b] + rest.value)
  }

  predicate IsAscii(s: string) {
    forall k :: 0 <= k < |s| ==> s[k] as int < 128
  }

  function B64Decode(s: string): Option<string> {
    var padded := s + Padding(|s|);
    if !IsAscii(padded) then None
    else
      var raw := Decode64(padded, 0, 0, 0);
      if raw.None? then None else DecodeText(raw.value)
  }

  predicate InAlphabet(c: char) {
    'A' <= c <= 'Z' || 'a' <= c <= 'z' || '0' <= c <= '9' || c == '-' || c == '_'
  }

  lemma DigitReads(v: nat)
    requires v < 64
    ensures ValueOf(Digit(v)) == Some(v) && InAlphabet(Digit(v))
  {
  }

  /** One digit of an encoding, at each of the four places of a group. */
  lemma DigitStep(v: nat, rest: string, left: nat)
    requires v < 64
    ensures Decode64([Digit(v)] + rest, 0, 0, 0) == Decode64(rest, 1, v, 0)
    ensures left < 64 ==>
      Decode64([Digit(v)] + rest, 1, left, 0) == Cons(left * 4 + v / 16, Decode64(rest, 2, v % 16, 0))
    ensures left < 16 ==>
      Decode64([Digit(v)] + rest, 2, left, 0) == Cons(left * 16 + v / 4, Decode64(rest, 3, v % 4, 0))
    ensures left < 4 ==> Decode64([Digit(v)] + rest, 3, left, 0) == Cons(left * 64 + v, Decode64(rest, 0, 0, 0))
  {
    DigitReads(v);
    assert ([Digit(v)] + rest)[1..] == rest;
  }

  lemma QuadBits(a: byte, b: byte, c: byte)
    ensures a % 4 * 16 + b / 16 < 64 && b % 16 * 4 + c / 64 < 64
    ensures (a / 4) * 4 + (a % 4 * 16 + b / 16) / 16 == a
    ensures (a % 4 * 16 + b / 16) % 16 * 16 + (b % 16 * 4 + c / 64) / 4 == b
    ensures (b % 16 * 4 + c / 64) % 4 * 64 + c % 64 == c
  {
  }

  lemma FourDigits(d0: nat, d1: nat, d2: nat, d3: nat, rest: string)
    requires d0 < 64 && d1 < 64 && d2 < 64 && d3 < 64
    ensures Decode64([Digit(d0), Digit(d1), Digit(d2), Digit(d3)] + rest, 0, 0, 0)
            == Cons(d0 * 4 + d1 / 16, Cons(d1 % 16 * 16 + d2 / 4, Cons(d2 % 4 * 64 + d3, Decode64(rest, 0, 0, 0))))
  {
    var e3 := [Digit(d3)] + rest;
    var e2 := [Digit(d2)] + e3;
    var e1 := [Digit(d1)] + e2;
    DigitStep(d3, rest, d2 % 4);
    DigitStep(d2, e3, d1 % 16);
    DigitStep(d1, e2, d0);
    DigitStep(d0, e1, 0);
    assert [Digit(d0), Digit(d1), Digit(d2), Digit(d3)] + rest == [Digit(d0)] + e1;
  }

  /** A full group: three bytes out of four digits. */
  lemma QuadComesBack(a: byte, b: byte, c: byte, rest: string)
    ensures
      var e := [Digit(a / 4), Digit(a % 4 * 16 + b / 16), Digit(b % 16 * 4 + c / 64), Digit(c % 64)] + rest;
      Decode64(e, 0, 0, 0) == Cons(a, Cons(b, Cons(c, Decode64(rest, 0, 0, 0))))
  {
    QuadBits(a, b, c);
    FourDigits(a / 4, a % 4 * 16 + b / 16, b % 16 * 4 + c / 64, c % 64, rest);
  }

  lemma OneByteComesBack(a: byte)
    ensures Decode64([Digit(a / 4), Digit(a % 4 * 16), '=', '='], 0, 0, 0) == Some([a])
  {
    var d0: nat, d1: nat := a / 4, a % 4 * 16;
    DigitStep(d0, [Digit(d1), '=', '='], 0);
    DigitStep(d1, ['=', '='], d0);
    assert [Digit(d0), Digit(d1), '=', '='] == [Digit(d0)] + [Digit(d1), '=', '='];
    assert [Digit(d1), '=', '='] == [Digit(d1)] + ['=', '='];
    assert ['=', '='][1..] == ['='];
    assert Decode64(['='], 2, d1 % 16, 1) == Some([]);
    assert Decode64(['=', '='], 2, d1 % 16, 0) == Some([]);
    assert [a] + [] == [a];
  }

  lemma TwoBytesComeBack(a: byte, b: byte)
    ensures Decode64([Digit(a / 4), Digit(a % 4 * 16 + b / 16), Digit(b % 16 * 4), '='], 0, 0, 0) == Some([a, b])
  {
    var d0: nat, d1: nat, d2: nat := a / 4, a % 4 * 16 + b / 16, b % 16 * 4;
    DigitStep(d0, [Digit(d1), Digit(d2), '='], 0);
    DigitStep(d1, [Digit(d2), '='], d0);
    DigitStep(d2, ['='], d1 % 16);
    assert d0 * 4 + d1 / 16 == a && d1 % 16 * 16 + d2 / 4 == b;
    assert [Digit(d0), Digit(d1), Digit(d2), '='] == [Digit(d0)] + [Digit(d1), Digit(d2), '='];
    assert [Digit(d1), Digit(d2), '='] == [Digit(d1)] + [Digit(d2), '='];
    assert [Digit(d2), '='] == [Digit(d2)] + ['='];
    assert Decode64(['='], 3, d2 % 4, 0) == Some([]);
    assert [a] + ([b] + []) == [a, b];
  }

  lemma {:induction false} Decode64Inverts(bs: bytes)
    ensures Decode64(Encode64(bs), 0, 0, 0) == Some(bs)
    decreases |bs|
  {
    if |bs| == 1 {
      OneByteComesBack(bs[0]);
      assert bs == [bs[0]];
    } else if |bs| == 2 {
      TwoBytesComeBack(bs[0], bs[1]);
      assert bs == [bs[0], bs[1]];
    } else if |bs| >= 3 {
      Decode64Inverts(bs[3..]);
      QuadComesBack(bs[0], bs[1], bs[2], Encode64(bs[3..]));
      assert bs == [bs[0]] + ([bs[1]] + ([bs[2]] + bs[3..]));
    }
  }

  lemma {:induction false} UnpadSnoc(s: string, pads: nat)
    requires s == "" || s[|s| - 1] != '='
    ensures Unpad(s + seq(pads, _ => '=')) == s
    decreases pads
  {
    var t := s + seq(pads, _ => '=');
    if pads == 0 {
      assert t == s;
    } else {
      assert t[..|t| - 1] == s + seq(pads - 1, _ => '=');
      UnpadSnoc(s, pads - 1);
    }
  }

  lemma PaddingDependsOnRemainder(m: nat, n: nat)
    requires m % 4 == n % 4
    ensures Padding(m) == Padding(n)
  {
  }

  /** The digits in front of the padding, from whose number the padding is found again. */
  lemma {:induction false} DigitsOf(bs: bytes) returns (digits: string)
    ensures Encode64(bs) == digits + Padding(|digits|)
    ensures forall k :: 0 <= k < |digits| ==> InAlphabet(digits[k])
    decreases |bs|
  {
    if |bs| == 0 {
      digits := "";
    } else if |bs| < 3 {
      digits := LastDigits(bs);
    } else {
      var rest := DigitsOf(bs[3..]);
      digits := PrependGroup(bs[0], bs[1], bs[2], rest);
    }
  }

  lemma PrependGroup(a: byte, b: byte, c: byte, rest: string) returns (digits: string)
    requires forall k :: 0 <= k < |rest| ==> InAlphabet(rest[k])
    ensures [Digit(a / 4), Digit(a % 4 * 16 + b / 16), Digit(b % 16 * 4 + c / 64), Digit(c % 64)]
            + (rest + Padding(|rest|)) == digits + Padding(|digits|)
    ensures forall k :: 0 <= k < |digits| ==> InAlphabet(digits[k])
  {
    var quad := GroupOf(a, b, c);
    digits := quad + rest;
    PaddingDependsOnRemainder(|digits|, |rest|);
    assert quad + (rest + Padding(|rest|)) == digits + Padding(|rest|);
  }

  lemma LastDigits(bs: bytes) returns (digits: string)
    requires 1 <= |bs| <= 2
    ensures Encode64(bs) == digits + Padding(|digits|)
    ensures forall k :: 0 <= k < |digits| ==> InAlphabet(digits[k])
  {
    if |bs| == 1 {
      var quad := GroupOf(bs[0], 0, 0);
      digits := quad[..2];
      assert Padding(2) == ['=', '='];
    } else {
      var quad := GroupOf(bs[0], bs[1], 0);
      digits := quad[..3];
      assert Padding(3) == ['='];
    }
  }

  lemma GroupOf(a: byte, b: byte, c: byte) returns (quad: string)
    ensures quad == [Digit(a / 4), Digit(a % 4 * 16 + b / 16), Digit(b % 16 * 4 + c / 64), Digit(c % 64)]
    ensures forall k :: 0 <= k < |quad| ==> InAlphabet(quad[k])
  {
    DigitReads(a / 4);
    DigitReads(a % 4 * 16 + b / 16);
    DigitReads(b % 16 * 4 + c / 64);
    DigitReads(c % 64);
    quad := [Digit(a / 4), Digit(a % 4 * 16 + b / 16), Digit(b % 16 * 4 + c / 64), Digit(c % 64)];
  }

  /** Stripping the padding leaves letters of the alphabet, and their number tells what was stripped. */
  lemma PaddingIsRestored(bs: bytes)
    ensures
      var digits := Unpad(Encode64(bs));
      && Encode64(bs) == digits + Padding(|digits|)
      && forall k :: 0 <= k < |digits| ==> InAlphabet(digits[k])
  {
    var digits := DigitsOf(bs);
    UnpadSnoc(digits, (4 - |digits| % 4) % 4);
    assert Padding(|digits|) == seq((4 - |digits| % 4) % 4, _ => '=');
  }

  /** Unpadded encoding loses nothing, whatever the length. */
  lemma B64RoundTrip(s: string)
    ensures B64Decode(B64Encode(s)) == Some(s)
    ensures forall k :: 0 <= k < |B64Encode(s)| ==> InAlphabet(B64Encode(s)[k])
  {
    var bs := EncodeText(s);
    var digits := Unpad(Encode64(bs));
    PaddingIsRestored(bs);
    Decode64Inverts(bs);
    TextComesBack(s);
    assert IsAscii(digits + Padding(|digits|));
  }

  // ---------------------------------------------------------------- the key

  /** str.isspace of one character. */
  predicate IsSpace(c: char) {
    var n := c as int;
    || 9 <= n <= 13 || 28 <= n <= 32 || n == 0x85 || n == 0xA0 || n == 0x1680
    || 0x2000 <= n <= 0x200A || n == 0x2028 || n == 0x2029 || n == 0x202F || n == 0x205F || n == 0x3000
  }

  function StripLeft(s: string): string {
    if s != "" && IsSpace(s[0]) then StripLeft(s[1..]) else s
  }

  function StripRight(s: string): string {
    if s != "" && IsSpace(s[|s| - 1]) then StripRight(s[..|s| - 1]) else s
  }

  function Strip(s: string): string {
    StripRight(StripLeft(s))
  }

  predicate EndsInSpace(s: string) {
    s != "" && IsSpace(s[|s| - 1])
  }

  predicate StartsWithSpace(s: string) {
    s != "" && IsSpace(s[0])
  }

  predicate AllSpace(s: string) {
    forall k :: 0 <= k < |s| ==> IsSpace(s[k])
  }

  /** Strip takes away white space at both ends and nothing else. */
  lemma StripTakesSpaces(s: string) returns (a: string, b: string)
    ensures s == a + Strip(s) + b && AllSpace(a) && AllSpace(b)
  {
    a := LeftSpaces(s);
    b := RightSpaces(StripLeft(s));
    assert a + (Strip(s) + b) == a + Strip(s) + b;
  }

  lemma {:induction false} LeftSpaces(s: string) returns (a: string)
    ensures s == a + StripLeft(s) && AllSpace(a)
  {
    if s == "" || !IsSpace(s[0]) {
      a := "";
    } else {
      var rest := LeftSpaces(s[1..]);
      a := [s[0]] + rest;
      assert s == [s[0]] + s[1..];
    }
  }

  lemma {:induction false} RightSpaces(s: string) returns (b: string)
    ensures s == StripRight(s) + b && AllSpace(b)
  {
    if s == "" || !IsSpace(s[|s| - 1]) {
      b := "";
    } else {
      var rest := RightSpaces(s[..|s| - 1]);
      b := rest + [s[|s| - 1]];
      assert s == s[..|s| - 1] + [s[|s| - 1]];
    }
  }

  lemma {:induction false} LeftSpacesGo(a: string, s: string)
    requires AllSpace(a)
    ensures StripLeft(a + s) == StripLeft(s)
  {
    if a == "" {
      assert a + s == s;
    } else {
      assert (a + s)[1..] == a[1..] + s;
      LeftSpacesGo(a[1..], s);
    }
  }

  lemma {:induction false} RightSpacesGo(s: string, b: string)
    requires AllSpace(b)
    ensures StripRight(s + b) == StripRight(s)
    decreases |b|
  {
    if b == "" {
      assert s + b == s;
    } else {
      assert (s + b)[..|s + b| - 1] == s + b[..|b| - 1];
      RightSpacesGo(s, b[..|b| - 1]);
    }
  }

  lemma {:induction false} LeftOfSpaced(s: string, b: string)
    requires AllSpace(b)
    ensures StripLeft(s + b) == StripLeft(s) + b || AllSpace(s + b)
  {
    if s == "" {
      assert s + b == b;
    } else if !IsSpace(s[0]) {
      assert (s + b)[0] == s[0];
    } else {
      assert (s + b)[1..] == s[1..] + b;
      LeftOfSpaced(s[1..], b);
    }
  }

  lemma {:induction false} SpacesVanish(s: string)
    requires AllSpace(s)
    ensures Strip(s) == ""
  {
    LeftSpacesGo(s, "");
    assert s + "" == s;
  }

  /** White space around a key makes no difference. */
  lemma SpacesAroundVanish(a: string, s: string, b: string)
    requires AllSpace(a) && AllSpace(b)
    ensures Strip(a + s + b) == Strip(s)
    ensures ParseNodeKey(a + s + b) == ParseNodeKey(s)
  {
    assert a + s + b == a + (s + b);
    LeftSpacesGo(a, s + b);
    LeftOfSpaced(s, b);
    if AllSpace(s + b) {
      assert forall k :: 0 <= k < |s| ==> (s + b)[k] == s[k];
      SpacesVanish(s + b);
      SpacesVanish(s);
    } else {
      RightSpacesGo(StripLeft(s), b);
    }
  }

  /** The characters str.strip takes away. */
  lemma SpacesAre(c: char)
    ensures IsSpace(c) <==>
      || c in "\t\n\U{0B}\U{0C}\r\U{1C}\U{1D}\U{1E}\U{1F} \U{85}\U{A0}\U{1680}"
      || c in "\U{2000}\U{2001}\U{2002}\U{2003}\U{2004}\U{2005}\U{2006}\U{2007}\U{2008}\U{2009}\U{200A}"
      || c in "\U{2028}\U{2029}\U{202F}\U{205F}\U{3000}"
  {
  }

  /** Test vectors of section 10 of RFC 4648, one with the two characters of the URL alphabet, and the forms
      of RFC 3629 of one character of each length. */
  lemma KnownEncodings()
    ensures Encode64(Ascii("f")) == "Zg==" && Encode64(Ascii("fo")) == "Zm8=" && Encode64(Ascii("foo")) == "Zm9v"
    ensures Encode64([0xFB, 0xFF]) == "-_8="
    ensures EncodeText("A") == [0x41] && EncodeText("\U{E9}") == [0xC3, 0xA9]
    ensures EncodeText("\U{20AC}") == [0xE2, 0x82, 0xAC] && EncodeText("\U{1F600}") == [0xF0, 0x9F, 0x98, 0x80]
  {
    assert Ascii("f") == [0x66] && Ascii("fo") == [0x66, 0x6F] && Ascii("foo") == [0x66, 0x6F, 0x6F];
    assert Encode64([]) == "" && EncodeText("") == [];
  }

  datatype KeyError = NoPrefix | NoDot | NoSecret | Unreadable | BadHost

  function BuildNodeKey(host: string, secret: string): string {
    PREFIX + B64Encode(host) + "." + secret
  }

  /** The index of the first dot, or the length. */
  function FirstDot(s: string): (k: nat)
    ensures k <= |s|
    ensures k < |s| ==> s[k] == '.'
    ensures forall j :: 0 <= j < k ==> s[j] != '.'
  {
    if s == "" || s[0] == '.' then 0 else 1 + FirstDot(s[1..])
  }

  function ParseNodeKey(raw: string): Result<(string, string), KeyError> {
    var key := Strip(raw);
    if PREFIX <= key then ParseBody(key[|PREFIX|..]) else Failure(NoPrefix)
  }

  /** The key behind its prefix. */
  function ParseBody(body: string): Result<(string, string), KeyError> {
    var dot := FirstDot(body);
    if dot == |body| then Failure(NoDot)
    else if dot + 1 == |body| then Failure(NoSecret)
    else
      var text := B64Decode(body[..dot]);
      if text.None? then Failure(Unreadable)
      else
        var host := Strip(text.value);
        if host == "" || '/' in host || ' ' in host then Failure(BadHost)
        else Success((host, body[dot + 1..]))
  }

  lemma {:induction false} StripRightKeepsFront(a: string, b: string)
    requires a != "" && !EndsInSpace(a)
    ensures StripRight(a + b) == a + StripRight(b)
    decreases |b|
  {
    if b == "" {
      assert a + b == a;
    } else if IsSpace(b[|b| - 1]) {
      assert (a + b)[..|a + b| - 1] == a + b[..|b| - 1];
      StripRightKeepsFront(a, b[..|b| - 1]);
    }
  }

  lemma {:induction false} StripRightIsPrefix(s: string)
    ensures StripRight(s) <= s && !EndsInSpace(StripRight(s))
    ensures StripRight(s) == s <==> !EndsInSpace(s)
  {
    if !EndsInSpace(s) {
    } else {
      StripRightIsPrefix(s[..|s| - 1]);
    }
  }

  lemma {:induction false} StripLeftIsSuffix(s: string)
    ensures |StripLeft(s)| <= |s| && !StartsWithSpace(StripLeft(s))
    ensures StripLeft(s) == s <==> !StartsWithSpace(s)
  {
    if !StartsWithSpace(s) {
    } else {
      StripLeftIsSuffix(s[1..]);
    }
  }

  lemma StripIsTrimmed(s: string)
    ensures !StartsWithSpace(Strip(s)) && !EndsInSpace(Strip(s))
    ensures Strip(s) == s <==> !StartsWithSpace(s) && !EndsInSpace(s)
  {
    StripLeftIsSuffix(s);
    StripRightIsPrefix(StripLeft(s));
    StripRightIsPrefix(s);
  }

  lemma StripOfBuilt(h: string, s: string)
    ensures Strip(BuildNodeKey(h, s)) == PREFIX + (B64Encode(h) + "." + StripRight(s))
  {
    var enc := B64Encode(h);
    var front := PREFIX + enc + ".";
    assert BuildNodeKey(h, s) == front + s;
    assert (front + s)[0] == 'r';
    StripRightKeepsFront(front, s);
    assert front + StripRight(s) == PREFIX + (enc + "." + StripRight(s));
  }

  lemma BodyOfBuilt(h: string, t: string)
    ensures ParseBody(B64Encode(h) + "." + t) ==
            if t == "" then Failure(NoSecret)
            else if Strip(h) == "" || '/' in Strip(h) || ' ' in Strip(h) then Failure(BadHost)
            else Success((Strip(h), t))
  {
    var enc := B64Encode(h);
    B64RoundTrip(h);
    DotSplits(enc, t);
    var body := enc + "." + t;
    assert body[..|enc|] == enc && body[|enc| + 1..] == t;
  }

  /** What parsing makes of any built key: spaces behind the secret and around the host are lost, and
      dots in the secret stay where they are. */
  lemma ParseOfBuilt(h: string, s: string)
    ensures ParseNodeKey(BuildNodeKey(h, s)) ==
            if StripRight(s) == "" then Failure(NoSecret)
            else if Strip(h) == "" || '/' in Strip(h) || ' ' in Strip(h) then Failure(BadHost)
            else Success((Strip(h), StripRight(s)))
  {
    StripOfBuilt(h, s);
    var body := B64Encode(h) + "." + StripRight(s);
    assert (PREFIX + body)[|PREFIX|..] == body;
    BodyOfBuilt(h, StripRight(s));
  }

  /** The first dot always separates host and secret. */
  lemma DotSplits(enc: string, s: string)
    requires forall k :: 0 <= k < |enc| ==> InAlphabet(enc[k])
    ensures FirstDot(enc + "." + s) == |enc|
  {
    var t := enc + "." + s;
    assert forall k :: 0 <= k < |enc| ==> t[k] == enc[k];
    assert t[|enc|] == '.';
  }

  /** A key is read back as what it was built from, if and only if the host is non-empty, trimmed and
      free of '/' and ' ', and the secret is non-empty and does not end in white space. */
  lemma RoundTripExactlyWhen(h: string, s: string)
    ensures ParseNodeKey(BuildNodeKey(h, s)) == Success((h, s))
       <==> && h != "" && !StartsWithSpace(h) && !EndsInSpace(h) && '/' !in h && ' ' !in h
            && s != "" && !EndsInSpace(s)
  {
    ParseOfBuilt(h, s);
    StripIsTrimmed(h);
    StripRightIsPrefix(s);
  }

  /** Which error comes when: the prefix first, then the dot, then the secret, then the host's encoding, and
      the host itself last. */
  lemma ErrorsExactly(raw: string, body: string)
    requires Strip(raw) == "rvg-" + body
    ensures ParseNodeKey(raw) == Failure(NoDot) <==> '.' !in body
    ensures '.' in body ==>
      var part, secret := body[..FirstDot(body)], body[FirstDot(body) + 1..];
      && '.' !in part && body == part + "." + secret
      && (ParseNodeKey(raw) == Failure(NoSecret) <==> secret == "")
      && (ParseNodeKey(raw) == Failure(Unreadable) <==> secret != "" && B64Decode(part).None?)
      && (secret != "" && B64Decode(part).Some? ==>
            var host := Strip(B64Decode(part).value);
            ParseNodeKey(raw) ==
              if host == "" || '/' in host || ' ' in host then Failure(BadHost) else Success((host, secret)))
  {
    var key := Strip(raw);
    assert key[4..] == body;
    if '.' in body {
      var k := FirstDot(body);
      assert body == body[..k] + "." + body[k + 1..];
    }
  }

  lemma OtherKeysHaveNoPrefix(raw: string)
    ensures ParseNodeKey(raw) == Failure(NoPrefix) <==> !("rvg-" <= Strip(raw))
  {
  }

  lemma AcceptedIsClean(raw: string, h: string, s: string)
    requires ParseNodeKey(raw) == Success((h, s))
    ensures h != "" && !StartsWithSpace(h) && !EndsInSpace(h) && '/' !in h && ' ' !in h
    ensures s != "" && !EndsInSpace(s)
  {
    var key := Strip(raw);
    StripIsTrimmed(raw);
    var body := key[|PREFIX|..];
    var dot := FirstDot(body);
    assert s == body[dot + 1..];
    assert s[|s| - 1] == key[|key| - 1];
    StripIsTrimmed(B64Decode(body[..dot]).value);
  }

  /** Whatever key is accepted, the host handed to the HTTP client is non-empty, trimmed and without
      '/' or ' ', the secret is non-empty, and the key built from the two is accepted again and means
      the same. */
  lemma AcceptedKeyIsCanonical(raw: string, h: string, s: string)
    requires ParseNodeKey(raw) == Success((h, s))
    ensures h != "" && !StartsWithSpace(h) && !EndsInSpace(h) && '/' !in h && ' ' !in h && s != ""
    ensures ParseNodeKey(BuildNodeKey(h, s)) == Success((h, s))
  {
    AcceptedIsClean(raw, h, s);
    RoundTripExactlyWhen(h, s);
  }
}
