/** Addresses in the SOCKS5 layout, as the Shadowsocks and Trojan servers read them
    (protocol/shadowsocks/shadowsocks.py:169-192, protocol/trojan/trojan.py:156-192). */
module SocksAddress {
  import opened Bytes
  import opened VMessHeader

  function PrintAddress(t: Target): (p: bytes)
    requires ValidTarget(t)
    ensures |p| >= 2
  {
    match t
    case IPv4(o) => [1] + o
    case Domain(n) => [3, |n|] + n
    case IPv6(g) => [4] + g
  }

  /** ATYP, address and port. */
  function PrintEndpoint(t: Target, port: u16): bytes
    requires ValidTarget(t)
  {
    PrintAddress(t) + Be16(port)
  }

  /** Types 1, 3 and 4, the address, and the port with its high byte first. */
  lemma EndpointLayout(t: Target, port: u16)
    requires ValidTarget(t)
    ensures
      var p := PrintEndpoint(t, port);
      var n := |p| - 2;
      && n > 0 && p[n] as int * 256 + p[n + 1] as int == port
      && match t
         case IPv4(o) => n == 5 && p[0] == 1 && p[1..5] == o
         case Domain(d) => n == 2 + |d| && p[0] == 3 && p[1] == |d| && p[2..n] == d
         case IPv6(g) => n == 17 && p[0] == 4 && p[1..17] == g
  {
    var p := PrintEndpoint(t, port);
    assert p[..|p| - 2] == PrintAddress(t) && p[|p| - 2..] == Be16(port);
  }

  // ---------------------------------------------------------------- Shadowsocks

  /** parse_socks5_addr: target, port, bytes used; None is any of its ValueErrors. */
  function ParseEndpoint(buf: bytes): (r: Option<(Target, u16, nat)>)
    ensures r.Some? ==> ValidTarget(r.value.0) && r.value.2 <= |buf|
  {
    if |buf| < 2 then None
    else if buf[0] == 1 then
      if |buf| < 7 then None
      else Some((IPv4(buf[1..5]), FromBe16(buf[5..7]), 7))
    else if buf[0] == 3 then
      var dlen: nat := buf[1];
      if |buf| < 2 + dlen + 2 then None
      else Some((Domain(buf[2..2 + dlen]), FromBe16(buf[2 + dlen..4 + dlen]), 4 + dlen))
    else if buf[0] == 4 then
      if |buf| < 19 then None
      else Some((IPv6(buf[1..17]), FromBe16(buf[17..19]), 19))
    else None
  }

  lemma ParsesEndpoint(t: Target, port: u16, extra: bytes)
    requires ValidTarget(t)
    ensures ParseEndpoint(PrintEndpoint(t, port) + extra) == Some((t, port, |PrintEndpoint(t, port)|))
  {
    var a := PrintAddress(t);
    var buf := PrintEndpoint(t, port) + extra;
    assert buf == a + Be16(port) + extra;
    Middle(a, Be16(port), extra);
    assert buf[..|a|] == a;
    assert buf[0] == a[0] && buf[1] == a[1];
    Be16RoundTrip(port);
    match t {
      case IPv4(o) =>
        assert buf[1..5] == buf[..|a|][1..] == o;
      case Domain(n) =>
        assert buf[2..2 + |n|] == buf[..|a|][2..] == n;
      case IPv6(g) =>
        assert buf[1..17] == buf[..|a|][1..] == g;
    }
  }

  /** Accepted exactly when a complete printed endpoint stands in front, whatever follows it. */
  lemma AcceptsExactlyEndpoints(buf: bytes)
    ensures ParseEndpoint(buf).Some? <==> exists t, port :: ValidTarget(t) && PrintEndpoint(t, port) <= buf
  {
    if ParseEndpoint(buf).Some? {
      AcceptedEndpointIsPrinted(buf);
    }
    if t: Target, port: u16 :| ValidTarget(t) && PrintEndpoint(t, port) <= buf {
      ParsesEndpoint(t, port, buf[|PrintEndpoint(t, port)|..]);
      assert buf == PrintEndpoint(t, port) + buf[|PrintEndpoint(t, port)|..];
    }
  }

  lemma AcceptedEndpointIsPrinted(buf: bytes)
    requires ParseEndpoint(buf).Some?
    ensures
      var (t, port, n) := ParseEndpoint(buf).value;
      PrintEndpoint(t, port) == buf[..n]
  {
    if buf[0] == 1 {
      FixedEndpointIsPrinted(buf, 5);
    } else if buf[0] == 3 {
      DomainEndpointIsPrinted(buf, buf[1]);
    } else {
      FixedEndpointIsPrinted(buf, 17);
    }
  }

  lemma PortIsPrinted(buf: bytes, end: nat)
    requires end + 2 <= |buf|
    ensures buf[..end] + Be16(FromBe16(buf[end..end + 2])) == buf[..end + 2]
  {
    assert Be16(FromBe16(buf[end..end + 2])) == buf[end..end + 2];
  }

  /** IPv4 and IPv6: a type and an address of fixed length. */
  lemma FixedEndpointIsPrinted(buf: bytes, end: nat)
    requires end + 2 <= |buf| && ((end == 5 && buf[0] == 1) || (end == 17 && buf[0] == 4))
    ensures
      var t := if end == 5 then IPv4(buf[1..5]) else IPv6(buf[1..17]);
      PrintEndpoint(t, FromBe16(buf[end..end + 2])) == buf[..end + 2]
  {
    assert [buf[0]] + buf[1..end] == buf[..end];
    PortIsPrinted(buf, end);
  }

  lemma DomainEndpointIsPrinted(buf: bytes, dlen: nat)
    requires 4 + dlen <= |buf| && buf[0] == 3 && buf[1] == dlen
    ensures PrintEndpoint(Domain(buf[2..2 + dlen]), FromBe16(buf[2 + dlen..4 + dlen])) == buf[..4 + dlen]
  {
    assert [buf[0], buf[1]] + buf[2..2 + dlen] == buf[..2 + dlen];
    PortIsPrinted(buf, 2 + dlen);
  }

  // ---------------------------------------------------------------- Trojan

  const CRLF: bytes := [13, 10]
  const TROJAN_HEADER_MIN: nat := 56 + 2 + 1 + 1 + 1 + 2 + 2

  /** decode("ascii", errors="ignore") */
  function AsciiText(b: bytes): string {
    if b == [] then ""
    else if b[0] < 128 then [b[0] as char] + AsciiText(b[1..])
    else AsciiText(b[1..])
  }

  lemma {:induction false} AsciiTextOf(s: string)
    requires forall k :: 0 <= k < |s| ==> s[k] as int < 128
    ensures AsciiText(Ascii(s)) == s
  {
    if s == "" {
    } else {
      assert Ascii(s)[1..] == Ascii(s[1..]);
      AsciiTextOf(s[1..]);
      assert s == [s[0]] + s[1..];
    }
  }

  /** A slice b[i:j], which stops at the end without complaint. */
  function Slice(b: bytes, i: nat, j: nat): (r: bytes)
    requires i <= j
    ensures |r| <= j - i
    ensures j <= |b| ==> r == b[i..j]
  {
    if j <= |b| then b[i..j] else if i <= |b| then b[i..] else []
  }

  datatype TrojanHeader = TrojanHeader(hash: bytes, command: byte, target: Target, port: u16)

  datatype TrojanRequest = TrojanRequest(pwHash: string, command: byte, address: string, port: u16, payload: bytes)

  predicate ValidTrojan(h: TrojanHeader) {
    |h.hash| == 56 && ValidTarget(h.target)
  }

  function PrintTrojan(h: TrojanHeader): bytes
    requires ValidTrojan(h)
  {
    h.hash + CRLF + [h.command] + PrintEndpoint(h.target, h.port) + CRLF
  }

  /** Where the port begins, read off the first bytes, or None for an unknown address type. */
  function PortAt(chunk: bytes): (r: Option<nat>)
    requires |chunk| >= 61
    ensures r.Some? ==> 61 <= r.value
  {
    if chunk[59] == 1 then Some(64)
    else if chunk[59] == 3 then (var dlen: nat := chunk[60]; Some(61 + dlen))
    else if chunk[59] == 4 then Some(76)
    else None
  }

  /** The target, from slices that may have stopped short. */
  function TargetFrom(chunk: bytes, end: nat): Target
    requires |chunk| >= 61 && 61 <= end
  {
    if chunk[59] == 1 then IPv4(Slice(chunk, 60, end))
    else if chunk[59] == 3 then Domain(Slice(chunk, 61, end))
    else IPv6(Slice(chunk, 60, end))
  }

  /** parse_trojan_header; None is its ValueErrors and the IndexError of a short IPv6 address. The slices
      do not complain when the chunk is short: that is left to the comparison with the last CRLF. */
  function ParseTrojan(decode: bytes -> string, chunk: bytes): (r: Option<TrojanRequest>)
  {
    if |chunk| < TROJAN_HEADER_MIN then None
    else if Slice(chunk, 56, 58) != CRLF then None
    else
      var end := PortAt(chunk);
      if end.None? then None
      else if Slice(chunk, end.value + 2, end.value + 4) != CRLF then None
      else
        EndIsInside(chunk, end.value);
        Some(TrojanRequest(AsciiText(chunk[..56]), chunk[58], Text(decode, TargetFrom(chunk, end.value)),
                           FromBe16(Slice(chunk, end.value, end.value + 2)), chunk[end.value + 4..]))
  }

  /** The comparison with the last CRLF alone keeps every read inside the chunk. */
  lemma EndIsInside(chunk: bytes, end: nat)
    requires |chunk| >= TROJAN_HEADER_MIN && PortAt(chunk) == Some(end)
    requires Slice(chunk, end + 2, end + 4) == CRLF
    ensures end + 4 <= |chunk| && ValidTarget(TargetFrom(chunk, end))
  {
    assert |Slice(chunk, end + 2, end + 4)| == 2;
  }

  lemma FrontFields(h: TrojanHeader, rest: bytes)
    requires ValidTrojan(h)
    ensures
      var c := h.hash + CRLF + [h.command] + rest;
      c[..56] == h.hash && c[56..58] == CRLF && c[58] == h.command && c[59..] == rest
  {
  }

  lemma TailFields(front: bytes, a: bytes, port: bytes, extra: bytes)
    requires |port| == 2
    ensures
      var c, end := front + (a + port + CRLF + extra), |front| + |a|;
      && c[|front|..end] == a && c[end..end + 2] == port && c[end + 2..end + 4] == CRLF && c[end + 4..] == extra
  {
    var c := front + (a + port + CRLF + extra);
    assert c == front + a + (port + CRLF + extra);
    Middle(front, a, port + CRLF + extra);
    assert c == (front + a) + port + (CRLF + extra);
    Middle(front + a, port, CRLF + extra);
    assert c == (front + a + port) + CRLF + extra;
    Middle(front + a + port, CRLF, extra);
  }

  lemma TrojanFields(h: TrojanHeader, extra: bytes)
    requires ValidTrojan(h)
    ensures
      var c := PrintTrojan(h) + extra;
      var end := 59 + |PrintAddress(h.target)|;
      && end + 4 == |PrintTrojan(h)| && c[..56] == h.hash && c[56..58] == CRLF && c[58] == h.command
      && c[59..end] == PrintAddress(h.target) && c[end..end + 2] == Be16(h.port)
      && c[end + 2..end + 4] == CRLF && c[end + 4..] == extra
  {
    var front := h.hash + CRLF + [h.command];
    var rest := PrintAddress(h.target) + Be16(h.port) + CRLF + extra;
    assert PrintTrojan(h) + extra == front + rest;
    FrontFields(h, rest);
    TailFields(front, PrintAddress(h.target), Be16(h.port), extra);
  }

  /** The hash, CR LF, the command, the endpoint, CR LF: 13 before 10 both times. */
  lemma TrojanLayout(h: TrojanHeader)
    requires ValidTrojan(h)
    ensures
      var p := PrintTrojan(h);
      var n := |p|;
      && n >= 63 && p[..56] == h.hash && p[56] == 13 && p[57] == 10 && p[58] == h.command
      && p[59..n - 2] == PrintEndpoint(h.target, h.port) && p[n - 2] == 13 && p[n - 1] == 10
  {
    TrojanFields(h, []);
    var p := PrintTrojan(h);
    assert p + [] == p;
    var front := h.hash + CRLF + [h.command];
    assert p == front + PrintEndpoint(h.target, h.port) + CRLF;
    Middle(front, PrintEndpoint(h.target, h.port), CRLF);
    assert p[56] == p[56..58][0] && p[57] == p[56..58][1];
  }

  lemma TargetOfPrinted(chunk: bytes, t: Target, end: nat)
    requires ValidTarget(t) && |chunk| >= 61 && end == 59 + |PrintAddress(t)| && end <= |chunk|
    requires chunk[59..end] == PrintAddress(t)
    ensures PortAt(chunk) == Some(end) && TargetFrom(chunk, end) == t
  {
    var a := PrintAddress(t);
    assert chunk[59] == chunk[59..end][0] == a[0] && chunk[60] == chunk[59..end][1] == a[1];
    match t {
      case IPv4(o) => assert chunk[60..end] == chunk[59..end][1..] == o;
      case Domain(n) => assert chunk[61..end] == chunk[59..end][2..] == n;
      case IPv6(g) => assert chunk[60..end] == chunk[59..end][1..] == g;
    }
  }

  /** A printed header is recovered field for field, and all that follows is payload. */
  lemma ParsesTrojan(decode: bytes -> string, h: TrojanHeader, payload: bytes)
    requires ValidTrojan(h)
    ensures ParseTrojan(decode, PrintTrojan(h) + payload)
         == Some(TrojanRequest(AsciiText(h.hash), h.command, Text(decode, h.target), h.port, payload))
    ensures Says(decode, ParseTrojan(decode, PrintTrojan(h) + payload).value.address, h.target)
  {
    TextSays(decode, h.target);
    var c := PrintTrojan(h) + payload;
    var end := 59 + |PrintAddress(h.target)|;
    TrojanFields(h, payload);
    TargetOfPrinted(c, h.target, end);
    Be16RoundTrip(h.port);
  }

  /** Two printed headers, whatever follows them, agree only if what follows agrees. */
  lemma PayloadIsDetermined(g: TrojanHeader, x: bytes, h: TrojanHeader, y: bytes)
    requires ValidTrojan(g) && ValidTrojan(h) && PrintTrojan(g) + x == PrintTrojan(h) + y
    ensures x == y
  {
    var decode := (b: bytes) => "";
    ParsesTrojan(decode, g, x);
    ParsesTrojan(decode, h, y);
  }

  lemma SixParts(c: bytes, end: nat)
    requires 61 <= end && end + 4 <= |c|
    ensures c == c[..56] + c[56..58] + [c[58]] + (c[59..end] + c[end..end + 2]) + c[end + 2..end + 4] + c[end + 4..]
  {
    assert c[..59] == c[..56] + c[56..58] + [c[58]];
    assert c[..end + 2] == c[..59] + (c[59..end] + c[end..end + 2]);
  }

  lemma TargetIsPrinted(c: bytes, end: nat)
    requires |c| >= TROJAN_HEADER_MIN && PortAt(c) == Some(end) && end + 4 <= |c|
    ensures ValidTarget(TargetFrom(c, end)) && PrintAddress(TargetFrom(c, end)) == c[59..end]
  {
    assert c[59..end][0] == c[59] && c[59..end][1] == c[60];
  }

  /** Conversely, every accepted chunk is a complete printed header followed by the payload. */
  lemma AcceptedTrojanIsPrinted(decode: bytes -> string, chunk: bytes) returns (h: TrojanHeader)
    requires ParseTrojan(decode, chunk).Some?
    ensures ValidTrojan(h) && chunk == PrintTrojan(h) + ParseTrojan(decode, chunk).value.payload
  {
    var end := PortAt(chunk).value;
    EndIsInside(chunk, end);
    TargetIsPrinted(chunk, end);
    h := TrojanHeader(chunk[..56], chunk[58], TargetFrom(chunk, end), FromBe16(chunk[end..end + 2]));
    assert Be16(h.port) == chunk[end..end + 2];
    SixParts(chunk, end);
    assert ParseTrojan(decode, chunk).value.payload == chunk[end + 4..];
  }

  /** A header cut short is never taken for another one. */
  lemma ShortTrojanIsRefused(decode: bytes -> string, h: TrojanHeader, n: nat)
    requires ValidTrojan(h) && n < |PrintTrojan(h)|
    ensures ParseTrojan(decode, PrintTrojan(h)[..n]).None?
  {
    var p := PrintTrojan(h);
    var cut := p[..n];
    if ParseTrojan(decode, cut).Some? {
      var rest := ParseTrojan(decode, cut).value.payload;
      var g := AcceptedTrojanIsPrinted(decode, cut);
      CutAgrees(p, n, PrintTrojan(g), rest);
      PayloadIsDetermined(g, rest + p[n..], h, []);
    }
  }

  lemma CutAgrees(p: bytes, n: nat, front: bytes, rest: bytes)
    requires n <= |p| && p[..n] == front + rest
    ensures front + (rest + p[n..]) == p + []
  {
    assert p == p[..n] + p[n..];
  }

  /** parse_trojan_header as it moves pos along the chunk. */
  method ParseTrojanHeader(decode: bytes -> string, chunk: bytes) returns (r: Option<TrojanRequest>)
    ensures r == ParseTrojan(decode, chunk)
  {
    if |chunk| < TROJAN_HEADER_MIN {
      return None;
    }
    var pos: nat := 56;
    var pwHash := AsciiText(chunk[..56]);
    if Slice(chunk, pos, pos + 2) != CRLF {
      return None;
    }
    pos := pos + 2;
    var command := chunk[pos];
    pos := pos + 1;
    var atyp := chunk[pos];
    pos := pos + 1;
    var target;
    if atyp == 1 {
      target := IPv4(Slice(chunk, pos, pos + 4));
      pos := pos + 4;
    } else if atyp == 3 {
      var dlen: nat := chunk[pos];
      pos := pos + 1;
      target := Domain(Slice(chunk, pos, pos + dlen));
      pos := pos + dlen;
    } else if atyp == 4 {
      target := IPv6(Slice(chunk, pos, pos + 16));
      pos := pos + 16;
    } else {
      return None;
    }
    var port := Slice(chunk, pos, pos + 2);
    pos := pos + 2;
    if Slice(chunk, pos, pos + 2) != CRLF {
      return None;
    }
    EndIsInside(chunk, pos - 2);
    assert target == TargetFrom(chunk, pos - 2);
    pos := pos + 2;
    return Some(TrojanRequest(pwHash, command, Text(decode, target), FromBe16(port), chunk[pos..]));
  }
}
