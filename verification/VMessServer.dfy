/** A whole VMess request over a WebSocket (protocol/vmess/vmess.py:277-296 and 641-673,
    protocol/vmess/websocket.py): sealed header first, body reader behind it. */
module VMessServer {
  import opened Bytes
  import opened VMessCrypto
  import opened VMessHeader
  import AuthId
  import Kdf
  import VMessBody
  import WsStream

  const CMD_TCP: nat := 1
  const GCM_NONCE_SIZE: nat := 12

  const HDR_PAYLOAD_KEY: bytes := Ascii("VMess Header AEAD Key")
  const HDR_PAYLOAD_IV: bytes := Ascii("VMess Header AEAD Nonce")
  const HDR_LEN_KEY: bytes := Ascii("VMess Header AEAD Key_Length")
  const HDR_LEN_IV: bytes := Ascii("VMess Header AEAD Nonce_Length")

  /** The header cipher and nonce derived under a pair of labels. */
  function HeaderCipher(su: Suite, cmdKey: bytes, salt: bytes, authId: bytes, nonce: bytes): Cipher {
    Cipher(Aes128Gcm, Kdf.Kdf16(su.sha256, cmdKey, [salt, authId, nonce]))
  }

  function HeaderNonce(su: Suite, cmdKey: bytes, salt: bytes, authId: bytes, nonce: bytes): bytes {
    Take(Kdf.KdfValue(su.sha256, cmdKey, [salt, authId, nonce]), GCM_NONCE_SIZE)
  }

  /** Key and nonce are the first 16 and 12 bytes of the derived value: HMAC of the command key under the
      nonce, whose hash is HMAC under the authID, whose hash is HMAC under the label, whose hash is HMAC-SHA256
      under the fixed label. */
  lemma HeaderKeysAreHmacs(su: Suite, cmdKey: bytes, salt: bytes, authId: bytes, nonce: bytes)
    requires |salt| <= Kdf.BLOCK && |authId| <= Kdf.BLOCK && |nonce| <= Kdf.BLOCK
    ensures
      var f0 := (x: bytes) => Kdf.Nested(su.sha256, Kdf.PadsOf([]), x);
      var f1 := (x: bytes) => Kdf.Nested(su.sha256, Kdf.PadsOf([salt]), x);
      var f2 := (x: bytes) => Kdf.Nested(su.sha256, Kdf.PadsOf([salt, authId]), x);
      var value := Kdf.KdfValue(su.sha256, cmdKey, [salt, authId, nonce]);
      && Kdf.IsHmac(f2, nonce, cmdKey, value)
      && (forall x :: Kdf.IsHmac(f1, authId, x, f2(x)))
      && (forall x :: Kdf.IsHmac(f0, salt, x, f1(x)))
      && (forall x :: Kdf.IsHmac(su.sha256, Ascii("VMess AEAD KDF"), x, f0(x)))
      && HeaderCipher(su, cmdKey, salt, authId, nonce) == Cipher(Aes128Gcm, Take(value, 16))
      && HeaderNonce(su, cmdKey, salt, authId, nonce) == Take(value, 12)
  {
    Kdf.KdfIsNested(su.sha256, cmdKey, [salt, authId, nonce]);
    var H := su.sha256;
    assert [salt, authId] + [nonce] == [salt, authId, nonce];
    assert [salt] + [authId] == [salt, authId] && [] + [salt] == [salt];
    Kdf.NestedStep(H, [salt, authId], nonce, cmdKey);
    forall x: bytes
      ensures Kdf.IsHmac(y => Kdf.Nested(H, Kdf.PadsOf([salt]), y), authId, x,
                         Kdf.Nested(H, Kdf.PadsOf([salt, authId]), x))
      ensures Kdf.IsHmac(y => Kdf.Nested(H, Kdf.PadsOf([]), y), salt, x, Kdf.Nested(H, Kdf.PadsOf([salt]), x))
      ensures Kdf.IsHmac(H, Ascii("VMess AEAD KDF"), x, Kdf.Nested(H, Kdf.PadsOf([]), x))
    {
      Kdf.NestedStep(H, [salt], authId, x);
      Kdf.NestedStep(H, [], salt, x);
      Kdf.NestedIsHmac(H, Ascii("VMess AEAD KDF"), x);
    }
  }

  /** TransportClosed, VMessAuthError (also for a disconnect inside the sealed header), VMessError. */
  datatype DecodeError = Closed | AuthFailed | Protocol

  // ---------------------------------------------------------------------------------------
  // What decoding does, as a function of the unsplit client bytes.

  /** The number of sealed header bytes to come, out of the sealed length. */
  function SealedSize(su: Suite, cmdKey: bytes, authId: bytes, nonce: bytes, encLen: bytes): Option<nat> {
    var plain := su.open(HeaderCipher(su, cmdKey, HDR_LEN_KEY, authId, nonce),
                         HeaderNonce(su, cmdKey, HDR_LEN_IV, authId, nonce), encLen, authId);
    if plain.None? || |plain.value| != 2 then None else Some(FromBe16(plain.value) + TAG)
  }

  function OpenPayload(su: Suite, cmdKey: bytes, authId: bytes, nonce: bytes, enc: bytes): Option<bytes> {
    su.open(HeaderCipher(su, cmdKey, HDR_PAYLOAD_KEY, authId, nonce),
            HeaderNonce(su, cmdKey, HDR_PAYLOAD_IV, authId, nonce), enc, authId)
  }

  /** The opened header and the bytes behind it; None is VMessAuthError. */
  function OpenHeader(su: Suite, cmdKey: bytes, authId: bytes, rest: bytes): (r: Option<(bytes, bytes)>)
  {
    if |rest| < 26 then None
    else
      var nonce := rest[18..26];
      var n := SealedSize(su, cmdKey, authId, nonce, rest[..18]);
      if n.None? || |rest| < 26 + n.value then None
      else
        var payload := OpenPayload(su, cmdKey, authId, nonce, rest[26..26 + n.value]);
        if payload.None? then None else Some((payload.value, rest[26 + n.value..]))
  }

  /** The checks decode_request makes on a parsed header. */
  predicate Supported(q: Request) {
    && q.command == CMD_TCP
    && (q.security == SEC_AES128_GCM || q.security == SEC_CHACHA20_POLY1305)
    && !(VMessBody.Has(q.option, VMessBody.OPT_GLOBAL_PADDING) && VMessBody.Has(q.option, VMessBody.OPT_AUTH_LENGTH))
  }

  /** Command 1, security 3 or 4, and not both of the option bits 3 and 4. */
  lemma SupportedExactlyWhen(q: Request)
    ensures Supported(q) <==>
      q.command == 1 && q.security in {3, 4} && !(Bit(q.option, 3) == 1 && Bit(q.option, 4) == 1)
  {
    VMessBody.OptionBits(q.option);
  }

  /** What decoding does once the user of the authID is known. */
  function DecodeBehind(su: Suite, decode: bytes -> string, cmdKey: bytes, authId: bytes, rest: bytes)
    : (r: Result<(Request, bytes), DecodeError>)
    ensures r.Success? ==> Supported(r.value.0) && |r.value.0.bodyIv| == 16
  {
    var header := OpenHeader(su, cmdKey, authId, rest);
    if header.None? then Failure(AuthFailed)
    else
      var q := ParseHeader(decode, header.value.0);
      if q.None? || !Supported(q.value) then Failure(Protocol) else Success((q.value, header.value.1))
  }

  /** With an expected user neither the time window nor the replay filter is asked: the same bytes give
      the same request however often they come. */
  function Decode(su: Suite, decode: bytes -> string, cmdKey: bytes, rest: bytes)
    : (r: Result<(Request, bytes), DecodeError>)
    ensures r.Success? ==> Supported(r.value.0) && |r.value.0.bodyIv| == 16
  {
    if |rest| < 16 then Failure(Closed)
    else if su.authTime(cmdKey, rest[..16]).None? then Failure(AuthFailed)
    else DecodeBehind(su, decode, cmdKey, rest[..16], rest[16..])
  }

  /** Without an expected user, after the authIDs accepted so far; also which user it was. */
  function DecodeForAny(su: Suite, decode: bytes -> string, users: seq<AuthId.User>, accepted: seq<bytes>,
                        now: int, rest: bytes)
    : (r: Result<(Request, bytes), DecodeError>)
    ensures r.Success? ==> Supported(r.value.0) && |r.value.0.bodyIv| == 16
  {
    if |rest| < 16 then Failure(Closed)
    else
      match AuthId.MatchOf(su, users, accepted, rest[..16], now)
      case Matched(u) => DecodeBehind(su, decode, u.cmdKey, rest[..16], rest[16..])
      case _ => Failure(AuthFailed)
  }

  /** There the same handshake is refused while its authID is among the last 120 accepted. */
  lemma HandshakeIsRefusedAgain(su: Suite, decode: bytes -> string, users: seq<AuthId.User>, before: seq<bytes>,
                                more: seq<bytes>, now: int, rest: bytes)
    requires |rest| >= 16 && rest[..16] !in more && |more| < 120
    ensures DecodeForAny(su, decode, users, before + [rest[..16]] + more, now, rest) == Failure(AuthFailed)
  {
    if AuthId.FirstMatch(su, users, rest[..16], now).Some? {
      AuthId.RefusedExactlyWithinTheWindow(su, users, before, rest[..16], more, now);
    }
  }

  function ConfigOf(su: Suite, q: Request): VMessBody.Config
    requires Supported(q)
  {
    VMessBody.ConfigFor(su, q.bodyKey, q.bodyIv, q.security, q.option)
  }

  // ---------------------------------------------------------------------------------------
  // The client's side of the header.

  function SealLength(su: Suite, cmdKey: bytes, authId: bytes, nonce: bytes, n: u16): bytes {
    su.seal(HeaderCipher(su, cmdKey, HDR_LEN_KEY, authId, nonce),
            HeaderNonce(su, cmdKey, HDR_LEN_IV, authId, nonce), Be16(n), authId)
  }

  function SealPayload(su: Suite, cmdKey: bytes, authId: bytes, nonce: bytes, p: bytes): bytes {
    su.seal(HeaderCipher(su, cmdKey, HDR_PAYLOAD_KEY, authId, nonce),
            HeaderNonce(su, cmdKey, HDR_PAYLOAD_IV, authId, nonce), p, authId)
  }

  function SealHeader(su: Suite, cmdKey: bytes, authId: bytes, nonce: bytes, h: Header): bytes
    requires ValidHeader(h)
  {
    SealLength(su, cmdKey, authId, nonce, |Print(h)|) + nonce + SealPayload(su, cmdKey, authId, nonce, Print(h))
  }

  lemma OpensParts(su: Suite, cmdKey: bytes, authId: bytes, nonce: bytes, p: bytes)
    requires Lawful(su) && |p| < 0x1_0000
    ensures
      var encLen, enc := SealLength(su, cmdKey, authId, nonce, |p|), SealPayload(su, cmdKey, authId, nonce, p);
      && |encLen| == 18 && SealedSize(su, cmdKey, authId, nonce, encLen) == Some(|enc|)
      && OpenPayload(su, cmdKey, authId, nonce, enc) == Some(p)
  {
    Be16RoundTrip(|p|);
  }

  lemma OpensSealed(su: Suite, cmdKey: bytes, authId: bytes, nonce: bytes, h: Header, body: bytes)
    requires Lawful(su) && ValidHeader(h) && |nonce| == 8
    ensures OpenHeader(su, cmdKey, authId, SealHeader(su, cmdKey, authId, nonce, h) + body) == Some((Print(h), body))
  {
    var rest := SealHeader(su, cmdKey, authId, nonce, h) + body;
    var p := Print(h);
    var encLen, enc := SealLength(su, cmdKey, authId, nonce, |p|), SealPayload(su, cmdKey, authId, nonce, p);
    OpensParts(su, cmdKey, authId, nonce, p);
    HeaderParts(encLen, nonce, enc, body);
    assert rest == encLen + nonce + enc + body;
  }

  lemma HeaderParts(encLen: bytes, nonce: bytes, enc: bytes, body: bytes)
    requires |encLen| == 18 && |nonce| == 8
    ensures
      var rest, n := encLen + nonce + enc + body, |enc|;
      && |rest| >= 26 + n && rest[..18] == encLen && rest[18..26] == nonce
      && rest[26..26 + n] == enc && rest[26 + n..] == body
  {
    assert encLen + nonce + enc + body == encLen + nonce + (enc + body);
    Middle(encLen, nonce, enc + body);
    Middle(encLen + nonce, enc, body);
    assert (encLen + nonce + (enc + body))[..18] == encLen;
  }

  /** A sealed header is decoded field for field and leaves exactly the bytes behind it. */
  lemma DecodesClient(su: Suite, decode: bytes -> string, cmdKey: bytes, authId: bytes, nonce: bytes,
                      h: Header, body: bytes)
    requires Lawful(su) && ValidHeader(h) && |nonce| == 8 && |authId| == 16
    requires su.authTime(cmdKey, authId).Some? && Supported(RequestOf(decode, h))
    ensures Decode(su, decode, cmdKey, authId + SealHeader(su, cmdKey, authId, nonce, h) + body)
         == Success((RequestOf(decode, h), body))
  {
    var sealed := SealHeader(su, cmdKey, authId, nonce, h);
    var rest := authId + sealed + body;
    assert rest[..16] == authId;
    assert rest[16..] == sealed + body by { Middle(authId, sealed, body); }
    OpensSealed(su, cmdKey, authId, nonce, h, body);
    assert ParseHeader(decode, Print(h)) == Some(RequestOf(decode, h)) by {
      assert Print(h) + [] == Print(h);
      ParsesFields(decode, h, []);
    }
  }

  // ---------------------------------------------------------------------------------------
  // The server.

  method OpenAeadHeader(su: Suite, cmdKey: bytes, authId: bytes, stream: WsStream.Stream) returns (r: Option<bytes>)
    modifies stream
    ensures
      var header := OpenHeader(su, cmdKey, authId, old(stream.Rest()));
      && r.Some? == header.Some?
      && (r.Some? ==> r.value == header.value.0 && stream.Rest() == header.value.1)
    ensures WsStream.NonEmpty(old(stream.incoming)) ==> WsStream.NonEmpty(stream.incoming)
  {
    ghost var rest := stream.Rest();
    var encLen := stream.ReadExact(18);
    if encLen.None? {
      return None;
    }
    var nonce := stream.ReadExact(8);
    if nonce.None? {
      return None;
    }
    assert nonce.value == rest[18..26] && stream.Rest() == rest[26..] by {
      assert rest[18..][..8] == rest[18..26] && rest[18..][8..] == rest[26..];
    }
    var size := OpenLength(su, cmdKey, authId, nonce.value, encLen.value);
    if size.None? {
      return None;
    }
    var n := size.value;
    var enc := stream.ReadExact(n);
    if enc.None? {
      return None;
    }
    assert enc.value == rest[26..26 + n] && stream.Rest() == rest[26 + n..] by {
      assert rest[26..][..n] == rest[26..26 + n] && rest[26..][n..] == rest[26 + n..];
    }
    r := OpenSealedPayload(su, cmdKey, authId, nonce.value, enc.value);
  }

  /** The sealed length: key and nonce derived under their own labels, the authID as associated data. */
  method OpenLength(su: Suite, cmdKey: bytes, authId: bytes, nonce: bytes, encLen: bytes) returns (r: Option<nat>)
    ensures r == SealedSize(su, cmdKey, authId, nonce, encLen)
  {
    var key := Kdf.Kdf(su.sha256, cmdKey, [Ascii("VMess Header AEAD Key_Length"), authId, nonce]);
    var iv := Kdf.Kdf(su.sha256, cmdKey, [Ascii("VMess Header AEAD Nonce_Length"), authId, nonce]);
    var plain := su.open(Cipher(Aes128Gcm, Take(key, 16)), Take(iv, 12), encLen, authId);
    if plain.None? || |plain.value| != 2 {
      return None;
    }
    return Some(plain.value[0] as int * 256 + plain.value[1] as int + 16);
  }

  method OpenSealedPayload(su: Suite, cmdKey: bytes, authId: bytes, nonce: bytes, enc: bytes)
    returns (r: Option<bytes>)
    ensures r == OpenPayload(su, cmdKey, authId, nonce, enc)
  {
    var key := Kdf.Kdf(su.sha256, cmdKey, [Ascii("VMess Header AEAD Key"), authId, nonce]);
    var iv := Kdf.Kdf(su.sha256, cmdKey, [Ascii("VMess Header AEAD Nonce"), authId, nonce]);
    r := su.open(Cipher(Aes128Gcm, Take(key, 16)), Take(iv, 12), enc, authId);
  }

  /** Decodes the request whatever the message boundaries are; the reader then starts at the first
      byte behind the header, so nothing is lost or read twice at the seam. */
  method DecodeRequest(su: Suite, decode: bytes -> string, cmdKey: bytes, stream: WsStream.Stream)
    returns (r: Result<Request, DecodeError>, reader: VMessBody.BodyReader?)
    requires WsStream.NonEmpty(stream.incoming)
    modifies stream
    ensures Gives(su, Decode(su, decode, cmdKey, old(stream.Rest())), stream, r, reader)
    ensures reader != null ==>
      fresh(reader) && fresh(reader.payloadNonce) && fresh({reader.lenNonce, reader.shake} - {null})
  {
    var authId := stream.ReadExact(16);
    if authId.None? {
      return Failure(Closed), null;
    }
    if su.authTime(cmdKey, authId.value).None? {
      return Failure(AuthFailed), null;
    }
    r, reader := DecodeRest(su, decode, cmdKey, authId.value, stream);
  }

  /** What a decoded stream gives: an error, or the request and a reader at the first byte behind it. */
  ghost predicate Gives(su: Suite, d: Result<(Request, bytes), DecodeError>, stream: WsStream.Stream,
                        r: Result<Request, DecodeError>, reader: VMessBody.BodyReader?)
    requires d.Success? ==> Supported(d.value.0)
    reads reader, stream,
          if reader != null then {reader.payloadNonce, reader.lenNonce, reader.shake, reader.stream} else {}
  {
    match d
    case Failure(e) => r == Failure(e) && reader == null
    case Success((q, rest)) =>
      && r == Success(q) && reader != null && reader.Valid()
      && reader.stream == stream && reader.g == ConfigOf(su, q)
      && reader.State() == VMessBody.Reading(VMessBody.START, false, rest)
  }

  /** The part of decode_request that both branches share. */
  method DecodeRest(su: Suite, decode: bytes -> string, cmdKey: bytes, authId: bytes, stream: WsStream.Stream)
    returns (r: Result<Request, DecodeError>, reader: VMessBody.BodyReader?)
    requires WsStream.NonEmpty(stream.incoming)
    modifies stream
    ensures Gives(su, DecodeBehind(su, decode, cmdKey, authId, old(stream.Rest())), stream, r, reader)
    ensures reader != null ==>
      fresh(reader) && fresh(reader.payloadNonce) && fresh({reader.lenNonce, reader.shake} - {null})
  {
    var payload := OpenAeadHeader(su, cmdKey, authId, stream);
    if payload.None? {
      return Failure(AuthFailed), null;
    }
    var q := ParseHeader(decode, payload.value);
    if q.None? || q.value.command != 1 || (q.value.security != 3 && q.value.security != 4) {
      return Failure(Protocol), null;
    }
    if VMessBody.Has(q.value.option, 0x08) && VMessBody.Has(q.value.option, 0x10) {
      return Failure(Protocol), null;
    }
    r := Success(q.value);
    reader := new VMessBody.BodyReader(su, q.value.bodyKey, q.value.bodyIv, q.value.security, q.value.option, stream);
  }

  /** decode_request without an expected user: all registered users, the time window and the replay
      filter, which remembers the authID of a user it found even if the header is then refused. */
  method DecodeRequestForAny(decode: bytes -> string, validator: AuthId.Validator, now: int, stream: WsStream.Stream)
    returns (r: Result<Request, DecodeError>, reader: VMessBody.BodyReader?)
    requires WsStream.NonEmpty(stream.incoming) && validator.Valid()
    modifies stream, validator.replay
    ensures validator.Valid()
    ensures Gives(validator.su,
                  DecodeForAny(validator.su, decode, validator.users, old(validator.replay.accepted), now,
                               old(stream.Rest())),
                  stream, r, reader)
    ensures
      var rest := old(stream.Rest());
      validator.replay.accepted == old(validator.replay.accepted) +
        if |rest| >= 16
           && AuthId.MatchOf(validator.su, validator.users, old(validator.replay.accepted), rest[..16], now).Matched?
        then [rest[..16]] else []
  {
    var authId := stream.ReadExact(16);
    if authId.None? {
      assert validator.replay.accepted + [] == validator.replay.accepted;
      return Failure(Closed), null;
    }
    var answer := validator.Match(authId.value, now);
    if !answer.Matched? {
      return Failure(AuthFailed), null;
    }
    r, reader := DecodeRest(validator.su, decode, answer.user.cmdKey, authId.value, stream);
  }

  /** One connection's uplink: what reaches the target, as the tunnel forwards it up to a refusal or a
      break. */
  method ServeUplink(su: Suite, decode: bytes -> string, cmdKey: bytes, messages: seq<bytes>,
                     fates: seq<VMessBody.Fate>)
    returns (r: Result<Request, DecodeError>, out: bytes)
    requires Lawful(su) && WsStream.NonEmpty(messages)
    ensures
      match Decode(su, decode, cmdKey, Flatten(messages))
      case Failure(e) => r == Failure(e) && out == []
      case Success((q, rest)) =>
        var chunks := VMessBody.Drain(ConfigOf(su, q), VMessBody.Reading(VMessBody.START, false, rest)).chunks;
        r == Success(q) && out == Flatten(VMessBody.Through(chunks, fates))
  {
    var stream := new WsStream.Stream(messages);
    assert stream.Rest() == Flatten(messages);
    var reader: VMessBody.BodyReader?;
    r, reader := DecodeRequest(su, decode, cmdKey, stream);
    out := [];
    if reader != null {
      ghost var chunks;
      var end;
      out, chunks, end := reader.Forward(fates);
    }
  }

  /** End to end: a client's handshake followed by a wire of its payloads, cut into messages in any
      way, gives the request and hands the target exactly the payload bytes. */
  lemma UplinkDelivers(su: Suite, decode: bytes -> string, cmdKey: bytes, authId: bytes, nonce: bytes,
                       h: Header, payloads: seq<bytes>, eof: bool, w: bytes, messages: seq<bytes>)
    requires Lawful(su) && ValidHeader(h) && |nonce| == 8 && |authId| == 16
    requires su.authTime(cmdKey, authId).Some? && Supported(RequestOf(decode, h))
    requires WsStream.NonEmpty(payloads)
    requires VMessBody.IsWire(ConfigOf(su, RequestOf(decode, h)), VMessBody.START,
                              VMessBody.AllPieces(payloads) + if eof then [[]] else [], w)
    requires Flatten(messages) == authId + SealHeader(su, cmdKey, authId, nonce, h) + w
    ensures
      var q := RequestOf(decode, h);
      && Decode(su, decode, cmdKey, Flatten(messages)) == Success((q, w))
      && Flatten(VMessBody.Drain(ConfigOf(su, q), VMessBody.Reading(VMessBody.START, false, w)).chunks)
         == Flatten(payloads)
  {
    DecodesClient(su, decode, cmdKey, authId, nonce, h, w);
    VMessBody.PayloadsComeBack(ConfigOf(su, RequestOf(decode, h)), VMessBody.START, payloads, eof, w);
  }

  /** A whole uplink on both ends' objects: handshake and payloads as a client sends them, cut into
      messages in any way, reach the target as the payload bytes behind the request as printed. None is
      the writer's refusal of the options. */
  method UplinkFromEndToEnd(su: Suite, decode: bytes -> string, cmdKey: bytes, authId: bytes, nonce: bytes, h: Header,
                            payloads: seq<bytes>, rnd: (nat, nat, nat) -> byte, cut: bytes -> seq<bytes>)
    returns (r: Option<(Result<Request, DecodeError>, bytes)>)
    requires Lawful(su) && ValidHeader(h) && |nonce| == 8 && |authId| == 16
    requires su.authTime(cmdKey, authId).Some? && Supported(RequestOf(decode, h))
    requires WsStream.NonEmpty(payloads) && VMessBody.Cuts(cut)
    ensures
      var q := RequestOf(decode, h);
      r == if ConfigOf(su, q).Writable() then Some((Success(q), Flatten(payloads))) else None
  {
    var q := RequestOf(decode, h);
    var writer := new VMessBody.BodyWriter(su, q.bodyKey, q.bodyIv, q.security, q.option);
    var body := VMessBody.RespondAll(writer, payloads, rnd);
    if body.None? {
      return None;
    }
    var messages := cut(authId + SealHeader(su, cmdKey, authId, nonce, h) + body.value);
    UplinkDelivers(su, decode, cmdKey, authId, nonce, h, payloads, true, body.value, messages);
    ghost var chunks := VMessBody.Drain(ConfigOf(su, q), VMessBody.Reading(VMessBody.START, false, body.value)).chunks;
    VMessBody.AllThrough(chunks);
    var request, out := ServeUplink(su, decode, cmdKey, messages, []);
    r := Some((request, out));
  }
}
