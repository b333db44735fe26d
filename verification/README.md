# A verified model of the proxy panel's codecs, meters and registries

The panel terminates VMess, VLESS, Trojan, Shadowsocks, MTProto and SOCKS5 connections in one asyncio
process. This project models the parts of it that carry state from one await to the next, or from one
byte to the next, and proves what they are for.

- **VMess** (`Kdf`, `VMessCrypto`, `VMessHeader`, `VMessBody`, `WsStream`, `AuthId`, `VMessServer`). Key derivation
  as the chain of objects it is, every link using one and the same object as inner and outer hash; the
  command header and its checksum; the chunked body with its two nonce counters and its mask stream; the
  buffer that turns WebSocket messages into a byte stream; the search for the user of a handshake; and the
  whole uplink from messages to target, with the refusals and breaks that end it.
- **XHTTP packet-up** (`PacketUp`). Numbered POSTs arrive in any order and interleave at awaits, also at
  the long one while the target is being dialled.
- **Metering** (`QuotaGate`, `SharedGate`, `ZeusPipe`). Several adaptive gates on one link, gates shared by
  concurrent handlers, and pipes that check before and count after an await, over all interleavings.
- **Shadowsocks** (`Shadowsocks`, `ShadowsocksKeys`, `SocksAddress`). The chunk stream whose decoder
  advances its nonce before it knows whether the chunk is complete; key derivation; addresses, which
  Trojan shares.
- **Registries and caches** (`DebouncedSave`, `MtprotoTable`, `TrojanCache`, `ReplayFilter`, `NodeKey`,
  `PortSync`, `PortRequests`, `ListenPorts`).

An object of the source is a class whose methods are proved against a function of its old state; what the
source promises is then proved about that function, over all inputs, runs or interleavings. Code between
two awaits is one step. Library cryptography is a record of functions with laws (for the VMess ciphers
the AEAD interface of section 2 of RFC 5116 with 16-byte tags; output lengths of HMAC-SHA1 and MD5 where keys are
derived from them), and a lemma exhibits an instance of each record. Nothing is assumed of SHA-256. Clocks,
randomness, sockets, binds, writes and process exits are inputs. The Shadowsocks cipher is also taken to
refuse a text sealed under another nonce, which is what makes its lost step visible.

## Where the code is not what one would expect

- `kdf` computes nested HMACs only for salts of at most one block. Above that, the object that digests the
  salt is also the new link's inner hash, and the salt's own bytes stay in front of the pad
  (`Kdf.LongSaltLeavesItsBytes`); the result agrees with the clean definition if and only if one of four
  pairs of messages is a collision of the hash (`Kdf.LongSaltAgreesOnlyByCollision`).
- `BodyWriter` fails when padding is asked for without masking and without authenticated lengths; the reader
  accepts those options and reads unpadded chunks.
- `_WsStream.fill` gives `b""`, which the reader takes for the end of the stream, also for an empty message
  that finds the buffer empty: `WsStream.Stream.Fill` states exactly when.
- A disconnect inside the sealed header is reported as an authentication error (`open_aead_header` wraps every
  exception), before it as a closed transport.
- The time window and the replay filter are asked only when no user is expected
  (`VMessServer.DecodeRequestForAny`); the tunnel always expects one (protocol/vmess/tunnel.py:85), and then
  `VMessServer.Decode` depends on the bytes alone: the same handshake is accepted again.
- The Shadowsocks decoder loses step with its nonce when a pass ends between a complete length block and the
  end of that chunk; `Shadowsocks.DecodesExactlyWhenSafe` is the exact condition on how the bytes arrive.
  Its encoder also accepts payloads the decoder refuses, exactly those above 0x3FFF bytes
  (`Shadowsocks.UnsplitDecodesExactlyWhen`); the relay does produce them, since it hands reads of up to 1 MiB
  to `encrypt_chunk` as they are (protocol/shadowsocks/websocket.py:79-87), and from 65536 bytes on the
  encoder raises.
- A failed save is logged and not repeated. `DebouncedSave.LastCallIsServedExactlyWhen` says when the last
  call's data reaches the file all the same.
- A dead MTProto process that is replaced before its watcher runs leaves its port marked as used, and it stays
  so for good (`MtprotoTable.LeftBehindForGood`); without such a replacement the used ports are exactly the
  table's (`MtprotoTable.UsedPortsAreTheTables`).
- The Trojan hash cache compares sizes only, so swapping one link for another leaves it stale
  (`TrojanCache.AgreesExactlyWhen`). On the XHTTP path nothing is asked behind the lookup, so a removed link's
  hash is accepted there exactly then (`TrojanCache.HashCache.ResolveForXhttp`).
- A reconciled TCP port keeps its old server when it passes from one link to another:
  `PortSync.EntriesAgreeExactlyWhen`.
- A request synchronizes only its own link on its new port: a link that is moved leaves its listener behind, and
  switching a link on or off touches no listener. `PortRequests.InStepExactlyWhen` says when the registries
  still are what the links need.
- A refused quota gate is shut for good, also the one packet-up handlers share, because an add never waits: nobody
  holds the links lock across an await (`SharedGate.OneAddAtATimeStaysShut`). That depends on it: if the lock
  could be held, so that several adds of a gate wait at once, a refused gate would stay shut if and only if none
  of its batches waits or the link has reached its limit (`SharedGate.ShutForGoodExactlyWhen`). In packet-up the
  gate is never flushed, so what is pending at the end is never counted.
- The comment in `_create_link_core` that another port is recorded when the requested one is taken does not
  describe the code: the requested port is insisted on. One PATCH that switches an MTProto link on and moves its
  port does not end on the port it accepted unless the start comes up there (`ListenPorts.PatchEndsOn`,
  `ListenPorts.MovedPortIsKeptExactlyWhen`); if the link had no port before, it can collide with another link
  (`ListenPorts.PatchIsSafeExactlyWhen`, reached from the empty table in `ListenPorts.CollisionIsReachable`);
  and so can a creation that waits for its MTProto process while another link is created on the same port
  (`ListenPorts.InterleavedCreates`, `ListenPorts.WaitingCreationCollides`).

## Model

| member | source | states |
|---|---|---|
| Bytes.XorIsBitwise | protocol/vmess/vmess.py:119-120 | bit i of the exclusive or is the sum modulo 2 of the two bits i, for every width and i below it; it stands behind the pads, the masked sizes (:503, :546) and the checksum (:326) |
| Kdf.GoSha256.Write | protocol/vmess/vmess.py:90-91 | appends to what the hash has absorbed |
| Kdf.GoSha256.Sum | protocol/vmess/vmess.py:93-94 | the digest behind a prefix, without touching the state |
| Kdf.GoHmac.First | protocol/vmess/vmess.py:111-124 | a first link owns two separate hashes; of a key of at most one block they have absorbed and keep the 64-byte pads of section 2 of RFC 2104, 0x36 inside and 0x5C outside, bit for bit, of a longer one those of its digest |
| Kdf.GoHmac.Over | protocol/vmess/vmess.py:111-124 | a further link over one shared object: the chain after it is `Extend` of the chain before, with the same pads of its salt, salts above one block included |
| Kdf.GoHmac.Write | protocol/vmess/vmess.py:126-127 | goes to the one innermost hash of the whole chain |
| Kdf.GoHmac.Sum | protocol/vmess/vmess.py:129-138 | the digest of the chain, and what the destructive pass leaves in the innermost hash |
| Kdf.GoHmac.Reset | protocol/vmess/vmess.py:140-153 | after a reset the chain has absorbed exactly its inner pads, on the marshalled path, the plain path and the path through the exception handler |
| Kdf.PadsAreRfc2104 | protocol/vmess/vmess.py:119-120 | behind the key the pads are 0x36 and 0x5C, inside it masking with these gives the key back, bit for bit |
| Kdf.PadIsDetermined | protocol/vmess/vmess.py:119-120 | no other bytes are such a pad |
| Kdf.DigestIsNested | protocol/vmess/vmess.py:108-153 | a digest taken through shared objects is the nested keyed hash defined without any object |
| Kdf.NestedIsHmac | protocol/vmess/vmess.py:108-153 | one link is HMAC as section 2 of RFC 2104 defines it, over any hash |
| Kdf.NestedStep | protocol/vmess/vmess.py:160-169 | each further salt is HMAC under that salt, with the function of the salts before it as the hash |
| Kdf.KdfIsNested | protocol/vmess/vmess.py:160-169 | for every key and every list of salts of at most 64 bytes the chain computes F_n of the key, where F_0 is HMAC under "VMess AEAD KDF" and F_n is HMAC under the n-th salt over F_(n-1), the pads being those of RFC 2104 |
| Kdf.Kdf | protocol/vmess/vmess.py:160-169 | the method on objects returns the value of the chain, hence the nested hash for short salts |
| Kdf.OneSaltIsClosedForm | protocol/vmess/vmess.py:176-195 | with one short salt the result is the closed form built from four plain hashes of bytes that are the RFC 2104 pads of label and salt |
| Kdf.LongSaltLeavesItsBytes | protocol/vmess/vmess.py:116-121 | what is computed instead for a longer salt |
| Kdf.LongSaltAgreesOnlyByCollision | protocol/vmess/vmess.py:116-121 | for every hash, key and longer salt: the result agrees with the clean definition if and only if one of four explicit pairs is a collision |
| VMessHeader.Fnv1a32 | protocol/vmess/vmess.py:323-328 | the loop, with its two literal constants, computes the recursive 32-bit FNV-1a of all bytes |
| VMessHeader.ChecksumOfOneMore | protocol/vmess/vmess.py:323-328 | a further byte is masked into the checksum, and only then comes the product; both constants by their values |
| VMessHeader.OneByteChangesTheChecksum | protocol/vmess/vmess.py:323-328 | at any place in any data: the checksum stays the same if and only if that byte does |
| VMessHeader.ParseTarget | protocol/vmess/vmess.py:349-378 | an accepted address is the printed form of the target, byte for byte, inside the payload |
| VMessHeader.ColonsDetermine | protocol/vmess/vmess.py:374-375 | different IPv6 addresses have different texts |
| VMessHeader.TextSays | protocol/vmess/vmess.py:357-376 | an IPv4 text split at its dots is four decimals without leading zeros whose i-th value is octet i; an IPv6 text split at its colons is eight groups of four hex digits whose i-th value is o[2i]·256+o[2i+1] |
| VMessHeader.TargetLayout | protocol/vmess/vmess.py:351-376 | type byte, length and address bytes of a printed target stand where the parser reads them |
| VMessHeader.FixedFields | protocol/vmess/vmess.py:337-351 | version, IV, key, token, option, padding length and security, command and port stand at the bytes the parser reads, each by its number |
| VMessHeader.ParsesPrinted | protocol/vmess/vmess.py:331-384 | every header printed in the layout is recovered field for field, whatever follows it, and the address text says the target in the sense of `TextSays` |
| VMessHeader.AcceptedIsPrinted | protocol/vmess/vmess.py:331-384 | every accepted payload is a printed header, checksum of all bytes before it included, and ignored bytes |
| VMessCrypto.BodyCipherOf | protocol/vmess/vmess.py:425-433 | security 3 is AES-128-GCM under the key itself, 4 is ChaCha20-Poly1305 under the digest of the key and the digest of that digest, and nothing else has a cipher |
| VMessCrypto.MakeBodyAead | protocol/vmess/vmess.py:425-433 | the choice made with the literal numbers computes it |
| VMessBody.OptionBits | protocol/vmess/vmess.py:444-448 | masking, padding and sealed lengths are bits 2, 3 and 4 of the option byte |
| VMessBody.NonceBytes | protocol/vmess/vmess.py:411-422 | a chunk nonce is the count modulo 65536, big-endian, and bytes 2 to 11 of the IV |
| VMessBody.NonceRepeats | protocol/vmess/vmess.py:411-422 | chunk nonces are equal if and only if their counts agree modulo 65536 |
| VMessBody.ChunkNonce.Next | protocol/vmess/vmess.py:419-422 | the nonce for the old count, however the buffer was overwritten before |
| VMessBody.ShakeStream.Next16 | protocol/vmess/vmess.py:399-402 | the two stream bytes at the old position |
| VMessBody.BodyWriter.Seal | protocol/vmess/vmess.py:534-552 | one chunk of the wire and all three counters advanced as the reader will; fails exactly for padding without a mask stream |
| VMessBody.SizeWordIsMasked | protocol/vmess/vmess.py:534-549 | the masked size word differs from length + tag + padding in exactly the bits of the mask, which are the stream bytes behind those of the padding, drawn first |
| VMessBody.ChunkLayout | protocol/vmess/vmess.py:534-552 | where in a one-chunk wire the size, the sealed payload and the padding stand, under which keys and nonces they are sealed, for all four kinds of framing |
| VMessBody.Pieces | protocol/vmess/vmess.py:554-560 | cutting a payload loses nothing and gives no empty piece for a non-empty payload |
| VMessBody.BodyWriter.WriteChunk | protocol/vmess/vmess.py:554-560 | a payload of any size becomes a wire of its pieces |
| VMessBody.BodyWriter.WriteEof | protocol/vmess/vmess.py:562-564 | a wire of one empty chunk |
| VMessBody.Respond | protocol/vmess/tunnel.py:145-164 | what the downlink loop sends up to the first refusal or break is one wire of all pieces, with the closing chunk if there was none; fails exactly when the writer is asked and fails |
| VMessBody.WireConcat | protocol/vmess/vmess.py:534-560 | wires written one after the other are a wire of all their chunks, counters included |
| VMessBody.BodyReader.Need | protocol/vmess/vmess.py:460-467 | succeeds if and only if the stream still has the bytes, and neither loses nor reorders any |
| VMessBody.BodyReader.Read | protocol/vmess/vmess.py:469-515 | one read is a function of the counters and the unread bytes, whatever messages cut them |
| VMessBody.BodyReader.ReadAuthenticatedChunk | protocol/vmess/vmess.py:474-492 | the branch with sealed lengths |
| VMessBody.BodyReader.ReadPlainChunk | protocol/vmess/vmess.py:494-515 | the branch with plain or masked lengths, padding drawn before the mask |
| VMessBody.SizesThatAreRead | protocol/vmess/vmess.py:494-515 | for every size word and padding: when it ends the body, when it is refused, and exactly when and where a chunk is opened |
| VMessBody.SealedSizesThatAreRead | protocol/vmess/vmess.py:474-492 | the same for a sealed length |
| VMessBody.BodyReader.Forward | protocol/vmess/tunnel.py:111-143 | the uplink loop forwards the chunks of the whole run in order, up to the first refusal, or behind the first break, and says which ended it |
| VMessBody.EofForever | protocol/vmess/vmess.py:471-472 | after the end every further read gives the end and changes nothing |
| VMessBody.PrefixDelivers | protocol/vmess/vmess.py:469-515 | from the first n bytes of any wire the reader delivers exactly the chunks wholly inside, then the end or an error as stated |
| VMessBody.RoundTrip | protocol/vmess/vmess.py:436-564 | every wire, of any number of chunks, is read back as its chunks up to the first empty one, then the end |
| VMessBody.PayloadsComeBack | protocol/vmess/vmess.py:436-564 | non-empty payloads of any size come back as the same bytes in the same order, with or without the closing chunk |
| VMessBody.TruncationIsSafe | protocol/vmess/vmess.py:460-515 | a cut wire delivers a prefix, in whole chunks, of what the uncut wire delivers |
| VMessBody.FromEndToEnd | protocol/vmess/vmess.py:436-564 | writer and reader as objects: for both securities and every option set, what is written, cut into messages in any way, is forwarded unchanged, or nothing is sent when the writer refuses the options |
| WsStream.Stream.More | protocol/vmess/websocket.py:24-32 | moves one message into the buffer and keeps the stream |
| WsStream.Stream.ReadExact | protocol/vmess/websocket.py:34-40 | the next n bytes of the concatenated messages, or closed exactly when fewer remain, nothing being lost |
| WsStream.Stream.Fill | protocol/vmess/websocket.py:42-48 | hands out the buffer or the next message in order; empty if and only if disconnected or an empty message finds the buffer empty |
| VMessServer.HeaderKeysAreHmacs | protocol/vmess/vmess.py:284-291 | key and nonce of a sealed header part are the first 16 and 12 bytes of three HMACs over the label's: under the part's salt, then the authID, then the connection nonce, in this order |
| VMessServer.OpenLength | protocol/vmess/vmess.py:284-288 | with the literal labels: the sealed length opens to its two-byte value |
| VMessServer.OpenSealedPayload | protocol/vmess/vmess.py:290-292 | the same for the header itself |
| VMessServer.OpensSealed | protocol/vmess/vmess.py:277-296 | a sealed header opens to the printed header and leaves exactly the bytes behind it |
| VMessServer.OpenAeadHeader | protocol/vmess/vmess.py:277-296 | on a message stream the same as on the unsplit bytes |
| VMessServer.SupportedExactlyWhen | protocol/vmess/vmess.py:665-670 | a header passes the checks if and only if its command is 1, its security 3 or 4, and not both padding (bit 3) and sealed lengths (bit 4) are asked for |
| VMessServer.DecodesClient | protocol/vmess/vmess.py:641-673 | a client's handshake is decoded field for field and the body begins right behind it |
| VMessServer.DecodeRequest | protocol/vmess/vmess.py:651-673 | with an expected user: request or error depend on the unsplit bytes alone; the reader starts at the first byte behind the header with fresh counters |
| VMessServer.DecodeRequestForAny | protocol/vmess/vmess.py:641-673 | without one: the same for the first registered user whose key and time fit, unless the authID is a replay; the filter remembers it even if the header is then refused |
| VMessServer.HandshakeIsRefusedAgain | protocol/vmess/vmess.py:656-659 | on that branch a handshake is refused while its authID is among the last 120 accepted |
| AuthId.FitsWithinTwoMinutes | protocol/vmess/vmess.py:618-623 | a user fits if and only if its key opens the authID to a time that is not negative and at most 120 seconds away, on either side |
| AuthId.FirstMatch | protocol/vmess/vmess.py:618-623 | a user whose key opens the authID within 120 seconds, none if and only if there is none |
| AuthId.Validator.Match | protocol/vmess/vmess.py:617-627 | the loop over the users with the filter asked once a user was found |
| AuthId.RefusedExactlyWithinTheWindow | protocol/vmess/vmess.py:617-627 | an accepted authID followed by others is a replay if and only if these are fewer than 120 |
| VMessServer.ServeUplink | protocol/vmess/tunnel.py:85-143 | over any split into non-empty messages the target gets what the unsplit stream contains, up to a refusal or break |
| VMessServer.UplinkDelivers | protocol/vmess/vmess.py:436-673 | handshake and body wire, cut anyhow, give the request and exactly the payload bytes |
| VMessServer.UplinkFromEndToEnd | protocol/vmess/vmess.py:277-673 | client and server objects together: for every header, key, option set, payloads and cutting into messages, the request is recovered and the target gets exactly the payloads |
| PacketUp.RunKeeps | protocol/vless/xhttshadpacketup.py:66-94 | the invariant over every interleaving of arrivals, dialling, publication and failures; what becomes of the connection is `FailedExactlyWhen`, of the session `OkExactlyWhen` |
| PacketUp.TargetIsInOrder | protocol/vless/xhttshadpacketup.py:66-94 | the target has received nothing, or the first payload and then bodies 1, 2, ... once each, without a gap, failures included |
| PacketUp.FailedExactlyWhen | protocol/vless/xhttp_core.py:193-217 | over every run: the connection has failed if and only if the dialled packet did not parse when the target was there, or a connect failure came while dialling or draining |
| PacketUp.OpensOnceConnected | protocol/vless/xhttp_core.py:358-379 | after a packet 0 that parses, the target and the publication, whatever else arrives or is lost around them, the session is open |
| PacketUp.OkExactlyWhen | protocol/vless/xhttshadpacketup.py:66-94 | over every run with distinct packets: the session is sound if and only if it was never lost, the connection has not failed and, once open, packets 1 to room+1 have not all arrived |
| PacketUp.EverythingIsDelivered | protocol/vless/xhttshadpacketup.py:82-94 | with conditions on the events alone: the target has received the first payload and the longest gapless run of bodies behind it, and the buffer holds the rest |
| PacketUp.NothingIsHeldBack | protocol/vless/xhttshadpacketup.py:82-94 | the buffer is exactly the arrived unwritten packets, and once 0..n have arrived and the writer is there, all are written (`EverythingIsDelivered` says of the events when that is) |
| PacketUp.BufferedWhileConnecting | protocol/vless/xhttshadpacketup.py:67-70 | while dialling, everything but packet 0 is buffered and nothing is lost |
| PacketUp.Session.Arrive | protocol/trojan/xhttshadpacketup.py:58-86 | the handler's step on the session |
| PacketUp.Session.Connect | protocol/vless/xhttp_core.py:193-217 | dialled and parsed: the payload is the next thing the target gets and the session drains; otherwise it has failed with nothing written |
| PacketUp.Session.Publish | protocol/vless/xhttp_core.py:358-379 | the writer becomes visible only then, and the backlog follows |
| PacketUp.Session.WriteBacklog | protocol/vless/xhttshadpacketup.py:87-92 | the loop pops the backlog in order, and loses one body if the transport is closing |
| PacketUp.Session.WriteFromOne | protocol/vless/xhttshadpacketup.py:72-79 | the same behind the first packet, counting in a local variable |
| QuotaGate.NextBatch | protocol/vless/vless.py:92-96 | the adapted batch stays between its limits |
| QuotaGate.RateIsWeighted | protocol/vless/vless.py:92-93 | the first measured rate is taken as it is, each later one moves the average by 0.3 of the difference |
| QuotaGate.BatchIsAQuarterSecond | protocol/vless/vless.py:94-95 | between its limits the batch is a quarter of a second at that rate, rounded down |
| QuotaGate.AddExactly | protocol/vless/vless.py:84-104 | an add asks the link if and only if the pending bytes reach the batch or a quarter of a second has passed; all fields before and after the answer, granted or refused |
| QuotaGate.FlushExactly | protocol/vless/vless.py:106-114 | the same for a flush |
| QuotaGate.RunKeeps | protocol/vless/vless.py:84-114 | in every interleaving each gate accounts for its bytes and used_bytes for the link's |
| QuotaGate.ForwardedIsBounded | protocol/vless/vless.py:84-114 | forwarded bytes are the counted, held or dropped ones, and at most (L-u0-1)+(k+1)(max-1)+C for k gates |
| QuotaGate.BoundIsAttained | protocol/vless/xhttp_core.py:126-156 | for every number of gates and every largest chunk, a limit and a run under a clock that never goes back that forwards exactly that many bytes: the bound cannot be improved |
| QuotaGate.FlushedCountIsExact | protocol/vless/vless.py:106-114 | after every flush, with no refusal, used_bytes has grown by exactly what was forwarded |
| QuotaGate.RefusedStaysRefused | protocol/trojan/trojan.py:87-116 | over every run a refused gate lets through and counts nothing more |
| QuotaGate.Link.CheckAndUse | protocol/vless/vless.py:147-157 | counts if and only if the link is up and below its limit |
| QuotaGate.AdaptiveGate.BeginAdd | protocol/vless/vless.py:84-104 | the fields after add() up to its await, and the batch it asks for |
| QuotaGate.AdaptiveGate.EndAdd | protocol/vless/vless.py:98-104 | the answer decides ok and the result |
| QuotaGate.AdaptiveGate.BeginFlush | protocol/vless/vless.py:106-110 | flush() up to its await; after a refusal nothing is asked |
| QuotaGate.AdaptiveGate.EndFlush | protocol/vless/vless.py:109-114 | flush() behind its await |
| QuotaGate.AddOnLink | protocol/vless/vless.py:84-157 | gate and link together take exactly the two steps of the interleaving model |
| SharedGate.OneAddIsQuotaGate | protocol/vless/vless.py:84-104 | with at most one add waiting, adds and answers are those of the gates of `QuotaGate` |
| SharedGate.RunKeeps | protocol/vless/xhttshadpacketup.py:55-61 | the same accounting for gates with up to m adds waiting at once, over every run |
| SharedGate.ForwardedIsBounded | protocol/vless/xhttshadpacketup.py:55-61 | over every run forwarded bytes are at most (L-u0-1)+(k·m+D+1)(max-1)+C, D being the number of refusals |
| SharedGate.ForwardedIsBoundedOnceDown | protocol/vless/xhttshadpacketup.py:55-61 | if a link that went down stays down the refusals cost nothing: each concurrent add costs as much as a gate of its own |
| SharedGate.ShutForGoodExactlyWhen | protocol/vless/xhttp_core.py:126-146 | a refused gate stays shut in every continuation if and only if no batch of it waits or the link has reached its limit |
| SharedGate.OneAddAtATimeStaysShut | protocol/trojan/xhttshadpacketup.py:46-53 | with one add at a time, as in the code, it always does |
| SharedGate.TwoAddsCanReopen | protocol/vless/xhttp_core.py:140-145 | a run from the start in which a second waiting add opens it again |
| ZeusPipe.UsageIsBounded | zeussocks5.py:89-109 | counted bytes and those between check and count stay below limit + 65536·K in every interleaving of at most K live pipes, and exactly the chunks whose drain failed are never counted |
| ZeusPipe.BoundIsAttained | zeussocks5.py:89-109 | for every limit of whole bytes and every K a run that counts limit + 65536·K - 1: the bound cannot be improved |
| ZeusPipe.ChunkExactly | zeussocks5.py:89-109 | a chunk goes through if and only if the pipe is not stopped and there is no limit (0) or it is not reached, and is counted once drained; for every limit |
| Shadowsocks.LeBytes | protocol/shadowsocks/shadowsocks.py:106-107 | byte i of a counter in any width is n / 256^i modulo 256 |
| Shadowsocks.NonceIsLittleEndian | protocol/shadowsocks/shadowsocks.py:106-107 | hence a nonce is the counter in twelve little-endian bytes |
| Shadowsocks.LeDetermines | protocol/shadowsocks/shadowsocks.py:106-108 | different counters give different nonces |
| Shadowsocks.CountedIsLawful | protocol/shadowsocks/shadowsocks.py:106-122 | a library cipher used with counter nonces is a lawful counted one |
| Shadowsocks.ChunkOfLibrary | protocol/shadowsocks/shadowsocks.py:110-122 | a chunk is the big-endian length and the payload, sealed by the library under the little-endian nonces n and n+1 |
| Shadowsocks.OpenOfLibrary | protocol/shadowsocks/shadowsocks.py:142-166 | a block is opened by the library under exactly that nonce |
| Shadowsocks.AeadStream.EncryptChunk | protocol/shadowsocks/shadowsocks.py:110-122 | salt once, then sealed length and payload under two consecutive nonces |
| Shadowsocks.AeadStream.EncryptAll | protocol/shadowsocks/shadowsocks.py:110-122 | the frames together are the salted wire of the payloads |
| Shadowsocks.AeadStream.EnsureDecKey | protocol/shadowsocks/shadowsocks.py:127-136 | takes the salt off the buffer once it is complete |
| Shadowsocks.AeadStream.TryDecryptChunks | protocol/shadowsocks/shadowsocks.py:138-166 | one pass over the buffer, errors and early stops included |
| Shadowsocks.AeadStream.TakeChunk | protocol/shadowsocks/shadowsocks.py:142-166 | one turn of its loop: nonce advanced before the need-more return, buffer untouched there |
| Shadowsocks.AlignedPass | protocol/shadowsocks/shadowsocks.py:138-166 | a pass over the first m bytes of a wire yields the whole chunks; stopping behind a full length block leaves the nonce one ahead |
| Shadowsocks.MisalignedPass | protocol/shadowsocks/shadowsocks.py:149-157 | the pass after such a stop |
| Shadowsocks.DecodesExactlyWhenSafe | protocol/shadowsocks/shadowsocks.py:81-166 | any split of salt and wire is decoded without error, then to exactly the payloads with equal counters, if and only if every pass stops inside the salt or with fewer than 18 bytes of the next chunk |
| Shadowsocks.AeadStream.FeedParts | protocol/shadowsocks/shadowsocks.py:124-166 | feeding and decoding fragment after fragment, up to the first error |
| Shadowsocks.FromEndToEnd | protocol/shadowsocks/shadowsocks.py:81-166 | two stream objects, over any fragmentation: the payloads come out if every pass stops safely, and an error otherwise |
| Shadowsocks.OversizeIsRefused | protocol/shadowsocks/shadowsocks.py:110-155 | one chunk the encoder accepts is decoded, and the decoder goes on, if and only if the payload has at most 0x3FFF bytes; else it raises |
| Shadowsocks.UnsplitDecodesExactlyWhen | protocol/shadowsocks/shadowsocks.py:110-155 | any frames the encoder gives, in one piece: all payloads come back if and only if none is longer, and otherwise those before the first that is |
| Shadowsocks.FramesAreTheWire | protocol/shadowsocks/shadowsocks.py:110-122 | the encoder's frames together are the wire |
| ShadowsocksKeys.HkdfSha1 | protocol/shadowsocks/shadowsocks.py:58-65 | the loop is the expansion of section 2.3 of RFC 5869 cut to length, and raises exactly above 5100 bytes |
| ShadowsocksKeys.DeriveKey | protocol/shadowsocks/shadowsocks.py:68-74 | the loop is the MD5 chain cut to length |
| ShadowsocksKeys.ExpansionsNest | protocol/shadowsocks/shadowsocks.py:58-65 | an output is determined by key, info and length, and shorter ones are exactly the beginnings of longer ones |
| ShadowsocksKeys.ChainsNest | protocol/shadowsocks/shadowsocks.py:68-74 | the same for password keys |
| SocksAddress.AcceptsExactlyEndpoints | protocol/shadowsocks/shadowsocks.py:169-192 | accepted if and only if a complete printed address and port stand in front |
| SocksAddress.ParsesEndpoint | protocol/shadowsocks/shadowsocks.py:169-192 | target, port and length are recovered whatever follows |
| SocksAddress.EndpointLayout | protocol/shadowsocks/shadowsocks.py:169-192 | type byte, address and big-endian port of a printed endpoint stand where the parser reads them |
| SocksAddress.EndIsInside | protocol/trojan/trojan.py:166-192 | slices that stop short are caught by the comparison with the last CRLF: all reads of an accepted chunk lie inside |
| SocksAddress.ParseTrojanHeader | protocol/trojan/trojan.py:156-192 | moving a position along the chunk computes the parser |
| SocksAddress.ParsesTrojan | protocol/trojan/trojan.py:156-192 | a printed header is recovered field for field, all that follows is payload, and the address text says the target octet by octet or group by group |
| SocksAddress.TrojanLayout | protocol/trojan/trojan.py:156-192 | hash, CR LF, command, endpoint and CR LF stand in this order, at these places |
| SocksAddress.AcceptedTrojanIsPrinted | protocol/trojan/trojan.py:156-192 | every accepted chunk is a complete printed header and its payload |
| SocksAddress.ShortTrojanIsRefused | protocol/trojan/trojan.py:161-190 | no proper beginning of a header is accepted |
| DebouncedSave.EveryCallIsSaved | main.py:219-238 | for every interleaving, once the saver rests, the file is at least as new as the data was at any given call |
| DebouncedSave.LastCallIsServed | main.py:219-238 | after the last call it comes to rest in at most six steps of its own, with at most two more snapshots |
| DebouncedSave.Quiesces | main.py:219-238 | how many steps and snapshots are left in each phase, and that it rests exactly when they are taken, whatever else happens in between and whether or not writes succeed |
| DebouncedSave.SavedExactlyWhenLanded | main.py:185-238 | with writes that fail or not, the runner's and others', in any interleaving: the file holds version v or newer if and only if it did, or a write of a snapshot that new succeeded |
| DebouncedSave.LastCallIsServedExactlyWhen | main.py:185-238 | the last call's data reaches the file if and only if it was there, or one of the runner's remaining writes or a direct save under way with that data succeeds, a stale one not counted |
| DebouncedSave.FailedWriteIsNotRepeated | main.py:206-207 | a run in which that fails |
| DebouncedSave.Saver.ScheduleSave | main.py:219-230 | schedule_save() up to its first await or its return |
| DebouncedSave.Saver.TakeSnapshot | main.py:185-204 | the data is copied when the lock is held |
| DebouncedSave.Saver.BeginDirectSave | main.py:185-202 | another save_state() with the lock: the data is copied |
| DebouncedSave.Saver.EndDirectSave | main.py:203-208 | its write ends |
| DebouncedSave.Saver.Finish | main.py:232-238 | the runner sleeps again or gives up the pending flag |
| MtprotoTable.RunKeeps | protocol/mtproto/mtproto_native.py:383-540 | in every interleaving the table's ports are distinct and used, no process stands in it twice, and a port being started on is unused |
| MtprotoTable.PortsAreDistinct | protocol/mtproto/mtproto_native.py:383-540 | the same from the empty table |
| MtprotoTable.LiveInstanceStays | protocol/mtproto/mtproto_native.py:512-540 | a live instance leaves only by its own stop or exit: the watcher of a process it replaced never removes it |
| MtprotoTable.UsedPortsAreTheTables | protocol/mtproto/mtproto_native.py:383-540 | over every run from the start: the used ports are exactly the table's if and only if no process ever came up for a uuid that still had an entry |
| MtprotoTable.StartExactly | protocol/mtproto/mtproto_native.py:396-510 | what a start does in each of its phases: kept back by a live instance, the port it may choose, the entry and used port when it comes up, both undone when not |
| MtprotoTable.EndExactly | protocol/mtproto/mtproto_native.py:512-540 | a stop takes the entry and its port away, a watcher only those of its own process |
| MtprotoTable.LeftBehindStep | protocol/mtproto/mtproto_native.py:493-523 | one step leaves behind exactly the replaced entry's port |
| MtprotoTable.LeftBehindForGood | protocol/mtproto/mtproto_native.py:246-258 | a port left behind stays so whatever happens |
| MtprotoTable.PortCanBeLeftBehind | protocol/mtproto/mtproto_native.py:493-523 | a run in which that happens |
| MtprotoTable.Table.AllocatePort | protocol/mtproto/mtproto_native.py:242-260 | never a used port; the preferred one if some attempt finds it free; otherwise the least free of the half-open range unless insisted |
| MtprotoTable.Table.Register | protocol/mtproto/mtproto_native.py:493-510 | the end of a start as a step of the interleaving model |
| MtprotoTable.Table.StopInstance | protocol/mtproto/mtproto_native.py:533-540 | a stop as a step |
| MtprotoTable.Table.ExitWatcher | protocol/mtproto/mtproto_native.py:512-523 | a watcher as a step: only its own process is removed |
| TrojanCache.HashCache.Rebuild | protocol/trojan/trojan.py:56-61 | the table inverts the hash on exactly the present keys |
| TrojanCache.HashCache.FindUuid | protocol/trojan/trojan.py:63-67 | the answer is a scan of the keys of the last rebuild, which happens if and only if the number of links differs |
| TrojanCache.AllowedExactlyWhen | main.py:840-850 | a link is allowed if and only if it is active, not expired, and has no limit or is below it |
| TrojanCache.HashCache.ResolveAndAuthorize | protocol/trojan/trojan.py:194-201 | with links that change between lookup and check: accepted are exactly the uuids of the table with that very hash that are present and allowed at the check |
| TrojanCache.HashCache.ResolveForXhttp | protocol/trojan/xhttp_core.py:174-179 | without a check: a removed uuid is accepted if and only if it was a link at the last rebuild and the number of links is the same |
| TrojanCache.AgreesExactlyWhen | protocol/trojan/trojan.py:63-67 | lookups agree with a scan of the present links for all hashes if and only if the number changed or the links are the same |
| TrojanCache.GrowingOrShrinkingIsNoticed | protocol/trojan/trojan.py:63-67 | they agree when links were only added or only removed |
| ReplayFilter.Filter.CheckAndAdd | protocol/vmess/vmess.py:254-262 | refused exactly when among the last `size` accepted items; set and list stay the same duplicate-free elements |
| ReplayFilter.AnswersAt | protocol/vmess/vmess.py:246-262 | the same for every call of every sequence |
| ReplayFilter.CheckAll | protocol/vmess/vmess.py:246-262 | the object gives those answers |
| ReplayFilter.WithinTheWindowNothingRepeats | protocol/vmess/vmess.py:246-262 | without overflow every item is accepted exactly once |
| NodeKey.B64RoundTrip | main.py:885-892 | unpadded base64url of any text, re-padded by its length, decodes to the text and holds no dot or space |
| NodeKey.KnownEncodings | main.py:885-892 | values of both alphabets and of all four UTF-8 lengths, as section 10 of RFC 4648 and section 7 of RFC 3629 have them |
| NodeKey.PaddingIsRestored | main.py:885-892 | the stripped padding is determined by what remains, for every length |
| NodeKey.DotSplits | main.py:905-907 | the first dot always separates host and secret |
| NodeKey.ParseOfBuilt | main.py:895-916 | what parsing makes of any built key, trimmed parts and errors included |
| NodeKey.SpacesAroundVanish | main.py:901 | white space on either side of a key changes nothing |
| NodeKey.SpacesAre | main.py:901 | which characters that is |
| NodeKey.OtherKeysHaveNoPrefix | main.py:902-903 | that refusal exactly when the trimmed key does not begin with `rvg-` |
| NodeKey.ErrorsExactly | main.py:901-916 | behind the prefix: which of the four errors is raised, exactly when, and the host and secret otherwise |
| NodeKey.RoundTripExactlyWhen | main.py:895-916 | a key is read back as built if and only if the host is non-empty, trimmed, without '/' and ' ', and the secret non-empty without trailing white space |
| NodeKey.AcceptedKeyIsCanonical | main.py:900-916 | whatever is accepted satisfies these checks, and the key built from it means the same |
| PortSync.WantsExactlyWhen | port_manager.py:216-226 | a link wants a listener if and only if it is active, served by this process, not MTProto, and on a port that is neither 0 nor the panel's |
| PortSync.NeededTcpIs | port_manager.py:217-231 | a port is needed by a raw server if and only if an active link wants it, and the last such link gives kind and uuid |
| PortSync.NeededHttpIs | port_manager.py:217-233 | the same for HTTP listeners |
| PortSync.Listeners.StartTcpPort | port_manager.py:120-147 | a registered port is left alone; otherwise it is registered or an error recorded |
| PortSync.Listeners.StartUvicornPort | port_manager.py:61-104 | the same, registration before the outcome is known included |
| PortSync.Listeners.SyncLink | port_manager.py:181-204 | one link's synchronization as a step: a start or stop on its present port only |
| PortSync.OneLinkIsServed | port_manager.py:181-204 | what one link's synchronization leaves in both registries, and that no other port changes |
| PortSync.ErrorIsLastOutcome | port_manager.py:61-147 | over every sequence of steps a port is on the error list exactly when the last attempt to bind it, in either kind, failed |
| PortSync.Listeners.SyncAll | port_manager.py:207-245 | both registries and the error table after a run, for every outcome of every bind |
| PortSync.SyncReachesTheNeed | port_manager.py:207-245 | if all comes up the registries hold exactly the needed ports, disjoint if and only if the needs are |
| PortSync.SecondRunChangesNothing | port_manager.py:207-245 | a second run changes nothing |
| PortSync.MissingPortsHaveErrors | port_manager.py:73-104 | every needed port has its listener or an error on record |
| PortSync.EntriesAgreeExactlyWhen | port_manager.py:120-124 | kind and uuid are the wanted ones on all ports if and only if no older server stands on one for something else |
| PortSync.DistinctPortsAreDisjoint | port_manager.py:216-231 | links with distinct ports, as `ListenPorts` keeps them, never want one port in both kinds |
| PortSync.EveryLinkIsServed | port_manager.py:207-245 | with distinct ports every link that wants one has a listener of its kind on it, none of the other, and a newly started server is for that link |
| PortSync.AnyInterleavingConverges | port_manager.py:61-160 | any interleaving of any number of reconciliations for one need ends with exactly the needed ports if and only if each was started or stopped as required |
| PortRequests.RunKeeps | port_manager.py:181-204 | over every run of requests, with any port an MTProto process comes up on, the listeners are those of links that had one when their port was last set, and those left behind |
| PortRequests.CreateExactly | port_manager.py:181-204 | a creation on a free port, or none, adds the link and starts the listener it wants; on a taken one nothing changes |
| PortRequests.MoveExactly | main.py:2042-2205 | a move starts the listener on the new port, leaves the one on the old port, and on a taken port changes only the activity |
| PortRequests.ToggleExactly | main.py:2042-2205 | switching a link on or off touches no listener |
| PortRequests.DeleteExactly | main.py:2238-2246 | a deletion stops the listeners of its port if and only if no active link is left on it |
| PortRequests.MtprotoAsInListenPorts | main.py:2058-2164 | a patched MTProto link gets the port and activity it gets in `ListenPorts` |
| PortRequests.MtprotoExactly | main.py:1882-1970 | an MTProto request touches its own link and no listener |
| PortRequests.InStepExactlyWhen | port_manager.py:181-245 | over every such run the registries are what the links need if and only if no listener is left behind since the last reconciliation and exactly the active links are lit |
| PortRequests.ReconcileIsSyncAll | port_manager.py:207-245 | the reconciliation of these runs is the one proved for sync_all |
| ListenPorts.FindFreeIsLeast | port_manager.py:277-285 | the least usable port of the half-open range, none if and only if there is none |
| ListenPorts.FindFreePort | port_manager.py:277-285 | the loop finds it |
| ListenPorts.AllocatedIsFresh | main.py:1815-1846 | 0, or neither the panel's port nor a link's nor a listener's |
| ListenPorts.AllocateExactly | main.py:1815-1846 | exactly which port is given: the requested one if nobody has it, 0 if none is needed, otherwise the least usable one, and failure in all other cases |
| ListenPorts.Panel.AllocateListenPort | main.py:1815-1846 | the allocation with its refusals |
| ListenPorts.CreateExactly | main.py:1870-1970 | the entry a creation adds, for both kinds of link and both outcomes of the start |
| ListenPorts.PatchTouchesItsLink | main.py:2042-2246 | patches and deletions change no other link |
| ListenPorts.PatchExactly | main.py:2042-2205 | port, MTProto port and activity of the patched link for every request, refusal and outcome of the start, and exactly which port it accepts |
| ListenPorts.Panel.StartInstance | protocol/mtproto/mtproto_native.py:383-510 | a start ends on the port its allocation gives, and only if the process comes up |
| ListenPorts.Panel.CreateLink | main.py:1870-1970 | the table and the status after a creation; a refused or failed one changes nothing |
| ListenPorts.Panel.UpdateLink | main.py:2042-2205 | the table after a patch, MTProto start and restart included; conflict exactly when the port is taken |
| ListenPorts.Panel.DeleteLink | main.py:2238-2246 | the table after a deletion |
| ListenPorts.RunKeepsDistinct | main.py:1815-2246 | over every run of requests one at a time, except patches that do collide, non-zero ports stay distinct and off the panel's |
| ListenPorts.PatchIsSafeExactlyWhen | main.py:2058-2164 | a patch keeps the ports distinct if and only if it does not switch on an MTProto link without a port, give it one, and have its process come up on another link's port |
| ListenPorts.PatchIsSafeForCertainExactlyWhen | main.py:2058-2164 | seen before the start: whatever it meets, if and only if no other link holds a port it may come up on |
| ListenPorts.CollisionIsReachable | main.py:2058-2164 | a run of six requests from the empty table that collides, every process starting on a free port |
| ListenPorts.PatchEndsOn | main.py:2058-2193 | a patch leaves the link on the port it accepted if and only if that is 0, no MTProto link is switched on, or that start fails or comes up there |
| ListenPorts.PatchKeepsItsPortExactlyWhen | main.py:2058-2193 | seen before the start: if and only if the accepted port is 0, no MTProto link is switched on, or it is the only port the start may end on |
| ListenPorts.MovedPortIsKeptExactlyWhen | main.py:2058-2193 | in a table of distinct ports and a range of three or more: unless the port is 0 or the old one, no MTProto link is switched on |
| ListenPorts.LateInsert | main.py:1882-1970 | a creation that waited for its process keeps the ports distinct if and only if its port is 0, the start failed, or no other link has the port by then |
| ListenPorts.InterleavedCreates | main.py:1882-1970 | two creations that both allocate first, MTProto or not: distinct if and only if the two ports differ or are 0 or one of the starts fails |
| ListenPorts.WaitingCreationCollides | main.py:1882-1970 | an MTProto creation that waits on a port and another creation on it meanwhile both succeed and collide |

## Left out

- SHA-256, MD5, SHA-1, SHA-224, SHAKE-128, AES-GCM and ChaCha20-Poly1305 themselves: functions with laws. That the hash of the Trojan cache is injective is assumed where the lemma says so.
- The clock: the block cipher and checksum inside `decode_auth_id` are the function `authTime`; metering and the authID's time window take times as inputs.
- `response_header_bytes`, UDP and mux commands, and the connection to the target between the two VMess loops.
- Kdf.KdfIsNested: for salts of at most 64 bytes, all the program uses; longer ones are covered by Kdf.LongSaltAgreesOnlyByCollision for one salt.
- VMessBody.BodyReader.Read: messages are taken to be non-empty; WsStream.Stream.Fill says what an empty one does.
- The library's lossy UTF-8 decoding of domains, which is a parameter.
- PacketUp.RunKeeps: no sequence number is used twice. A second packet 0 while the first is still dialling starts a second connection in the source; that is outside the model, as are the teardown of the session table and the idle reaper beyond the loss of the transport.
- QuotaGate.RunKeeps: every gate is used by one relay loop; SharedGate has the other case. Totals in `stats` and `hourly_traffic` are not tracked.
- SharedGate.RunKeeps: the shared gate is modelled on values, not as an object; its fields change as in QuotaGate.AdaptiveGate. More than one add at a time does not occur in the code.
- ZeusPipe.UsageIsBounded: one proxy lifetime and a fixed positive limit; the per-address connection counters are not modelled.
- Shadowsocks.AeadStream.EncryptAll: the relay's WebSocket framing of frames is not modelled.
- SocksAddress.ParseTrojanHeader: its several exceptions are one refusal.
- DebouncedSave.LastCallIsServedExactlyWhen: the runner is not cancelled; the contents of the file are a version number.
- MtprotoTable.Table.AllocatePort: time passes between attempts only as different answers of the bind.
- MtprotoTable.RunKeeps: the table's lock is one owner; the order in which waiters get it is arbitrary.
- NodeKey.B64RoundTrip: strings of lone surrogates, which have no UTF-8 form, are not strings of the model.
- PortSync.SyncAll: links do not change while it runs, and whether a port can be bound is asked once. Uvicorn's own shutdown is not modelled.
- PortRequests.InStepExactlyWhen: requests are served one at a time and every bind goes well; MTProto processes may come up on any port this process does not listen on; the kind and uuid a raw server is registered with are in PortSync only.
- ListenPorts.RunKeepsDistinct: the state file, backup import, the restart of MTProto processes at start-up and after an ad tag, and a start that finds its process still running are not requests of the model.
- Pages, dashboards, share links, core configuration, login, node aggregation, certificate handling, the updater and central services: user interface, case tables or thin logic over I/O.
