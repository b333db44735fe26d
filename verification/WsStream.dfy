/** The buffer that turns WebSocket messages into a byte stream (protocol/vmess/websocket.py:17-48). */
module WsStream {
  import opened Bytes

  predicate NonEmpty(messages: seq<bytes>) {
    forall i :: 0 <= i < |messages| ==> messages[i] != []
  }

  class Stream {
    /** Messages the peer has yet to deliver; after them the socket is disconnected. */
    var incoming: seq<bytes>
    var buf: bytes

    constructor (messages: seq<bytes>)
      ensures incoming == messages && buf == []
    {
      incoming, buf := messages, [];
    }

    /** Everything a reader can still be handed. */
    ghost function Rest(): bytes
      reads this
    {
      buf + Flatten(incoming)
    }

    method More() returns (ok: bool)
      modifies this
      ensures ok == (old(incoming) != [])
      ensures Rest() == old(Rest())
      ensures incoming == if ok then old(incoming)[1..] else []
      ensures buf == if ok then old(buf) + old(incoming)[0] else old(buf)
    {
      if incoming == [] {
        return false;
      }
      buf := buf + incoming[0];
      incoming := incoming[1..];
      return true;
    }

    /** The next n bytes of the stream, however the messages cut it, or TransportClosed when the
        peer leaves first. */
    method ReadExact(n: nat) returns (r: Option<bytes>)
      modifies this
      ensures r == if n <= |old(Rest())| then Some(old(Rest())[..n]) else None
      ensures Rest() == old(Rest())[if r.Some? then n else 0..]
      ensures NonEmpty(old(incoming)) ==> NonEmpty(incoming)
    {
      while |buf| < n
        invariant Rest() == old(Rest())
        invariant NonEmpty(old(incoming)) ==> NonEmpty(incoming)
        decreases |incoming|
      {
        var ok := More();
        if !ok {
          assert |Rest()| == |buf|;
          return None;
        }
      }
      r := Some(buf[..n]);
      assert old(Rest())[..n] == buf[..n];
      assert old(Rest())[n..] == buf[n..] + Flatten(incoming);
      buf := buf[n..];
    }

    /** Hands over what is buffered, or else the next message. The empty result, which the body
        reader takes for the end of the stream, appears at a disconnect and also for an empty
        message that finds the buffer empty. */
    method Fill() returns (out: bytes)
      modifies this
      ensures out + Rest() == old(Rest()) && buf == []
      ensures out == [] <==> old(buf) == [] && (old(incoming) == [] || old(incoming)[0] == [])
      ensures NonEmpty(old(incoming)) ==> NonEmpty(incoming)
    {
      if buf == [] {
        var ok := More();
        if !ok {
          return [];
        }
      }
      out := buf;
      buf := [];
      assert out + Rest() == old(Rest());
    }
  }
}
