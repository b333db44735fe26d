/** XHTTP packet-up (protocol/vless/xhttshadpacketup.py:66-94, protocol/trojan/xhttshadpacketup.py:58-86,
    protocol/vless/xhttp_core.py:193-217 and 358-379): numbered POST bodies, reassembled into one
    byte stream while handlers interleave at every await. The code between two awaits is a step. */
module PacketUp {
  import opened Bytes

  /** What the first packet's header parser yields: the payload behind it, or an exception. */
  type Parser = bytes -> Option<bytes>

  /** The session's way to a connected target. `Dialing` and `Flushing` are the two awaits inside
      _open_tcp_for_session; only at `Open` is sess["writer"] set. */
  datatype Conn = Idle | Dialing(body: bytes) | Flushing | Open | Failed

  datatype State = State(
    conn: Conn,
    seqBuf: map<int, bytes>,
    nextSeq: int,
    /** bytes handed to the target's transport */
    target: bytes,
    /** bodies among them, the first packet's payload not counted */
    written: nat,
    /** writes the transport still accepts before is_closing() turns true */
    room: nat,
    /** no handler has raised and the session was not torn down */
    ok: bool)

  datatype Event =
    /** a handler reaches its first step behind the quota gate */
    | Arrive(seqNo: int, body: bytes)
    /** the TCP connection is there: the first payload is written and drained */
    | Connected
    | ConnectFailed
    /** that drain has finished: the writer becomes visible and the backlog is written */
    | Publish
    /** the transport breaks, or another handler, the pump or the reaper tears the session down */
    | Lost

  function Start(room: nat): State {
    State(Idle, map[], 0, [], 0, room, true)
  }

  datatype Drained = Drained(seqBuf: map<int, bytes>, next: int, target: bytes, count: nat, room: nat, ok: bool)

  /** The loop that empties seq_buf in order; a closing transport loses the body just popped. */
  function Drain(seqBuf: map<int, bytes>, next: int, target: bytes, count: nat, room: nat): Drained
    decreases |seqBuf|
  {
    if next !in seqBuf then
      Drained(seqBuf, next, target, count, room, true)
    else if room == 0 then
      Drained(seqBuf - {next}, next, target, count, 0, false)
    else
      Drain(seqBuf - {next}, next + 1, target + seqBuf[next], count + 1, room - 1)
  }

  function Step(parse: Parser, s: State, e: Event): State {
    match e
    case Arrive(n, body) =>
      if body == [] || s.conn.Failed? then
        s
      else if !s.conn.Open? then
        if n == 0 && s.conn.Idle? then s.(conn := Dialing(body)) else s.(seqBuf := s.seqBuf[n := body])
      else if n != s.nextSeq then
        s.(seqBuf := s.seqBuf[n := body])
      else if s.room == 0 then
        s.(ok := false)
      else
        var d := Drain(s.seqBuf, n + 1, s.target + body, s.written + 1, s.room - 1);
        State(Open, d.seqBuf, d.next, d.target, d.count, d.room, s.ok && d.ok)
    case Connected =>
      if s.conn.Dialing? && parse(s.conn.body).Some? then
        s.(conn := Flushing, target := s.target + parse(s.conn.body).value)
      else if s.conn.Dialing? then
        s.(conn := Failed, ok := false)
      else
        s
    case ConnectFailed =>
      if s.conn.Dialing? || s.conn.Flushing? then s.(conn := Failed, ok := false) else s
    case Publish =>
      if s.conn.Flushing? then
        var d := Drain(s.seqBuf, 1, s.target, s.written, s.room);
        State(Open, d.seqBuf, if d.ok then d.next else s.nextSeq, d.target, d.count, d.room, s.ok && d.ok)
      else
        s
    case Lost =>
      s.(ok := false, room := if s.conn.Open? then 0 else s.room)
  }

  function Run(parse: Parser, room: nat, es: seq<Event>): State {
    if es == [] then Start(room) else Step(parse, Run(parse, room, es[..|es| - 1]), es[|es| - 1])
  }

  // ---------------------------------------------------------------------------------------
  // What must come out.

  /** The packets that arrived with a body. */
  function Arrived(es: seq<Event>): map<int, bytes> {
    if es == [] then map[]
    else
      var before, e := Arrived(es[..|es| - 1]), es[|es| - 1];
      if e.Arrive? && e.body != [] then before[e.seqNo := e.body] else before
  }

  /** No sequence number is used by two packets with a body. */
  predicate Distinct(es: seq<Event>) {
    es == [] ||
    var e := es[|es| - 1];
    Distinct(es[..|es| - 1]) && (e.Arrive? && e.body != [] ==> e.seqNo !in Arrived(es[..|es| - 1]))
  }

  /** Bodies 1..n in order. */
  function InOrder(a: map<int, bytes>, n: nat): bytes
    requires forall i :: 1 <= i <= n ==> i in a
  {
    if n == 0 then [] else InOrder(a, n - 1) + a[n]
  }

  predicate Has(a: map<int, bytes>, n: nat) {
    forall i :: 1 <= i <= n ==> i in a
  }

  function FirstPayload(parse: Parser, a: map<int, bytes>): bytes {
    if 0 in a && parse(a[0]).Some? then parse(a[0]).value else []
  }

  /** The arrived packets that are not among the first n. */
  function From(a: map<int, bytes>, n: int): map<int, bytes> {
    map i | i in a && !(0 <= i < n) :: a[i]
  }

  /** seq_buf is exactly what waits, and the next packet is never among it. */
  ghost predicate Backlog(s: State, a: map<int, bytes>) {
    && s.seqBuf == From(a, if s.conn.Open? then s.nextSeq else 1)
    && (s.conn.Open? ==> s.nextSeq == s.written + 1 && s.nextSeq !in s.seqBuf)
  }

  ghost predicate Inv(parse: Parser, s: State, a: map<int, bytes>) {
    && Has(a, s.written)
    && (s.conn.Idle? || s.conn.Dialing? ==> s.target == [])
    && (s.conn.Failed? ==> s.target == [] || s.target == FirstPayload(parse, a))
    && (s.conn.Flushing? || s.conn.Open? ==> s.target == FirstPayload(parse, a) + InOrder(a, s.written))
    && (!s.conn.Open? ==> s.written == 0)
    && (s.conn.Idle? <==> 0 !in a)
    && (s.conn.Dialing? ==> a[0] == s.conn.body)
    && (s.conn.Failed? ==> !s.ok)
    && (s.conn.Failed? || (s.conn.Open? && s.room == 0 && !s.ok) || Backlog(s, a))
  }

  lemma {:induction false} InOrderExtends(a: map<int, bytes>, n: int, body: bytes, w: nat)
    requires Has(a, w) && n !in a
    ensures Has(a[n := body], w) && InOrder(a[n := body], w) == InOrder(a, w)
  {
    if w == 0 {
    } else {
      InOrderExtends(a, n, body, w - 1);
    }
  }

  lemma {:induction false} DrainKeeps(a: map<int, bytes>, first: bytes, seqBuf: map<int, bytes>, target: bytes,
                                      count: nat, room: nat)
    requires Has(a, count) && seqBuf == From(a, count + 1) && target == first + InOrder(a, count)
    ensures
      var d := Drain(seqBuf, count + 1, target, count, room);
      && Has(a, d.count) && d.target == first + InOrder(a, d.count)
      && (d.ok ==> d.seqBuf == From(a, d.next) && d.next == d.count + 1 && d.next !in d.seqBuf)
      && (!d.ok ==> d.room == 0)
    decreases |seqBuf|
  {
    var n := count + 1;
    if n !in seqBuf || room <= 0 {
    } else {
      assert seqBuf - {n} == From(a, n + 1);
      assert InOrder(a, n) == InOrder(a, count) + a[n];
      assert target + seqBuf[n] == first + InOrder(a, n);
      DrainKeeps(a, first, seqBuf - {n}, target + seqBuf[n], n, room - 1);
    }
  }

  lemma InOrderArrivalKeeps(parse: Parser, s: State, a: map<int, bytes>, body: bytes)
    requires Inv(parse, s, a) && s.nextSeq !in a && body != [] && s.conn.Open?
    ensures Inv(parse, Step(parse, s, Arrive(s.nextSeq, body)), a[s.nextSeq := body])
  {
    var n := s.nextSeq;
    var b := a[n := body];
    InOrderExtends(a, n, body, s.written);
    if s.room > 0 {
      assert From(b, n + 1) == s.seqBuf;
      assert InOrder(b, n) == InOrder(b, s.written) + body;
      DrainKeeps(b, FirstPayload(parse, b), s.seqBuf, s.target + body, s.written + 1, s.room - 1);
    }
  }

  lemma ArriveKeeps(parse: Parser, s: State, a: map<int, bytes>, n: int, body: bytes)
    requires Inv(parse, s, a) && n !in a && body != []
    ensures Inv(parse, Step(parse, s, Arrive(n, body)), a[n := body])
  {
    if s.conn.Open? && n == s.nextSeq {
      InOrderArrivalKeeps(parse, s, a, body);
    } else {
      var b := a[n := body];
      InOrderExtends(a, n, body, s.written);
      if !s.conn.Failed? && Backlog(s, a) {
        var first := if s.conn.Open? then s.nextSeq else 1;
        assert From(b, first) == if 0 <= n < first then s.seqBuf else s.seqBuf[n := body];
      }
    }
  }

  lemma OtherKeeps(parse: Parser, s: State, a: map<int, bytes>, e: Event)
    requires Inv(parse, s, a) && !e.Arrive?
    ensures Inv(parse, Step(parse, s, e), a)
  {
    if e.Publish? && s.conn.Flushing? {
      DrainKeeps(a, FirstPayload(parse, a), s.seqBuf, s.target, 0, s.room);
    }
  }

  /** What every interleaving keeps. */
  lemma {:induction false} RunKeeps(parse: Parser, room: nat, es: seq<Event>)
    requires Distinct(es)
    ensures Inv(parse, Run(parse, room, es), Arrived(es))
  {
    if es == [] {
    } else {
      var front, e := es[..|es| - 1], es[|es| - 1];
      RunKeeps(parse, room, front);
      match e {
        case Arrive(n, body) =>
          if body != [] {
            ArriveKeeps(parse, Run(parse, room, front), Arrived(front), n, body);
          }
        case _ => OtherKeeps(parse, Run(parse, room, front), Arrived(front), e);
      }
    }
  }

  /** Safety, failures included: the target has received nothing, or the first packet's payload and
      then bodies 1, 2, ... without a gap, each once and in order. */
  lemma TargetIsInOrder(parse: Parser, room: nat, es: seq<Event>)
    requires Distinct(es)
    ensures
      var s, a := Run(parse, room, es), Arrived(es);
      Has(a, s.written) && (s.target == [] || s.target == FirstPayload(parse, a) + InOrder(a, s.written))
  {
    RunKeeps(parse, room, es);
    var s, a := Run(parse, room, es), Arrived(es);
    assert InOrder(a, 0) == [];
    if s.conn.Failed? {
      assert FirstPayload(parse, a) + [] == FirstPayload(parse, a);
    }
  }

  /** While nothing has failed, the buffer holds exactly the arrived packets not yet written, and as
      soon as packets 0 to n have arrived and the writer is there, they are all written. */
  lemma NothingIsHeldBack(parse: Parser, room: nat, es: seq<Event>, n: nat)
    requires Distinct(es)
    requires var s := Run(parse, room, es); s.ok && s.conn.Open?
    ensures
      var s, a := Run(parse, room, es), Arrived(es);
      && Has(a, s.written) && s.nextSeq == s.written + 1
      && s.target == FirstPayload(parse, a) + InOrder(a, s.written)
      && s.seqBuf == From(a, s.nextSeq)
      && ((forall i :: 0 <= i <= n ==> i in a) ==> n <= s.written)
  {
    RunKeeps(parse, room, es);
    var s, a := Run(parse, room, es), Arrived(es);
    assert s.nextSeq in a ==> s.nextSeq in From(a, s.nextSeq);
  }

  /** Before the writer is there nothing is lost either: everything but packet 0 is buffered. */
  lemma BufferedWhileConnecting(parse: Parser, room: nat, es: seq<Event>)
    requires Distinct(es)
    requires var s := Run(parse, room, es); !s.conn.Open? && !s.conn.Failed?
    ensures Run(parse, room, es).seqBuf == From(Arrived(es), 1)
  {
    RunKeeps(parse, room, es);
  }

  // ---------------------------------------------------------------------------------------
  // When the session opens, and when nothing goes wrong, told from the events.

  /** How far the connection is, from the events alone. */
  function ConnOf(parse: Parser, es: seq<Event>): Conn {
    if es == [] then Idle
    else
      var e := es[|es| - 1];
      match ConnOf(parse, es[..|es| - 1])
      case Idle => if e.Arrive? && e.seqNo == 0 && e.body != [] then Dialing(e.body) else Idle
      case Dialing(body) =>
        if e.Connected? then (if parse(body).Some? then Flushing else Failed)
        else if e.ConnectFailed? then Failed
        else Dialing(body)
      case Flushing => if e.Publish? then Open else if e.ConnectFailed? then Failed else Flushing
      case Open => Open
      case Failed => Failed
  }

  predicate WasLost(es: seq<Event>) {
    Lost in es
  }

  lemma {:induction false} ConnIs(parse: Parser, room: nat, es: seq<Event>)
    ensures Run(parse, room, es).conn == ConnOf(parse, es)
  {
    if es == [] {
    } else {
      ConnIs(parse, room, es[..|es| - 1]);
    }
  }

  /** The dialled packet does not parse when the target is there, or the connection breaks while it is
      dialled or the first payload drains. */
  predicate FailsAt(parse: Parser, es: seq<Event>, i: nat)
    requires i < |es|
  {
    var c := ConnOf(parse, es[..i]);
    || (c.Dialing? && es[i].Connected? && parse(c.body).None?)
    || ((c.Dialing? || c.Flushing?) && es[i].ConnectFailed?)
  }

  /** The connection has failed if and only if that happened. */
  lemma FailedExactlyWhen(parse: Parser, room: nat, es: seq<Event>)
    ensures Run(parse, room, es).conn.Failed? <==> exists i: nat :: i < |es| && FailsAt(parse, es, i)
  {
    ConnIs(parse, room, es);
    FailedOf(parse, es);
  }

  lemma {:induction false} FailedOf(parse: Parser, es: seq<Event>)
    ensures ConnOf(parse, es).Failed? <==> exists i: nat :: i < |es| && FailsAt(parse, es, i)
  {
    if es == [] {
    } else {
      var n := |es| - 1;
      var front := es[..n];
      FailedOf(parse, front);
      assert forall i: nat :: i < n ==> front[i] == es[i] && front[..i] == es[..i];
      if i: nat :| i < n && FailsAt(parse, front, i) {
        assert FailsAt(parse, es, i);
      }
      if i: nat :| i < |es| && FailsAt(parse, es, i) {
        assert i == n || FailsAt(parse, front, i);
      }
      assert ConnOf(parse, es).Failed? <==> ConnOf(parse, front).Failed? || FailsAt(parse, es, n);
    }
  }

  lemma {:induction false} OpenStays(parse: Parser, es: seq<Event>, more: seq<Event>)
    requires ConnOf(parse, es).Open?
    ensures ConnOf(parse, es + more).Open?
    decreases |more|
  {
    if more == [] {
      assert es + more == es;
    } else {
      assert (es + more)[..|es + more| - 1] == es + more[..|more| - 1];
      OpenStays(parse, es, more[..|more| - 1]);
    }
  }

  predicate Calm(es: seq<Event>) {
    forall e :: e in es ==> !e.ConnectFailed?
  }

  lemma {:induction false} StaysIdle(parse: Parser, es: seq<Event>)
    requires forall e :: e in es ==> !(e.Arrive? && e.seqNo == 0 && e.body != [])
    ensures ConnOf(parse, es) == Idle
  {
    if es == [] {
    } else {
      StaysIdle(parse, es[..|es| - 1]);
    }
  }

  lemma {:induction false} StaysDialing(parse: Parser, es: seq<Event>, more: seq<Event>, body: bytes)
    requires ConnOf(parse, es) == Dialing(body) && Calm(more) && forall e :: e in more ==> !e.Connected?
    ensures ConnOf(parse, es + more) == Dialing(body)
    decreases |more|
  {
    if more == [] {
      assert es + more == es;
    } else {
      assert (es + more)[..|es + more| - 1] == es + more[..|more| - 1];
      StaysDialing(parse, es, more[..|more| - 1], body);
    }
  }

  lemma {:induction false} StaysFlushing(parse: Parser, es: seq<Event>, more: seq<Event>)
    requires ConnOf(parse, es).Flushing? && Calm(more) && forall e :: e in more ==> !e.Publish?
    ensures ConnOf(parse, es + more).Flushing?
    decreases |more|
  {
    if more == [] {
      assert es + more == es;
    } else {
      assert (es + more)[..|es + more| - 1] == es + more[..|more| - 1];
      StaysFlushing(parse, es, more[..|more| - 1]);
    }
  }

  lemma ConnSnoc(parse: Parser, es: seq<Event>, e: Event)
    ensures ConnOf(parse, es + [e]) ==
            match ConnOf(parse, es)
            case Idle => if e.Arrive? && e.seqNo == 0 && e.body != [] then Dialing(e.body) else Idle
            case Dialing(body) =>
              if e.Connected? then (if parse(body).Some? then Flushing else Failed)
              else if e.ConnectFailed? then Failed
              else Dialing(body)
            case Flushing => if e.Publish? then Open else if e.ConnectFailed? then Failed else Flushing
            case Open => Open
            case Failed => Failed
  {
    assert (es + [e])[..|es|] == es;
  }

  /** Packet 0 with a header that parses, then the target, then the end of the drain, with any other
      packets before, between and behind them: the session is open. */
  lemma OpensOnceConnected(parse: Parser, room: nat, a: seq<Event>, body: bytes, b: seq<Event>, c: seq<Event>,
                           d: seq<Event>)
    requires body != [] && parse(body).Some?
    requires forall e :: e in a ==> !(e.Arrive? && e.seqNo == 0 && e.body != [])
    requires Calm(b) && (forall e :: e in b ==> !e.Connected?)
    requires Calm(c) && (forall e :: e in c ==> !e.Publish?)
    ensures Run(parse, room, a + [Arrive(0, body)] + b + [Connected] + c + [Publish] + d).conn.Open?
  {
    var e1 := a + [Arrive(0, body)];
    var e2 := e1 + b + [Connected];
    var e3 := e2 + c + [Publish];
    StaysIdle(parse, a);
    ConnSnoc(parse, a, Arrive(0, body));
    StaysDialing(parse, e1, b, body);
    ConnSnoc(parse, e1 + b, Connected);
    StaysFlushing(parse, e2, c);
    ConnSnoc(parse, e2 + c, Publish);
    OpenStays(parse, e3, d);
    ConnIs(parse, room, e3 + d);
  }

  /** While the transport has not been lost, its room and the bodies written are together what it had. */
  lemma {:induction false} DrainUsesRoom(seqBuf: map<int, bytes>, next: int, target: bytes, count: nat, room: nat)
    ensures
      var d := Drain(seqBuf, next, target, count, room);
      d.count + d.room == count + room && (!d.ok ==> d.room == 0)
    decreases |seqBuf|
  {
    if next !in seqBuf || room == 0 {
    } else {
      DrainUsesRoom(seqBuf - {next}, next + 1, target + seqBuf[next], count + 1, room - 1);
    }
  }

  /** A drain fails only at a body for which there is no room. */
  lemma {:induction false} DrainFails(seqBuf: map<int, bytes>, next: int, target: bytes, count: nat, room: nat,
                                      a: map<int, bytes>)
    requires (forall i :: i in seqBuf ==> i in a) && next == count + 1 && Has(a, count)
    ensures
      var d := Drain(seqBuf, next, target, count, room);
      !d.ok ==> Has(a, d.count + 1)
    decreases |seqBuf|
  {
    if next !in seqBuf || room == 0 {
    } else {
      DrainFails(seqBuf - {next}, next + 1, target + seqBuf[next], count + 1, room - 1, a);
    }
  }

  predicate RoomInv(room: nat, s: State, a: map<int, bytes>) {
    && s.written + s.room == room
    && (!s.ok ==> s.conn.Failed? || (s.conn.Open? && Has(a, room + 1)))
  }

  lemma RoomStep(parse: Parser, room: nat, s: State, a: map<int, bytes>, e: Event, b: map<int, bytes>)
    requires Inv(parse, s, a) && RoomInv(room, s, a) && !e.Lost?
    requires b == if e.Arrive? && e.body != [] then a[e.seqNo := e.body] else a
    ensures RoomInv(room, Step(parse, s, e), b)
  {
    if e.Arrive? && e.body != [] && s.conn.Open? && e.seqNo == s.nextSeq && s.room > 0 {
      DrainUsesRoom(s.seqBuf, e.seqNo + 1, s.target + e.body, s.written + 1, s.room - 1);
      if s.ok {
        DrainFails(s.seqBuf, e.seqNo + 1, s.target + e.body, s.written + 1, s.room - 1, b);
      }
    } else if e.Publish? && s.conn.Flushing? {
      DrainUsesRoom(s.seqBuf, 1, s.target, s.written, s.room);
      DrainFails(s.seqBuf, 1, s.target, 0, s.room, b);
    }
  }

  lemma {:induction false} RunUsesRoom(parse: Parser, room: nat, es: seq<Event>)
    requires Distinct(es) && !WasLost(es)
    ensures RoomInv(room, Run(parse, room, es), Arrived(es))
  {
    if es == [] {
    } else {
      var front, e := es[..|es| - 1], es[|es| - 1];
      assert es == front + [e];
      RunUsesRoom(parse, room, front);
      RunKeeps(parse, room, front);
      RoomStep(parse, room, Run(parse, room, front), Arrived(front), e, Arrived(es));
    }
  }

  lemma {:induction false} LostIsNotOk(parse: Parser, room: nat, es: seq<Event>)
    requires WasLost(es)
    ensures !Run(parse, room, es).ok
  {
    assert es == es[..|es| - 1] + [es[|es| - 1]];
    if es[|es| - 1].Lost? {
    } else {
      LostIsNotOk(parse, room, es[..|es| - 1]);
    }
  }

  /** Nothing has gone wrong, if and only if the transport was not lost, the connection did not fail, and
      the session, if it is open, has room for all bodies that have come without a gap. */
  lemma OkExactlyWhen(parse: Parser, room: nat, es: seq<Event>)
    requires Distinct(es)
    ensures Run(parse, room, es).ok <==>
      && !WasLost(es) && !ConnOf(parse, es).Failed?
      && (ConnOf(parse, es).Open? ==> !Has(Arrived(es), room + 1))
  {
    var s, a := Run(parse, room, es), Arrived(es);
    ConnIs(parse, room, es);
    RunKeeps(parse, room, es);
    if WasLost(es) {
      LostIsNotOk(parse, room, es);
    } else {
      RunUsesRoom(parse, room, es);
      if s.ok && s.conn.Open? {
        assert s.nextSeq in a ==> s.nextSeq in From(a, s.nextSeq);
        assert s.written + 1 !in a && s.written <= room;
      }
    }
  }

  /** Liveness, from the events alone: a session that opened, was not lost, and has room for what came
      without a gap, has written the first payload and all these bodies, in order, up to the first that is
      missing. */
  lemma EverythingIsDelivered(parse: Parser, room: nat, es: seq<Event>)
    requires Distinct(es) && !WasLost(es) && ConnOf(parse, es).Open? && !Has(Arrived(es), room + 1)
    ensures
      var s, a := Run(parse, room, es), Arrived(es);
      && 0 in a && parse(a[0]).Some?
      && Has(a, s.written) && s.written + 1 !in a
      && s.target == parse(a[0]).value + InOrder(a, s.written)
      && s.seqBuf == From(a, s.written + 1)
  {
    var s, a := Run(parse, room, es), Arrived(es);
    OkExactlyWhen(parse, room, es);
    ConnIs(parse, room, es);
    NothingIsHeldBack(parse, room, es, 0);
    RunKeeps(parse, room, es);
    OpenParsed(parse, es);
    assert s.nextSeq in a ==> s.nextSeq in From(a, s.nextSeq);
  }

  lemma {:induction false} OpenParsed(parse: Parser, es: seq<Event>)
    requires Distinct(es)
    ensures
      var c, a := ConnOf(parse, es), Arrived(es);
      && (c.Dialing? ==> 0 in a && a[0] == c.body)
      && (c.Flushing? || c.Open? ==> 0 in a && parse(a[0]).Some?)
      && (c.Idle? ==> 0 !in a)
      && (!c.Idle? ==> 0 in a)
  {
    if es == [] {
    } else {
      OpenParsed(parse, es[..|es| - 1]);
    }
  }

  // ---------------------------------------------------------------------------------------
  // The handler's steps on the session dictionary.

  class Session {
    var conn: Conn
    var seqBuf: map<int, bytes>
    var nextSeq: int
    var target: bytes
    var room: nat
    ghost var written: nat
    var ok: bool

    ghost function Now(): State
      reads this
    {
      State(conn, seqBuf, nextSeq, target, written, room, ok)
    }

    constructor (room: nat)
      ensures Now() == Start(room)
    {
      conn, seqBuf, nextSeq, target, ok := Idle, map[], 0, [], true;
      this.room, written := room, 0;
    }

    /** The step behind the quota gate; it ends at the first await or at the end of the handler. */
    method Arrive(parse: Parser, seqNo: int, body: bytes)
      modifies this
      ensures Now() == Step(parse, old(Now()), Event.Arrive(seqNo, body))
    {
      if body == [] || conn.Failed? {
        return;
      }
      if !conn.Open? {
        if seqNo != 0 || !conn.Idle? {
          seqBuf := seqBuf[seqNo := body];
        } else {
          conn := Dialing(body);
        }
        return;
      }
      if seqNo == nextSeq {
        if room == 0 {
          ok := false;
          return;
        }
        Write(body);
        nextSeq := nextSeq + 1;
        WriteBacklog();
      } else {
        seqBuf := seqBuf[seqNo := body];
      }
    }

    /** The loop behind an in-order packet, which advances sess["next_seq"] as it goes. */
    method WriteBacklog()
      modifies this`seqBuf, this`nextSeq, this`target, this`room, this`written, this`ok
      ensures
        var d := Drain(old(seqBuf), old(nextSeq), old(target), old(written), old(room));
        && seqBuf == d.seqBuf && nextSeq == d.next && target == d.target
        && written == d.count && room == d.room && ok == (old(ok) && d.ok)
    {
      ghost var total := Drain(seqBuf, nextSeq, target, written, room);
      while nextSeq in seqBuf
        invariant Drain(seqBuf, nextSeq, target, written, room) == total && ok == old(ok)
        decreases |seqBuf|
      {
        var pending := seqBuf[nextSeq];
        seqBuf := seqBuf - {nextSeq};
        if room == 0 {
          ok := false;
          return;
        }
        Write(pending);
        nextSeq := nextSeq + 1;
      }
    }

    /** The connection attempt is over; on success the first payload is on the wire. */
    method Connect(parse: Parser, connected: bool)
      requires conn.Dialing?
      modifies this
      ensures Now() == Step(parse, old(Now()), if connected then Connected else ConnectFailed)
      ensures
        var payload := parse(old(conn).body);
        if connected && payload.Some? then conn == Flushing && target == old(target) + payload.value && ok == old(ok)
        else conn == Failed && target == old(target) && !ok
    {
      var payload := parse(conn.body);
      if connected && payload.Some? {
        target := target + payload.value;
        conn := Flushing;
      } else {
        conn, ok := Failed, false;
      }
    }

    /** _open_tcp_for_session has returned: the writer is set and the backlog is written. */
    method Publish(parse: Parser)
      requires conn.Flushing?
      modifies this
      ensures Now() == Step(parse, old(Now()), Event.Publish)
    {
      conn := Open;
      var nxt, good := WriteFromOne();
      if good {
        nextSeq := nxt;
      } else {
        ok := false;
      }
    }

    /** The loop behind the first packet, which counts in a local variable. */
    method WriteFromOne() returns (nxt: int, good: bool)
      modifies this`seqBuf, this`target, this`room, this`written
      ensures
        var d := Drain(old(seqBuf), 1, old(target), old(written), old(room));
        && seqBuf == d.seqBuf && nxt == d.next && target == d.target
        && written == d.count && room == d.room && good == d.ok
    {
      nxt, good := 1, true;
      ghost var total := Drain(seqBuf, nxt, target, written, room);
      while nxt in seqBuf
        invariant Drain(seqBuf, nxt, target, written, room) == total
        decreases |seqBuf|
      {
        var pending := seqBuf[nxt];
        seqBuf := seqBuf - {nxt};
        if room == 0 {
          return nxt, false;
        }
        Write(pending);
        nxt := nxt + 1;
      }
    }

    method Write(p: bytes)
      requires room > 0
      modifies this`target, this`room, this`written
      ensures target == old(target) + p && room == old(room) - 1 && written == old(written) + 1
    {
      target := target + p;
      room := room - 1;
      written := written + 1;
    }
  }
}
