/** The traffic limit of the SOCKS5 proxy (zeussocks5.py:89-109): every pipe looks at the counter
    before it forwards a chunk and adds the chunk to it only after the drain. */
module ZeusPipe {

  const CHUNK: nat := 65536

  /** A pipe waits for data, drains a chunk that is not counted yet, or has ended. */
  datatype Pipe = Reading | Draining(n: nat) | Ended

  datatype State = State(bytesUsed: nat, pipes: seq<Pipe>, /** bytes written to any peer */ written: nat,
                         /** those of chunks whose drain raised */ lost: nat)

  datatype Event =
    /** a connection brings one more pipe, as far as k may be alive at once */
    | Open
    /** data has arrived; `stop` is end of file, expiry or a timeout */
    | Chunk(pipe: nat, n: nat, stop: bool)
    /** the drain returns, or raises */
    | Drained(pipe: nat, failed: bool)

  function Alive(ps: seq<Pipe>): nat {
    if ps == [] then 0 else (if ps[0].Ended? then 0 else 1) + Alive(ps[1..])
  }

  function InFlight(ps: seq<Pipe>): nat {
    if ps == [] then 0 else (if ps[0].Draining? then ps[0].n else 0) + InFlight(ps[1..])
  }

  /** _is_traffic_exceeded for a limit in bytes, which need not be an integer; 0 is no limit. */
  predicate Exceeded(limit: real, used: nat) {
    limit != 0.0 && used as real >= limit
  }

  function Step(limit: real, k: nat, s: State, e: Event): State {
    match e
    case Open => if Alive(s.pipes) < k then s.(pipes := s.pipes + [Reading]) else s
    case Chunk(i, n, stop) =>
      if i >= |s.pipes| || !s.pipes[i].Reading? || n > CHUNK then s
      else if stop || n == 0 || Exceeded(limit, s.bytesUsed) then s.(pipes := s.pipes[i := Ended])
      else s.(pipes := s.pipes[i := Draining(n)], written := s.written + n)
    case Drained(i, failed) =>
      if i >= |s.pipes| || !s.pipes[i].Draining? then s
      else if failed then s.(pipes := s.pipes[i := Ended], lost := s.lost + s.pipes[i].n)
      else s.(pipes := s.pipes[i := Reading], bytesUsed := s.bytesUsed + s.pipes[i].n)
  }

  function Run(limit: real, k: nat, es: seq<Event>): State {
    if es == [] then State(0, [], 0, 0) else Step(limit, k, Run(limit, k, es[..|es| - 1]), es[|es| - 1])
  }

  /** A chunk is forwarded if and only if a pipe waits for it, it is neither the end nor too late, and the
      counter is below the limit, or there is none; otherwise that pipe ends. It is counted when its drain
      returns. */
  lemma ChunkExactly(limit: real, k: nat, s: State, i: nat, n: nat, stop: bool)
    requires i < |s.pipes| && s.pipes[i].Reading? && n <= 65536
    ensures
      var t := Step(limit, k, s, Chunk(i, n, stop));
      if !stop && n > 0 && (limit == 0.0 || s.bytesUsed as real < limit) then
        && t.pipes == s.pipes[i := Draining(n)] && t.written == s.written + n && t.bytesUsed == s.bytesUsed
        && Step(limit, k, t, Drained(i, false)).bytesUsed == s.bytesUsed + n
        && Step(limit, k, t, Drained(i, false)).pipes == s.pipes
      else t.pipes == s.pipes[i := Ended] && t.written == s.written && t.bytesUsed == s.bytesUsed
  {
    assert s.pipes[i := Draining(n)][i := Reading] == s.pipes;
  }

  lemma {:induction false} Update(ps: seq<Pipe>, i: nat, p: Pipe)
    requires i < |ps|
    ensures Alive(ps[i := p]) + (if ps[i].Ended? then 0 else 1) == Alive(ps) + (if p.Ended? then 0 else 1)
    ensures InFlight(ps[i := p]) + (if ps[i].Draining? then ps[i].n else 0)
         == InFlight(ps) + (if p.Draining? then p.n else 0)
  {
    if i == 0 {
    } else {
      assert ps[i := p][1..] == ps[1..][i - 1 := p];
      Update(ps[1..], i - 1, p);
    }
  }

  lemma {:induction false} Append(ps: seq<Pipe>)
    ensures Alive(ps + [Reading]) == Alive(ps) + 1 && InFlight(ps + [Reading]) == InFlight(ps)
  {
    if ps == [] {
    } else {
      assert (ps + [Reading])[1..] == ps[1..] + [Reading];
      Append(ps[1..]);
    }
  }

  predicate SmallChunks(ps: seq<Pipe>) {
    forall i :: 0 <= i < |ps| && ps[i].Draining? ==> ps[i].n <= CHUNK
  }

  lemma {:induction false} InFlightBound(ps: seq<Pipe>)
    requires SmallChunks(ps)
    ensures InFlight(ps) <= CHUNK * Alive(ps)
  {
    if ps == [] {
    } else {
      assert SmallChunks(ps[1..]) by { assert forall i :: 0 <= i < |ps| - 1 ==> ps[1..][i] == ps[i + 1]; }
      InFlightBound(ps[1..]);
    }
  }

  predicate Bounded(limit: real, k: nat, s: State) {
    && Alive(s.pipes) <= k && SmallChunks(s.pipes)
    && (s.bytesUsed + InFlight(s.pipes)) as real < limit + (CHUNK * k) as real
    && s.written == s.bytesUsed + InFlight(s.pipes) + s.lost
  }

  lemma OpenKeeps(limit: real, k: nat, s: State)
    requires Bounded(limit, k, s)
    ensures Bounded(limit, k, Step(limit, k, s, Open))
  {
    Append(s.pipes);
  }

  lemma DrainedKeeps(limit: real, k: nat, s: State, i: nat, failed: bool)
    requires Bounded(limit, k, s)
    ensures Bounded(limit, k, Step(limit, k, s, Drained(i, failed)))
  {
    if i < |s.pipes| {
      Update(s.pipes, i, if failed then Ended else Reading);
    }
  }

  /** A chunk is taken only below the limit, and then the pipes hold at most a chunk each. */
  lemma ChunkKeeps(limit: real, k: nat, s: State, i: nat, n: nat, stop: bool)
    requires limit > 0.0 && Bounded(limit, k, s)
    ensures Bounded(limit, k, Step(limit, k, s, Chunk(i, n, stop)))
  {
    if i < |s.pipes| {
      var next := Step(limit, k, s, Chunk(i, n, stop));
      Update(s.pipes, i, next.pipes[i]);
      assert next.pipes == s.pipes[i := next.pipes[i]];
      InFlightBound(next.pipes);
      assert CHUNK * Alive(next.pipes) <= CHUNK * k;
    }
  }

  /** Counted bytes and those on their way to the counter together stay below the limit plus one
      chunk for each pipe that may be alive, in every interleaving; and exactly the chunks whose drain
      failed are written without ever being counted. */
  lemma {:induction false} UsageIsBounded(limit: real, k: nat, es: seq<Event>)
    requires limit > 0.0
    ensures
      var s := Run(limit, k, es);
      && Alive(s.pipes) <= k && SmallChunks(s.pipes)
      && (s.bytesUsed + InFlight(s.pipes)) as real < limit + (65536 * k) as real
      && s.written == s.bytesUsed + InFlight(s.pipes) + s.lost
  {
    if es == [] {
    } else {
      var s := Run(limit, k, es[..|es| - 1]);
      UsageIsBounded(limit, k, es[..|es| - 1]);
      match es[|es| - 1] {
        case Open => OpenKeeps(limit, k, s);
        case Chunk(i, n, stop) => ChunkKeeps(limit, k, s, i, n, stop);
        case Drained(i, failed) => DrainedKeeps(limit, k, s, i, failed);
      }
    }
  }

  // ---------------------------------------------------------------- the bound is sharp

  function All(k: nat, p: Pipe): seq<Pipe> {
    seq(k, _ => p)
  }

  /** k pipes, of which the first i are like p and the others like q. */
  function Mixed(k: nat, i: nat, p: Pipe, q: Pipe): seq<Pipe>
    requires i <= k
  {
    All(i, p) + All(k - i, q)
  }

  lemma MixedNext(k: nat, i: nat, p: Pipe, q: Pipe)
    requires i < k
    ensures Mixed(k, i, p, q)[i] == q && Mixed(k, i, p, q)[i := p] == Mixed(k, i + 1, p, q)
  {
  }

  lemma RunSnoc(limit: real, k: nat, es: seq<Event>, e: Event)
    ensures Run(limit, k, es + [e]) == Step(limit, k, Run(limit, k, es), e)
  {
    assert (es + [e])[..|es|] == es;
  }

  lemma {:induction false} OpenAll(limit: real, k: nat, i: nat) returns (es: seq<Event>)
    requires i <= k
    ensures Run(limit, k, es) == State(0, All(i, Reading), 0, 0) && Alive(All(i, Reading)) == i
  {
    if i == 0 {
      es := [];
    } else {
      es := OpenAll(limit, k, i - 1);
      RunSnoc(limit, k, es, Open);
      Append(All(i - 1, Reading));
      assert All(i, Reading) == All(i - 1, Reading) + [Reading];
      es := es + [Open];
    }
  }

  /** One pipe brings the counter to any value up to the limit. */
  lemma {:induction false} BringTo(limit: nat, k: nat, used: nat) returns (es: seq<Event>)
    requires k > 0 && used < limit
    ensures Run(limit as real, k, es) == State(used, All(k, Reading), used, 0)
  {
    if used == 0 {
      es := OpenAll(limit as real, k, k);
    } else {
      es := BringTo(limit, k, used - 1);
      var s := Run(limit as real, k, es);
      RunSnoc(limit as real, k, es, Chunk(0, 1, false));
      RunSnoc(limit as real, k, es + [Chunk(0, 1, false)], Drained(0, false));
      assert s.pipes[0 := Draining(1)][0 := Reading] == s.pipes;
      es := es + [Chunk(0, 1, false)] + [Drained(0, false)];
    }
  }

  lemma {:induction false} FillAll(limit: nat, k: nat, i: nat) returns (es: seq<Event>)
    requires 0 < limit && i <= k && k > 0
    ensures
      Run(limit as real, k, es) == State(limit - 1, Mixed(k, i, Draining(CHUNK), Reading), limit - 1 + CHUNK * i, 0)
  {
    if i == 0 {
      es := BringTo(limit, k, limit - 1);
      assert Mixed(k, 0, Draining(CHUNK), Reading) == All(k, Reading);
    } else {
      es := FillAll(limit, k, i - 1);
      RunSnoc(limit as real, k, es, Chunk(i - 1, CHUNK, false));
      MixedNext(k, i - 1, Draining(CHUNK), Reading);
      es := es + [Chunk(i - 1, CHUNK, false)];
    }
  }

  lemma {:induction false} DrainAll(limit: nat, k: nat, i: nat) returns (es: seq<Event>)
    requires 0 < limit && i <= k && k > 0
    ensures
      Run(limit as real, k, es)
      == State(limit - 1 + CHUNK * i, Mixed(k, i, Reading, Draining(CHUNK)), limit - 1 + CHUNK * k, 0)
  {
    if i == 0 {
      es := FillAll(limit, k, k);
      assert Mixed(k, k, Draining(CHUNK), Reading) == Mixed(k, 0, Reading, Draining(CHUNK));
    } else {
      es := DrainAll(limit, k, i - 1);
      RunSnoc(limit as real, k, es, Drained(i - 1, false));
      MixedNext(k, i - 1, Reading, Draining(CHUNK));
      es := es + [Drained(i - 1, false)];
    }
  }

  /** Of whole bytes the most that UsageIsBounded allows is counted in some run, for every limit and every
      number of pipes: each of them reads a full chunk one byte below the limit. */
  lemma BoundIsAttained(limit: nat, k: nat) returns (es: seq<Event>)
    requires limit > 0 && k > 0
    ensures Run(limit as real, k, es).bytesUsed == limit + 65536 * k - 1
  {
    es := DrainAll(limit, k, k);
  }
}
