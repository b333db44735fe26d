/** Batched byte metering (protocol/vless/vless.py:68-114 and 147-157, protocol/vless/xhttp_core.py:110-156,
    protocol/trojan/trojan.py:76-116, main.py:840-850): several gates, each used by one relay loop,
    share a link. A gate can give up control only where check_and_use awaits the links lock. As nobody holds
    that lock across an await, the code never waits there; here others may come in between all the same. */
module QuotaGate {
  import opened Bytes

  const CHECK_INTERVAL: real := 0.25

  /** QUOTA_MIN_BATCH, QUOTA_MAX_BATCH, QUOTA_START_BATCH: the modules differ in these only. */
  datatype Limits = Limits(min: nat, max: nat, start: nat)

  predicate ValidLimits(l: Limits) {
    0 < l.min <= l.start <= l.max
  }

  const VLESS := Limits(32 * 1024, 2 * 1024 * 1024, 128 * 1024)
  const XHTTP := Limits(32 * 1024, 4 * 1024 * 1024, 256 * 1024)

  lemma TheLimitsAreValid()
    ensures ValidLimits(VLESS) && ValidLimits(XHTTP)
  {
  }

  /** The await a gate is in: add() with the batch to be counted and the bytes that wait to be
      forwarded, or flush() with the batch to be counted. */
  datatype Flight = Quiet | Adding(batch: nat, waiting: nat) | Finishing(batch: nat)

  /** A gate, and what became of the bytes it was asked about. */
  datatype Gate = Gate(
    pending: nat, batch: nat, ewma: real, lastCheck: real, ok: bool, flight: Flight,
    /** bytes whose add() returned true */
    forwarded: nat,
    /** bytes added to used_bytes */
    counted: nat,
    /** forwarded bytes in the batch that a refusal dropped */
    dropped: nat)

  function NewGate(l: Limits, now: real): Gate {
    Gate(0, l.start, 0.0, now, true, Quiet, 0, 0, 0)
  }

  function Max(a: int, b: int): int {
    if a < b then b else a
  }

  function Min(a: int, b: int): int {
    if a < b then a else b
  }

  /** The moving average after a flush of n bytes in a positive time. */
  function NextRate(ewma: real, n: nat, elapsed: real): real
    requires elapsed > 0.0
  {
    var rate := n as real / elapsed;
    if ewma == 0.0 then rate else 0.7 * ewma + 0.3 * rate
  }

  function NextBatch(l: Limits, ewma: real): (b: nat)
    requires ValidLimits(l)
    ensures l.min <= b <= l.max
  {
    var target := (ewma * CHECK_INTERVAL).Floor;
    Max(l.min, Min(l.max, if target == 0 then l.min else target))
  }

  predicate Due(g: Gate, n: nat, now: real) {
    g.pending + n >= g.batch || now - g.lastCheck >= CHECK_INTERVAL
  }

  /** add() up to its await, or to its end when the batch is not due. */
  function StartAdd(l: Limits, g: Gate, n: nat, now: real): Gate
    requires ValidLimits(l)
  {
    if !g.ok then g
    else if Due(g, n, now) then
      var elapsed := now - g.lastCheck;
      var rate := if elapsed > 0.0 then NextRate(g.ewma, g.pending + n, elapsed) else g.ewma;
      g.(pending := 0, flight := Adding(g.pending + n, n), lastCheck := now, ewma := rate,
         batch := if elapsed > 0.0 then NextBatch(l, rate) else g.batch)
    else
      g.(pending := g.pending + n, forwarded := g.forwarded + n)
  }

  /** flush() up to its await; after a refusal nothing is counted any more. */
  function StartFlush(g: Gate): Gate {
    if g.pending == 0 then g
    else if g.ok then g.(pending := 0, flight := Finishing(g.pending))
    else g.(pending := 0, dropped := g.dropped + g.pending)
  }

  /** The rest of add() or flush(), once check_and_use has answered. */
  function Answered(g: Gate, granted: bool): Gate
    requires g.flight.Adding? ==> g.flight.waiting <= g.flight.batch
  {
    match g.flight
    case Quiet => g
    case Adding(b, n) =>
      if granted then g.(ok := true, flight := Quiet, counted := g.counted + b, forwarded := g.forwarded + n)
      else g.(ok := false, flight := Quiet, dropped := g.dropped + (b - n))
    case Finishing(b) =>
      if granted then g.(flight := Quiet, counted := g.counted + b)
      else g.(ok := false, flight := Quiet, dropped := g.dropped + b)
  }

  // ---------------------------------------------------------------------------------------
  // What an add and a flush do.

  /** The average moves three tenths of the way to the rate just measured, and starts there. */
  lemma RateIsWeighted(ewma: real, n: nat, elapsed: real)
    requires elapsed > 0.0
    ensures
      var rate := n as real / elapsed;
      NextRate(ewma, n, elapsed) - ewma == if ewma == 0.0 then rate else 0.3 * (rate - ewma)
  {
  }

  /** The batch is what a quarter of a second brings at the average rate, within its limits. */
  lemma BatchIsAQuarterSecond(l: Limits, ewma: real)
    requires ValidLimits(l)
    ensures
      var b, quarter := NextBatch(l, ewma), 0.25 * ewma;
      && (quarter < l.min as real ==> b == l.min)
      && (quarter >= l.max as real ==> b == l.max)
      && (l.min as real <= quarter < l.max as real ==> b as real <= quarter < b as real + 1.0)
  {
  }

  /** An open gate counts what is pending together with the new bytes as soon as they fill the batch or a
      quarter of a second has passed since the last time, and then nothing forwarded is left uncounted;
      before that it forwards at once. A shut gate does neither. */
  lemma AddExactly(l: Limits, g: Gate, n: nat, now: real)
    requires ValidLimits(l) && g.flight.Quiet?
    ensures
      var due := g.pending + n >= g.batch || now - g.lastCheck >= 0.25;
      var h := StartAdd(l, g, n, now);
      && (!g.ok ==> h == g)
      && (g.ok && !due ==> h == g.(pending := g.pending + n, forwarded := g.forwarded + n))
      && (g.ok && due ==>
            && h.flight == Adding(g.pending + n, n) && h.pending == 0 && h.lastCheck == now
            && h.forwarded == g.forwarded && h.counted == g.counted && h.dropped == g.dropped)
    ensures
      var due := g.pending + n >= g.batch || now - g.lastCheck >= 0.25;
      var granted, refused := Answered(StartAdd(l, g, n, now), true), Answered(StartAdd(l, g, n, now), false);
      g.ok && due ==>
        && granted.ok && granted.flight.Quiet? && granted.pending == 0
        && granted.counted == g.counted + g.pending + n && granted.forwarded == g.forwarded + n
        && !refused.ok && refused.flight.Quiet? && refused.pending == 0
        && refused.counted == g.counted && refused.forwarded == g.forwarded
  {
  }

  /** A flush leaves nothing pending: an open gate has it all counted, if that is granted. */
  lemma FlushExactly(g: Gate)
    requires g.flight.Quiet?
    ensures
      var h := StartFlush(g);
      && h.pending == 0 && h.forwarded == g.forwarded && h.counted == g.counted && h.ok == g.ok
      && (g.pending > 0 && g.ok ==>
            h.flight == Finishing(g.pending) && Answered(h, true).counted == g.counted + g.pending
            && Answered(h, true).ok && !Answered(h, false).ok)
      && (g.pending == 0 || !g.ok ==> h.flight.Quiet?)
  {
  }

  // ---------------------------------------------------------------------------------------
  // All interleavings.

  datatype World = World(used: nat, gates: seq<Gate>)

  datatype Event =
    | Add(gate: nat, n: nat, now: real)
    | Flush(gate: nat)
    /** check_and_use holds the lock; `up` says the link exists, is active and not expired, and
        that nothing raised */
    | Check(gate: nat, up: bool)

  predicate Holding(g: Gate) {
    match g.flight
    case Quiet => false
    case Adding(b, n) => n <= b
    case Finishing(b) => true
  }

  function BatchOf(g: Gate): nat
    requires Holding(g)
  {
    g.flight.batch
  }

  function Step(l: Limits, limit: nat, w: World, e: Event): World
    requires ValidLimits(l)
  {
    if e.gate >= |w.gates| then w
    else
      var g := w.gates[e.gate];
      match e
      case Add(i, n, now) =>
        if g.flight.Quiet? then w.(gates := w.gates[i := StartAdd(l, g, n, now)]) else w
      case Flush(i) =>
        if g.flight.Quiet? then w.(gates := w.gates[i := StartFlush(g)]) else w
      case Check(i, up) =>
        if !Holding(g) then w
        else
          var granted := up && w.used < limit;
          World(w.used + if granted then BatchOf(g) else 0, w.gates[i := Answered(g, granted)])
  }

  function Run(l: Limits, limit: nat, w: World, es: seq<Event>): World
    requires ValidLimits(l)
  {
    if es == [] then w else Step(l, limit, Run(l, limit, w, es[..|es| - 1]), es[|es| - 1])
  }

  /** No single add is larger than c. */
  predicate AtMost(es: seq<Event>, c: nat) {
    forall i :: 0 <= i < |es| && es[i].Add? ==> es[i].n <= c
  }

  function Total<G>(gs: seq<G>, f: G -> nat): nat {
    if gs == [] then 0 else f(gs[0]) + Total(gs[1..], f)
  }

  lemma {:induction false} TotalUpdate<G>(gs: seq<G>, f: G -> nat, i: nat, g: G)
    requires i < |gs|
    ensures Total(gs[i := g], f) + f(gs[i]) == Total(gs, f) + f(g)
  {
    if i == 0 {
    } else {
      assert gs[i := g][1..] == gs[1..][i - 1 := g];
      TotalUpdate(gs[1..], f, i - 1, g);
    }
  }

  lemma {:induction false} TotalBound<G>(gs: seq<G>, f: G -> nat, b: nat)
    requires forall i :: 0 <= i < |gs| ==> f(gs[i]) <= b
    ensures Total(gs, f) <= |gs| * b
  {
    if gs == [] {
    } else {
      TotalBound(gs[1..], f, b);
      assert |gs| * b == b + |gs[1..]| * b;
    }
  }

  function ForwardedOf(g: Gate): nat {
    g.forwarded
  }

  function CountedOf(g: Gate): nat {
    g.counted
  }

  /** Forwarded bytes that used_bytes does not know of. */
  function Uncounted(g: Gate): nat {
    g.pending + g.dropped +
    match g.flight
    case Quiet => 0
    case Adding(b, n) => if n <= b then b - n else 0
    case Finishing(b) => b
  }

  /** Each byte a gate let through is counted, held, or in the one dropped batch. */
  predicate GateInv(l: Limits, c: nat, g: Gate) {
    && g.pending < g.batch <= l.max
    && (g.flight.Adding? ==> g.flight.waiting <= Min(c, g.flight.batch))
    && (!g.flight.Quiet? ==> g.ok && g.pending == 0 && g.dropped == 0)
    && (g.ok ==> g.dropped == 0)
    && (!g.ok ==> g.pending == 0)
    && Uncounted(g) < l.max
    && g.forwarded == g.counted + Uncounted(g)
  }

  lemma GateKeeps(l: Limits, c: nat, g: Gate)
    requires ValidLimits(l) && GateInv(l, c, g)
    ensures g.flight.Quiet? ==> GateInv(l, c, StartFlush(g))
    ensures forall n: nat, now: real :: g.flight.Quiet? && n <= c ==> GateInv(l, c, StartAdd(l, g, n, now))
    ensures Holding(g) ==> GateInv(l, c, Answered(g, true)) && GateInv(l, c, Answered(g, false))
    ensures Holding(g) ==> BatchOf(g) <= l.max - 1 + c
  {
  }

  ghost predicate Inv(l: Limits, limit: nat, u0: nat, c: nat, k: nat, w: World) {
    && |w.gates| == k
    && (forall i :: 0 <= i < k ==> GateInv(l, c, w.gates[i]))
    && w.used == u0 + Total(w.gates, CountedOf)
    && w.used <= Max(u0, limit - 1 + l.max - 1 + c)
  }

  lemma StepKeeps(l: Limits, limit: nat, u0: nat, c: nat, k: nat, w: World, e: Event)
    requires ValidLimits(l) && Inv(l, limit, u0, c, k, w) && (e.Add? ==> e.n <= c)
    ensures Inv(l, limit, u0, c, k, Step(l, limit, w, e))
  {
    if e.gate < k {
      var g := w.gates[e.gate];
      GateKeeps(l, c, g);
      var next := Step(l, limit, w, e);
      TotalUpdate(w.gates, CountedOf, e.gate, next.gates[e.gate]);
      assert next.gates == w.gates[e.gate := next.gates[e.gate]];
    }
  }

  function StartWorld(l: Limits, u0: nat, k: nat): World {
    World(u0, seq(k, i => NewGate(l, 0.0)))
  }

  lemma {:induction false} TotalOfZero<G>(gs: seq<G>, f: G -> nat)
    requires forall i :: 0 <= i < |gs| ==> f(gs[i]) == 0
    ensures Total(gs, f) == 0
  {
    if gs == [] {
    } else {
      TotalOfZero(gs[1..], f);
    }
  }

  lemma {:induction false} RunKeeps(l: Limits, limit: nat, u0: nat, c: nat, k: nat, es: seq<Event>)
    requires ValidLimits(l) && AtMost(es, c)
    ensures Inv(l, limit, u0, c, k, Run(l, limit, StartWorld(l, u0, k), es))
  {
    if es == [] {
      TotalOfZero(StartWorld(l, u0, k).gates, CountedOf);
    } else {
      RunKeeps(l, limit, u0, c, k, es[..|es| - 1]);
      StepKeeps(l, limit, u0, c, k, Run(l, limit, StartWorld(l, u0, k), es[..|es| - 1]), es[|es| - 1]);
    }
  }

  lemma {:induction false} Conservation(l: Limits, c: nat, gs: seq<Gate>)
    requires forall i :: 0 <= i < |gs| ==> GateInv(l, c, gs[i])
    ensures Total(gs, ForwardedOf) == Total(gs, CountedOf) + Total(gs, Uncounted)
  {
    if gs == [] {
    } else {
      Conservation(l, c, gs[1..]);
    }
  }

  /** Over every interleaving of k gates on a link that starts with u0 < limit bytes used: the
      bytes forwarded are exactly the bytes newly counted plus those the gates still hold or
      dropped, no gate holds or dropped a whole maximal batch, and the overshoot is bounded. */
  lemma ForwardedIsBounded(l: Limits, limit: nat, u0: nat, c: nat, k: nat, es: seq<Event>)
    requires ValidLimits(l) && AtMost(es, c) && u0 < limit
    ensures
      var w := Run(l, limit, StartWorld(l, u0, k), es);
      && Total(w.gates, ForwardedOf) == (w.used - u0) + Total(w.gates, Uncounted)
      && (forall i :: 0 <= i < |w.gates| ==> Uncounted(w.gates[i]) < l.max)
      && w.used <= limit - 1 + (l.max - 1) + c
      && Total(w.gates, ForwardedOf) <= (limit - u0 - 1) + (k + 1) * (l.max - 1) + c
  {
    RunKeeps(l, limit, u0, c, k, es);
    var w := Run(l, limit, StartWorld(l, u0, k), es);
    Conservation(l, c, w.gates);
    TotalBound(w.gates, Uncounted, l.max - 1);
    assert (k + 1) * (l.max - 1) == k * (l.max - 1) + (l.max - 1);
  }

  /** Every gate has flushed, and none was refused. */
  predicate Settled(gs: seq<Gate>) {
    forall i :: 0 <= i < |gs| ==> gs[i].ok && gs[i].flight.Quiet? && gs[i].pending == 0
  }

  /** Once every loop has flushed and nothing was refused, used_bytes has grown by exactly what was
      forwarded. */
  lemma FlushedCountIsExact(l: Limits, limit: nat, u0: nat, c: nat, k: nat, es: seq<Event>)
    requires ValidLimits(l) && AtMost(es, c)
    requires Settled(Run(l, limit, StartWorld(l, u0, k), es).gates)
    ensures
      var w := Run(l, limit, StartWorld(l, u0, k), es);
      w.used == u0 + Total(w.gates, ForwardedOf)
  {
    RunKeeps(l, limit, u0, c, k, es);
    var w := Run(l, limit, StartWorld(l, u0, k), es);
    Conservation(l, c, w.gates);
    forall i | 0 <= i < |w.gates|
      ensures Uncounted(w.gates[i]) == 0
    {
      assert GateInv(l, c, w.gates[i]);
    }
    TotalOfZero(w.gates, Uncounted);
  }

  /** Gate i was refused, and this is what it had let through and counted. */
  predicate Refused(w: World, i: nat, forwarded: nat, counted: nat) {
    && i < |w.gates| && !w.gates[i].ok && w.gates[i].flight.Quiet?
    && w.gates[i].forwarded == forwarded && w.gates[i].counted == counted
  }

  /** A refused gate is shut for good: whatever happens, it lets nothing more through and counts nothing
      more. */
  lemma {:induction false} RefusedStaysRefused(l: Limits, limit: nat, w: World, es: seq<Event>, i: nat,
                                               forwarded: nat, counted: nat)
    requires ValidLimits(l) && Refused(w, i, forwarded, counted)
    ensures Refused(Run(l, limit, w, es), i, forwarded, counted)
  {
    if es == [] {
    } else {
      RefusedStaysRefused(l, limit, w, es[..|es| - 1], i, forwarded, counted);
    }
  }

  // ---------------------------------------------------------------------------------------
  // The bound is exact.

  lemma RunSnoc(l: Limits, limit: nat, w: World, es: seq<Event>, e: Event)
    requires ValidLimits(l)
    ensures Run(l, limit, w, es + [e]) == Step(l, limit, Run(l, limit, w, es), e)
  {
    assert (es + [e])[..|es|] == es;
  }

  /** So short a time that flushing the first batch in it raises the batch to the maximum. */
  function Instant(l: Limits): (t: real)
    requires ValidLimits(l)
    ensures 0.0 < t <= CHECK_INTERVAL
  {
    CHECK_INTERVAL * l.start as real / l.max as real
  }

  lemma Cancel(a: real, b: real, t: real, r: real)
    requires a > 0.0 && t * b == 0.25 * a && r * t == a
    ensures r * 0.25 == b
  {
    assert (r * t) * b == r * (t * b);
    assert a * b == a * (r * 0.25);
    CancelFactor(a, b, r * 0.25);
  }

  lemma CancelFactor(a: real, x: real, y: real)
    requires a > 0.0 && a * x == a * y
    ensures x == y
  {
    assert a * (x - y) == 0.0;
  }

  lemma Quotient(a: real, t: real)
    requires t > 0.0
    ensures a / t * t == a
  {
  }

  lemma InstantIsFast(l: Limits)
    requires ValidLimits(l)
    ensures NextRate(0.0, l.start, Instant(l)) * CHECK_INTERVAL == l.max as real
    ensures NextBatch(l, NextRate(0.0, l.start, Instant(l))) == l.max
  {
    var a, b, t := l.start as real, l.max as real, Instant(l);
    Quotient(CHECK_INTERVAL * a, b);
    Quotient(a, t);
    Cancel(a, b, t, a / t);
  }

  /** A gate of full batch size that has counted its first batch, and has forwarded n bytes since. */
  function Grown(l: Limits, n: nat): Gate
    requires ValidLimits(l)
  {
    Gate(n, l.max, NextRate(0.0, l.start, Instant(l)), Instant(l), true, Quiet, l.start + n, l.start, 0)
  }

  /** The same before: n bytes of its first batch are forwarded. */
  function Small(l: Limits, n: nat): Gate {
    Gate(n, l.start, 0.0, 0.0, true, Quiet, n, 0, 0)
  }

  lemma Grows(l: Limits)
    requires ValidLimits(l)
    ensures
      var g := StartAdd(l, Small(l, l.start - 1), 1, Instant(l));
      g.flight == Adding(l.start, 1) && Answered(g, true) == Grown(l, 0)
  {
    InstantIsFast(l);
  }

  /** No add is larger than c, and the clock never goes back and shows at most t. */
  predicate Timely(es: seq<Event>, c: nat, t: real) {
    && AtMost(es, c)
    && (forall i :: 0 <= i < |es| && es[i].Add? ==> es[i].now <= t)
    && (forall i, j :: 0 <= i < j < |es| && es[i].Add? && es[j].Add? ==> es[i].now <= es[j].now)
  }

  lemma TimelySnoc(es: seq<Event>, c: nat, t: real, e: Event, now: real)
    requires Timely(es, c, t) && t <= now && (e.Add? ==> e.n <= c && e.now == now)
    ensures Timely(es + [e], c, now)
  {
  }

  /** n adds of one byte, none of which is due. */
  lemma {:induction false} Fill(l: Limits, limit: nat, w: World, before: seq<Event>, i: nat, n: nat, now: real, c: nat)
    returns (es: seq<Event>)
    requires ValidLimits(l) && Timely(before, c, now) && c > 0
    requires
      var gs := Run(l, limit, w, before).gates;
      && i < |gs| && gs[i].ok && gs[i].flight.Quiet? && gs[i].pending == 0
      && n < gs[i].batch && now - gs[i].lastCheck < CHECK_INTERVAL
    ensures Timely(es, c, now)
    ensures
      var v := Run(l, limit, w, before);
      var g := v.gates[i].(pending := n, forwarded := v.gates[i].forwarded + n);
      Run(l, limit, w, es) == v.(gates := v.gates[i := g])
    decreases n
  {
    var v := Run(l, limit, w, before);
    if n == 0 {
      es := before;
      assert v.gates[i := v.gates[i]] == v.gates;
    } else {
      var less := Fill(l, limit, w, before, i, n - 1, now, c);
      RunSnoc(l, limit, w, less, Add(i, 1, now));
      TimelySnoc(less, c, now, Add(i, 1, now), now);
      es := less + [Add(i, 1, now)];
    }
  }

  /** The first j gates are as `front` says, the others as `back`. */
  function Row(k: nat, j: nat, front: Gate, back: Gate): seq<Gate> {
    seq(k, i => if i < j then front else back)
  }

  lemma RowNext(k: nat, j: nat, front: Gate, back: Gate)
    requires j < k
    ensures Row(k, j, front, back)[j] == back
    ensures Row(k, j, front, back)[j := front] == Row(k, j + 1, front, back)
  {
  }

  lemma GrowOne(l: Limits, limit: nat, used: nat, gates: seq<Gate>, i: nat)
    requires ValidLimits(l) && i < |gates| && gates[i] == Small(l, l.start - 1) && used < limit
    ensures
      Step(l, limit, Step(l, limit, World(used, gates), Add(i, 1, Instant(l))), Check(i, true))
      == World(used + l.start, gates[i := Grown(l, 0)])
  {
    Grows(l);
    var g := StartAdd(l, Small(l, l.start - 1), 1, Instant(l));
    var w1 := Step(l, limit, World(used, gates), Add(i, 1, Instant(l)));
    assert w1 == World(used, gates[i := g]);
    assert gates[i := g][i := Grown(l, 0)] == gates[i := Grown(l, 0)];
  }

  lemma Multiples(m: nat, i: nat, k: nat)
    requires i < k
    ensures (i + 1) * m == i * m + m && i * m <= k * m
  {
    assert k * m == i * m + (k - i) * m;
  }

  /** An add that is due, and the answer to its batch. */
  lemma AddAndCheck(l: Limits, limit: nat, w: World, before: seq<Event>, i: nat, n: nat, t: real, now: real, c: nat)
    returns (es: seq<Event>)
    requires ValidLimits(l) && Timely(before, c, t) && t <= now && n <= c
    ensures Timely(es, c, now)
    ensures Run(l, limit, w, es)
         == Step(l, limit, Step(l, limit, Run(l, limit, w, before), Add(i, n, now)), Check(i, true))
  {
    var a, b := Add(i, n, now), Check(i, true);
    RunSnoc(l, limit, w, before, a);
    RunSnoc(l, limit, w, before + [a], b);
    TimelySnoc(before, c, t, a, now);
    TimelySnoc(before + [a], c, now, b, now);
    es := before + [a] + [b];
  }

  /** At time 0 every gate gets all but one byte of its first batch. */
  lemma {:induction false} StartAll(l: Limits, limit: nat, k: nat, j: nat, c: nat) returns (es: seq<Event>)
    requires ValidLimits(l) && j <= k && c > 0
    ensures Timely(es, c, 0.0)
    ensures Run(l, limit, StartWorld(l, 0, k), es) == World(0, Row(k, j, Small(l, l.start - 1), Small(l, 0)))
    decreases j
  {
    if j == 0 {
      es := [];
      assert StartWorld(l, 0, k).gates == Row(k, 0, Small(l, l.start - 1), Small(l, 0));
    } else {
      var before := StartAll(l, limit, k, j - 1, c);
      RowNext(k, j - 1, Small(l, l.start - 1), Small(l, 0));
      es := Fill(l, limit, StartWorld(l, 0, k), before, j - 1, l.start - 1, 0.0, c);
    }
  }

  /** An instant later they get to full batch size one after the other, counting a batch each. */
  lemma {:induction false} GrowAll(l: Limits, limit: nat, k: nat, j: nat, c: nat) returns (es: seq<Event>)
    requires ValidLimits(l) && j <= k && k * l.start < limit && c > 0
    ensures Timely(es, c, Instant(l))
    ensures Run(l, limit, StartWorld(l, 0, k), es)
         == World(j * l.start, Row(k, j, Grown(l, 0), Small(l, l.start - 1)))
    decreases j
  {
    if j == 0 {
      es := StartAll(l, limit, k, k, c);
      assert Row(k, k, Small(l, l.start - 1), Small(l, 0)) == Row(k, 0, Grown(l, 0), Small(l, l.start - 1));
    } else {
      var i := j - 1;
      var before := GrowAll(l, limit, k, i, c);
      RowNext(k, i, Grown(l, 0), Small(l, l.start - 1));
      Multiples(l.start, i, k);
      GrowOne(l, limit, i * l.start, Row(k, i, Grown(l, 0), Small(l, l.start - 1)), i);
      es := AddAndCheck(l, limit, StartWorld(l, 0, k), before, i, 1, Instant(l), Instant(l), c);
    }
  }

  /** Then each of them fills its next batch up to the last byte. */
  lemma {:induction false} LoadAll(l: Limits, limit: nat, k: nat, j: nat, c: nat) returns (es: seq<Event>)
    requires ValidLimits(l) && j <= k && k * l.start < limit && c > 0
    ensures Timely(es, c, Instant(l))
    ensures Run(l, limit, StartWorld(l, 0, k), es) == World(k * l.start, Row(k, j, Grown(l, l.max - 1), Grown(l, 0)))
    decreases j
  {
    if j == 0 {
      es := GrowAll(l, limit, k, k, c);
      assert Row(k, k, Grown(l, 0), Small(l, l.start - 1)) == Row(k, 0, Grown(l, l.max - 1), Grown(l, 0));
    } else {
      var i := j - 1;
      var before := LoadAll(l, limit, k, i, c);
      RowNext(k, i, Grown(l, l.max - 1), Grown(l, 0));
      es := Fill(l, limit, StartWorld(l, 0, k), before, i, l.max - 1, Instant(l), c);
    }
  }

  /** The last granted batch takes the counter from limit - 1 as far beyond as one batch and one chunk of
      c bytes go. */
  lemma LastBatch(l: Limits, limit: nat, gates: seq<Gate>, c: nat)
    requires ValidLimits(l) && gates != [] && gates[0] == Grown(l, l.max - 1) && c > 0 && limit > 0
    ensures
      var w := Step(l, limit, Step(l, limit, World(limit - 1, gates), Add(0, c, Instant(l))), Check(0, true));
      && w.used == limit - 1 + (l.max - 1) + c
      && w.gates == gates[0 := Grown(l, 0).(forwarded := l.start + l.max - 1 + c, counted := l.start + l.max - 1 + c)]
  {
    var g1 := Grown(l, l.max - 1).(pending := 0, flight := Adding(l.max - 1 + c, c));
    assert StartAdd(l, Grown(l, l.max - 1), c, Instant(l)) == g1;
    var w1 := Step(l, limit, World(limit - 1, gates), Add(0, c, Instant(l)));
    assert w1 == World(limit - 1, gates[0 := g1]);
    var g2 := Answered(g1, true);
    assert gates[0 := g1][0 := g2] == gates[0 := g2];
  }

  lemma {:induction false} TotalOfEqual<G>(gs: seq<G>, f: G -> nat, n: nat)
    requires forall i :: 0 <= i < |gs| ==> f(gs[i]) == n
    ensures Total(gs, f) == |gs| * n
  {
    if gs == [] {
    } else {
      TotalOfEqual(gs[1..], f, n);
      assert |gs| * n == n + |gs[1..]| * n;
    }
  }

  /** What k loaded gates have forwarded once the last batch and its rest are through. */
  lemma LoadedTotal(l: Limits, k: nat, last: Gate, c: nat)
    requires ValidLimits(l) && k > 0 && last.forwarded == l.start + 2 * (l.max - 1) + c
    ensures Total(Row(k, k, Grown(l, l.max - 1), Grown(l, 0))[0 := last], ForwardedOf)
         == k * l.start + (k + 1) * (l.max - 1) + c
  {
    var row := Row(k, k, Grown(l, l.max - 1), Grown(l, 0));
    TotalUpdate(row, ForwardedOf, 0, last);
    TotalOfEqual(row, ForwardedOf, l.start + (l.max - 1));
    Distribute(k, l.start, l.max - 1);
  }

  lemma Distribute(k: nat, a: nat, b: nat)
    ensures k * (a + b) == k * a + k * b && (k + 1) * b == k * b + b
  {
  }

  /** The bound cannot be improved: for any number of gates and chunks of up to any c > 0 bytes there are a
      limit and a run, under a clock that never goes back, that forwards exactly that many bytes. */
  lemma BoundIsAttained(l: Limits, k: nat, c: nat) returns (limit: nat, es: seq<Event>)
    requires ValidLimits(l) && k > 0 && c > 0
    ensures limit > 0 && Timely(es, c, Instant(l))
    ensures
      var w := Run(l, limit, StartWorld(l, 0, k), es);
      Total(w.gates, ForwardedOf) == (limit - 0 - 1) + (k + 1) * (l.max - 1) + c
  {
    limit := k * l.start + 1;
    var w0, row := StartWorld(l, 0, k), Row(k, k, Grown(l, l.max - 1), Grown(l, 0));
    var before := LoadAll(l, limit, k, k, c);
    var granted := AddAndCheck(l, limit, w0, before, 0, c, Instant(l), Instant(l), c);
    LastBatch(l, limit, row, c);
    es := Fill(l, limit, w0, granted, 0, l.max - 1, Instant(l), c);
    var g := Run(l, limit, w0, granted).gates[0];
    var last := g.(pending := l.max - 1, forwarded := g.forwarded + (l.max - 1));
    assert row[0 := g][0 := last] == row[0 := last];
    LoadedTotal(l, k, last, c);
  }

  // ---------------------------------------------------------------------------------------
  // The objects.

  class Link {
    var limitBytes: nat
    var usedBytes: nat

    /** check_and_use inside the links lock. */
    method CheckAndUse(n: nat, up: bool) returns (granted: bool)
      modifies this`usedBytes
      ensures granted == (up && (limitBytes == 0 || old(usedBytes) < limitBytes))
      ensures usedBytes == old(usedBytes) + if granted then n else 0
    {
      if !up {
        return false;
      }
      if limitBytes > 0 && usedBytes >= limitBytes {
        return false;
      }
      usedBytes := usedBytes + n;
      return true;
    }

    constructor (limit: nat, used: nat)
      ensures limitBytes == limit && usedBytes == used
    {
      limitBytes, usedBytes := limit, used;
    }
  }

  /** One gate; each method is the code up to an await or behind it. */
  class AdaptiveGate {
    const limits: Limits
    var pending: nat
    var lastCheck: real
    var ok: bool
    var batchBytes: nat
    var rateEwma: real
    ghost var history: Gate

    ghost predicate Valid()
      reads this
    {
      && ValidLimits(limits)
      && history.pending == pending && history.lastCheck == lastCheck && history.ok == ok
      && history.batch == batchBytes && history.ewma == rateEwma
      && (history.flight.Adding? ==> Holding(history))
    }

    constructor (l: Limits, now: real)
      requires ValidLimits(l)
      ensures Valid() && limits == l && history == NewGate(l, now)
    {
      limits := l;
      pending, lastCheck, ok, batchBytes, rateEwma := 0, now, true, l.start, 0.0;
      history := NewGate(l, now);
    }

    /** The answer, or the batch with which check_and_use is to be awaited. */
    method BeginAdd(n: nat, now: real) returns (answer: bool, await: Option<nat>)
      requires Valid() && history.flight.Quiet?
      modifies this
      ensures Valid() && history == StartAdd(limits, old(history), n, now)
      ensures await.Some? <==> history.flight.Adding?
      ensures await.Some? ==> await.value == history.flight.batch
      ensures await.None? ==> answer == old(ok)
    {
      history := StartAdd(limits, history, n, now);
      if !ok {
        return false, None;
      }
      pending := pending + n;
      var elapsed := now - lastCheck;
      if pending >= batchBytes || elapsed >= CHECK_INTERVAL {
        var flush := pending;
        pending := 0;
        if elapsed > 0.0 {
          var instRate := flush as real / elapsed;
          rateEwma := if rateEwma == 0.0 then instRate else 0.7 * rateEwma + 0.3 * instRate;
          var target := (rateEwma * CHECK_INTERVAL).Floor;
          batchBytes := Max(limits.min, Min(limits.max, if target == 0 then limits.min else target));
        }
        lastCheck := now;
        return false, Some(flush);
      }
      return true, None;
    }

    /** check_and_use has answered; an exception counts as a refusal. */
    method EndAdd(granted: bool) returns (answer: bool)
      requires Valid() && history.flight.Adding?
      modifies this
      ensures Valid() && history == Answered(old(history), granted) && answer == granted == ok
    {
      history := Answered(history, granted);
      ok := granted;
      answer := ok;
    }

    method BeginFlush() returns (await: Option<nat>)
      requires Valid() && history.flight.Quiet?
      modifies this
      ensures Valid() && history == StartFlush(old(history))
      ensures await.Some? <==> history.flight.Finishing?
      ensures await.Some? ==> await.value == history.flight.batch
    {
      history := StartFlush(history);
      await := None;
      if pending != 0 {
        var flush := pending;
        pending := 0;
        if ok {
          await := Some(flush);
        }
      }
    }

    method EndFlush(granted: bool) returns (answer: bool)
      requires Valid() && history.flight.Finishing? && ok
      modifies this
      ensures Valid() && history == Answered(old(history), granted) && answer == granted == ok
    {
      history := Answered(history, granted);
      ok := ok && granted;
      answer := ok;
    }
  }

  /** add() without anybody in between, on a link of positive limit: the same as two steps of a world
      with this one gate. */
  method AddOnLink(gate: AdaptiveGate, link: Link, n: nat, now: real, up: bool) returns (answer: bool)
    requires gate.Valid() && gate.history.flight.Quiet? && link.limitBytes > 0
    modifies gate, link`usedBytes
    ensures gate.Valid() && link.limitBytes == old(link.limitBytes)
    ensures
      var w := World(old(link.usedBytes), [old(gate.history)]);
      World(link.usedBytes, [gate.history]) ==
      Step(gate.limits, link.limitBytes, Step(gate.limits, link.limitBytes, w, Add(0, n, now)), Check(0, up))
    ensures answer == gate.ok
  {
    var await;
    answer, await := gate.BeginAdd(n, now);
    if await.Some? {
      var granted := link.CheckAndUse(await.value, up);
      answer := gate.EndAdd(granted);
    }
  }
}
