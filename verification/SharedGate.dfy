/** A gate that concurrent handlers share (protocol/vless/xhttshadpacketup.py:55-61,
    protocol/trojan/xhttshadpacketup.py:46-53): in packet-up every POST of a session goes through one
    _QuotaGate. It is never flushed. check_and_use awaits the links lock; nobody holds that lock across an
    await, so as the code stands an add never waits there and m below is 1. The model says what happens
    if several adds can wait at once. */
module SharedGate {
  import opened Bytes
  import Q = QuotaGate

  /** An add() that awaits check_and_use: the batch it took along, its own bytes included. */
  datatype Flight = Flight(batch: nat, waiting: nat)

  /** The fields of QuotaGate.Gate; `drops` counts the batches dropped by refusals. */
  datatype Gate = Gate(
    pending: nat, batch: nat, ewma: real, lastCheck: real, ok: bool, flights: seq<Flight>,
    forwarded: nat, counted: nat, dropped: nat, drops: nat)

  function NewGate(l: Q.Limits, now: real): Gate {
    Gate(0, l.start, 0.0, now, true, [], 0, 0, 0, 0)
  }

  /** add() up to its await, or to its end. */
  function StartAdd(l: Q.Limits, g: Gate, n: nat, now: real): Gate
    requires Q.ValidLimits(l)
  {
    if !g.ok then g
    else if g.pending + n >= g.batch || now - g.lastCheck >= Q.CHECK_INTERVAL then
      var elapsed := now - g.lastCheck;
      var rate := if elapsed > 0.0 then Q.NextRate(g.ewma, g.pending + n, elapsed) else g.ewma;
      g.(pending := 0, flights := g.flights + [Flight(g.pending + n, n)], lastCheck := now, ewma := rate,
         batch := if elapsed > 0.0 then Q.NextBatch(l, rate) else g.batch)
    else
      g.(pending := g.pending + n, forwarded := g.forwarded + n)
  }

  function Without(fs: seq<Flight>, j: nat): seq<Flight>
    requires j < |fs|
  {
    fs[..j] + fs[j + 1..]
  }

  /** The rest of the j-th waiting add(); `ok` becomes this very answer, whatever it was. */
  function Answered(g: Gate, j: nat, granted: bool): Gate
    requires j < |g.flights| && g.flights[j].waiting <= g.flights[j].batch
  {
    var f := g.flights[j];
    if granted then
      g.(ok := true, flights := Without(g.flights, j), counted := g.counted + f.batch,
         forwarded := g.forwarded + f.waiting)
    else
      g.(ok := false, flights := Without(g.flights, j), dropped := g.dropped + (f.batch - f.waiting),
         drops := g.drops + 1)
  }

  /** The gate as one relay loop sees it, with at most one add waiting. */
  function OneLoop(g: Gate): Q.Gate
    requires |g.flights| <= 1
  {
    Q.Gate(g.pending, g.batch, g.ewma, g.lastCheck, g.ok,
           if g.flights == [] then Q.Quiet else Q.Adding(g.flights[0].batch, g.flights[0].waiting),
           g.forwarded, g.counted, g.dropped)
  }

  /** With one add at a time the shared gate is the gate of QuotaGate, step by step. */
  lemma OneAddIsQuotaGate(l: Q.Limits, g: Gate, n: nat, now: real, granted: bool)
    requires Q.ValidLimits(l) && |g.flights| <= 1
    ensures g.flights == [] ==>
      |StartAdd(l, g, n, now).flights| <= 1 && OneLoop(StartAdd(l, g, n, now)) == Q.StartAdd(l, OneLoop(g), n, now)
    ensures |g.flights| == 1 && g.flights[0].waiting <= g.flights[0].batch ==>
      Answered(g, 0, granted).flights == [] && OneLoop(Answered(g, 0, granted)) == Q.Answered(OneLoop(g), granted)
  {
  }

  datatype World = World(used: nat, gates: seq<Gate>)

  datatype Event =
    | Add(gate: nat, n: nat, now: real)
    /** check_and_use answers the j-th add that waits at the gate */
    | Check(gate: nat, j: nat, up: bool)

  /** At most m handlers of a session are at its gate at once. */
  function Step(l: Q.Limits, limit: nat, m: nat, w: World, e: Event): World
    requires Q.ValidLimits(l)
  {
    if e.gate >= |w.gates| then w
    else
      var g := w.gates[e.gate];
      match e
      case Add(i, n, now) =>
        if |g.flights| < m then w.(gates := w.gates[i := StartAdd(l, g, n, now)]) else w
      case Check(i, j, up) =>
        if j >= |g.flights| || g.flights[j].batch < g.flights[j].waiting then w
        else
          var granted := up && w.used < limit;
          World(w.used + if granted then g.flights[j].batch else 0, w.gates[i := Answered(g, j, granted)])
  }

  function Run(l: Q.Limits, limit: nat, m: nat, w: World, es: seq<Event>): World
    requires Q.ValidLimits(l)
  {
    if es == [] then w else Step(l, limit, m, Run(l, limit, m, w, es[..|es| - 1]), es[|es| - 1])
  }

  predicate AtMost(es: seq<Event>, c: nat) {
    forall e :: e in es && e.Add? ==> e.n <= c
  }

  /** Forwarded bytes in waiting batches. */
  function Held(fs: seq<Flight>): nat {
    if fs == [] then 0 else (if fs[0].waiting <= fs[0].batch then fs[0].batch - fs[0].waiting else 0) + Held(fs[1..])
  }

  predicate Small(l: Q.Limits, c: nat, f: Flight) {
    f.waiting <= f.batch && f.waiting <= c && f.batch - f.waiting < l.max
  }

  lemma {:induction false} HeldSnoc(fs: seq<Flight>, f: Flight)
    requires f.waiting <= f.batch
    ensures Held(fs + [f]) == Held(fs) + (f.batch - f.waiting)
  {
    if fs == [] {
    } else {
      assert (fs + [f])[1..] == fs[1..] + [f];
      HeldSnoc(fs[1..], f);
    }
  }

  lemma {:induction false} HeldWithout(fs: seq<Flight>, j: nat)
    requires j < |fs| && fs[j].waiting <= fs[j].batch
    ensures Held(fs) == Held(Without(fs, j)) + (fs[j].batch - fs[j].waiting)
  {
    if j == 0 {
      assert Without(fs, 0) == fs[1..];
    } else {
      assert Without(fs, j)[1..] == Without(fs[1..], j - 1) && Without(fs, j)[0] == fs[0];
      HeldWithout(fs[1..], j - 1);
    }
  }

  lemma {:induction false} HeldBound(l: Q.Limits, c: nat, fs: seq<Flight>)
    requires Q.ValidLimits(l) && forall i :: 0 <= i < |fs| ==> Small(l, c, fs[i])
    ensures Held(fs) <= |fs| * (l.max - 1)
  {
    if fs == [] {
    } else {
      HeldBound(l, c, fs[1..]);
      assert Small(l, c, fs[0]);
      assert |fs| * (l.max - 1) == (l.max - 1) + |fs[1..]| * (l.max - 1);
    }
  }

  lemma MulPlus(x: nat, y: nat, b: nat)
    ensures (x + y) * b == x * b + y * b
  {
  }

  lemma MulMonotone(x: nat, y: nat, b: nat)
    requires x <= y
    ensures x * b <= y * b
  {
    MulPlus(x, y - x, b);
  }

  /** Each byte let through is counted, pending, in a waiting batch or in a dropped one; when m batches
      wait nothing is pending. */
  predicate GateInv(l: Q.Limits, c: nat, m: nat, g: Gate)
    requires Q.ValidLimits(l)
  {
    && g.pending < g.batch <= l.max
    && (forall i :: 0 <= i < |g.flights| ==> Small(l, c, g.flights[i]))
    && |g.flights| <= m
    && (|g.flights| == m ==> g.pending == 0)
    && g.forwarded == g.counted + g.pending + Held(g.flights) + g.dropped
    && g.dropped <= g.drops * (l.max - 1)
  }

  lemma AddKeeps(l: Q.Limits, c: nat, m: nat, g: Gate, n: nat, now: real)
    requires Q.ValidLimits(l) && GateInv(l, c, m, g) && |g.flights| < m && n <= c
    ensures GateInv(l, c, m, StartAdd(l, g, n, now))
  {
    HeldSnoc(g.flights, Flight(g.pending + n, n));
  }

  lemma AnswerKeeps(l: Q.Limits, c: nat, m: nat, g: Gate, j: nat, granted: bool)
    requires Q.ValidLimits(l) && GateInv(l, c, m, g) && j < |g.flights|
    ensures Small(l, c, g.flights[j]) && GateInv(l, c, m, Answered(g, j, granted))
  {
    assert Small(l, c, g.flights[j]);
    HeldWithout(g.flights, j);
    var rest := Without(g.flights, j);
    assert forall i :: 0 <= i < |rest| ==> rest[i] == g.flights[if i < j then i else i + 1];
    MulPlus(g.drops, 1, l.max - 1);
  }

  function CountedOf(g: Gate): nat {
    g.counted
  }

  function ForwardedOf(g: Gate): nat {
    g.forwarded
  }

  function DropsOf(g: Gate): nat {
    g.drops
  }

  ghost predicate Inv(l: Q.Limits, limit: nat, u0: nat, c: nat, m: nat, k: nat, w: World)
    requires Q.ValidLimits(l)
  {
    && |w.gates| == k
    && (forall i :: 0 <= i < k ==> GateInv(l, c, m, w.gates[i]))
    && w.used == u0 + Q.Total(w.gates, CountedOf)
    && w.used <= Q.Max(u0, limit - 1 + l.max - 1 + c)
  }

  lemma StepKeeps(l: Q.Limits, limit: nat, u0: nat, c: nat, m: nat, k: nat, w: World, e: Event)
    requires Q.ValidLimits(l) && Inv(l, limit, u0, c, m, k, w) && (e.Add? ==> e.n <= c)
    ensures Inv(l, limit, u0, c, m, k, Step(l, limit, m, w, e))
  {
    if e.gate < k {
      var g := w.gates[e.gate];
      var next := Step(l, limit, m, w, e);
      match e {
        case Add(i, n, now) =>
          if |g.flights| < m {
            AddKeeps(l, c, m, g, n, now);
          }
        case Check(i, j, up) =>
          if j < |g.flights| {
            AnswerKeeps(l, c, m, g, j, up && w.used < limit);
          }
      }
      Q.TotalUpdate(w.gates, CountedOf, e.gate, next.gates[e.gate]);
      assert next.gates == w.gates[e.gate := next.gates[e.gate]];
    }
  }

  function StartWorld(l: Q.Limits, u0: nat, k: nat): World {
    World(u0, seq(k, i => NewGate(l, 0.0)))
  }

  /** What every interleaving keeps. */
  lemma {:induction false} RunKeeps(l: Q.Limits, limit: nat, u0: nat, c: nat, m: nat, k: nat, es: seq<Event>)
    requires Q.ValidLimits(l) && m > 0 && AtMost(es, c)
    ensures Inv(l, limit, u0, c, m, k, Run(l, limit, m, StartWorld(l, u0, k), es))
  {
    if es == [] {
      Q.TotalOfZero(StartWorld(l, u0, k).gates, CountedOf);
    } else {
      var front, e := es[..|es| - 1], es[|es| - 1];
      assert es == front + [e];
      RunKeeps(l, limit, u0, c, m, k, front);
      StepKeeps(l, limit, u0, c, m, k, Run(l, limit, m, StartWorld(l, u0, k), front), e);
    }
  }

  // ---------------------------------------------------------------------------------------
  // The bound.

  lemma {:induction false} TotalExceeds(gs: seq<Gate>, n: nat, b: nat)
    requires forall i :: 0 <= i < |gs| ==> gs[i].forwarded <= gs[i].counted + (n + gs[i].drops) * b
    ensures Q.Total(gs, ForwardedOf) <= Q.Total(gs, CountedOf) + (|gs| * n + Q.Total(gs, DropsOf)) * b
  {
    if gs == [] {
    } else {
      TotalExceeds(gs[1..], n, b);
      var m, d := |gs[1..]|, Q.Total(gs[1..], DropsOf);
      MulPlus(m, 1, n);
      MulPlus(m * n + d, n + gs[0].drops, b);
    }
  }

  lemma Slots(n: nat, m: nat, b: nat, pending: nat, held: nat)
    requires held <= n * b && pending <= b && n <= m && (n == m ==> pending == 0)
    ensures pending + held <= m * b
  {
    if n < m {
      MulPlus(n, 1, b);
      MulMonotone(n + 1, m, b);
    }
  }

  lemma GateForwarded(l: Q.Limits, c: nat, m: nat, g: Gate)
    requires Q.ValidLimits(l) && GateInv(l, c, m, g)
    ensures g.forwarded <= g.counted + (m + g.drops) * (l.max - 1)
  {
    HeldBound(l, c, g.flights);
    Slots(|g.flights|, m, l.max - 1, g.pending, Held(g.flights));
    MulPlus(m, g.drops, l.max - 1);
  }

  lemma Regroup(n: nat, b: nat)
    ensures (n + 1) * b == n * b + b
  {
    MulPlus(n, 1, b);
  }

  lemma AllForwarded(l: Q.Limits, c: nat, m: nat, gs: seq<Gate>)
    requires Q.ValidLimits(l) && forall i :: 0 <= i < |gs| ==> GateInv(l, c, m, gs[i])
    ensures Q.Total(gs, ForwardedOf)
         <= Q.Total(gs, CountedOf) + (|gs| * m + Q.Total(gs, DropsOf)) * (l.max - 1)
  {
    forall i | 0 <= i < |gs|
      ensures gs[i].forwarded <= gs[i].counted + (m + gs[i].drops) * (l.max - 1)
    {
      GateForwarded(l, c, m, gs[i]);
    }
    TotalExceeds(gs, m, l.max - 1);
  }

  /** With at most m adds at once at each of k shared gates, and D refusals in all, every interleaving
      forwards at most (limit - u0 - 1) + (k * m + D + 1) * (max - 1) + c bytes. */
  lemma ForwardedIsBounded(l: Q.Limits, limit: nat, u0: nat, c: nat, m: nat, k: nat, es: seq<Event>)
    requires Q.ValidLimits(l) && m > 0 && AtMost(es, c) && u0 < limit
    ensures
      var w := Run(l, limit, m, StartWorld(l, u0, k), es);
      Q.Total(w.gates, ForwardedOf)
      <= (limit - u0 - 1) + (k * m + Q.Total(w.gates, DropsOf) + 1) * (l.max - 1) + c
  {
    RunKeeps(l, limit, u0, c, m, k, es);
    var w := Run(l, limit, m, StartWorld(l, u0, k), es);
    AllForwarded(l, c, m, w.gates);
    Regroup(k * m + Q.Total(w.gates, DropsOf), l.max - 1);
  }

  // ---------------------------------------------------------------------------------------
  // When a refused gate stays shut.

  predicate Shut(w: World, i: nat) {
    i < |w.gates| && !w.gates[i].ok
  }

  predicate Sound(fs: seq<Flight>) {
    forall j :: 0 <= j < |fs| ==> fs[j].waiting <= fs[j].batch
  }

  lemma {:induction false} StaysShut(l: Q.Limits, limit: nat, m: nat, w: World, i: nat, es: seq<Event>)
    requires Q.ValidLimits(l) && Shut(w, i) && (w.gates[i].flights == [] || w.used >= limit)
    ensures
      var t := Run(l, limit, m, w, es);
      Shut(t, i) && (t.gates[i].flights == [] || t.used >= limit)
  {
    if es == [] {
    } else {
      StaysShut(l, limit, m, w, i, es[..|es| - 1]);
    }
  }

  lemma RunOne(l: Q.Limits, limit: nat, m: nat, w: World, e: Event)
    requires Q.ValidLimits(l)
    ensures Run(l, limit, m, w, [e]) == Step(l, limit, m, w, e)
  {
    assert [e][..0] == [];
  }

  /** A refused gate stays shut whatever happens, if and only if no batch of it waits, or the link has
      reached its limit. */
  lemma ShutForGoodExactlyWhen(l: Q.Limits, limit: nat, m: nat, w: World, i: nat)
    requires Q.ValidLimits(l) && Shut(w, i) && Sound(w.gates[i].flights)
    ensures (forall es :: Shut(Run(l, limit, m, w, es), i)) <==> w.gates[i].flights == [] || w.used >= limit
  {
    if w.gates[i].flights == [] || w.used >= limit {
      forall es
        ensures Shut(Run(l, limit, m, w, es), i)
      {
        StaysShut(l, limit, m, w, i, es);
      }
    } else {
      RunOne(l, limit, m, w, Check(i, 0, true));
      assert !Shut(Run(l, limit, m, w, [Check(i, 0, true)]), i);
    }
  }

  lemma {:induction false} RefusedHasNoneWaiting(l: Q.Limits, limit: nat, u0: nat, k: nat, es: seq<Event>)
    requires Q.ValidLimits(l)
    ensures
      var w := Run(l, limit, 1, StartWorld(l, u0, k), es);
      && |w.gates| == k
      && forall i :: 0 <= i < k ==> |w.gates[i].flights| <= 1 && (!w.gates[i].ok ==> w.gates[i].flights == [])
  {
    if es == [] {
    } else {
      RefusedHasNoneWaiting(l, limit, u0, k, es[..|es| - 1]);
    }
  }

  /** With one add at a time, as in the code, a refused gate is shut for good, over every run and whatever
      becomes of the link. */
  lemma OneAddAtATimeStaysShut(l: Q.Limits, limit: nat, u0: nat, k: nat, es: seq<Event>, more: seq<Event>, i: nat)
    requires Q.ValidLimits(l) && Shut(Run(l, limit, 1, StartWorld(l, u0, k), es), i)
    ensures Shut(Run(l, limit, 1, Run(l, limit, 1, StartWorld(l, u0, k), es), more), i)
  {
    RefusedHasNoneWaiting(l, limit, u0, k, es);
    StaysShut(l, limit, 1, Run(l, limit, 1, StartWorld(l, u0, k), es), i, more);
  }

  lemma RunSnoc(l: Q.Limits, limit: nat, m: nat, w: World, es: seq<Event>, e: Event)
    requires Q.ValidLimits(l)
    ensures Run(l, limit, m, w, es + [e]) == Step(l, limit, m, Run(l, limit, m, w, es), e)
  {
    assert (es + [e])[..|es|] == es;
  }

  /** With two it need not be: from the start, two adds wait, the first is refused while the link is down,
      and the second is granted after it came back. */
  lemma TwoAddsCanReopen(l: Q.Limits, limit: nat, u0: nat, m: nat, k: nat) returns (es: seq<Event>, e: Event)
    requires Q.ValidLimits(l) && u0 < limit && m >= 2 && k > 0
    ensures Shut(Run(l, limit, m, StartWorld(l, u0, k), es), 0)
    ensures !Shut(Run(l, limit, m, StartWorld(l, u0, k), es + [e]), 0)
  {
    var w := StartWorld(l, u0, k);
    var add := Add(0, l.max, Q.CHECK_INTERVAL);
    e := Check(0, 0, true);
    TwoWait(l, limit, m, w);
    RefuseAndGrant(l, limit, m, Step(l, limit, m, Step(l, limit, m, w, add), add));
    RunOne(l, limit, m, w, add);
    RunSnoc(l, limit, m, w, [add], add);
    RunSnoc(l, limit, m, w, [add] + [add], Check(0, 0, false));
    es := [add] + [add] + [Check(0, 0, false)];
    RunSnoc(l, limit, m, w, es, e);
  }

  /** The first add grows the batch to the maximum; a second one of that size is due at once. */
  lemma TwoWait(l: Q.Limits, limit: nat, m: nat, w: World)
    requires Q.ValidLimits(l) && m >= 2 && w.gates != [] && w.gates[0] == NewGate(l, 0.0)
    ensures
      var add := Add(0, l.max, Q.CHECK_INTERVAL);
      var v := Step(l, limit, m, Step(l, limit, m, w, add), add);
      && v.used == w.used && v.gates != [] && v.gates[0].ok
      && v.gates[0].flights == [Flight(l.max, l.max), Flight(l.max, l.max)]
  {
    assert Q.NextRate(0.0, l.max, Q.CHECK_INTERVAL) * Q.CHECK_INTERVAL == l.max as real;
    var g := StartAdd(l, NewGate(l, 0.0), l.max, Q.CHECK_INTERVAL);
    assert g.flights == [Flight(l.max, l.max)] && g.ok && g.batch == l.max && g.pending == 0;
    assert StartAdd(l, g, l.max, Q.CHECK_INTERVAL).flights == [Flight(l.max, l.max), Flight(l.max, l.max)];
  }

  lemma RefuseAndGrant(l: Q.Limits, limit: nat, m: nat, v: World)
    requires Q.ValidLimits(l) && v.used < limit && v.gates != []
    requires v.gates[0].flights == [Flight(l.max, l.max), Flight(l.max, l.max)]
    ensures
      var v1 := Step(l, limit, m, v, Check(0, 0, false));
      Shut(v1, 0) && !Shut(Step(l, limit, m, v1, Check(0, 0, true)), 0)
  {
    var f := Flight(l.max, l.max);
    assert Without([f, f], 0) == [f];
  }

  // ---------------------------------------------------------------------------------------
  // A link that does not come back.

  /** The link was found missing, inactive or expired, or the check raised. */
  predicate WentDown(es: seq<Event>) {
    exists e :: e in es && e.Check? && !e.up
  }

  /** A link that was down once stays down. */
  predicate NeverComesBack(es: seq<Event>) {
    es == [] ||
    var front, last := es[..|es| - 1], es[|es| - 1];
    NeverComesBack(front) && (last.Check? && last.up ==> !WentDown(front))
  }

  /** Batches waiting or dropped are at most m, and when they are m nothing is pending. */
  predicate Steady(m: nat, g: Gate) {
    && |g.flights| + g.drops <= m
    && (|g.flights| + g.drops == m ==> g.pending == 0)
    && (g.ok <==> g.drops == 0)
  }

  predicate AllSteady(m: nat, gs: seq<Gate>) {
    forall i :: 0 <= i < |gs| ==> Steady(m, gs[i])
  }

  /** If a link that went down stays down, no refusal is ever followed by a grant. */
  lemma {:induction false} RunStaysSteady(l: Q.Limits, limit: nat, m: nat, w: World, es: seq<Event>)
    requires Q.ValidLimits(l) && m > 0 && NeverComesBack(es)
    requires AllSteady(m, w.gates) && forall i :: 0 <= i < |w.gates| ==> w.gates[i].ok
    ensures
      var t := Run(l, limit, m, w, es);
      && |t.gates| == |w.gates| && AllSteady(m, t.gates)
      && ((exists i :: 0 <= i < |t.gates| && !t.gates[i].ok) ==> t.used >= limit || WentDown(es))
  {
    if es == [] {
    } else {
      var front, e := es[..|es| - 1], es[|es| - 1];
      assert es == front + [e];
      RunStaysSteady(l, limit, m, w, front);
      assert WentDown(es) <==> WentDown(front) || (e.Check? && !e.up);
    }
  }

  lemma GateForwardedSteady(l: Q.Limits, c: nat, m: nat, g: Gate)
    requires Q.ValidLimits(l) && GateInv(l, c, m, g) && Steady(m, g)
    ensures g.forwarded <= g.counted + m * (l.max - 1)
  {
    HeldBound(l, c, g.flights);
    MulPlus(|g.flights|, g.drops, l.max - 1);
    Slots(|g.flights| + g.drops, m, l.max - 1, g.pending, Held(g.flights) + g.dropped);
  }

  lemma {:induction false} TotalExceedsSteady(gs: seq<Gate>, b: nat)
    requires forall i :: 0 <= i < |gs| ==> gs[i].forwarded <= gs[i].counted + b
    ensures Q.Total(gs, ForwardedOf) <= Q.Total(gs, CountedOf) + |gs| * b
  {
    if gs == [] {
    } else {
      TotalExceedsSteady(gs[1..], b);
      MulPlus(|gs[1..]|, 1, b);
    }
  }

  lemma MulAssociates(k: nat, m: nat, b: nat)
    ensures k * (m * b) == (k * m) * b
  {
  }

  /** Then the refusals cost nothing: each concurrent add costs the same as a gate of its own. For m = 1
      this is the bound of QuotaGate. */
  lemma ForwardedIsBoundedOnceDown(l: Q.Limits, limit: nat, u0: nat, c: nat, m: nat, k: nat, es: seq<Event>)
    requires Q.ValidLimits(l) && m > 0 && AtMost(es, c) && NeverComesBack(es) && u0 < limit
    ensures
      var w := Run(l, limit, m, StartWorld(l, u0, k), es);
      Q.Total(w.gates, ForwardedOf) <= (limit - u0 - 1) + (k * m + 1) * (l.max - 1) + c
  {
    RunKeeps(l, limit, u0, c, m, k, es);
    RunStaysSteady(l, limit, m, StartWorld(l, u0, k), es);
    var w := Run(l, limit, m, StartWorld(l, u0, k), es);
    forall i | 0 <= i < |w.gates|
      ensures w.gates[i].forwarded <= w.gates[i].counted + m * (l.max - 1)
    {
      GateForwardedSteady(l, c, m, w.gates[i]);
    }
    TotalExceedsSteady(w.gates, m * (l.max - 1));
    MulAssociates(k, m, l.max - 1);
    Regroup(k * m, l.max - 1);
  }
}
