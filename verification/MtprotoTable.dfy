/** The table of MTProto processes (protocol/mtproto/mtproto_native.py:242-260, 383-540). Starting holds
    the table's lock across many awaits; stopping and the exit watchers take it for one step. */
module MtprotoTable {
  import opened Bytes

  type Uuid = string

  datatype Instance = Instance(proc: nat, port: nat)

  /** start_instance inside the lock, before and after its port was chosen. */
  datatype Starter = Free | Starting(uuid: Uuid) | Chosen(uuid: Uuid, port: nat)

  datatype State = State(
    instances: map<Uuid, Instance>,
    used: set<nat>,
    lock: Starter,
    /** processes that have exited, and the number of processes ever started */
    dead: set<nat>,
    started: nat)

  const START := State(map[], {}, Free, {}, 0)

  datatype Event =
    | BeginStart(uuid: Uuid)
    /** allocate_port_async returns; it never returns a port it finds in _used_ports */
    | Choose(port: nat)
    /** any exception before the process is up */
    | GiveUp
    /** the process survived its first moments */
    | Commit
    | Stop(uuid: Uuid)
    | Exit(proc: nat)
    /** the watcher of a process that has exited gets the lock */
    | Watch(uuid: Uuid, proc: nat)

  function Step(s: State, e: Event): State {
    match e
    case BeginStart(u) =>
      if !s.lock.Free? || (u in s.instances && s.instances[u].proc !in s.dead) then s
      else s.(lock := Starting(u))
    case Choose(p) =>
      if s.lock.Starting? && p !in s.used then s.(lock := Chosen(s.lock.uuid, p)) else s
    case GiveUp =>
      (match s.lock
       case Free => s
       case Starting(u) => s.(lock := Free)
       case Chosen(u, p) => s.(lock := Free, used := s.used - {p}))
    case Commit =>
      if s.lock.Chosen? then
        s.(instances := s.instances[s.lock.uuid := Instance(s.started, s.lock.port)],
           used := s.used + {s.lock.port}, lock := Free, started := s.started + 1)
      else s
    case Stop(u) =>
      if s.lock.Free? && u in s.instances then
        s.(instances := s.instances - {u}, used := s.used - {s.instances[u].port})
      else s
    case Exit(p) => if p < s.started then s.(dead := s.dead + {p}) else s
    case Watch(u, p) =>
      if s.lock.Free? && p in s.dead && u in s.instances && s.instances[u].proc == p then
        s.(instances := s.instances - {u}, used := s.used - {s.instances[u].port})
      else s
  }

  function Run(s: State, es: seq<Event>): State
    decreases |es|
  {
    if es == [] then s else Run(Step(s, es[0]), es[1..])
  }

  /** What each step does to the table. A start is begun unless a live instance stands there; its port is
      one not in use; committing enters the instance and marks its port; giving up leaves the table alone. */
  lemma StartExactly(s: State, u: Uuid, p: nat)
    requires s.lock.Free?
    ensures Step(s, BeginStart(u)).lock ==
            if u in s.instances && s.instances[u].proc !in s.dead then Free else Starting(u)
    ensures
      var t := s.(lock := Starting(u));
      Step(t, Choose(p)).lock == if p in s.used then Starting(u) else Chosen(u, p)
    ensures
      var t := s.(lock := Chosen(u, p));
      && Step(t, Commit).instances == s.instances[u := Instance(s.started, p)]
      && Step(t, Commit).used == s.used + {p} && Step(t, Commit).lock.Free?
      && Step(t, GiveUp).instances == s.instances && Step(t, GiveUp).used == s.used - {p}
      && Step(t, GiveUp).lock.Free?
  {
  }

  /** A stop, and the watcher of an instance's own dead process, remove the instance and free its port; the
      watcher of any other process does nothing. */
  lemma EndExactly(s: State, u: Uuid, proc: nat)
    requires s.lock.Free? && u in s.instances
    ensures
      var t := Step(s, Stop(u));
      t.instances == s.instances - {u} && t.used == s.used - {s.instances[u].port}
    ensures
      var t := Step(s, Watch(u, proc));
      if proc in s.dead && s.instances[u].proc == proc then
        t.instances == s.instances - {u} && t.used == s.used - {s.instances[u].port}
      else t == s
  {
  }

  /** Ports in the table are pairwise distinct and in use, a port being started on is in neither, and
      no process stands in the table twice. */
  predicate Inv(s: State) {
    && (forall u :: u in s.instances ==> s.instances[u].port in s.used && s.instances[u].proc < s.started)
    && (forall u, v :: u in s.instances && v in s.instances && u != v ==>
          s.instances[u].port != s.instances[v].port && s.instances[u].proc != s.instances[v].proc)
    && (s.lock.Chosen? ==> s.lock.port !in s.used)
    && (forall p :: p in s.dead ==> p < s.started)
  }

  lemma StepKeeps(s: State, e: Event)
    requires Inv(s)
    ensures Inv(Step(s, e))
  {
  }

  lemma {:induction false} RunKeeps(s: State, es: seq<Event>)
    requires Inv(s)
    ensures Inv(Run(s, es))
    decreases |es|
  {
    if es == [] {
    } else {
      StepKeeps(s, es[0]);
      RunKeeps(Step(s, es[0]), es[1..]);
    }
  }

  /** In every interleaving the ports of the table are distinct and all marked as used. */
  lemma PortsAreDistinct(es: seq<Event>)
    ensures
      var s := Run(START, es);
      && (forall u :: u in s.instances ==> s.instances[u].port in s.used)
      && (forall u, v :: u in s.instances && v in s.instances && u != v ==> s.instances[u].port != s.instances[v].port)
  {
    RunKeeps(START, es);
  }

  predicate Touches(e: Event, u: Uuid, i: Instance) {
    e == Stop(u) || e == Exit(i.proc)
  }

  /** The instance of u is running, and nothing is starting for u. */
  predicate Live(s: State, u: Uuid, i: Instance) {
    && u in s.instances && s.instances[u] == i && i.proc !in s.dead
    && !(s.lock.Starting? && s.lock.uuid == u)
    && !(s.lock.Chosen? && s.lock.uuid == u)
  }

  lemma LiveStep(s: State, u: Uuid, i: Instance, e: Event)
    requires Inv(s) && Live(s, u, i) && !Touches(e, u, i)
    ensures Live(Step(s, e), u, i)
  {
  }

  /** A live instance leaves the table only through a stop of its own or the exit of its own process:
      starts, failed starts, other stops and every watcher, also the one of the process it has
      replaced, leave it alone. */
  lemma {:induction false} LiveInstanceStays(s: State, u: Uuid, i: Instance, es: seq<Event>)
    requires Inv(s) && Live(s, u, i)
    requires forall e :: e in es ==> !Touches(e, u, i)
    ensures Live(Run(s, es), u, i) && i.port in Run(s, es).used
    decreases |es|
  {
    if es == [] {
    } else {
      LiveStep(s, u, i, es[0]);
      StepKeeps(s, es[0]);
      LiveInstanceStays(Step(s, es[0]), u, i, es[1..]);
    }
  }

  // ---------------------------------------------------------------- ports that are left behind

  /** The ports of the table's entries. */
  function PortsOf(s: State): set<nat> {
    set u | u in s.instances :: s.instances[u].port
  }

  /** A process comes up for a uuid that still has an entry, necessarily of a dead process. */
  predicate Replaces(s: State, e: Event) {
    e.Commit? && s.lock.Chosen? && s.lock.uuid in s.instances
  }

  predicate NoReplacement(s: State, es: seq<Event>)
    decreases |es|
  {
    es == [] || (!Replaces(s, es[0]) && NoReplacement(Step(s, es[0]), es[1..]))
  }

  /** In use, but no entry's. */
  predicate LeftBehind(s: State, p: nat) {
    p in s.used && p !in PortsOf(s)
  }

  /** One step: the ports without an entry are those from before and that of the entry replaced. */
  lemma LeftBehindStep(s: State, e: Event, p: nat)
    requires Inv(s)
    ensures LeftBehind(Step(s, e), p) <==>
            LeftBehind(s, p) || (Replaces(s, e) && p == s.instances[s.lock.uuid].port)
  {
    var t := Step(s, e);
    if e.Stop? || e.Watch? {
      assert forall v :: v in t.instances ==> v in s.instances && t.instances[v] == s.instances[v];
      assert forall v :: v in s.instances && v != e.uuid ==> v in t.instances && t.instances[v] == s.instances[v];
    } else if e.Commit? && s.lock.Chosen? {
      var u := s.lock.uuid;
      assert u in t.instances && t.instances[u].port == s.lock.port;
      assert forall v :: v in t.instances && v != u ==> v in s.instances && t.instances[v] == s.instances[v];
      assert forall v :: v in s.instances && v != u ==> v in t.instances && t.instances[v] == s.instances[v];
    } else {
      assert t.instances == s.instances && t.used == s.used;
    }
  }

  /** A port once left behind stays so whatever happens: no entry can give it back, and it is in use,
      so no start ever chooses it. */
  lemma {:induction false} LeftBehindForGood(s: State, es: seq<Event>, p: nat)
    requires Inv(s) && LeftBehind(s, p)
    ensures LeftBehind(Run(s, es), p)
    decreases |es|
  {
    if es == [] {
    } else {
      StepKeeps(s, es[0]);
      LeftBehindStep(s, es[0], p);
      LeftBehindForGood(Step(s, es[0]), es[1..], p);
    }
  }

  lemma {:induction false} NoneLeftBehind(s: State, es: seq<Event>)
    requires Inv(s) && s.used == PortsOf(s)
    ensures Run(s, es).used == PortsOf(Run(s, es)) <==> NoReplacement(s, es)
    decreases |es|
  {
    if es == [] {
    } else {
      var e, t := es[0], Step(s, es[0]);
      StepKeeps(s, e);
      if Replaces(s, e) {
        var p := s.instances[s.lock.uuid].port;
        LeftBehindStep(s, e, p);
        LeftBehindForGood(t, es[1..], p);
        assert p in Run(t, es[1..]).used && p !in PortsOf(Run(t, es[1..]));
      } else {
        forall p
          ensures p in t.used <==> p in PortsOf(t)
        {
          LeftBehindStep(s, e, p);
          assert p in PortsOf(t) ==> p in t.used;
        }
        NoneLeftBehind(t, es[1..]);
      }
    }
  }

  /** The used ports are exactly the table's ports if and only if no process ever came up for a uuid
      that still had an entry: no dead process was replaced before its watcher ran. */
  lemma UsedPortsAreTheTables(es: seq<Event>)
    ensures Run(START, es).used == PortsOf(Run(START, es)) <==> NoReplacement(START, es)
  {
    assert PortsOf(START) == {};
    NoneLeftBehind(START, es);
  }

  lemma RunCons(s: State, e: Event, es: seq<Event>)
    ensures Run(s, [e] + es) == Run(Step(s, e), es)
  {
    assert ([e] + es)[1..] == es;
  }

  /** A run in which that happens, from start to the late watcher. */
  lemma PortCanBeLeftBehind(u: Uuid, p: nat, q: nat) returns (es: seq<Event>)
    requires p != q
    ensures
      var s := Run(START, es);
      s.lock.Free? && s.used == {p, q} && s.instances == map[u := Instance(1, q)] && s.dead == {0}
    ensures |es| > 0 && es[|es| - 1] == Watch(u, 0)
  {
    var c7 := [Watch(u, 0)];
    var c6 := [Commit] + c7;
    var c5 := [Choose(q)] + c6;
    var c4 := [BeginStart(u)] + c5;
    var c3 := [Exit(0)] + c4;
    var c2 := [Commit] + c3;
    var c1 := [Choose(p)] + c2;
    es := [BeginStart(u)] + c1;
    var s1 := START.(lock := Starting(u));
    RunCons(START, BeginStart(u), c1);
    assert Step(START, BeginStart(u)) == s1;
    var s2 := s1.(lock := Chosen(u, p));
    RunCons(s1, Choose(p), c2);
    assert Step(s1, Choose(p)) == s2;
    var s3 := State(map[u := Instance(0, p)], {p}, Free, {}, 1);
    RunCons(s2, Commit, c3);
    assert Step(s2, Commit) == s3;
    var s4 := s3.(dead := {0});
    RunCons(s3, Exit(0), c4);
    assert Step(s3, Exit(0)) == s4;
    var s5 := s4.(lock := Starting(u));
    RunCons(s4, BeginStart(u), c5);
    assert Step(s4, BeginStart(u)) == s5;
    var s6 := s4.(lock := Chosen(u, q));
    RunCons(s5, Choose(q), c6);
    assert Step(s5, Choose(q)) == s6;
    var s7 := State(map[u := Instance(1, q)], {p, q}, Free, {0}, 2);
    assert Step(s6, Commit) == s7;
    RunCons(s6, Commit, c7);
    assert Step(s7, Watch(u, 0)) == s7;
    assert c7 == [Watch(u, 0)] + [];
    RunCons(s7, Watch(u, 0), []);
  }

  const PORT_RETRY_ATTEMPTS: nat := 20

  /** The least port of the half-open range that is not used and free at attempt k. */
  function LeastFree(lo: nat, hi: nat, used: set<nat>, free: (nat, nat) -> bool, k: nat): (r: Option<nat>)
    ensures r.Some? ==> lo <= r.value < hi && r.value !in used && free(k, r.value)
                        && forall p :: lo <= p < r.value ==> p in used || !free(k, p)
    ensures r.None? <==> forall p :: lo <= p < hi ==> p in used || !free(k, p)
    decreases hi - lo
  {
    if lo >= hi then None
    else if lo !in used && free(k, lo) then Some(lo)
    else LeastFree(lo + 1, hi, used, free, k)
  }

  /** The port allocate_port_async comes to; free(k, p) is what binding port p says at attempt k. */
  function PortFor(preferred: Option<nat>, force: bool, lo: nat, hi: nat, used: set<nat>, free: (nat, nat) -> bool)
    : (r: Option<nat>)
    ensures r.Some? ==> r.value !in used && exists k: nat :: k <= PORT_RETRY_ATTEMPTS && free(k, r.value)
    ensures r.Some? ==> r == preferred || (!(preferred.Some? && force) && lo <= r.value < hi)
  {
    if preferred.Some? && preferred.value !in used
       && (exists k: nat :: k < PORT_RETRY_ATTEMPTS && free(k, preferred.value))
    then preferred
    else if preferred.Some? && force then None
    else LeastFree(lo, hi, used, free, PORT_RETRY_ATTEMPTS)
  }

  class Table {
    var instances: map<Uuid, Instance>
    var usedPorts: set<nat>

    /** allocate_port_async: the preferred port if some attempt finds it free; otherwise the least free
        port of the range, unless the caller insists. */
    method AllocatePort(preferred: Option<nat>, force: bool, lo: nat, hi: nat, free: (nat, nat) -> bool)
      returns (r: Option<nat>)
      ensures r == PortFor(preferred, force, lo, hi, usedPorts, free)
      ensures r.Some? ==> r.value !in usedPorts
      ensures (preferred.Some? && preferred.value !in usedPorts
               && exists k: nat :: k < 20 && free(k, preferred.value)) ==> r == preferred
      ensures (r.Some? && r != preferred) ==>
        (&& lo <= r.value < hi && !(preferred.Some? && force) && free(20, r.value)
         && forall p :: lo <= p < r.value ==> p in usedPorts || !free(20, p))
      ensures (r.None? && !(preferred.Some? && force)) ==>
        forall p :: lo <= p < hi ==> p in usedPorts || !free(20, p)
    {
      if preferred.Some? {
        for k := 0 to 20
          invariant preferred.value !in usedPorts ==> forall j :: 0 <= j < k ==> !free(j, preferred.value)
        {
          if preferred.value !in usedPorts && free(k, preferred.value) {
            return preferred;
          }
        }
        if force {
          return None;
        }
      }
      var port := lo;
      while port < hi
        invariant LeastFree(lo, hi, usedPorts, free, PORT_RETRY_ATTEMPTS)
               == LeastFree(port, hi, usedPorts, free, PORT_RETRY_ATTEMPTS)
      {
        if port !in usedPorts && free(PORT_RETRY_ATTEMPTS, port) {
          return Some(port);
        }
        port := port + 1;
      }
      return None;
    }

    constructor ()
      ensures instances == map[] && usedPorts == {}
    {
      instances, usedPorts := map[], {};
    }

    /** The end of start_instance. */
    method Register(uuid: Uuid, proc: nat, port: nat, ghost s: State)
      requires s.lock == Chosen(uuid, port) && s.started == proc && s.instances == instances && s.used == usedPorts
      modifies this
      ensures instances == Step(s, Commit).instances && usedPorts == Step(s, Commit).used
    {
      usedPorts := usedPorts + {port};
      instances := instances[uuid := Instance(proc, port)];
    }

    /** stop_instance up to the point where it ends the process. */
    method StopInstance(uuid: Uuid, ghost s: State) returns (proc: Option<nat>)
      requires s.lock.Free? && s.instances == instances && s.used == usedPorts
      modifies this
      ensures instances == Step(s, Stop(uuid)).instances && usedPorts == Step(s, Stop(uuid)).used
      ensures proc == if uuid in old(instances) then Some(old(instances)[uuid].proc) else None
    {
      if uuid !in instances {
        return None;
      }
      var inst := instances[uuid];
      instances := instances - {uuid};
      usedPorts := usedPorts - {inst.port};
      return Some(inst.proc);
    }

    /** _watch_process behind proc.wait(). */
    method ExitWatcher(uuid: Uuid, proc: nat, ghost s: State)
      requires s.lock.Free? && proc in s.dead && s.instances == instances && s.used == usedPorts
      modifies this
      ensures instances == Step(s, Watch(uuid, proc)).instances && usedPorts == Step(s, Watch(uuid, proc)).used
    {
      if uuid in instances && instances[uuid].proc == proc {
        usedPorts := usedPorts - {instances[uuid].port};
        instances := instances - {uuid};
      }
    }
  }
}
