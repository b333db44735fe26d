/** The reconciler of dedicated listeners (port_manager.py:61-160, 168-173 and 207-245). Whether a
    listener comes up on a port is an outcome given from outside. */
module PortSync {
  import opened Bytes

  type Uuid = string

  /** A listen port; 0 is the panel's own. */
  type Port = nat

  datatype Kind = VMess | Ss

  datatype Link = Link(active: bool, core: string, protocol: string, port: Port)

  /** What a raw TCP server is registered with. */
  datatype Entry = Entry(kind: Kind, uuid: Uuid)

  /** The keys of _uvicorn_servers and port_errors, and _tcp_servers. */
  datatype State = State(tcp: map<Port, Entry>, http: set<Port>, errors: set<Port>)

  function TcpKind(protocol: string): (k: Option<Kind>)
    ensures k == Some(VMess) <==> protocol == "vmess-tcp"
    ensures k == Some(Ss) <==> protocol == "shadowsocks-tcp"
  {
    if protocol == "vmess-tcp" then Some(VMess)
    else if protocol == "shadowsocks-tcp" then Some(Ss)
    else None
  }

  /** The link needs a listener of its own from this process. */
  predicate Wants(l: Link, panel: Port) {
    && l.active && (l.core == "" || l.core == "unicorn") && l.protocol != "mtproto"
    && l.port != 0 && l.port != panel
  }

  /** An inactive link, one of a foreign core, an MTProto link and one on the panel's port want nothing here;
      every other link does. */
  lemma WantsExactlyWhen(l: Link, panel: Port)
    ensures Wants(l, panel) <==>
      l.active && l.core in {"", "unicorn"} && l.protocol != "mtproto" && l.port !in {0, panel}
  {
  }

  predicate WantsTcp(l: Link, panel: Port) {
    Wants(l, panel) && TcpKind(l.protocol).Some?
  }

  predicate WantsHttp(l: Link, panel: Port) {
    Wants(l, panel) && TcpKind(l.protocol).None?
  }

  type Snapshot = seq<(Uuid, Link)>

  /** The raw TCP servers needed; of two links on one port the later one counts. */
  function NeededTcp(links: Snapshot, panel: Port): map<Port, Entry> {
    if links == [] then map[]
    else
      var before := NeededTcp(links[..|links| - 1], panel);
      var (uid, l) := links[|links| - 1];
      if WantsTcp(l, panel) then before[l.port := Entry(TcpKind(l.protocol).value, uid)] else before
  }

  function NeededHttp(links: Snapshot, panel: Port): set<Port> {
    if links == [] then {}
    else
      var before := NeededHttp(links[..|links| - 1], panel);
      var l := links[|links| - 1].1;
      if WantsHttp(l, panel) then before + {l.port} else before
  }

  lemma {:induction false} NeededTcpIs(links: Snapshot, panel: Port, p: Port)
    ensures p in NeededTcp(links, panel) <==>
      exists i: nat :: i < |links| && WantsTcp(links[i].1, panel) && links[i].1.port == p
    ensures p in NeededTcp(links, panel) ==> exists i: nat ::
      && i < |links| && WantsTcp(links[i].1, panel) && links[i].1.port == p
      && NeededTcp(links, panel)[p] == Entry(TcpKind(links[i].1.protocol).value, links[i].0)
      && forall j: nat :: i < j < |links| && WantsTcp(links[j].1, panel) ==> links[j].1.port != p
  {
    if links == [] {
    } else {
      var n := |links| - 1;
      NeededTcpIs(links[..n], panel, p);
      if WantsTcp(links[n].1, panel) && links[n].1.port == p {
        assert p in NeededTcp(links, panel);
      } else {
        assert p in NeededTcp(links, panel) <==> p in NeededTcp(links[..n], panel);
        assert forall i: nat :: i < n ==> links[..n][i] == links[i];
      }
    }
  }

  lemma {:induction false} NeededHttpIs(links: Snapshot, panel: Port, p: Port)
    ensures p in NeededHttp(links, panel) <==>
      exists i: nat :: i < |links| && WantsHttp(links[i].1, panel) && links[i].1.port == p
  {
    if links == [] {
    } else {
      var n := |links| - 1;
      NeededHttpIs(links[..n], panel, p);
      assert forall i: nat :: i < n ==> links[..n][i] == links[i];
    }
  }

  // ---------------------------------------------------------------- one listener

  datatype Event =
    | StopTcp(port: Port)
    | StopHttp(port: Port)
    | StartTcp(port: Port, entry: Entry, up: bool)
    | StartHttp(port: Port, up: bool)

  /** Each of these runs under its registry's lock; a port that is registered is left alone. */
  function Step(s: State, e: Event): State {
    match e
    case StopTcp(p) => s.(tcp := s.tcp - {p})
    case StopHttp(p) => s.(http := s.http - {p})
    case StartTcp(p, entry, up) =>
      if p in s.tcp then s
      else if up then s.(tcp := s.tcp[p := entry], errors := s.errors - {p})
      else s.(errors := s.errors + {p})
    case StartHttp(p, up) =>
      if p in s.http then s
      else if up then s.(http := s.http + {p}, errors := s.errors - {p})
      else s.(errors := s.errors + {p})
  }

  /** What _sync_link does for one link, if anything: it knows the link's present port only. */
  function EventFor(l: Link, uid: Uuid, panel: Port, up: bool): Option<Event> {
    if (l.core != "" && l.core != "unicorn") || l.protocol == "mtproto" then None
    else if TcpKind(l.protocol).Some? then
      if l.active && l.port != 0 && l.port != panel then
        Some(StartTcp(l.port, Entry(TcpKind(l.protocol).value, uid), up))
      else Some(StopTcp(l.port))
    else if l.port != 0 && l.port != panel && l.active then Some(StartHttp(l.port, up))
    else None
  }

  function Run(s: State, es: seq<Event>): State
    decreases |es|
  {
    if es == [] then s else Run(Step(s, es[0]), es[1..])
  }

  /** One link's synchronization changes no other port. A link that wants a listener has it if the bind goes
      well, or if one stood there; an own TCP link that wants none loses its port's; HTTP listeners stay. */
  lemma OneLinkIsServed(s: State, l: Link, uid: Uuid, panel: Port, up: bool)
    ensures
      var e := EventFor(l, uid, panel, up);
      var t := if e.Some? then Step(s, e.value) else s;
      && t.tcp - {l.port} == s.tcp - {l.port} && t.http - {l.port} == s.http - {l.port}
      && (WantsTcp(l, panel) ==>
            && (l.port in t.tcp <==> l.port in s.tcp || up) && t.http == s.http
            && (l.port in t.tcp && l.port !in s.tcp ==> t.tcp[l.port] == Entry(TcpKind(l.protocol).value, uid)))
      && (WantsHttp(l, panel) ==> (l.port in t.http <==> l.port in s.http || up) && t.tcp == s.tcp)
      && (!WantsTcp(l, panel) && !WantsHttp(l, panel) ==>
            && t.http == s.http
            && t.tcp == if l.core in {"", "unicorn"} && l.protocol != "mtproto" && TcpKind(l.protocol).Some?
                        then s.tcp - {l.port} else s.tcp)
  {
  }

  /** e tries to bind p, which is not registered in its kind yet. */
  predicate Tries(s: State, e: Event, p: Port) {
    || (e.StartTcp? && e.port == p && p !in s.tcp)
    || (e.StartHttp? && e.port == p && p !in s.http)
  }

  /** A port is on the error list exactly when the last attempt to bind it, in either kind, failed. */
  lemma {:induction false} ErrorIsLastOutcome(s: State, e: Event, more: seq<Event>, p: Port)
    requires Tries(s, e, p)
    requires forall i: nat :: i < |more| ==> !Tries(Run(s, [e] + more[..i]), more[i], p)
    ensures p in Run(s, [e] + more).errors <==> !e.up
    decreases |more|
  {
    var n := |more|;
    if n == 0 {
      assert [e] + more == [e] && Run(s, [e]) == Step(s, e);
    } else {
      var front := more[..n - 1];
      assert forall i: nat :: i < n - 1 ==> front[..i] == more[..i] && front[i] == more[i];
      ErrorIsLastOutcome(s, e, front, p);
      RunSnoc(s, [e] + front, more[n - 1]);
      assert [e] + front + [more[n - 1]] == [e] + more;
      assert !Tries(Run(s, [e] + front), more[n - 1], p);
    }
  }

  lemma {:induction false} RunSnoc(s: State, es: seq<Event>, e: Event)
    ensures Run(s, es + [e]) == Step(Run(s, es), e)
    decreases |es|
  {
    if es == [] {
      assert es + [e] == [e] && Run(s, [e]) == Step(s, e);
    } else {
      assert (es + [e])[1..] == es[1..] + [e];
      RunSnoc(Step(s, es[0]), es[1..], e);
    }
  }

  /** What is needed, from both kinds. */
  datatype Need = Need(tcp: map<Port, Entry>, http: set<Port>)

  function NeedOf(links: Snapshot, panel: Port): Need {
    Need(NeededTcp(links, panel), NeededHttp(links, panel))
  }

  /** A step some reconciliation for the need may take: it stops what is not needed and starts what is. */
  predicate Serves(e: Event, need: Need) {
    match e
    case StopTcp(p) => p !in need.tcp
    case StopHttp(p) => p !in need.http
    case StartTcp(p, entry, up) => p in need.tcp && entry == need.tcp[p]
    case StartHttp(p, up) => p in need.http
  }

  lemma {:induction false} TcpAfter(s: State, need: Need, es: seq<Event>, p: Port)
    requires forall e :: e in es ==> Serves(e, need)
    ensures
      var t := Run(s, es);
      && (p in need.tcp ==>
            && (p in t.tcp <==> p in s.tcp || StartTcp(p, need.tcp[p], true) in es)
            && (p in t.tcp ==> t.tcp[p] == if p in s.tcp then s.tcp[p] else need.tcp[p]))
      && (p !in need.tcp ==>
            && (p in t.tcp <==> p in s.tcp && StopTcp(p) !in es)
            && (p in t.tcp ==> t.tcp[p] == s.tcp[p]))
    decreases |es|
  {
    if es == [] {
    } else {
      assert Serves(es[0], need);
      TcpAfter(Step(s, es[0]), need, es[1..], p);
      assert es == [es[0]] + es[1..];
    }
  }

  lemma {:induction false} HttpAfter(s: State, need: Need, es: seq<Event>, p: Port)
    requires forall e :: e in es ==> Serves(e, need)
    ensures
      var t := Run(s, es);
      && (p in need.http ==> (p in t.http <==> p in s.http || StartHttp(p, true) in es))
      && (p !in need.http ==> (p in t.http <==> p in s.http && StopHttp(p) !in es))
    decreases |es|
  {
    if es == [] {
    } else {
      assert Serves(es[0], need);
      HttpAfter(Step(s, es[0]), need, es[1..], p);
      assert es == [es[0]] + es[1..];
    }
  }

  /** Every needed port got a start that went well and every superfluous one a stop. */
  predicate Complete(s: State, need: Need, es: seq<Event>) {
    && (forall p: Port :: p in s.tcp && p !in need.tcp ==> StopTcp(p) in es)
    && (forall p: Port :: p in s.http && p !in need.http ==> StopHttp(p) in es)
    && (forall p: Port :: p in need.tcp && p !in s.tcp ==> StartTcp(p, need.tcp[p], true) in es)
    && (forall p: Port :: p in need.http && p !in s.http ==> StartHttp(p, true) in es)
  }

  /** Any number of reconciliations for one need, interleaved in any way and with any failed attempts
      between: the registries end up with exactly the needed ports if and only if the steps were
      complete. */
  lemma AnyInterleavingConverges(s: State, need: Need, es: seq<Event>)
    requires forall e :: e in es ==> Serves(e, need)
    ensures (Run(s, es).tcp.Keys == need.tcp.Keys && Run(s, es).http == need.http) <==> Complete(s, need, es)
  {
    var t := Run(s, es);
    if Complete(s, need, es) {
      forall p: Port
        ensures p in t.tcp <==> p in need.tcp
        ensures p in t.http <==> p in need.http
      {
        TcpAfter(s, need, es, p);
        HttpAfter(s, need, es, p);
      }
    }
    if t.tcp.Keys == need.tcp.Keys && t.http == need.http {
      forall p: Port
        ensures p in s.tcp && p !in need.tcp ==> StopTcp(p) in es
        ensures p in need.tcp && p !in s.tcp ==> StartTcp(p, need.tcp[p], true) in es
      {
        TcpAfter(s, need, es, p);
        assert p in t.tcp.Keys <==> p in need.tcp.Keys;
      }
      forall p: Port
        ensures p in s.http && p !in need.http ==> StopHttp(p) in es
        ensures p in need.http && p !in s.http ==> StartHttp(p, true) in es
      {
        HttpAfter(s, need, es, p);
        assert p in t.http <==> p in need.http;
      }
    }
  }

  // ---------------------------------------------------------------- one whole run

  /** Whether the raw server or the HTTP listener comes up when a run tries the port. */
  datatype Outcome = Outcome(tcp: Port -> bool, http: Port -> bool)

  /** What a run leaves behind. */
  ghost predicate Synced(s: State, need: Need, o: Outcome, t: State) {
    && (forall p: Port :: p in t.tcp <==> p in need.tcp && (p in s.tcp || o.tcp(p)))
    && (forall p: Port :: p in t.tcp ==> t.tcp[p] == if p in s.tcp then s.tcp[p] else need.tcp[p])
    && (forall p: Port :: p in t.http <==> p in need.http && (p in s.http || o.http(p)))
    && (forall p: Port :: p in t.errors <==>
          if p in need.http && p !in s.http then !o.http(p)
          else if p in need.tcp && p !in s.tcp then !o.tcp(p)
          else p in s.errors)
  }

  predicate AllUp(need: Need, o: Outcome) {
    && (forall p: Port :: p in need.tcp ==> o.tcp(p))
    && (forall p: Port :: p in need.http ==> o.http(p))
  }

  /** If everything that is tried comes up, the registries hold exactly what the links need, and they
      are disjoint if and only if no port is wanted in both kinds. */
  lemma SyncReachesTheNeed(s: State, need: Need, o: Outcome, t: State)
    requires Synced(s, need, o, t) && AllUp(need, o)
    ensures t.tcp.Keys == need.tcp.Keys && t.http == need.http
    ensures t.tcp.Keys !! t.http <==> need.tcp.Keys !! need.http
    ensures forall p: Port :: p in t.errors ==> p in s.errors
  {
    assert forall p: Port :: p in need.tcp ==> p in t.tcp.Keys;
    assert forall p: Port :: p in need.http ==> p in t.http;
  }

  /** A second run for the same need changes no listener, whatever its outcomes when the first
      brought up all, and with the same outcomes in any case; nor an error, if no port is wanted in
      both kinds. */
  lemma SecondRunChangesNothing(s: State, need: Need, o: Outcome, t: State, o2: Outcome, t2: State)
    requires Synced(s, need, o, t) && Synced(t, need, o2, t2)
    requires o2 == o || (need.tcp.Keys <= t.tcp.Keys && need.http <= t.http)
    ensures t2.tcp == t.tcp && t2.http == t.http
    ensures need.tcp.Keys !! need.http ==> t2 == t
  {
    assert t2.tcp.Keys == t.tcp.Keys;
    assert t2.tcp == t.tcp;
    assert t2.http == t.http;
    if need.tcp.Keys !! need.http {
      assert t2.errors == t.errors;
    }
  }

  /** No needed port is forgotten: it has a listener of its kind, or an error is on record for it. */
  lemma MissingPortsHaveErrors(s: State, need: Need, o: Outcome, t: State, p: Port)
    requires Synced(s, need, o, t) && (p in need.tcp || p in need.http)
    requires !(p in need.tcp && p in need.http)
    ensures (p in t.tcp || p in t.http) || p in t.errors
  {
  }

  /** The registered server is the one the links ask for, kind and uuid, on every needed port, if and
      only if no server from before stands on such a port for something else: a port that passed from
      one link to another keeps its old server. */
  lemma EntriesAgreeExactlyWhen(s: State, need: Need, o: Outcome, t: State)
    requires Synced(s, need, o, t) && AllUp(need, o)
    ensures t.tcp == need.tcp <==> forall p: Port :: p in s.tcp && p in need.tcp ==> s.tcp[p] == need.tcp[p]
  {
    SyncReachesTheNeed(s, need, o, t);
    if forall p: Port :: p in s.tcp && p in need.tcp ==> s.tcp[p] == need.tcp[p] {
      assert forall p: Port :: p in t.tcp ==> t.tcp[p] == need.tcp[p];
    }
  }

  /** What the link table keeps (ListenPorts): no two links share a port other than the panel's. */
  predicate DistinctPorts(links: Snapshot) {
    forall i: nat, j: nat :: i < j < |links| && links[i].1.port != 0 ==> links[i].1.port != links[j].1.port
  }

  /** With distinct ports no port is wanted in both kinds. */
  lemma DistinctPortsAreDisjoint(links: Snapshot, panel: Port)
    requires DistinctPorts(links)
    ensures NeededTcp(links, panel).Keys !! NeededHttp(links, panel)
  {
    forall p: Port | p in NeededTcp(links, panel)
      ensures p !in NeededHttp(links, panel)
    {
      NeededTcpIs(links, panel, p);
      NeededHttpIs(links, panel, p);
      var i: nat :| i < |links| && WantsTcp(links[i].1, panel) && links[i].1.port == p;
      assert forall j: nat :: j < |links| && links[j].1.port == p ==> j == i;
      assert !WantsHttp(links[i].1, panel);
    }
  }

  /** Then, if everything comes up, every link that wants a port of its own has a listener of its kind
      on it, no listener of the other kind, and a newly started raw server serves that very link. */
  lemma EveryLinkIsServed(s: State, links: Snapshot, panel: Port, o: Outcome, t: State, i: nat)
    requires DistinctPorts(links) && i < |links| && Wants(links[i].1, panel)
    requires Synced(s, NeedOf(links, panel), o, t) && AllUp(NeedOf(links, panel), o)
    ensures
      var (uid, l) := links[i];
      var kind := TcpKind(l.protocol);
      && (kind.Some? ==> l.port in t.tcp && l.port !in t.http
                         && (l.port !in s.tcp ==> t.tcp[l.port] == Entry(kind.value, uid)))
      && (kind.None? ==> l.port in t.http && l.port !in t.tcp)
  {
    var p := links[i].1.port;
    DistinctPortsAreDisjoint(links, panel);
    NeededTcpIs(links, panel, p);
    NeededHttpIs(links, panel, p);
    assert WantsTcp(links[i].1, panel) || WantsHttp(links[i].1, panel);
    if p in NeededTcp(links, panel) {
      var k: nat :| k < |links| && WantsTcp(links[k].1, panel) && links[k].1.port == p
                    && NeededTcp(links, panel)[p] == Entry(TcpKind(links[k].1.protocol).value, links[k].0);
      assert k == i;
    }
  }

  lemma Inhabited(s: set<Port>)
    requires |s| > 0
    ensures exists p :: p in s
  {
    assert s != {};
  }

  class Listeners {
    var tcp: map<Port, Entry>
    var http: set<Port>
    var errors: set<Port>

    function Now(): State
      reads this
    {
      State(tcp, http, errors)
    }

    method StopTcpPort(p: Port) returns (stopped: bool)
      modifies this
      ensures Now() == Step(old(Now()), StopTcp(p)) && stopped == (p in old(tcp))
    {
      stopped := p in tcp;
      tcp := tcp - {p};
    }

    method StopUvicornPort(p: Port) returns (stopped: bool)
      modifies this
      ensures Now() == Step(old(Now()), StopHttp(p)) && stopped == (p in old(http))
    {
      stopped := p in http;
      http := http - {p};
    }

    method StartTcpPort(p: Port, entry: Entry, up: bool) returns (ok: bool)
      modifies this
      ensures Now() == Step(old(Now()), StartTcp(p, entry, up)) && ok == (p in tcp)
    {
      if p in tcp {
        return true;
      }
      if !up {
        errors := errors + {p};
        return false;
      }
      tcp := tcp[p := entry];
      errors := errors - {p};
      return true;
    }

    method StartUvicornPort(p: Port, up: bool) returns (ok: bool)
      modifies this
      ensures Now() == Step(old(Now()), StartHttp(p, up)) && ok == (p in http)
    {
      if p in http {
        return true;
      }
      http := http + {p};
      errors := errors - {p};
      if !up {
        http := http - {p};
        errors := errors + {p};
        return false;
      }
      return true;
    }

    /** _sync_link */
    method SyncLink(l: Link, uid: Uuid, panel: Port, up: bool)
      modifies this
      ensures
        var e := EventFor(l, uid, panel, up);
        Now() == if e.Some? then Step(old(Now()), e.value) else old(Now())
    {
      if (l.core != "" && l.core != "unicorn") || l.protocol == "mtproto" {
        return;
      }
      var kind := TcpKind(l.protocol);
      if kind.Some? {
        if l.active && l.port != 0 && l.port != panel {
          var _ := StartTcpPort(l.port, Entry(kind.value, uid), up);
        } else {
          var _ := StopTcpPort(l.port);
        }
        return;
      }
      if l.port != 0 && l.port != panel && l.active {
        var _ := StartUvicornPort(l.port, up);
      }
    }

    /** What the links of the snapshot need. */
    method Gather(links: Snapshot, panel: Port) returns (need: Need)
      ensures need == NeedOf(links, panel)
    {
      var neededTcp: map<Port, Entry> := map[];
      var neededHttp: set<Port> := {};
      for i := 0 to |links|
        invariant neededTcp == NeededTcp(links[..i], panel) && neededHttp == NeededHttp(links[..i], panel)
      {
        assert links[..i + 1][..i] == links[..i];
        var (uid, l) := links[i];
        if !l.active || (l.core != "" && l.core != "unicorn") || l.protocol == "mtproto" {
          continue;
        }
        if l.port == 0 || l.port == panel {
          continue;
        }
        var kind := TcpKind(l.protocol);
        if kind.Some? {
          neededTcp := neededTcp[l.port := Entry(kind.value, uid)];
        } else {
          neededHttp := neededHttp + {l.port};
        }
      }
      assert links[..|links|] == links;
      need := Need(neededTcp, neededHttp);
    }

    method StopSuperfluous(need: Need)
      modifies this
      ensures forall p: Port :: p in tcp <==> p in old(tcp) && p in need.tcp
      ensures forall p: Port :: p in tcp ==> tcp[p] == old(tcp)[p]
      ensures forall p: Port :: p in http <==> p in old(http) && p in need.http
      ensures errors == old(errors)
    {
      var ports := tcp.Keys;
      while |ports| > 0
        invariant ports <= old(tcp).Keys && http == old(http) && errors == old(errors)
        invariant forall p: Port :: p in tcp <==> p in old(tcp) && (p in need.tcp || p in ports)
        invariant forall p: Port :: p in tcp ==> tcp[p] == old(tcp)[p]
        decreases |ports|
      {
        Inhabited(ports);
        var p :| p in ports;
        if p !in need.tcp {
          var _ := StopTcpPort(p);
        }
        ports := ports - {p};
      }
      ports := http;
      while |ports| > 0
        invariant ports <= old(http) && errors == old(errors)
        invariant forall p: Port :: p in http <==> p in old(http) && (p in need.http || p in ports)
        invariant forall p: Port :: p in tcp <==> p in old(tcp) && p in need.tcp
        invariant forall p: Port :: p in tcp ==> tcp[p] == old(tcp)[p]
        decreases |ports|
      {
        Inhabited(ports);
        var p :| p in ports;
        if p !in need.http {
          var _ := StopUvicornPort(p);
        }
        ports := ports - {p};
      }
    }

    method StartTcpPorts(need: map<Port, Entry>, up: Port -> bool)
      modifies this
      ensures http == old(http)
      ensures forall p: Port :: p in tcp <==> p in old(tcp) || (p in need && up(p))
      ensures forall p: Port :: p in tcp ==> tcp[p] == if p in old(tcp) then old(tcp)[p] else need[p]
      ensures forall p: Port :: p in errors <==> if p in need && p !in old(tcp) then !up(p) else p in old(errors)
    {
      var ports := need.Keys;
      while |ports| > 0
        invariant ports <= need.Keys && http == old(http)
        invariant forall p: Port :: p in tcp <==> p in old(tcp) || (p in need && p !in ports && up(p))
        invariant forall p: Port :: p in tcp ==> tcp[p] == if p in old(tcp) then old(tcp)[p] else need[p]
        invariant forall p: Port :: p in errors <==>
          if p in need && p !in ports && p !in old(tcp) then !up(p) else p in old(errors)
        decreases |ports|
      {
        Inhabited(ports);
        var p :| p in ports;
        var _ := StartTcpPort(p, need[p], up(p));
        ports := ports - {p};
      }
    }

    method StartHttpPorts(need: set<Port>, up: Port -> bool)
      modifies this
      ensures tcp == old(tcp)
      ensures forall p: Port :: p in http <==> p in old(http) || (p in need && up(p))
      ensures forall p: Port :: p in errors <==> if p in need && p !in old(http) then !up(p) else p in old(errors)
    {
      var ports := need;
      while |ports| > 0
        invariant ports <= need && tcp == old(tcp)
        invariant forall p: Port :: p in http <==> p in old(http) || (p in need && p !in ports && up(p))
        invariant forall p: Port :: p in errors <==>
          if p in need && p !in ports && p !in old(http) then !up(p) else p in old(errors)
        decreases |ports|
      {
        Inhabited(ports);
        var p :| p in ports;
        var _ := StartUvicornPort(p, up(p));
        ports := ports - {p};
      }
    }

    /** sync_all. */
    method SyncAll(links: Snapshot, panel: Port, o: Outcome)
      modifies this
      ensures Synced(old(Now()), NeedOf(links, panel), o, Now())
    {
      var need := Gather(links, panel);
      StopSuperfluous(need);
      StartTcpPorts(need.tcp, o.tcp);
      StartHttpPorts(need.http, o.http);
    }
  }
}
