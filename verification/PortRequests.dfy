/** The listeners over runs of requests (main.py:1968-1974, 2058-2110, 2238-2299, port_manager.py:181-204):
    between two whole reconciliations only the link of the request is looked at. Requests are served one
    at a time and every bind goes well. */
module PortRequests {
  import opened Bytes
  import opened PortSync
  import ListenPorts

  /** The links, the keys of the two registries, and what the accepted requests were so far: lit are the
      links that wanted a listener when their port was last set, or at the last reconciliation, and have not
      lost it to a release since; left are the ports such links have gone away from since then, for each
      kind of listener. */
  datatype Table = Table(links: map<Uuid, Link>, tcp: set<Port>, http: set<Port>, lit: set<Uuid>,
                         leftTcp: set<Port>, leftHttp: set<Port>)

  const EMPTY := Table(map[], {}, {}, {}, {}, {})

  /** inst is the port on which the request's MTProto process comes up, if it starts one and that goes
      well; ListenPorts says which port that is. */
  datatype Request =
    | Create(uid: Uuid, link: Link, inst: Option<Port>)
    | Patch(uid: Uuid, active: Option<bool>, port: Option<Port>, inst: Option<Port>)
    | Delete(uid: Uuid)
    /** sync_all, as at start-up */
    | Reconcile

  /** Neither the panel's, nor another link's, nor one a listener of this process has. */
  predicate Free(t: Table, panel: Port, uid: Uuid, p: Port) {
    && p != panel && p !in t.tcp && p !in t.http
    && forall u :: u in t.links && u != uid ==> t.links[u].port != p
  }

  /** _sync_link: it starts the link's listener, or stops a raw server on the link's new port; it does not
      know the old one. */
  function SyncLink(t: Table, panel: Port, l: Link): Table {
    if (l.core != "" && l.core != "unicorn") || l.protocol == "mtproto" then t
    else if TcpKind(l.protocol).Some? then
      if l.active && l.port != 0 && l.port != panel then t.(tcp := t.tcp + {l.port}) else t.(tcp := t.tcp - {l.port})
    else if l.port != 0 && l.port != panel && l.active then t.(http := t.http + {l.port})
    else t
  }

  /** A link is moved away from its port; nobody stops the listener it may have there. */
  function Leave(t: Table, u: Uuid): Table
    requires u in t.links
  {
    if u !in t.lit then t
    else if TcpKind(t.links[u].protocol).Some? then
      t.(lit := t.lit - {u}, leftTcp := t.leftTcp + {t.links[u].port})
    else t.(lit := t.lit - {u}, leftHttp := t.leftHttp + {t.links[u].port})
  }

  predicate IsMtproto(l: Link) {
    l.protocol == "mtproto"
  }

  /** A process cannot come up where this process listens already. */
  function Outcome(t: Table, panel: Port, inst: Option<Port>): Option<Port> {
    if inst.Some? && inst.value != panel && inst.value !in t.tcp && inst.value !in t.http then inst else None
  }

  /** What a started MTProto process leaves in the link's port. */
  function Settle(l: Link, inst: Port): Link {
    if l.port != 0 then l.(port := inst) else l
  }

  /** An MTProto link after an accepted patch; l is the link as the request found it. */
  function PatchedMtproto(l: Link, moved: Link, active: Option<bool>, inst: Option<Port>): Link {
    if active == Some(true) && !l.active then
      if inst.None? then moved.(active := false) else Settle(moved, inst.value)
    else if active == Some(false) && l.active then moved
    else if moved.port != l.port && inst.Some? then Settle(moved, inst.value)
    else moved
  }

  /** The release after a deletion: unless an active link has the port, every listener on it is stopped,
      also one that an inactive link was given. */
  function Release(t: Table, p: Port): Table {
    t.(tcp := t.tcp - {p}, http := t.http - {p}, leftTcp := t.leftTcp - {p}, leftHttp := t.leftHttp - {p},
       lit := set v | v in t.lit && !(v in t.links && t.links[v].port == p))
  }

  function Step(panel: Port, t: Table, r: Request): Table {
    match r
    case Create(u, link, inst) =>
      var l := link.(active := true);
      if u in t.links || (l.port != 0 && !Free(t, panel, u, l.port)) then t
      else if IsMtproto(l) then
        var q := Outcome(t, panel, inst);
        if q.None? then t else t.(links := t.links[u := Settle(l, q.value)])
      else
        SyncLink(t.(links := t.links[u := l], lit := if Wants(l, panel) then t.lit + {u} else t.lit), panel, l)
    case Patch(u, active, port, inst) =>
      if u !in t.links then t
      else
        var old' := t.links[u];
        var toggled := old'.(active := if active.Some? then active.value else old'.active);
        var p := if port.Some? then port.value else old'.port;
        if p != old'.port && p != 0 && !Free(t, panel, u, p) then t.(links := t.links[u := toggled])
        else if IsMtproto(old') then
          t.(links := t.links[u := PatchedMtproto(old', toggled.(port := p), active, Outcome(t, panel, inst))])
        else if p == old'.port then t.(links := t.links[u := toggled])
        else
          var l := toggled.(port := p);
          var moved := Leave(t, u);
          SyncLink(moved.(links := t.links[u := l],
                          lit := if Wants(l, panel) then moved.lit + {u} else moved.lit), panel, l)
    case Delete(u) =>
      if u !in t.links then t
      else
        var p := t.links[u].port;
        var rest := Leave(t, u).(links := t.links - {u});
        if p == 0 || exists v :: v in rest.links && rest.links[v].port == p && rest.links[v].active then rest
        else Release(rest, p)
    case Reconcile =>
      Table(t.links, NeedTcp(t.links, panel), NeedHttp(t.links, panel),
            Wanting(t.links, panel), {}, {})
  }

  function Run(panel: Port, t: Table, rs: seq<Request>): Table
    decreases |rs|
  {
    if rs == [] then t else Run(panel, Step(panel, t, rs[0]), rs[1..])
  }

  // ---------------------------------------------------------------- what each request does

  /** A link of another protocol than MTProto is created on port 0 or a free one: it is entered as active,
      and has its listener at once if it wants one. On any other port nothing happens. */
  lemma CreateExactly(panel: Port, t: Table, u: Uuid, link: Link)
    requires u !in t.links && !IsMtproto(link) && 0 !in t.tcp
    ensures
      var l, next := link.(active := true), Step(panel, t, Create(u, link, None));
      if link.port == 0 || Free(t, panel, u, link.port) then
        && next.links == t.links[u := l]
        && next.tcp == (if WantsTcp(l, panel) then t.tcp + {l.port} else t.tcp)
        && next.http == (if WantsHttp(l, panel) then t.http + {l.port} else t.http)
      else next == t
  {
    assert link.port !in t.tcp ==> t.tcp - {link.port} == t.tcp;
  }

  /** Such a link is moved to port 0 or a free one: the new listener is started if the link wants one, and
      the old one is not stopped. A port that is taken leaves the link where it is; `active` is stored. */
  lemma MoveExactly(panel: Port, t: Table, u: Uuid, active: Option<bool>, p: Port)
    requires u in t.links && !IsMtproto(t.links[u]) && t.links[u].port != p && 0 !in t.tcp
    ensures
      var l := t.links[u].(active := if active.Some? then active.value else t.links[u].active);
      var next := Step(panel, t, Patch(u, active, Some(p), None));
      if p == 0 || Free(t, panel, u, p) then
        && next.links == t.links[u := l.(port := p)]
        && next.tcp == (if WantsTcp(l.(port := p), panel) then t.tcp + {p} else t.tcp)
        && next.http == (if WantsHttp(l.(port := p), panel) then t.http + {p} else t.http)
      else next.links == t.links[u := l] && next.tcp == t.tcp && next.http == t.http
  {
    assert p !in t.tcp ==> t.tcp - {p} == t.tcp;
  }

  /** Switching a link on or off starts and stops nothing. */
  lemma ToggleExactly(panel: Port, t: Table, u: Uuid, active: bool)
    requires u in t.links && !IsMtproto(t.links[u])
    ensures Step(panel, t, Patch(u, Some(active), None, None))
         == t.(links := t.links[u := t.links[u].(active := active)])
  {
  }

  /** Deleting a link stops what listens on its port, unless an active link has that port. */
  lemma DeleteExactly(panel: Port, t: Table, u: Uuid)
    requires u in t.links
    ensures
      var p, rest, next := t.links[u].port, t.links - {u}, Step(panel, t, Delete(u));
      && next.links == rest
      && if p != 0 && (forall v :: v in rest && rest[v].port == p ==> !rest[v].active) then
           next.tcp == t.tcp - {p} && next.http == t.http - {p}
         else next.tcp == t.tcp && next.http == t.http
  {
  }

  /** An MTProto link ends where ListenPorts says it does, with whatever its process comes up on; the
      listeners are left alone. */
  lemma MtprotoAsInListenPorts(c: ListenPorts.Setup, s: ListenPorts.Start, l: Link, mport: Port,
                               active: Option<bool>, p: Port)
    requires IsMtproto(l)
    ensures
      var on := if active.Some? then active.value else l.active;
      var before := ListenPorts.Link(true, l.active, l.port, mport);
      var inst := if ListenPorts.Starts(before, active) then ListenPorts.SwitchOn(c, s, before)
                  else ListenPorts.StartOf(c, s, p);
      var there := ListenPorts.Moved(c, before, before.(active := on), p, active, s);
      var here := PatchedMtproto(l, l.(active := on, port := p), active, inst);
      here.port == there.port && here.active == there.active && here == l.(port := here.port, active := here.active)
  {
  }

  lemma MtprotoExactly(panel: Port, t: Table, u: Uuid, link: Link, active: Option<bool>, port: Option<Port>,
                       inst: Option<Port>)
    ensures
      var next := Step(panel, t, Create(u, link, inst));
      (&& IsMtproto(link) && u !in t.links && inst.Some? && inst.value !in t.tcp + t.http + {panel}
       && (link.port == 0 || Free(t, panel, u, link.port))) ==>
        next == t.(links := t.links[u := link.(active := true, port := if link.port == 0 then 0 else inst.value)])
    ensures
      var next := Step(panel, t, Patch(u, active, port, inst));
      u in t.links && IsMtproto(t.links[u]) ==>
        u in next.links && next == t.(links := t.links[u := next.links[u]])
  {
  }

  function NeedTcp(links: map<Uuid, Link>, panel: Port): set<Port> {
    set u | u in links && WantsTcp(links[u], panel) :: links[u].port
  }

  function NeedHttp(links: map<Uuid, Link>, panel: Port): set<Port> {
    set u | u in links && WantsHttp(links[u], panel) :: links[u].port
  }

  /** A snapshot of the table, as sync_all takes it. */
  predicate Lists(s: Snapshot, links: map<Uuid, Link>) {
    && (forall i :: 0 <= i < |s| ==> s[i].0 in links && links[s[i].0] == s[i].1)
    && (forall u :: u in links ==> (u, links[u]) in s)
  }

  /** On the keys of the registries SyncLink is the step of _sync_link. */
  lemma SyncLinkIsStep(t: Table, s: State, l: Link, uid: Uuid, panel: Port)
    requires s.tcp.Keys == t.tcp && s.http == t.http
    ensures
      var e := EventFor(l, uid, panel, true);
      var after := if e.Some? then PortSync.Step(s, e.value) else s;
      SyncLink(t, panel, l).tcp == after.tcp.Keys && SyncLink(t, panel, l).http == after.http
  {
  }

  /** Reconcile is what sync_all was shown to reach. */
  lemma ReconcileIsSyncAll(before: State, links: map<Uuid, Link>, s: Snapshot, panel: Port, o: Outcome, after: State)
    requires Lists(s, links) && Synced(before, NeedOf(s, panel), o, after) && AllUp(NeedOf(s, panel), o)
    ensures after.tcp.Keys == NeedTcp(links, panel) && after.http == NeedHttp(links, panel)
  {
    SyncReachesTheNeed(before, NeedOf(s, panel), o, after);
    forall p: Port
      ensures p in after.tcp.Keys <==> p in NeedTcp(links, panel)
      ensures p in after.http <==> p in NeedHttp(links, panel)
    {
      NeededTcpIs(s, panel, p);
      NeededHttpIs(s, panel, p);
      if u :| u in links && WantsTcp(links[u], panel) && links[u].port == p {
        var i :| 0 <= i < |s| && s[i] == (u, links[u]);
      }
      if u :| u in links && WantsHttp(links[u], panel) && links[u].port == p {
        var i :| 0 <= i < |s| && s[i] == (u, links[u]);
      }
    }
  }

  /** The link would have a listener of its own if it were active. */
  predicate Able(l: Link, panel: Port) {
    Wants(l.(active := true), panel)
  }

  // ---------------------------------------------------------------- the invariant

  function Wanting(links: map<Uuid, Link>, panel: Port): set<Uuid> {
    set u | u in links && Wants(links[u], panel)
  }

  /** The ports of some links, for one kind of listener. */
  function Ports(links: map<Uuid, Link>, some: set<Uuid>, raw: bool): set<Port> {
    set u | u in some && u in links && TcpKind(links[u].protocol).Some? == raw :: links[u].port
  }

  predicate SharesPort(links: map<Uuid, Link>, u: Uuid, v: Uuid)
    requires u in links && v in links
  {
    u != v && links[u].port != 0 && links[u].port == links[v].port
  }

  /** The ports of other links are distinct; an MTProto process may come up on a port that a link without
      a listener has. */
  predicate DistinctBut(links: map<Uuid, Link>, x: set<Uuid>) {
    forall u, v :: u in links && v in links && u !in x && v !in x && SharesPort(links, u, v) ==>
      IsMtproto(links[u]) || IsMtproto(links[v])
  }

  /** The listeners are those of the lit links and those left behind, which are no link's; links in x are
      between two ports. */
  ghost predicate InvBut(t: Table, panel: Port, x: set<Uuid>) {
    && DistinctBut(t.links, x)
    && (forall u :: u in t.lit ==> u in t.links && u !in x && Able(t.links[u], panel))
    && 0 !in t.leftTcp && 0 !in t.leftHttp
    && (forall u :: u in t.links && u !in x && !IsMtproto(t.links[u]) ==>
          t.links[u].port !in t.leftTcp && t.links[u].port !in t.leftHttp)
    && t.tcp == Ports(t.links, t.lit, true) + t.leftTcp
    && t.http == Ports(t.links, t.lit, false) + t.leftHttp
  }

  ghost predicate Inv(t: Table, panel: Port) {
    InvBut(t, panel, {})
  }

  lemma PortsOfOthers(links: map<Uuid, Link>, some: set<Uuid>, u: Uuid, l: Link, raw: bool)
    requires u !in some
    ensures Ports(links[u := l], some, raw) == Ports(links, some, raw) == Ports(links - {u}, some, raw)
  {
    assert forall v :: v in some ==> v != u;
    var a, b, c := Ports(links[u := l], some, raw), Ports(links, some, raw), Ports(links - {u}, some, raw);
    forall p: Port
      ensures p in a <==> p in b
      ensures p in b <==> p in c
    {
      if p in b {
        var v :| v in some && v in links && TcpKind(links[v].protocol).Some? == raw && links[v].port == p;
        assert v in links[u := l] && v in links - {u};
      }
    }
  }

  lemma PortsWith(links: map<Uuid, Link>, some: set<Uuid>, u: Uuid, raw: bool)
    requires u in links
    ensures Ports(links, some + {u}, raw)
         == Ports(links, some, raw) + if TcpKind(links[u].protocol).Some? == raw then {links[u].port} else {}
  {
  }

  predicate NoneIsMtproto(links: map<Uuid, Link>, some: set<Uuid>) {
    forall u :: u in some && u in links ==> !IsMtproto(links[u])
  }

  lemma PortsWithout(links: map<Uuid, Link>, some: set<Uuid>, u: Uuid, raw: bool)
    requires DistinctBut(links, {}) && u in links && u in some && links[u].port != 0 && NoneIsMtproto(links, some)
    ensures Ports(links, some - {u}, raw)
         == Ports(links, some, raw) - if TcpKind(links[u].protocol).Some? == raw then {links[u].port} else {}
  {
    PortsWith(links, some - {u}, u, raw);
    assert some - {u} + {u} == some;
    assert links[u].port !in Ports(links, some - {u}, raw);
  }

  lemma PortsOfSame(links: map<Uuid, Link>, some: set<Uuid>, u: Uuid, l: Link, raw: bool)
    requires u in links && l.port == links[u].port && l.protocol == links[u].protocol
    ensures Ports(links[u := l], some, raw) == Ports(links, some, raw)
  {
    var a, b := Ports(links[u := l], some, raw), Ports(links, some, raw);
    forall p: Port
      ensures p in a <==> p in b
    {
      if p in b {
        var v :| v in some && v in links && TcpKind(links[v].protocol).Some? == raw && links[v].port == p;
        assert v in links[u := l];
      }
    }
  }

  /** On a port without a listener there is nothing to stop. */
  lemma SyncLinkStarts(t: Table, panel: Port, l: Link)
    requires l.port !in t.tcp
    ensures SyncLink(t, panel, l) == t.(tcp := if WantsTcp(l, panel) then t.tcp + {l.port} else t.tcp,
                                        http := if WantsHttp(l, panel) then t.http + {l.port} else t.http)
  {
    assert t.tcp - {l.port} == t.tcp;
  }

  lemma PlaceWithout(panel: Port, t: Table, u: Uuid, l: Link)
    requires InvBut(t, panel, {u}) && (IsMtproto(l) || (l.port != 0 ==> Free(t, panel, u, l.port)))
    ensures Inv(t.(links := t.links[u := l]), panel)
  {
    var links := t.links[u := l];
    PortsOfOthers(t.links, t.lit, u, l, true);
    PortsOfOthers(t.links, t.lit, u, l, false);
    assert forall v :: v in links && v != u ==> v in t.links && links[v] == t.links[v];
  }

  lemma Light(panel: Port, t: Table, u: Uuid)
    requires Inv(t, panel) && u in t.links && Wants(t.links[u], panel)
    ensures
      var l := t.links[u];
      Inv(t.(lit := t.lit + {u}, tcp := if WantsTcp(l, panel) then t.tcp + {l.port} else t.tcp,
             http := if WantsHttp(l, panel) then t.http + {l.port} else t.http), panel)
  {
    PortsWith(t.links, t.lit, u, true);
    PortsWith(t.links, t.lit, u, false);
  }

  /** A link without a listener comes to a free port, or to 0, and gets what it wants there. */
  lemma PlaceKeeps(panel: Port, t: Table, u: Uuid, l: Link)
    requires InvBut(t, panel, {u})
    requires l.port != 0 ==> Free(t, panel, u, l.port)
    ensures Inv(SyncLink(t.(links := t.links[u := l],
                            lit := if Wants(l, panel) then t.lit + {u} else t.lit), panel, l), panel)
  {
    var placed := t.(links := t.links[u := l]);
    NoListenerAtZero(t, panel, {u});
    PlaceWithout(panel, t, u, l);
    SyncLinkStarts(placed.(lit := if Wants(l, panel) then t.lit + {u} else t.lit), panel, l);
    if Wants(l, panel) {
      Light(panel, placed, u);
    }
  }

  lemma NoListenerAtZero(t: Table, panel: Port, x: set<Uuid>)
    requires InvBut(t, panel, x)
    ensures 0 !in t.tcp && 0 !in t.http
  {
  }

  lemma LeaveKeeps(panel: Port, t: Table, u: Uuid)
    requires Inv(t, panel) && u in t.links
    ensures InvBut(Leave(t, u), panel, {u})
  {
    if u in t.lit {
      PortsWithout(t.links, t.lit, u, true);
      PortsWithout(t.links, t.lit, u, false);
      var p := t.links[u].port;
      assert p in Ports(t.links, t.lit, TcpKind(t.links[u].protocol).Some?);
    }
  }

  lemma ToggleKeeps(panel: Port, t: Table, u: Uuid, l: Link)
    requires Inv(t, panel) && u in t.links && l == t.links[u].(active := l.active)
    ensures Inv(t.(links := t.links[u := l]), panel)
  {
    PortsOfSame(t.links, t.lit, u, l, true);
    PortsOfSame(t.links, t.lit, u, l, false);
  }

  lemma PortsReleased(t: Table, p: Port, raw: bool)
    ensures Ports(t.links, Release(t, p).lit, raw) == Ports(t.links, t.lit, raw) - {p}
  {
    var a, b := Ports(t.links, Release(t, p).lit, raw), Ports(t.links, t.lit, raw) - {p};
    forall q: Port
      ensures q in a <==> q in b
    {
      if q in b {
        var v :| v in t.lit && v in t.links && TcpKind(t.links[v].protocol).Some? == raw && t.links[v].port == q;
        assert v in Release(t, p).lit;
      }
    }
  }

  lemma ReleaseKeeps(panel: Port, t: Table, p: Port)
    requires Inv(t, panel)
    ensures Inv(Release(t, p), panel)
  {
    PortsReleased(t, p, true);
    PortsReleased(t, p, false);
  }

  lemma RemoveKeeps(panel: Port, t: Table, u: Uuid)
    requires InvBut(t, panel, {u}) && u in t.links
    ensures Inv(t.(links := t.links - {u}), panel)
  {
    PortsOfOthers(t.links, t.lit, u, t.links[u], true);
    PortsOfOthers(t.links, t.lit, u, t.links[u], false);
  }

  lemma DeleteKeeps(panel: Port, t: Table, u: Uuid)
    requires Inv(t, panel) && u in t.links
    ensures Inv(Step(panel, t, Delete(u)), panel)
  {
    LeaveKeeps(panel, t, u);
    RemoveKeeps(panel, Leave(t, u), u);
    ReleaseKeeps(panel, Leave(t, u).(links := t.links - {u}), t.links[u].port);
  }

  lemma NeedIsPorts(links: map<Uuid, Link>, panel: Port)
    ensures NeedTcp(links, panel) == Ports(links, Wanting(links, panel), true)
    ensures NeedHttp(links, panel) == Ports(links, Wanting(links, panel), false)
  {
  }

  lemma PatchKeeps(panel: Port, t: Table, u: Uuid, active: Option<bool>, port: Option<Port>, inst: Option<Port>)
    requires Inv(t, panel) && u in t.links
    ensures Inv(Step(panel, t, Patch(u, active, port, inst)), panel)
  {
    var old' := t.links[u];
    var toggled := old'.(active := if active.Some? then active.value else old'.active);
    var p := if port.Some? then port.value else old'.port;
    ToggleKeeps(panel, t, u, toggled);
    if p == old'.port || p == 0 || Free(t, panel, u, p) {
      if IsMtproto(old') {
        PlaceWithout(panel, t, u, PatchedMtproto(old', toggled.(port := p), active, Outcome(t, panel, inst)));
      } else if p != old'.port {
        LeaveKeeps(panel, t, u);
        PlaceKeeps(panel, Leave(t, u), u, toggled.(port := p));
      }
    }
  }

  lemma StepKeeps(panel: Port, t: Table, r: Request)
    requires Inv(t, panel)
    ensures Inv(Step(panel, t, r), panel)
  {
    match r
    case Create(u, link, inst) =>
      var l := link.(active := true);
      if u !in t.links && (l.port == 0 || Free(t, panel, u, l.port)) {
        if IsMtproto(l) {
          if Outcome(t, panel, inst).Some? {
            PlaceWithout(panel, t, u, Settle(l, inst.value));
          }
        } else {
          PlaceKeeps(panel, t, u, l);
        }
      }
    case Patch(u, active, port, inst) =>
      if u in t.links {
        PatchKeeps(panel, t, u, active, port, inst);
      }
    case Delete(u) =>
      if u in t.links {
        DeleteKeeps(panel, t, u);
      }
    case Reconcile =>
      NeedIsPorts(t.links, panel);
  }

  lemma {:induction false} RunKeeps(panel: Port, t: Table, rs: seq<Request>)
    requires Inv(t, panel)
    ensures Inv(Run(panel, t, rs), panel)
    decreases |rs|
  {
    if rs == [] {
    } else {
      StepKeeps(panel, t, rs[0]);
      RunKeeps(panel, Step(panel, t, rs[0]), rs[1..]);
    }
  }

  // ---------------------------------------------------------------- when the registries equal the need

  /** The registries hold exactly what the links need. */
  predicate InStep(t: Table, panel: Port) {
    t.tcp == NeedTcp(t.links, panel) && t.http == NeedHttp(t.links, panel)
  }

  /** No listener was left behind, and every link that could have one is as active as when its port was
      last set or reconciled. */
  predicate UpToDate(t: Table, panel: Port) {
    && t.leftTcp == {} && t.leftHttp == {}
    && forall u :: u in t.links && Able(t.links[u], panel) ==> (u in t.lit <==> t.links[u].active)
  }

  lemma TableInStep(panel: Port, t: Table)
    requires Inv(t, panel)
    ensures InStep(t, panel) <==> UpToDate(t, panel)
  {
    var wanting := Wanting(t.links, panel);
    NeedIsPorts(t.links, panel);
    if UpToDate(t, panel) {
      assert t.lit == wanting;
    }
    if InStep(t, panel) {
      forall p: Port
        ensures p !in t.leftTcp && p !in t.leftHttp
      {
        assert p in t.leftTcp ==> p in Ports(t.links, wanting, true);
        assert p in t.leftHttp ==> p in Ports(t.links, wanting, false);
      }
      forall u | u in t.links && Able(t.links[u], panel)
        ensures u in t.lit <==> t.links[u].active
      {
        var raw := TcpKind(t.links[u].protocol).Some?;
        assert Ports(t.links, t.lit, raw) == Ports(t.links, wanting, raw);
        OnlyItsOwn(t.links, t.lit, u, raw);
        OnlyItsOwn(t.links, wanting, u, raw);
      }
    }
  }

  lemma OnlyItsOwn(links: map<Uuid, Link>, some: set<Uuid>, u: Uuid, raw: bool)
    requires DistinctBut(links, {}) && u in links && links[u].port != 0 && TcpKind(links[u].protocol).Some? == raw
    requires !IsMtproto(links[u]) && NoneIsMtproto(links, some)
    ensures u in some <==> links[u].port in Ports(links, some, raw)
  {
  }

  /** Over every run of requests, whatever ports MTProto processes come up on: the registries are what the
      links need, if and only if no listener is left behind since the last reconciliation, and of the links
      that can have a listener exactly the active ones are lit. */
  lemma InStepExactlyWhen(panel: Port, rs: seq<Request>)
    ensures InStep(Run(panel, EMPTY, rs), panel) <==> UpToDate(Run(panel, EMPTY, rs), panel)
  {
    assert Inv(EMPTY, panel);
    RunKeeps(panel, EMPTY, rs);
    TableInStep(panel, Run(panel, EMPTY, rs));
  }
}
