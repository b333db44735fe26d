/** Who listens where: the listen_port of the links under create, update and delete requests
    (main.py:1815-1846, 1864-1970, 2042-2205, 2235-2245 and port_manager.py:277-285). */
module ListenPorts {
  import opened Bytes
  import MtprotoTable

  type Uuid = string
  type Port = nat

  /** mport is the port of the link's MTProto process, which need not be the listen_port. */
  datatype Link = Link(mtproto: bool, active: bool, port: Port, mport: Port)

  type Links = map<Uuid, Link>

  /** What does not change during a run: the port the panel listens on, and the range for MTProto
      processes (protocol/mtproto/mtproto_native.py:50-51). */
  datatype Setup = Setup(panel: Port, mtLo: Port, mtHi: Port)

  /** A port field of a request: missing or empty, no number, or a number. */
  datatype PortField = Absent | Garbage | Number(n: int)

  /** The HTTP status of a refusal. */
  datatype Refusal = BadRequest | NotFound | Conflict | BadGateway | Unavailable

  /** What the rest of the process and the operating system say at one moment. */
  datatype Surroundings = Surroundings(
    /** ports this process has listeners on */
    ours: set<Port>,
    /** ports that could be bound */
    free: Port -> bool,
    /** the configured range, half open */
    lo: Port, hi: Port)

  predicate Usable(p: Port, exclude: set<Port>, w: Surroundings) {
    p !in exclude && p !in w.ours && w.free(p)
  }

  function FindFree(lo: Port, exclude: set<Port>, w: Surroundings): Option<Port>
    decreases w.hi - lo
  {
    if lo >= w.hi then None
    else if Usable(lo, exclude, w) then Some(lo)
    else FindFree(lo + 1, exclude, w)
  }

  /** The answer is the least usable port of the half-open range, and there is none only when the
      range has no usable port. */
  lemma {:induction false} FindFreeIsLeast(lo: Port, exclude: set<Port>, w: Surroundings)
    ensures
      var r := FindFree(lo, exclude, w);
      && (r.Some? ==> lo <= r.value < w.hi && Usable(r.value, exclude, w)
                      && forall p: Port :: lo <= p < r.value ==> !Usable(p, exclude, w))
      && (r.None? <==> forall p: Port :: lo <= p < w.hi ==> !Usable(p, exclude, w))
    decreases w.hi - lo
  {
    if lo >= w.hi || Usable(lo, exclude, w) {
    } else {
      FindFreeIsLeast(lo + 1, exclude, w);
    }
  }

  /** find_free_port */
  method FindFreePort(exclude: set<Port>, w: Surroundings) returns (r: Option<Port>)
    ensures r == FindFree(w.lo, exclude, w)
  {
    var port := w.lo;
    while port < w.hi
      invariant FindFree(w.lo, exclude, w) == FindFree(port, exclude, w)
    {
      if port !in exclude && port !in w.ours {
        if w.free(port) {
          return Some(port);
        }
      }
      port := port + 1;
    }
    return None;
  }

  function PortsOf(links: Links): set<Port> {
    set u | u in links :: links[u].port
  }

  function Allocate(links: Links, panel: Port, needsOwn: bool, requested: PortField, w: Surroundings)
    : Result<Port, Refusal>
  {
    var used := PortsOf(links) + w.ours + {panel};
    match requested
    case Garbage => Failure(BadRequest)
    case Number(n) =>
      if !(1 <= n <= 65535) then Failure(BadRequest)
      else if n in used then Failure(Conflict)
      else Success(n)
    case Absent =>
      if !needsOwn then Success(0)
      else
        var p := FindFree(w.lo, used, w);
        if p.None? then Failure(Unavailable) else Success(p.value)
  }

  // ---------------------------------------------------------------- the MTProto process of a link

  /** How a start ends whose port is found: the process comes up, or start_instance raises RuntimeError, or
      something else is raised. */
  datatype StartEnd = Up | NotUp | Raised

  /** What starting an MTProto process meets: the ports its table has in use, what binding a port says
      at each attempt, and how the process fares. */
  datatype Start = Start(used: set<Port>, free: (nat, Port) -> bool, end: StartEnd)

  /** The panel itself listens on its port, so nobody else can bind it. */
  predicate PanelListens(c: Setup, s: Start) {
    forall k: nat :: k <= MtprotoTable.PORT_RETRY_ATTEMPTS ==> !s.free(k, c.panel)
  }

  /** The port of the instance start_instance returns, or None for its exception. */
  function StartedOn(c: Setup, s: Start, preferred: Option<Port>, force: bool): Option<Port> {
    if s.end.Up? then MtprotoTable.PortFor(preferred, force, c.mtLo, c.mtHi, s.used, s.free) else None
  }

  /** The status of a creation whose start fails: a RuntimeError, as when the port cannot be had, is a
      conflict there. */
  function FailedCreation(s: Start): Refusal {
    if s.end.Raised? then BadGateway else Conflict
  }

  /** listen_port or None */
  function OrNone(p: Port): Option<Port> {
    if p == 0 then None else Some(p)
  }

  /** A start insists on a listen_port, and then comes up on that one or not at all; without, on some
      port of the range. */
  function StartOf(c: Setup, s: Start, p: Port): Option<Port> {
    StartedOn(c, s, OrNone(p), p != 0)
  }

  /** The start of a link that is switched on: it insists on the listen_port the link had, and without
      one prefers the port its process had before. */
  function SwitchOn(c: Setup, s: Start, l: Link): Option<Port> {
    StartedOn(c, s, if l.port != 0 then Some(l.port) else Some(l.mport), l.port != 0)
  }

  // ---------------------------------------------------------------- requests, one at a time

  /** Each request with what it meets. */
  datatype Request =
    | Create(uid: Uuid, mtproto: bool, own: bool, requested: PortField, w: Surroundings, s: Start)
    | Patch(uid: Uuid, active: Option<bool>, listen: Option<PortField>, w: Surroundings, s: Start)
    | Delete(uid: Uuid)

  /** MTProto links, raw TCP links and links of a foreign core need a port of their own. */
  predicate NeedsOwn(mtproto: bool, own: bool) {
    mtproto || own
  }

  function Insert(links: Links, uid: Uuid, mtproto: bool, p: Port, inst: Option<Port>): Links {
    if !mtproto then links[uid := Link(false, true, p, 0)]
    else if inst.None? then links
    else links[uid := Link(true, true, if p != 0 then inst.value else 0, inst.value)]
  }

  /** The listen_port a patch asks for; a missing field leaves it alone. */
  function NewPort(links: Links, panel: Port, uid: Uuid, listen: Option<PortField>, w: Surroundings)
    : Result<Port, Refusal>
    requires uid in links
  {
    if listen.None? then Success(links[uid].port)
    else
      match listen.value
      case Garbage => Failure(BadRequest)
      case Absent => Success(0)
      case Number(n) =>
        if n != 0 && !(1 <= n <= 65535) then Failure(BadRequest)
        else if n != links[uid].port && n != 0 && (n in PortsOf(links - {uid}) || n == panel || n in w.ours)
        then Failure(Conflict)
        else Success(n)
  }

  predicate Starts(l: Link, active: Option<bool>) {
    l.mtproto && active == Some(true) && !l.active
  }

  predicate Stops(l: Link, active: Option<bool>) {
    l.mtproto && active == Some(false) && l.active
  }

  /** What a started MTProto process leaves in the link's fields. */
  function Settle(l: Link, inst: Option<Port>): Link {
    if inst.None? then l
    else l.(port := if l.port != 0 then inst.value else 0, mport := inst.value)
  }

  /** The link after a patch: `active` is stored even when the port is then refused; a link that starts
      its process is settled by the snapshot taken before the port changed. */
  function Patched(c: Setup, links: Links, uid: Uuid, active: Option<bool>, listen: Option<PortField>,
                   w: Surroundings, s: Start): Link
    requires uid in links
  {
    var l := links[uid];
    var toggled := l.(active := if active.Some? then active.value else l.active);
    var p := NewPort(links, c.panel, uid, listen, w);
    if p.Failure? then toggled else Moved(c, l, toggled, p.value, active, s)
  }

  /** l is the link as the request found it. */
  function Moved(c: Setup, l: Link, toggled: Link, p: Port, active: Option<bool>, s: Start): Link {
    var moved := toggled.(port := p);
    if Starts(l, active) then
      var inst := SwitchOn(c, s, l);
      if inst.None? then moved.(active := false) else Settle(moved, inst)
    else if Stops(l, active) then moved
    else if l.mtproto && p != l.port then Settle(moved, StartOf(c, s, p))
    else moved
  }

  function Step(c: Setup, links: Links, r: Request): Links {
    match r
    case Create(u, mt, own, requested, w, s) =>
      var p := Allocate(links, c.panel, NeedsOwn(mt, own), requested, w);
      if p.Failure? then links else Insert(links, u, mt, p.value, StartOf(c, s, p.value))
    case Patch(u, active, listen, w, s) =>
      if u !in links then links else links[u := Patched(c, links, u, active, listen, w, s)]
    case Delete(u) => links - {u}
  }

  function Run(c: Setup, links: Links, rs: seq<Request>): Links
    decreases |rs|
  {
    if rs == [] then links else Run(c, Step(c, links, rs[0]), rs[1..])
  }

  predicate Distinct(links: Links, panel: Port) {
    && (forall u :: u in links ==> links[u].port == 0 || links[u].port != panel)
    && (forall u, v :: u in links && v in links && u != v && links[u].port != 0 ==> links[u].port != links[v].port)
  }

  /** Another link has the port p. */
  predicate Taken(links: Links, uid: Uuid, p: Port) {
    exists v :: v in links && v != uid && links[v].port == p
  }

  lemma NotTakenIs(links: Links, uid: Uuid, p: Port)
    ensures p in PortsOf(links - {uid}) <==> Taken(links, uid, p)
  {
    if Taken(links, uid, p) {
      var v :| v in links && v != uid && links[v].port == p;
      assert v in links - {uid};
    }
  }

  /** Giving one link a port keeps the ports distinct exactly when the port is 0, or neither the
      panel's nor another link's. */
  lemma SetPort(links: Links, panel: Port, uid: Uuid, l: Link)
    requires Distinct(links - {uid}, panel)
    ensures Distinct(links[uid := l], panel) <==> l.port == 0 || (l.port != panel && !Taken(links, uid, l.port))
  {
    var after := links[uid := l];
    assert forall v :: v in after && v != uid ==> v in links - {uid} && after[v] == links[v];
    if l.port == 0 || (l.port != panel && !Taken(links, uid, l.port)) {
      forall u, v | u in after && v in after && u != v && after[u].port != 0
        ensures after[u].port != after[v].port
      {
      }
    } else if l.port == panel {
      assert after[uid].port == panel && uid in after;
    } else {
      var v :| v in links && v != uid && links[v].port == l.port;
      assert v in after && uid in after && after[v] == links[v] && after[uid] == l;
      assert after[uid].port != 0 && after[uid].port == after[v].port;
    }
  }

  lemma RestStaysDistinct(links: Links, panel: Port, uid: Uuid)
    requires Distinct(links, panel)
    ensures Distinct(links - {uid}, panel)
  {
  }

  /** What Allocate hands out is 0, or neither the panel's port nor any link's. */
  lemma AllocatedIsFresh(links: Links, panel: Port, needsOwn: bool, requested: PortField, w: Surroundings)
    ensures
      var p := Allocate(links, panel, needsOwn, requested, w);
      p.Success? ==> p.value == 0 || (p.value != panel && p.value !in w.ours && p.value !in PortsOf(links))
  {
    var used := PortsOf(links) + w.ours + {panel};
    FindFreeIsLeast(w.lo, used, w);
  }

  lemma CreateKeeps(c: Setup, links: Links, r: Request)
    requires r.Create? && Distinct(links, c.panel)
    ensures Distinct(Step(c, links, r), c.panel)
  {
    var p := Allocate(links, c.panel, NeedsOwn(r.mtproto, r.own), r.requested, r.w);
    if p.Success? && (r.mtproto ==> StartOf(c, r.s, p.value).Some?) {
      RestStaysDistinct(links, c.panel, r.uid);
      AllocatedIsFresh(links, c.panel, NeedsOwn(r.mtproto, r.own), r.requested, r.w);
      var inst := StartOf(c, r.s, p.value);
      var l := if !r.mtproto then Link(false, true, p.value, 0)
               else Link(true, true, if p.value != 0 then inst.value else 0, inst.value);
      assert l.port == p.value;
      SetPort(links, c.panel, r.uid, l);
    }
  }

  // ---------------------------------------------------------------- what each request does

  /** A number is accepted if and only if it is a port nobody has; garbage never; and without a request a link
      that needs its own port gets the least usable one of the range, any other 0. */
  lemma AllocateExactly(links: Links, panel: Port, needsOwn: bool, requested: PortField, w: Surroundings, p: Port)
    ensures Allocate(links, panel, needsOwn, requested, w) == Success(p) <==>
      match requested
      case Garbage => false
      case Number(n) =>
        n == p && 1 <= n <= 65535 && n != panel && n !in w.ours && forall u :: u in links ==> links[u].port != n
      case Absent =>
        if !needsOwn then p == 0
        else
          && w.lo <= p < w.hi && Usable(p, PortsOf(links) + w.ours + {panel}, w)
          && forall q: Port :: w.lo <= q < p ==> !Usable(q, PortsOf(links) + w.ours + {panel}, w)
  {
    FindFreeIsLeast(w.lo, PortsOf(links) + w.ours + {panel}, w);
  }

  /** A creation enters the link on its port, active; an MTProto link only if its process comes up, and with
      the port of that. Every other link stays as it is. */
  lemma CreateExactly(c: Setup, links: Links, r: Request, p: Port)
    requires r.Create? && Allocate(links, c.panel, NeedsOwn(r.mtproto, r.own), r.requested, r.w) == Success(p)
    ensures
      var inst, next := StartOf(c, r.s, p), Step(c, links, r);
      && (!r.mtproto ==> next == links[r.uid := Link(false, true, p, 0)])
      && (r.mtproto && inst.None? ==> next == links)
      && (r.mtproto && inst.Some? ==> next == links[r.uid := Link(true, true, p, inst.value)])
  {
  }

  /** A patch touches its own link only. */
  lemma PatchTouchesItsLink(c: Setup, links: Links, r: Request)
    requires r.Patch? || r.Delete?
    ensures Step(c, links, r) - {r.uid} == links - {r.uid}
    ensures r.uid in Step(c, links, r) <==> r.Patch? && r.uid in links
  {
  }

  /** A link ends as active as it was asked to be, unless its MTProto process was to start and did not; the
      port is accepted if and only if it is 0, the present one, or a port nobody else has. */
  lemma PatchExactly(c: Setup, links: Links, r: Request)
    requires r.Patch? && r.uid in links
    ensures
      var l, next := links[r.uid], Step(c, links, r)[r.uid];
      var p := NewPort(links, c.panel, r.uid, r.listen, r.w);
      var asked := if r.active.Some? then r.active.value else l.active;
      && next.active == (asked && !(p.Success? && Starts(l, r.active) && SwitchOn(c, r.s, l).None?))
      && (p.Failure? ==> next.port == l.port && next.mport == l.mport)
      && (p.Success? && !l.mtproto ==> next.port == p.value)
      && (p.Success? && Starts(l, r.active) && SwitchOn(c, r.s, l).Some? ==>
            next.mport == SwitchOn(c, r.s, l).value && next.port == if p.value == 0 then 0 else next.mport)
    ensures
      var l := links[r.uid];
      forall p: Port :: NewPort(links, c.panel, r.uid, r.listen, r.w) == Success(p) <==>
        match r.listen
        case None => p == l.port
        case Some(Garbage) => false
        case Some(Absent) => p == 0
        case Some(Number(n)) =>
          n == p && n <= 65535 &&
          (n == 0 || n == l.port || (n != c.panel && n !in r.w.ours && !Taken(links, r.uid, n)))
  {
    if r.listen.Some? && r.listen.value.Number? && r.listen.value.n >= 0 {
      NotTakenIs(links, r.uid, r.listen.value.n);
    }
  }

  // ---------------------------------------------------------------- where a patched link ends

  /** A patch leaves the link on the port p it accepted, if and only if p is 0, or it does not switch an
      MTProto link on, or that start fails or comes up on p. */
  lemma PatchEndsOn(c: Setup, links: Links, r: Request, p: Port)
    requires r.Patch? && r.uid in links && NewPort(links, c.panel, r.uid, r.listen, r.w) == Success(p)
    ensures
      var l := links[r.uid];
      var inst := SwitchOn(c, r.s, l);
      Step(c, links, r)[r.uid].port == p <==> p == 0 || !Starts(l, r.active) || inst.None? || inst.value == p
  {
  }

  /** The ports on which a link that is switched on may come up. */
  predicate MayEndOn(c: Setup, l: Link, q: Port) {
    q != c.panel && (if l.port != 0 then q == l.port else q == l.mport || c.mtLo <= q < c.mtHi)
  }

  lemma EndsWhereItMay(c: Setup, l: Link, s: Start)
    requires PanelListens(c, s)
    ensures SwitchOn(c, s, l).Some? ==> MayEndOn(c, l, SwitchOn(c, s, l).value)
  {
  }

  /** Each of these ports is met when it is the only free one. */
  lemma MayEndOnAny(c: Setup, l: Link, q: Port) returns (s: Start)
    requires MayEndOn(c, l, q)
    ensures PanelListens(c, s) && SwitchOn(c, s, l) == Some(q)
  {
    s := Start({}, (k, p) => p == q, Up);
    assert s.free(0, q);
    if l.port == 0 && l.mport != q {
      var r := MtprotoTable.LeastFree(c.mtLo, c.mtHi, s.used, s.free, MtprotoTable.PORT_RETRY_ATTEMPTS);
      assert s.free(MtprotoTable.PORT_RETRY_ATTEMPTS, q);
      assert r.Some?;
      assert r.value == q;
    }
  }

  /** Seen from the caller, who does not know what the start will meet: the accepted port is kept for
      certain, if and only if it is 0, or no MTProto link is switched on, or the only port that start may
      end on is the accepted one. */
  lemma PatchKeepsItsPortExactlyWhen(c: Setup, links: Links, u: Uuid, active: Option<bool>, listen: Option<PortField>,
                                     w: Surroundings, p: Port)
    requires u in links && NewPort(links, c.panel, u, listen, w) == Success(p)
    ensures (forall s :: PanelListens(c, s) ==> Step(c, links, Patch(u, active, listen, w, s))[u].port == p)
       <==> p == 0 || !Starts(links[u], active) || forall q :: MayEndOn(c, links[u], q) ==> q == p
  {
    var l := links[u];
    if p == 0 || !Starts(l, active) || forall q :: MayEndOn(c, l, q) ==> q == p {
      forall s | PanelListens(c, s)
        ensures Step(c, links, Patch(u, active, listen, w, s))[u].port == p
      {
        PatchEndsOn(c, links, Patch(u, active, listen, w, s), p);
        EndsWhereItMay(c, l, s);
      }
    } else {
      var q :| MayEndOn(c, l, q) && q != p;
      var s := MayEndOnAny(c, l, q);
      PatchEndsOn(c, links, Patch(u, active, listen, w, s), p);
      assert PanelListens(c, s) && Step(c, links, Patch(u, active, listen, w, s))[u].port != p;
    }
  }

  /** In a table of distinct ports and with a range of at least three, that means: unless the port is 0
      or the one the link already had, the patch must not switch an MTProto link on. */
  lemma MovedPortIsKeptExactlyWhen(c: Setup, links: Links, u: Uuid, active: Option<bool>, listen: Option<PortField>,
                                   w: Surroundings, p: Port)
    requires u in links && NewPort(links, c.panel, u, listen, w) == Success(p)
    requires Distinct(links, c.panel) && c.mtLo + 3 <= c.mtHi
    ensures (forall s :: PanelListens(c, s) ==> Step(c, links, Patch(u, active, listen, w, s))[u].port == p)
       <==> p == 0 || !Starts(links[u], active) || p == links[u].port
  {
    var l := links[u];
    PatchKeepsItsPortExactlyWhen(c, links, u, active, listen, w, p);
    if l.port != 0 {
      assert MayEndOn(c, l, l.port);
    } else {
      var q := if c.mtLo != p && c.mtLo != c.panel then c.mtLo
               else if c.mtLo + 1 != p && c.mtLo + 1 != c.panel then c.mtLo + 1
               else c.mtLo + 2;
      assert MayEndOn(c, l, q) && q != p;
    }
  }

  // ---------------------------------------------------------------- when a patch keeps the ports distinct

  /** A patch that, in one request, switches on an MTProto link that had no listen_port and gives it one:
      the process then runs on a port nobody compared with the other links. */
  predicate Unchecked(links: Links, panel: Port, r: Request) {
    && r.Patch? && r.uid in links && Starts(links[r.uid], r.active) && links[r.uid].port == 0
    && NewPort(links, panel, r.uid, r.listen, r.w).Success?
    && NewPort(links, panel, r.uid, r.listen, r.w).value != 0
  }

  /** Such a patch whose start comes up on another link's port. */
  predicate Collides(c: Setup, links: Links, r: Request) {
    && Unchecked(links, c.panel, r)
    && SwitchOn(c, r.s, links[r.uid]).Some?
    && SwitchOn(c, r.s, links[r.uid]).value != 0
    && Taken(links, r.uid, SwitchOn(c, r.s, links[r.uid]).value)
  }

  /** The port of any other patched link: 0, the old one, or the accepted one. */
  lemma PatchedPort(c: Setup, links: Links, r: Request)
    requires r.Patch? && r.uid in links && !Unchecked(links, c.panel, r)
    ensures
      var l := links[r.uid];
      var p := NewPort(links, c.panel, r.uid, r.listen, r.w);
      var q := Patched(c, links, r.uid, r.active, r.listen, r.w, r.s).port;
      q == 0 || q == l.port || (p.Success? && q == p.value)
  {
  }

  /** A patch keeps the ports distinct if and only if it does not collide. */
  lemma PatchIsSafeExactlyWhen(c: Setup, links: Links, r: Request)
    requires r.Patch? && Distinct(links, c.panel) && PanelListens(c, r.s)
    ensures Distinct(Step(c, links, r), c.panel) <==> !Collides(c, links, r)
  {
    if r.uid in links {
      var l := links[r.uid];
      var q := Patched(c, links, r.uid, r.active, r.listen, r.w, r.s);
      RestStaysDistinct(links, c.panel, r.uid);
      NotTakenIs(links, r.uid, q.port);
      SetPort(links, c.panel, r.uid, q);
      if Unchecked(links, c.panel, r) {
        EndsWhereItMay(c, l, r.s);
        NotTakenIs(links, r.uid, NewPort(links, c.panel, r.uid, r.listen, r.w).value);
      } else {
        PatchedPort(c, links, r);
      }
    }
  }

  /** Seen from the caller: a patch keeps the ports distinct whatever its start meets, if and only if it
      is not of the unchecked kind or no other link has a port that start may end on. */
  lemma PatchIsSafeForCertainExactlyWhen(c: Setup, links: Links, u: Uuid, active: Option<bool>,
                                         listen: Option<PortField>, w: Surroundings, s0: Start)
    requires u in links && Distinct(links, c.panel)
    ensures (forall s :: PanelListens(c, s) ==> Distinct(Step(c, links, Patch(u, active, listen, w, s)), c.panel))
       <==> (Unchecked(links, c.panel, Patch(u, active, listen, w, s0)) ==>
               forall q :: MayEndOn(c, links[u], q) && q != 0 ==> !Taken(links, u, q))
  {
    var l := links[u];
    if Unchecked(links, c.panel, Patch(u, active, listen, w, s0))
       && exists q :: MayEndOn(c, l, q) && q != 0 && Taken(links, u, q) {
      var q :| MayEndOn(c, l, q) && q != 0 && Taken(links, u, q);
      var s := MayEndOnAny(c, l, q);
      PatchIsSafeExactlyWhen(c, links, Patch(u, active, listen, w, s));
      assert PanelListens(c, s) && !Distinct(Step(c, links, Patch(u, active, listen, w, s)), c.panel);
    } else {
      forall s | PanelListens(c, s)
        ensures Distinct(Step(c, links, Patch(u, active, listen, w, s)), c.panel)
      {
        EndsWhereItMay(c, l, s);
        PatchIsSafeExactlyWhen(c, links, Patch(u, active, listen, w, s));
      }
    }
  }

  /** The panel listens throughout, and no patch collides. */
  predicate NoCollision(c: Setup, links: Links, rs: seq<Request>)
    decreases |rs|
  {
    rs == [] || (&& (rs[0].Patch? ==> PanelListens(c, rs[0].s) && !Collides(c, links, rs[0]))
                 && NoCollision(c, Step(c, links, rs[0]), rs[1..]))
  }

  /** Over every run of requests served one at a time, none of them a patch that collides, the non-zero
      ports of the links stay distinct and away from the panel's. */
  lemma {:induction false} RunKeepsDistinct(c: Setup, links: Links, rs: seq<Request>)
    requires Distinct(links, c.panel) && NoCollision(c, links, rs)
    ensures Distinct(Run(c, links, rs), c.panel)
    decreases |rs|
  {
    if rs == [] {
    } else {
      var r := rs[0];
      match r {
        case Create(_, _, _, _, _, _) => CreateKeeps(c, links, r);
        case Patch(_, _, _, _, _) => PatchIsSafeExactlyWhen(c, links, r);
        case Delete(u) => RestStaysDistinct(links, c.panel, u);
      }
      RunKeepsDistinct(c, Step(c, links, r), rs[1..]);
    }
  }

  lemma RunCons(c: Setup, links: Links, r: Request, rs: seq<Request>)
    ensures Run(c, links, [r] + rs) == Run(c, Step(c, links, r), rs)
  {
    assert ([r] + rs)[1..] == rs;
  }

  // ---------------------------------------------------------------- a run that collides

  const EXAMPLE := Setup(2053, 8500, 8600)

  /** Nothing but the panel listens. */
  function Idle(): Surroundings {
    Surroundings({}, p => p != 2053, 20000, 40000)
  }

  function IdleStart(): Start {
    Start({}, (k, p) => p != 2053, Up)
  }

  /** u gets an MTProto process, gives its port up and moves into the range, and is stopped. */
  lemma FirstHalf(u: Uuid)
    ensures
      var w, s := Idle(), IdleStart();
      var t1 := Step(EXAMPLE, map[], Create(u, true, false, Absent, w, s));
      var t2 := Step(EXAMPLE, t1, Patch(u, None, Some(Absent), w, s));
      Step(EXAMPLE, t2, Patch(u, Some(false), None, w, s)) == map[u := Link(true, false, 0, 8500)]
  {
    var w, s := Idle(), IdleStart();
    assert s.free(0, 20000) && s.free(MtprotoTable.PORT_RETRY_ATTEMPTS, 8500);
    assert PortsOf(map[]) + {} + {2053} == {2053};
    assert Usable(20000, {2053}, w);
    assert Step(EXAMPLE, map[], Create(u, true, false, Absent, w, s)) == map[u := Link(true, true, 20000, 20000)];
    var t1: Links := map[u := Link(true, true, 20000, 20000)];
    assert Step(EXAMPLE, t1, Patch(u, None, Some(Absent), w, s)) == map[u := Link(true, true, 0, 8500)];
  }

  /** v is created on the port u's process had, and is stopped too; then one patch switches u on and asks
      for some third port. */
  lemma SecondHalf(u: Uuid, v: Uuid)
    requires u != v
    ensures
      var w, s := Idle(), IdleStart();
      var t4 := Step(EXAMPLE, map[u := Link(true, false, 0, 8500)], Create(v, true, false, Number(8500), w, s));
      var t5 := Step(EXAMPLE, t4, Patch(v, Some(false), None, w, s));
      var t6 := Step(EXAMPLE, t5, Patch(u, Some(true), Some(Number(9000)), w, s));
      u in t6 && v in t6 && t6[u].port == t6[v].port == 8500
  {
    var w, s := Idle(), IdleStart();
    assert s.free(0, 8500);
    var t3: Links := map[u := Link(true, false, 0, 8500)];
    var t4 := t3[v := Link(true, true, 8500, 8500)];
    assert 8500 !in PortsOf(t3);
    assert Step(EXAMPLE, t3, Create(v, true, false, Number(8500), w, s)) == t4;
    var t5 := t3[v := Link(true, false, 8500, 8500)];
    assert Step(EXAMPLE, t4, Patch(v, Some(false), None, w, s)) == t5;
    assert t5 - {u} == map[v := Link(true, false, 8500, 8500)];
    assert 9000 !in PortsOf(t5 - {u});
    assert SwitchOn(EXAMPLE, s, t5[u]) == Some(8500);
    assert Patched(EXAMPLE, t5, u, Some(true), Some(Number(9000)), w, s).port == 8500;
  }

  /** The collision can be reached from the empty table. Every process comes up on a port that nothing
      listens on, and only one of them runs at a time. */
  lemma CollisionIsReachable(u: Uuid, v: Uuid) returns (rs: seq<Request>)
    requires u != v
    ensures !Distinct(Run(EXAMPLE, map[], rs), EXAMPLE.panel)
    ensures forall r :: r in rs ==> (r.Create? || r.Patch?) && r.s == IdleStart() && r.w == Idle()
    ensures PanelListens(EXAMPLE, IdleStart())
  {
    var w, s := Idle(), IdleStart();
    var r1 := Create(u, true, false, Absent, w, s);
    var r2 := Patch(u, None, Some(Absent), w, s);
    var r3 := Patch(u, Some(false), None, w, s);
    var r4 := Create(v, true, false, Number(8500), w, s);
    var r5 := Patch(v, Some(false), None, w, s);
    var r6 := Patch(u, Some(true), Some(Number(9000)), w, s);
    rs := [r1, r2, r3, r4, r5, r6];
    FirstHalf(u);
    SecondHalf(u, v);
    RunSix(EXAMPLE, map[], r1, r2, r3, r4, r5, r6);
  }

  lemma RunSix(c: Setup, t: Links, r1: Request, r2: Request, r3: Request, r4: Request, r5: Request, r6: Request)
    ensures
      Run(c, t, [r1, r2, r3, r4, r5, r6]) ==
      Step(c, Step(c, Step(c, Step(c, Step(c, Step(c, t, r1), r2), r3), r4), r5), r6)
  {
    var t1 := Step(c, t, r1);
    var t2 := Step(c, t1, r2);
    var t3 := Step(c, t2, r3);
    var t4 := Step(c, t3, r4);
    var t5 := Step(c, t4, r5);
    RunCons(c, t, r1, [r2, r3, r4, r5, r6]);
    RunCons(c, t1, r2, [r3, r4, r5, r6]);
    RunCons(c, t2, r3, [r4, r5, r6]);
    RunCons(c, t3, r4, [r5, r6]);
    RunCons(c, t4, r5, [r6]);
    RunCons(c, t5, r6, []);
    assert [r1] + [r2, r3, r4, r5, r6] == [r1, r2, r3, r4, r5, r6] && [r2] + [r3, r4, r5, r6] == [r2, r3, r4, r5, r6];
    assert [r3] + [r4, r5, r6] == [r3, r4, r5, r6] && [r4] + [r5, r6] == [r4, r5, r6];
    assert [r5] + [r6] == [r5, r6] && [r6] + [] == [r6];
  }

  // ---------------------------------------------------------------- creations that wait

  /** A creation keeps its allocated port while it waits for its MTProto process; the table may change
      meanwhile. When the link is entered at last, the ports stay distinct if and only if the port is 0,
      the start failed, or no other link has the port by then. */
  lemma LateInsert(c: Setup, now: Links, uid: Uuid, mtproto: bool, p: Port, s: Start)
    requires Distinct(now, c.panel) && (p == 0 || p != c.panel)
    ensures Distinct(Insert(now, uid, mtproto, p, StartOf(c, s, p)), c.panel)
       <==> p == 0 || (mtproto && StartOf(c, s, p).None?) || !Taken(now, uid, p)
  {
    var inst := StartOf(c, s, p);
    if !(mtproto && inst.None?) {
      var l := if mtproto then Link(true, true, if p != 0 then inst.value else 0, inst.value)
               else Link(false, true, p, 0);
      assert l.port == p;
      RestStaysDistinct(now, c.panel, uid);
      SetPort(now, c.panel, uid, l);
    }
  }

  /** Two creations that both allocate before either link is in the table: the ports stay distinct if and
      only if the two ports differ or are 0, or one of the two is an MTProto link whose start fails. Only
      a start makes a creation wait, so at least one of them is an MTProto link. */
  lemma InterleavedCreates(c: Setup, links: Links, a: Request, b: Request, p: Port, q: Port)
    requires a.Create? && b.Create? && a.uid != b.uid && Distinct(links, c.panel)
    requires Allocate(links, c.panel, NeedsOwn(a.mtproto, a.own), a.requested, a.w) == Success(p)
    requires Allocate(links, c.panel, NeedsOwn(b.mtproto, b.own), b.requested, b.w) == Success(q)
    ensures
      var one := Insert(links, a.uid, a.mtproto, p, StartOf(c, a.s, p));
      var both := Insert(one, b.uid, b.mtproto, q, StartOf(c, b.s, q));
      Distinct(both, c.panel) <==>
        || p != q || p == 0
        || (a.mtproto && StartOf(c, a.s, p).None?) || (b.mtproto && StartOf(c, b.s, q).None?)
  {
    AllocatedIsFresh(links, c.panel, NeedsOwn(a.mtproto, a.own), a.requested, a.w);
    AllocatedIsFresh(links, c.panel, NeedsOwn(b.mtproto, b.own), b.requested, b.w);
    var inst := StartOf(c, a.s, p);
    var one := Insert(links, a.uid, a.mtproto, p, inst);
    LateInsert(c, links, a.uid, a.mtproto, p, a.s);
    assert !Taken(links, b.uid, q) || q == 0;
    assert !Taken(links, a.uid, p) || p == 0;
    if !(a.mtproto && inst.None?) {
      assert one[a.uid].port == p;
      assert forall v :: v in one && v != a.uid ==> v in links && one[v] == links[v];
    }
    LateInsert(c, one, b.uid, b.mtproto, q, b.s);
  }

  /** It does happen: u is created as an MTProto link on port p and waits for its process; v, a link of
      another protocol, is created on p meanwhile. Both allocations succeed, and whether u's or v's link is
      entered first, both links end up on p. */
  lemma WaitingCreationCollides(u: Uuid, v: Uuid, p: Port)
    requires u != v && 1 <= p <= 65535 && p != EXAMPLE.panel
    ensures Allocate(map[], EXAMPLE.panel, NeedsOwn(true, false), Number(p), Idle()) == Success(p)
    ensures Allocate(map[], EXAMPLE.panel, NeedsOwn(false, false), Number(p), Idle()) == Success(p)
    ensures
      var inst := StartOf(EXAMPLE, IdleStart(), p);
      && inst == Some(p)
      && !Distinct(Insert(Insert(map[], v, false, p, None), u, true, p, inst), EXAMPLE.panel)
      && !Distinct(Insert(Insert(map[], u, true, p, inst), v, false, p, None), EXAMPLE.panel)
  {
    assert IdleStart().free(0, p);
    assert PortsOf(map[]) + {} + {EXAMPLE.panel} == {EXAMPLE.panel};
    var x := Insert(Insert(map[], v, false, p, None), u, true, p, Some(p));
    var y := Insert(Insert(map[], u, true, p, Some(p)), v, false, p, None);
    assert u in x && v in x && x[u].port == x[v].port && u in y && v in y && y[u].port == y[v].port;
  }

  lemma NewPortIgnoresActive(links: Links, panel: Port, uid: Uuid, l: Link, listen: Option<PortField>, w: Surroundings)
    requires uid in links && l.port == links[uid].port
    ensures NewPort(links[uid := l], panel, uid, listen, w) == NewPort(links, panel, uid, listen, w)
  {
    assert links[uid := l] - {uid} == links - {uid};
  }

  class Panel {
    const setup: Setup
    var links: Links

    constructor (setup: Setup)
      ensures links == map[] && this.setup == setup && Distinct(links, setup.panel)
    {
      this.setup := setup;
      links := map[];
    }

    /** _allocate_listen_port */
    method AllocateListenPort(needsOwn: bool, requested: PortField, w: Surroundings) returns (r: Result<Port, Refusal>)
      ensures r == Allocate(links, setup.panel, needsOwn, requested, w)
    {
      var used := (set u | u in links :: links[u].port) + w.ours + {setup.panel};
      assert used == PortsOf(links) + w.ours + {setup.panel};
      match requested {
        case Garbage => return Failure(BadRequest);
        case Number(n) =>
          if !(1 <= n <= 65535) {
            return Failure(BadRequest);
          }
          if n in used {
            return Failure(Conflict);
          }
          return Success(n);
        case Absent =>
      }
      if needsOwn {
        var p := FindFreePort(used, w);
        if p.None? {
          return Failure(Unavailable);
        }
        return Success(p.value);
      }
      return Success(0);
    }

    method CreateLink(uid: Uuid, mtproto: bool, own: bool, requested: PortField, w: Surroundings, s: Start)
      returns (r: Result<Port, Refusal>)
      modifies this
      ensures links == Step(setup, old(links), Create(uid, mtproto, own, requested, w, s))
      ensures r.Success? ==> uid in links && links[uid].port == r.value
      ensures r.Failure? ==> links == old(links)
      ensures
        var p := Allocate(old(links), setup.panel, NeedsOwn(mtproto, own), requested, w);
        r == if p.Success? && mtproto && StartOf(setup, s, p.value).None? then
          Failure(if s.end.Raised? then BadGateway else Conflict)
        else p
    {
      r := AllocateListenPort(NeedsOwn(mtproto, own), requested, w);
      if r.Failure? {
        return;
      }
      var link := Link(mtproto, true, r.value, 0);
      if mtproto {
        var inst := StartInstance(if r.value != 0 then Some(r.value) else None, r.value != 0, s);
        if inst.None? {
          return Failure(FailedCreation(s));
        }
        link := link.(mport := inst.value);
        if r.value != 0 {
          link := link.(port := inst.value);
          r := Success(inst.value);
        }
      }
      links := links[uid := link];
    }

    /** The checks on the port field of a patch. */
    method CheckPort(uid: Uuid, listen: Option<PortField>, w: Surroundings) returns (r: Result<Port, Refusal>)
      requires uid in links
      ensures r == NewPort(links, setup.panel, uid, listen, w)
    {
      if listen.None? {
        return Success(links[uid].port);
      }
      if listen.value.Garbage? {
        return Failure(BadRequest);
      }
      var newPort := if listen.value.Number? then listen.value.n else 0;
      if newPort != 0 && !(1 <= newPort <= 65535) {
        return Failure(BadRequest);
      }
      if newPort != links[uid].port && newPort != 0 {
        var others := links - {uid};
        var used := set u | u in others :: others[u].port;
        assert used == PortsOf(others);
        if newPort in used || newPort == setup.panel || newPort in w.ours {
          return Failure(Conflict);
        }
      }
      return Success(newPort);
    }

    method UpdateLink(uid: Uuid, active: Option<bool>, listen: Option<PortField>, w: Surroundings, s: Start)
      returns (r: Result<(), Refusal>)
      modifies this
      ensures links == Step(setup, old(links), Patch(uid, active, listen, w, s))
      ensures r == Failure(NotFound) <==> uid !in old(links)
      ensures uid in old(links) ==>
        (r == Failure(Conflict) <==> NewPort(old(links), setup.panel, uid, listen, w) == Failure(Conflict))
    {
      if uid !in links {
        return Failure(NotFound);
      }
      var link := links[uid];
      var toggled := link.(active := if active.Some? then active.value else link.active);
      NewPortIgnoresActive(links, setup.panel, uid, toggled, listen, w);
      links := links[uid := toggled];
      var p := CheckPort(uid, listen, w);
      if p.Failure? {
        return Failure(p.error);
      }
      r := Move(uid, link, p.value, active, s);
    }

    /** Stores the accepted port, and starts or restarts the link's process; l is the link as the request
        found it. */
    method Move(uid: Uuid, l: Link, p: Port, active: Option<bool>, s: Start) returns (r: Result<(), Refusal>)
      requires uid in links && links[uid].mtproto == l.mtproto && links[uid].port == l.port
      modifies this
      ensures links == old(links)[uid := Moved(setup, l, old(links)[uid], p, active, s)]
      ensures r.Failure? ==> r.error == BadGateway
    {
      links := links[uid := links[uid].(port := p)];
      if l.mtproto && active.Some? && active.value != l.active {
        if !active.value {
          return Success(());
        }
        var preferred := if l.port != 0 then l.port else l.mport;
        var inst := StartInstance(Some(preferred), l.port != 0, s);
        r := Restart(uid, true, inst);
      } else if l.mtproto && p != l.port {
        var inst := StartInstance(if p != 0 then Some(p) else None, p != 0, s);
        r := Restart(uid, false, inst);
      } else {
        r := Success(());
      }
    }

    /** start_instance: a port is chosen, and the process comes up on it or not. */
    method StartInstance(preferred: Option<Port>, force: bool, s: Start) returns (r: Option<Port>)
      ensures r == StartedOn(setup, s, preferred, force)
    {
      var port := MtprotoTable.PortFor(preferred, force, setup.mtLo, setup.mtHi, s.used, s.free);
      if port.None? || !s.end.Up? {
        return None;
      }
      return port;
    }

    /** The end of a start; a failure deactivates the link only if it was being switched on. */
    method Restart(uid: Uuid, switchedOn: bool, inst: Option<Port>) returns (r: Result<(), Refusal>)
      requires uid in links
      modifies this
      ensures links == old(links)[uid := if inst.Some? then Settle(old(links)[uid], inst)
                                         else if switchedOn then old(links)[uid].(active := false)
                                         else old(links)[uid]]
      ensures r == if inst.Some? then Success(()) else Failure(BadGateway)
    {
      if inst.None? {
        if switchedOn {
          links := links[uid := links[uid].(active := false)];
        }
        return Failure(BadGateway);
      }
      var link := links[uid].(mport := inst.value);
      if link.port != 0 {
        link := link.(port := inst.value);
      }
      links := links[uid := link];
      return Success(());
    }

    method DeleteLink(uid: Uuid) returns (r: Result<(), Refusal>)
      modifies this
      ensures links == Step(setup, old(links), Delete(uid))
      ensures r == if uid in old(links) then Success(()) else Failure(NotFound)
    {
      if uid !in links {
        return Failure(NotFound);
      }
      links := links - {uid};
      return Success(());
    }
  }
}
