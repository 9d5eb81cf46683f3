/** How one worker handles one packet: classification, session lookup and creation, the TCP state kept
    per session, and the address translation. Answers that come from outside the session table are
    gathered in `Env`. */
module Handlers {
  import opened Types
  import opened Steering
  import opened Links
  import opened Wheel
  import opened TableOps

  // ---------------------------------------------------------------------------------------------
  // What a snapshot tells a worker
  // ---------------------------------------------------------------------------------------------

  datatype RsAddr = RsAddr(ip: u32, port: u16)

  datatype ServiceKey = ServiceKey(vip: u32, port: u16, protocol: u8)

  /** The service a packet from a client addresses. */
  function KeyOf(t: FiveTuple): ServiceKey { ServiceKey(t.dstIp, t.dstPort, t.protocol) }

  /** A real server of one service. */
  datatype RsState = RsState(addr: RsAddr, service: ServiceKey, weight: nat, enabled: bool, healthy: bool) {
    /** Existing sessions may go on using it. */
    predicate Usable() { enabled && healthy }
    /** New sessions may be sent to it. */
    predicate Schedulable() { Usable() && weight > 0 }
  }

  /** The part of a snapshot that decides where packets go. */
  datatype Net = Net(mode: ForwardMode, lips: seq<u32>, services: set<ServiceKey>, hcSrc: u32) {
    /** Address 0 marks an empty slot of the lookup table, so the lookup says yes to it. */
    predicate IsLip(ip: u32) { ip == 0 || ip in lips }
    predicate IsVip(ip: u32) { ip == 0 || exists key :: key in services && key.vip == ip }
  }

  datatype Snapshot = Snapshot(net: Net, rs: map<nat, RsState>) {
    /** A server a new flow may be sent to: schedulable, and of the service the client addressed. */
    predicate MayPick(tuple: FiveTuple, id: nat) {
      id in rs && rs[id].Schedulable() && rs[id].service == KeyOf(tuple)
    }
  }

  /** What never changes while the balancer runs: steering, addresses, and the address and service behind each
      server id. */
  datatype Fabric = Fabric(st: Steering, net: Net, addr: nat -> RsAddr, service: nat -> ServiceKey) {
    predicate Valid() { st.Valid() }

    /** A snapshot of this deployment: control operations change servers' state, never what they are. */
    predicate Admits(snap: Snapshot) {
      && snap.net == net
      && forall id :: id in snap.rs ==> snap.rs[id].addr == addr(id) && snap.rs[id].service == service(id)
    }
  }

  datatype Class = Return | HealthReply | Inbound | NoService

  predicate InNatRange(port: u16) { NAT_PORT_MIN <= port <= NAT_PORT_MAX }
  predicate InHcRange(port: u16) { HC_PORT_MIN <= port <= HC_PORT_MAX }

  /** The tests of the entry point, in its order, for a TCP or UDP packet. */
  function Classify(net: Net, t: FiveTuple): Class {
    if net.mode == Nat && net.IsLip(t.dstIp) && InNatRange(t.dstPort) then Return
    else if t.dstIp == net.hcSrc && InHcRange(t.dstPort) then HealthReply
    else if KeyOf(t) in net.services then Inbound
    else NoService
  }

  // ---------------------------------------------------------------------------------------------
  // TCP state of a session
  // ---------------------------------------------------------------------------------------------

  datatype TcpFlags = TcpFlags(fin: bool, syn: bool, rst: bool, ack: bool)

  datatype Timeouts = Timeouts(tcpSyn: nat, tcpEstablished: nat, tcpFin: nat, tcpTimeWait: nat, tcpClose: nat, udp: nat)

  function NextApp(a: App, f: TcpFlags, fromClient: bool): App {
    if a.state == UdpFlow then a
    else if f.rst then a.(state := Closed)
    else
      var b := a.(clientFin := a.clientFin || (f.fin && fromClient), serverFin := a.serverFin || (f.fin && !fromClient));
      var anyFin := b.clientFin || b.serverFin;
      match a.state
      case StNone => if f.syn then b.(state := SynRecv) else b
      case SynRecv =>
        if fromClient && f.ack && !f.syn then b.(state := if anyFin then FinWait else Established) else b
      case Established => if anyFin then b.(state := FinWait) else b
      case FinWait => if b.clientFin && b.serverFin then b.(state := TimeWait) else b
      case _ => b
  }

  function StateTimeout(s: TcpState, to: Timeouts): nat {
    match s
    case StNone => to.tcpSyn
    case SynRecv => to.tcpSyn
    case Established => to.tcpEstablished
    case FinWait => to.tcpFin
    case TimeWait => to.tcpTimeWait
    case Closed => to.tcpClose
    case UdpFlow => to.udp
  }

  /** A connection that has ended may be replaced by a new one from the same port. */
  predicate Reusable(s: TcpState) { s == TimeWait || s == Closed }

  /** A connection request: SYN without ACK and RST. */
  predicate IsSyn(t: FiveTuple, f: TcpFlags) {
    t.protocol == PROTO_TCP && f.syn && !f.ack && !f.rst
  }

  // ---------------------------------------------------------------------------------------------
  // Handlers
  // ---------------------------------------------------------------------------------------------

  datatype Verdict =
    | Send(tuple: FiveTuple)
    | SendError(outerSrc: u32, outerDst: u32, inner: FiveTuple)
    | Discard
    | Redirect(to: nat)
    | Consumed

  /** Answers from the scheduler, the port search, the hash, the neighbour table and the TTL test. */
  datatype Env = Env(pick: Option<nat>, server: Option<FiveTuple>, clientAdded: bool, serverAdded: bool,
                     neighbour: bool, ttlOk: bool, toa: bool)

  datatype Handled = Handled(t: Table, verdict: Verdict, created: nat, closed: nat)

  /** A session table whose hash index is exact. */
  ghost predicate Kept(t: Table) {
    Sound(t) && IndexExact(t.index, Flows(t))
  }

  datatype Found = Found(t: Table, idx: Option<nat>, closed: nat)

  /** Look the client key up and end a session whose server is gone or whose connection is over. */
  function FindSession(snap: Snapshot, t: Table, tuple: FiveTuple, f: TcpFlags): (r: Found)
    requires Kept(t)
    ensures Kept(r.t)
  {
    if tuple !in t.index then Found(t, None, 0)
    else
      var i := t.index[tuple];
      assert i in Flows(t);
      var app := t.ss[i].app;
      var reuse := IsSyn(tuple, f) && Reusable(app.state);
      if app.rsId !in snap.rs || !snap.rs[app.rsId].Usable() || reuse then
        RemoveTakesOne(t, i);
        RemoveIndex(t, i);
        Found(Remove(t, i), None, 1)
      else Found(t, Some(i), 0)
  }

  /** The port search found a reply key that this worker owns and does not use yet. */
  predicate GoodServer(fab: Fabric, snap: Snapshot, me: nat, t: Table, tuple: FiveTuple, rsId: nat, server: FiveTuple)
    requires fab.Valid()
  {
    && rsId in snap.rs
    && server.srcIp == snap.rs[rsId].addr.ip && server.srcPort == snap.rs[rsId].addr.port
    && server.dstIp in snap.net.lips && InNatRange(server.dstPort) && server.protocol == tuple.protocol
    && fab.st.RetOwner(server) == me && server !in t.index
  }

  /** What the scheduler and the port search promise. */
  predicate EnvOk(fab: Fabric, snap: Snapshot, me: nat, t: Table, tuple: FiveTuple, env: Env)
    requires fab.Valid()
  {
    env.pick.Some? ==>
      && snap.MayPick(tuple, env.pick.value)
      && (snap.net.mode == Nat && env.server.Some? ==>
            GoodServer(fab, snap, me, t, tuple, env.pick.value, env.server.value))
  }

  datatype Opened = Opened(t: Table, idx: Option<nat>)

  /** The reply key a new session gets: none in direct-routing mode. */
  function ReplyKey(snap: Snapshot, env: Env): Option<FiveTuple> {
    if snap.net.mode == Nat then env.server else None
  }

  /** A new session; the client's address is told to the server on translated TCP connections only. */
  function FirstApp(mode: ForwardMode, tuple: FiveTuple, rsId: nat, toa: bool): App {
    var tcp := tuple.protocol == PROTO_TCP;
    App(rsId, if tcp then StNone else UdpFlow, false, false, mode == Nat && tcp && toa)
  }

  function NewSession(snap: Snapshot, t: Table, now: nat, to: Timeouts, tuple: FiveTuple, env: Env): (r: Opened)
    requires Sound(t)
    ensures Sound(r.t)
  {
    if env.pick.None? || (snap.net.mode == Nat && env.server.None?) then Opened(t, None)
    else
      var timeout := if tuple.protocol == PROTO_TCP then to.tcpSyn else to.udp;
      var c := Create(t, tuple, ReplyKey(snap, env), now, timeout, env.clientAdded, env.serverAdded);
      CreateFails(t, tuple, ReplyKey(snap, env), now, timeout, env.clientAdded, env.serverAdded);
      if c.idx.None? then Opened(c.table, None)
      else
        CreateAdds(t, tuple, ReplyKey(snap, env), now, timeout);
        var i := c.idx.value;
        assert i in Flows(c.table);
        WithAppSound(c.table, i, FirstApp(snap.net.mode, tuple, env.pick.value, env.toa));
        Opened(WithApp(c.table, i, FirstApp(snap.net.mode, tuple, env.pick.value, env.toa)), Some(i))
  }

  /** update_state: advance the connection state and refresh the deadline that goes with it. */
  function Advanced(t: Table, i: nat, now: nat, to: Timeouts, f: TcpFlags, fromClient: bool): (r: Table)
    requires Sound(t) && Live(t, i)
    ensures Sound(r)
  {
    var app := NextApp(t.ss[i].app, f, fromClient);
    WithAppSound(t, i, app);
    TouchSound(WithApp(t, i, app), i, now, StateTimeout(app.state, to));
    Touch(WithApp(t, i, app), i, now, StateTimeout(app.state, to))
  }

  /** The rest of the inbound path, once the packet has a session. */
  function Forward(snap: Snapshot, t: Table, i: nat, now: nat, to: Timeouts, tuple: FiveTuple, f: TcpFlags,
                   env: Env, isNew: bool, closed: nat): (r: Handled)
    requires Sound(t) && Live(t, i)
    ensures Sound(r.t)
  {
    var u := Advanced(t, i, now, to, f, true);
    AdvancedFlows(t, i, now, to, f, true);
    var created := if isNew then 1 else 0;
    if !env.neighbour || (snap.net.mode == Nat && !env.ttlOk) then
      if isNew then
        RemoveSound(u, i);
        Handled(Remove(u, i), Discard, created, closed + 1)
      else Handled(u, Discard, created, closed)
    else if snap.net.mode == Dr then Handled(u, Send(tuple), created, closed)
    else Handled(u, Send(u.ss[i].server.Reverse()), created, closed)
  }

  function HandleInbound(fab: Fabric, snap: Snapshot, me: nat, t: Table, now: nat, to: Timeouts,
                         tuple: FiveTuple, f: TcpFlags, redirected: bool, env: Env): (r: Handled)
    requires fab.Valid() && Kept(t)
    ensures Sound(r.t)
  {
    var owner := fab.st.FwdOwner(tuple);
    if owner != me then Handled(t, if redirected then Discard else Redirect(owner), 0, 0)
    else
      var found := FindSession(snap, t, tuple, f);
      if found.idx.Some? then
        FindSessionEffect(snap, t, tuple, f);
        Forward(snap, found.t, found.idx.value, now, to, tuple, f, env, false, 0)
      else HandleNew(snap, found.t, now, to, tuple, f, env, found.closed)
  }

  /** A packet without a session: only a connection request or a datagram may open one. */
  function HandleNew(snap: Snapshot, t: Table, now: nat, to: Timeouts, tuple: FiveTuple, f: TcpFlags, env: Env,
                     closed: nat): (r: Handled)
    requires Sound(t)
    ensures Sound(r.t)
  {
    if tuple.protocol == PROTO_TCP && !IsSyn(tuple, f) then Handled(t, Discard, 0, closed)
    else
      var o := NewSession(snap, t, now, to, tuple, env);
      if o.idx.None? then Handled(o.t, Discard, 0, closed)
      else
        NewSessionFlows(snap, t, now, to, tuple, env);
        Forward(snap, o.t, o.idx.value, now, to, tuple, f, env, true, closed)
  }

  function HandleReturn(fab: Fabric, snap: Snapshot, me: nat, t: Table, now: nat, to: Timeouts,
                        tuple: FiveTuple, f: TcpFlags, redirected: bool, env: Env): (r: Handled)
    requires fab.Valid() && Kept(t)
    ensures Sound(r.t)
  {
    var owner := fab.st.RetOwner(tuple);
    if owner != me then Handled(t, if redirected then Discard else Redirect(owner), 0, 0)
    else if tuple !in t.index then Handled(t, Discard, 0, 0)
    else
      var i := t.index[tuple];
      assert i in Flows(t);
      var s := t.ss[i];
      if !s.fullnat || s.server != tuple then Handled(t, Discard, 0, 0)
      else if s.app.rsId !in snap.rs || !snap.rs[s.app.rsId].Usable() then
        RemoveSound(t, i);
        Handled(Remove(t, i), Discard, 0, 1)
      else
        var u := Advanced(t, i, now, to, f, false);
        AdvancedFlows(t, i, now, to, f, false);
        var app := u.ss[i].app.(toaPending := u.ss[i].app.toaPending && f.syn);
        WithAppSound(u, i, app);
        Handled(WithApp(u, i, app), if env.neighbour && env.ttlOk then Send(s.client.Reverse()) else Discard, 0, 0)
  }

  /** An ICMP error about a packet the balancer sent: translated back by the session of the quoted packet. */
  function HandleIcmpError(fab: Fabric, snap: Snapshot, me: nat, t: Table, outerSrc: u32, outerDst: u32, inner: FiveTuple,
                           redirected: bool, env: Env): (v: Verdict)
    requires fab.Valid() && Kept(t)
  {
    var net, key := snap.net, inner.Reverse();
    if net.mode == Nat && net.IsLip(outerDst) && net.IsLip(inner.srcIp) && InNatRange(inner.srcPort) then
      var owner := fab.st.RetOwner(key);
      if owner != me then (if redirected then Discard else Redirect(owner))
      else if key !in t.index then Discard
      else
        assert t.index[key] in Flows(t);
        var s := t.ss[t.index[key]];
        if s.server != key || !env.neighbour || !env.ttlOk then Discard
        else SendError(s.client.dstIp, s.client.srcIp, s.client)
    else if net.IsVip(outerDst) && net.IsVip(inner.srcIp) then
      var owner := fab.st.FwdOwner(key);
      if owner != me then (if redirected then Discard else Redirect(owner))
      else if key !in t.index then Discard
      else
        assert t.index[key] in Flows(t);
        var s := t.ss[t.index[key]];
        if s.client != key || s.app.rsId !in snap.rs || !env.neighbour then Discard
        else if net.mode == Dr then SendError(outerSrc, outerDst, inner)
        else if !env.ttlOk then Discard
        else SendError(s.server.dstIp, s.server.srcIp, s.server)
    else Discard
  }

  /** The entry point for TCP and UDP packets. */
  function HandleTransport(fab: Fabric, snap: Snapshot, me: nat, t: Table, now: nat, to: Timeouts,
                           tuple: FiveTuple, f: TcpFlags, redirected: bool, env: Env): (r: Handled)
    requires fab.Valid() && Kept(t)
    ensures Sound(r.t)
  {
    match Classify(snap.net, tuple)
    case Return => HandleReturn(fab, snap, me, t, now, to, tuple, f, redirected, env)
    case HealthReply => Handled(t, if tuple.protocol == PROTO_TCP then Consumed else Discard, 0, 0)
    case Inbound => HandleInbound(fab, snap, me, t, now, to, tuple, f, redirected, env)
    case NoService => Handled(t, Discard, 0, 0)
  }

  // ---------------------------------------------------------------------------------------------
  // Effects of the parts, as seen from the flows
  // ---------------------------------------------------------------------------------------------

  function AdvancedFlow(fl: Flow, now: nat, to: Timeouts, f: TcpFlags, fromClient: bool): Flow {
    var app := NextApp(fl.app, f, fromClient);
    fl.(app := app, expire := Deadline(now, StateTimeout(app.state, to)))
  }

  /** Storing the application part and then refreshing changes one flow. */
  lemma RewrittenFlows(t: Table, i: nat, app: App, now: nat, timeout: nat)
    requires Sound(t) && Live(t, i)
    ensures Sound(WithApp(t, i, app)) && Live(WithApp(t, i, app), i)
    ensures var r := Touch(WithApp(t, i, app), i, now, timeout);
            && r.index == t.index
            && Flows(r) == Flows(t)[i := FlowOf(t.ss[i]).(app := app, expire := Deadline(now, timeout))]
  {
    WithAppSound(t, i, app);
    WithAppFlows(t, i, app);
    TouchRefreshes(WithApp(t, i, app), i, now, timeout);
    assert FlowOf(WithApp(t, i, app).ss[i]) == FlowOf(t.ss[i]).(app := app);
    hide *;
    LastUpdateWins(Flows(t), i, FlowOf(t.ss[i]).(app := app),
                   FlowOf(t.ss[i]).(app := app, expire := Deadline(now, timeout)));
  }

  lemma AdvancedFlows(t: Table, i: nat, now: nat, to: Timeouts, f: TcpFlags, fromClient: bool)
    requires Sound(t) && Live(t, i)
    ensures var r := Advanced(t, i, now, to, f, fromClient);
            && Live(r, i) && r.index == t.index
            && Flows(r) == Flows(t)[i := AdvancedFlow(FlowOf(t.ss[i]), now, to, f, fromClient)]
  {
    var app := NextApp(t.ss[i].app, f, fromClient);
    RewrittenFlows(t, i, app, now, StateTimeout(app.state, to));
    hide StateTimeout;
    hide NextApp;
    hide Sound;
    hide Touch;
    hide WithApp;
    assert i in Flows(Advanced(t, i, now, to, f, fromClient));
  }

  lemma FindSessionEffect(snap: Snapshot, t: Table, tuple: FiveTuple, f: TcpFlags)
    requires Kept(t)
    ensures var r := FindSession(snap, t, tuple, f);
            && (r.idx.Some? ==> r.t == t && r.closed == 0 && tuple in t.index && r.idx.value == t.index[tuple]
                                && Live(t, r.idx.value)
                                && var id := t.ss[r.idx.value].app.rsId; id in snap.rs && snap.rs[id].Usable())
            && (r.idx.None? ==> if tuple in t.index then r.closed == 1 && Flows(r.t) == Flows(t) - {t.index[tuple]}
                                                         && t.index[tuple] in Flows(t)
                                                         && r.t.index == IndexWithout(t.index, Flows(t)[t.index[tuple]])
                                else r.closed == 0 && r.t == t)
  {
    if tuple in t.index {
      var i := t.index[tuple];
      assert i in Flows(t);
      RemoveTakesOne(t, i);
      RemoveFrame(t, i);
    }
  }

  lemma NewSessionFlows(snap: Snapshot, t: Table, now: nat, to: Timeouts, tuple: FiveTuple, env: Env)
    requires Sound(t)
    ensures var r := NewSession(snap, t, now, to, tuple, env);
            && (r.idx.None? && tuple !in t.index ==> r.t == t)
            && (r.idx.Some? ==>
                  var i := r.idx.value;
                  && env.pick.Some? && (snap.net.mode == Nat ==> env.server.Some?)
                  && i !in Flows(t) && Live(r.t, i)
                  && r.t.index == IndexWith(t.index, i, tuple, ReplyKey(snap, env))
                  && Flows(r.t) == Flows(t)[i := NewFlow(tuple, ReplyKey(snap, env), now,
                                                         if tuple.protocol == PROTO_TCP then to.tcpSyn else to.udp)
                                                 .(app := FirstApp(snap.net.mode, tuple, env.pick.value, env.toa))])
  {
    if env.pick.Some? && (snap.net.mode == Nat ==> env.server.Some?) {
      var timeout := if tuple.protocol == PROTO_TCP then to.tcpSyn else to.udp;
      var key := ReplyKey(snap, env);
      var c := Create(t, tuple, key, now, timeout, env.clientAdded, env.serverAdded);
      CreateFails(t, tuple, key, now, timeout, env.clientAdded, env.serverAdded);
      if c.idx.Some? {
        StartedFlows(t, tuple, key, now, timeout, FirstApp(snap.net.mode, tuple, env.pick.value, env.toa));
      }
      hide Create;
      hide Sound;
      hide WithApp;
      hide Flows;
    }
  }

  lemma StartedFlows(t: Table, client: FiveTuple, server: Option<FiveTuple>, now: nat, timeout: nat, app: App)
    requires Sound(t) && |t.free| > 0
    ensures var c := Create(t, client, server, now, timeout, true, true);
            && c.idx.Some?
            && var i := c.idx.value;
            && i !in Flows(t) && Live(c.table, i)
            && var r := WithApp(c.table, i, app);
            && Live(r, i) && r.index == IndexWith(t.index, i, client, server)
            && Flows(r) == Flows(t)[i := NewFlow(client, server, now, timeout).(app := app)]
  {
    CreateAdds(t, client, server, now, timeout);
    CreateFrame(t, client, server, now, timeout);
    var c := Create(t, client, server, now, timeout, true, true);
    CreateLinks(t, client, server, now, timeout);
    var i := c.idx.value;
    WithAppFlows(c.table, i, app);
    assert FlowOf(c.table.ss[i]) == NewFlow(client, server, now, timeout);
    hide *;
    LastUpdateWins(Flows(t), i, NewFlow(client, server, now, timeout), NewFlow(client, server, now, timeout).(app := app));
  }

  lemma LastUpdateWins(m: map<nat, Flow>, i: nat, a: Flow, b: Flow)
    ensures m[i := a][i := b] == m[i := b]
  {
  }
}
