/** The whole answer of a worker to a TCP or UDP packet it owns, said on flows and flags: when a session is opened,
    replaced or given back, what a packet does to its flow, and what is sent. */
module Answers {
  import opened Types
  import opened Steering
  import opened Links
  import opened Wheel
  import opened TableOps
  import opened Handlers
  import opened Ownership
  import opened TcpStates

  /** The packet may open a session: a datagram, or a segment with SYN and neither ACK nor RST. */
  predicate MayOpen(tuple: FiveTuple, f: TcpFlags) {
    tuple.protocol == PROTO_TCP ==> f.syn && !f.ack && !f.rst
  }

  /** The flow is over for this packet: its server may not be used any more, or the packet opens a connection anew
      after the last one has ended. */
  predicate Ends(snap: Snapshot, fl: Flow, tuple: FiveTuple, f: TcpFlags) {
    || fl.app.rsId !in snap.rs || !snap.rs[fl.app.rsId].enabled || !snap.rs[fl.app.rsId].healthy
    || (tuple.protocol == PROTO_TCP && MayOpen(tuple, f) && fl.app.state in {TimeWait, Closed})
  }

  /** The flows of all other clients. */
  ghost function Others(m: map<nat, Flow>, client: FiveTuple): map<nat, Flow> {
    map i: nat | i in m && m[i].client != client :: m[i]
  }

  /** The flow at `i` is the client's, and may go on. */
  ghost predicate GoesOn(snap: Snapshot, m: map<nat, Flow>, i: nat, tuple: FiveTuple, f: TcpFlags) {
    i in m && m[i].client == tuple && !Ends(snap, m[i], tuple, f)
  }

  /** A flow after one more segment: the state is that of its history, and the timeout of that state starts anew. */
  function AfterSegment(fl: Flow, s: Segment, now: nat, to: Timeouts): Flow {
    var app := After(fl.app, [s]);
    fl.(app := app, expire := Deadline(now, StateTimeout(app.state, to)))
  }

  /** The next hop is known and, where the packet is translated, its hop limit allows it. */
  predicate Reaches(snap: Snapshot, env: Env) {
    env.neighbour && (snap.net.mode == Nat ==> env.ttlOk)
  }

  // ---------------------------------------------------------------------------------------------
  // Finding a session
  // ---------------------------------------------------------------------------------------------

  lemma NamedByClient(fab: Fabric, me: nat, t: Table, tuple: FiveTuple)
    requires fab.Valid() && Kept(t) && Owns(fab, me, Flows(t)) && Classify(fab.net, tuple) == Inbound
    ensures tuple in t.index ==>
      && t.index[tuple] in Flows(t) && Flows(t)[t.index[tuple]].client == tuple
      && Others(Flows(t), tuple) == Flows(t) - {t.index[tuple]}
    ensures forall i :: i in Flows(t) && Flows(t)[i].client == tuple ==> tuple in t.index && t.index[tuple] == i
    ensures tuple !in t.index ==> Others(Flows(t), tuple) == Flows(t)
  {
    hide Sound;
    hide Owns;
    hide Classify;
    forall i | i in Flows(t) && Flows(t)[i].client == tuple ensures tuple in t.index && t.index[tuple] == i {
      assert Indexed(t.index, Flows(t)[i], i);
    }
    if tuple in t.index { LookupByDirection(fab, me, t, tuple); }
  }

  /** A session is found exactly when the client has a flow that may go on; otherwise its flow, if any, is closed. */
  lemma FindSessionExact(fab: Fabric, snap: Snapshot, me: nat, t: Table, tuple: FiveTuple, f: TcpFlags)
    requires fab.Valid() && Kept(t) && Owns(fab, me, Flows(t)) && Classify(fab.net, tuple) == Inbound
    ensures var r := FindSession(snap, t, tuple, f);
            && |r.t.ss| == |t.ss|
            && (r.idx.Some? ==> r.t == t && r.closed == 0 && GoesOn(snap, Flows(t), r.idx.value, tuple, f))
            && (forall i: nat :: GoesOn(snap, Flows(t), i, tuple, f) ==> r.idx == Some(i))
            && (r.idx.None? ==> Flows(r.t) == Others(Flows(t), tuple) && tuple !in r.t.index
                                && |Flows(r.t)| + r.closed == |Flows(t)|)
  {
    hide Sound;
    hide IndexExact;
    hide Classify;
    hide Owns;
    NamedByClient(fab, me, t, tuple);
    FindSessionEffect(snap, t, tuple, f);
    FindSessionOwns(fab, snap, me, t, tuple, f);
    SameSize(snap, t, tuple, f);
    if tuple in t.index { RemovedSize(Flows(t), t.index[tuple]); }
  }

  lemma SameSize(snap: Snapshot, t: Table, tuple: FiveTuple, f: TcpFlags)
    requires Kept(t)
    ensures |FindSession(snap, t, tuple, f).t.ss| == |t.ss|
  {
    if tuple in t.index {
      assert t.index[tuple] in Flows(t);
      RemoveFrame(t, t.index[tuple]);
    }
  }

  // ---------------------------------------------------------------------------------------------
  // The first packet of a flow
  // ---------------------------------------------------------------------------------------------

  /** A session is opened: the packet may open one, a server was picked, in NAT mode a reply key was found, an index is
      free, and the hash accepts the keys. */
  predicate Opens(snap: Snapshot, live: nat, capacity: nat, tuple: FiveTuple, f: TcpFlags, env: Env) {
    && MayOpen(tuple, f) && env.pick.Some? && live < capacity && env.clientAdded
    && (snap.net.mode == Nat ==> env.server.Some? && env.serverAdded)
  }

  /** The flow a first packet leaves behind. */
  function OpenedFlow(snap: Snapshot, now: nat, to: Timeouts, tuple: FiveTuple, f: TcpFlags, env: Env): Flow
    requires env.pick.Some?
  {
    var tcp := tuple.protocol == PROTO_TCP;
    Flow(tuple, if snap.net.mode == Nat then env.server else None,
         App(env.pick.value, if tcp then SynRecv else UdpFlow, tcp && f.fin, false, snap.net.mode == Nat && tcp && env.toa),
         now, Deadline(now, if tcp then to.tcpSyn else to.udp))
  }

  lemma NewSessionIff(snap: Snapshot, t: Table, now: nat, to: Timeouts, tuple: FiveTuple, f: TcpFlags, env: Env)
    requires Sound(t)
    ensures MayOpen(tuple, f) ==>
      (NewSession(snap, t, now, to, tuple, env).idx.Some? <==> Opens(snap, |Flows(t)|, |t.ss|, tuple, f, env))
  {
    ActiveIsFlowCount(t);
    hide Sound;
    hide Flows;
    hide FirstApp;
    if env.pick.Some? && (snap.net.mode == Nat ==> env.server.Some?) {
      CreateFails(t, tuple, ReplyKey(snap, env), now, if tuple.protocol == PROTO_TCP then to.tcpSyn else to.udp,
                  env.clientAdded, env.serverAdded);
      hide Create;
    }
  }

  /** What forwarding does to the flows. */
  lemma ForwardExact(snap: Snapshot, t: Table, i: nat, now: nat, to: Timeouts, tuple: FiveTuple, f: TcpFlags, env: Env,
                     isNew: bool, closed: nat)
    requires Sound(t) && Live(t, i)
    requires snap.net.mode == Nat ==> FlowOf(t.ss[i]).server.Some?
    ensures var r, fl := Forward(snap, t, i, now, to, tuple, f, env, isNew, closed), FlowOf(t.ss[i]);
            && r.created == (if isNew then 1 else 0)
            && (Reaches(snap, env) ==>
                  && r.closed == closed && Flows(r.t) == Flows(t)[i := AfterSegment(fl, Segment(f, true), now, to)]
                  && r.verdict == Send(if snap.net.mode == Dr then tuple else fl.server.value.Reverse()))
            && (!Reaches(snap, env) ==> r.verdict == Discard)
            && (!Reaches(snap, env) && !isNew ==>
                  r.closed == closed && Flows(r.t) == Flows(t)[i := AfterSegment(fl, Segment(f, true), now, to)])
            && (!Reaches(snap, env) && isNew ==> r.closed == closed + 1 && Flows(r.t) == Flows(t) - {i})
  {
    hide Sound;
    hide Advanced;
    hide Remove;
    hide NextApp;
    var fl := FlowOf(t.ss[i]);
    AdvancedFlows(t, i, now, to, f, true);
    var u := Advanced(t, i, now, to, f, true);
    OneSegment(fl.app, Segment(f, true));
    assert AdvancedFlow(fl, now, to, f, true) == AfterSegment(fl, Segment(f, true), now, to);
    assert i in Flows(u) && Flows(u)[i] == FlowOf(u.ss[i]);
    RemoveTakesOne(u, i);
    assert Flows(t)[i := AdvancedFlow(fl, now, to, f, true)] - {i} == Flows(t) - {i};
    hide Flows;
  }

  lemma OneSegment(a: App, s: Segment)
    ensures After(a, [s]) == NextApp(a, s.flags, s.fromClient)
  {
    assert [s][..0] == [] && After(a, []) == a;
  }

  /** The answer to a packet whose client has no flow that may go on. A session is opened exactly when it should be, in
      place of the client's old flow if there was one; the packet goes to the picked server when the next hop is known
      and the hop limit allows, and otherwise the session is given back. All other flows stay as they were. */
  lemma FirstPacket(fab: Fabric, snap: Snapshot, me: nat, t: Table, now: nat, to: Timeouts, tuple: FiveTuple,
                    f: TcpFlags, redirected: bool, env: Env) returns (i: nat)
    requires fab.Valid() && fab.Admits(snap) && Kept(t) && Owns(fab, me, Flows(t))
    requires Classify(fab.net, tuple) == Inbound && fab.st.FwdOwner(tuple) == me
    requires EnvOk(fab, snap, me, FindSession(snap, t, tuple, f).t, tuple, env)
    requires forall i: nat :: !GoesOn(snap, Flows(t), i, tuple, f)
    ensures var r, rest := HandleInbound(fab, snap, me, t, now, to, tuple, f, redirected, env), Others(Flows(t), tuple);
            var opens := Opens(snap, |rest|, |t.ss|, tuple, f, env);
            && r.created == (if opens then 1 else 0)
            && |rest| + r.closed == |Flows(t)| + (if opens && !Reaches(snap, env) then 1 else 0)
            && (opens && Reaches(snap, env) ==>
                  && i !in rest && Flows(r.t) == rest[i := OpenedFlow(snap, now, to, tuple, f, env)]
                  && r.verdict == Send(if snap.net.mode == Dr then tuple else env.server.value.Reverse()))
            && (!(opens && Reaches(snap, env)) ==> Flows(r.t) == rest && r.verdict == Discard)
  {
    hide Sound;
    hide IndexExact;
    hide Owns;
    hide Classify;
    hide EnvOk;
    hide Fabric.Admits;
    hide NewSession;
    hide Forward;
    hide FindSession;
    hide OpenedFlow;
    hide Flows;
    FindSessionExact(fab, snap, me, t, tuple, f);
    var found := FindSession(snap, t, tuple, f);
    NewSessionIff(snap, found.t, now, to, tuple, f, env);
    i := OpenedAnswer(snap, found.t, now, to, tuple, f, env, found.closed);
  }

  lemma OpenedAnswer(snap: Snapshot, t: Table, now: nat, to: Timeouts, tuple: FiveTuple, f: TcpFlags, env: Env, closed: nat)
    returns (i: nat)
    requires Sound(t) && tuple !in t.index
    ensures var r := HandleNew(snap, t, now, to, tuple, f, env, closed);
            var opens := Opens(snap, |Flows(t)|, |t.ss|, tuple, f, env);
            && r.created == (if opens then 1 else 0)
            && r.closed == closed + (if opens && !Reaches(snap, env) then 1 else 0)
            && (opens && Reaches(snap, env) ==>
                  && i !in Flows(t) && Flows(r.t) == Flows(t)[i := OpenedFlow(snap, now, to, tuple, f, env)]
                  && r.verdict == Send(if snap.net.mode == Dr then tuple else env.server.value.Reverse()))
            && (!(opens && Reaches(snap, env)) ==> Flows(r.t) == Flows(t) && r.verdict == Discard)
  {
    hide Sound;
    hide Forward;
    hide NewSession;
    hide AfterSegment;
    NewSessionIff(snap, t, now, to, tuple, f, env);
    NewSessionFlows(snap, t, now, to, tuple, env);
    var o := NewSession(snap, t, now, to, tuple, env);
    i := 0;
    if MayOpen(tuple, f) && o.idx.Some? {
      i := o.idx.value;
      assert i in Flows(o.t) && Flows(o.t)[i] == FlowOf(o.t.ss[i]);
      ForwardExact(snap, o.t, i, now, to, tuple, f, env, true, closed);
      FirstSegment(snap, now, to, tuple, f, env);
      var fl := OpenedFlow(snap, now, to, tuple, f, env);
      hide *;
      LastUpdateWins(Flows(t), i, FlowOf(o.t.ss[i]), fl);
      RemoveUpdated(Flows(t), i, FlowOf(o.t.ss[i]));
    }
  }

  lemma RemoveUpdated(m: map<nat, Flow>, i: nat, fl: Flow)
    requires i !in m
    ensures m[i := fl] - {i} == m
  {
  }

  /** A connection request leaves a new session half open; a datagram leaves its flow as it is. */
  lemma FirstSegment(snap: Snapshot, now: nat, to: Timeouts, tuple: FiveTuple, f: TcpFlags, env: Env)
    requires MayOpen(tuple, f) && env.pick.Some?
    ensures var fl := NewFlow(tuple, ReplyKey(snap, env), now, if tuple.protocol == PROTO_TCP then to.tcpSyn else to.udp)
                        .(app := FirstApp(snap.net.mode, tuple, env.pick.value, env.toa));
            AfterSegment(fl, Segment(f, true), now, to) == OpenedFlow(snap, now, to, tuple, f, env)
  {
    OneSegment(FirstApp(snap.net.mode, tuple, env.pick.value, env.toa), Segment(f, true));
  }

  // ---------------------------------------------------------------------------------------------
  // Further packets
  // ---------------------------------------------------------------------------------------------

  /** The answer to a packet whose client has a flow that may go on: that flow takes in one client segment, whether or
      not the packet can be sent, and the packet goes to the flow's own server. */
  lemma LaterPacket(fab: Fabric, snap: Snapshot, me: nat, t: Table, now: nat, to: Timeouts, tuple: FiveTuple,
                    f: TcpFlags, redirected: bool, env: Env, i: nat)
    requires fab.Valid() && fab.Admits(snap) && Kept(t) && Owns(fab, me, Flows(t))
    requires Classify(fab.net, tuple) == Inbound && fab.st.FwdOwner(tuple) == me
    requires GoesOn(snap, Flows(t), i, tuple, f)
    ensures var r, fl := HandleInbound(fab, snap, me, t, now, to, tuple, f, redirected, env), Flows(t)[i];
            && (fl.server.Some? <==> snap.net.mode == Nat) && r.created == r.closed == 0
            && Flows(r.t) == Flows(t)[i := AfterSegment(fl, Segment(f, true), now, to)]
            && r.verdict == if !Reaches(snap, env) then Discard
                            else Send(if fl.server.Some? then fl.server.value.Reverse() else tuple)
  {
    hide Sound;
    hide IndexExact;
    hide Classify;
    hide FindSession;
    hide Forward;
    FindSessionExact(fab, snap, me, t, tuple, f);
    assert FlowOk(fab, me, Flows(t)[i]);
    hide Owns;
    hide AfterSegment;
    assert Live(t, i) && Flows(t)[i] == FlowOf(t.ss[i]);
    ForwardExact(snap, t, i, now, to, tuple, f, env, false, 0);
    hide Flows;
  }

  /** A flow after a reply: one server segment more, and the client's address needs no more telling once the server has
      answered with something else than a SYN. */
  function AfterReply(fl: Flow, f: TcpFlags, now: nat, to: Timeouts): Flow {
    var next := AfterSegment(fl, Segment(f, false), now, to);
    next.(app := next.app.(toaPending := fl.app.toaPending && f.syn))
  }

  lemma SegmentKeepsToa(a: App, f: TcpFlags, fromClient: bool)
    ensures NextApp(a, f, fromClient).toaPending == a.toaPending
  {
  }

  lemma RepliedFlows(t: Table, i: nat, now: nat, to: Timeouts, f: TcpFlags)
    requires Sound(t) && Live(t, i)
    ensures Sound(Advanced(t, i, now, to, f, false)) && Live(Advanced(t, i, now, to, f, false), i)
    ensures var u := Advanced(t, i, now, to, f, false);
            Flows(WithApp(u, i, u.ss[i].app.(toaPending := u.ss[i].app.toaPending && f.syn)))
              == Flows(t)[i := AfterReply(FlowOf(t.ss[i]), f, now, to)]
  {
    hide Sound;
    hide Advanced;
    hide NextApp;
    var fl := FlowOf(t.ss[i]);
    AdvancedFlows(t, i, now, to, f, false);
    OneSegment(fl.app, Segment(f, false));
    SegmentKeepsToa(fl.app, f, false);
    var u := Advanced(t, i, now, to, f, false);
    var app := u.ss[i].app.(toaPending := u.ss[i].app.toaPending && f.syn);
    assert i in Flows(u) && Flows(u)[i] == FlowOf(u.ss[i]) == AdvancedFlow(fl, now, to, f, false);
    assert FlowOf(u.ss[i]).(app := app) == AfterReply(fl, f, now, to);
    WithAppFlows(u, i, app);
    hide *;
    LastUpdateWins(Flows(t), i, AdvancedFlow(fl, now, to, f, false), AfterReply(fl, f, now, to));
  }

  /** The answer to a reply at the worker that owns it. Without a flow it is dropped; a flow whose server may not be used
      any more is closed; otherwise the flow takes in one server segment, whether or not the packet can be sent, and the
      packet goes back to the client. */
  lemma ReplyPacket(fab: Fabric, snap: Snapshot, me: nat, t: Table, now: nat, to: Timeouts, tuple: FiveTuple,
                    f: TcpFlags, redirected: bool, env: Env)
    requires fab.Valid() && Kept(t) && Owns(fab, me, Flows(t))
    requires Classify(fab.net, tuple) == Return && fab.st.RetOwner(tuple) == me
    ensures var r := HandleReturn(fab, snap, me, t, now, to, tuple, f, redirected, env);
            && (forall i: nat :: i in Flows(t) && Flows(t)[i].server == Some(tuple) ==>
                  var fl := Flows(t)[i];
                  if fl.app.rsId in snap.rs && snap.rs[fl.app.rsId].enabled && snap.rs[fl.app.rsId].healthy then
                    && Flows(r.t) == Flows(t)[i := AfterReply(fl, f, now, to)] && r.created == r.closed == 0
                    && r.verdict == if env.neighbour && env.ttlOk then Send(fl.client.Reverse()) else Discard
                  else r == Handled(r.t, Discard, 0, 1) && Flows(r.t) == Flows(t) - {i})
            && ((forall i: nat :: i in Flows(t) ==> Flows(t)[i].server != Some(tuple)) ==> r == Handled(t, Discard, 0, 0))
  {
    hide Sound;
    hide Classify;
    hide Advanced;
    hide WithApp;
    hide Remove;
    hide AfterReply;
    if tuple in t.index {
      LookupByDirection(fab, me, t, tuple);
      hide Owns;
      var i := t.index[tuple];
      assert i in Flows(t) && Flows(t)[i] == FlowOf(t.ss[i]);
      RepliedFlows(t, i, now, to, f);
      RemoveTakesOne(t, i);
      forall j: nat | j in Flows(t) && Flows(t)[j].server == Some(tuple) ensures j == i {
        assert Indexed(t.index, Flows(t)[j], j);
      }
      hide IndexExact;
      hide Flows;
    } else {
      forall j: nat | j in Flows(t) ensures Flows(t)[j].server != Some(tuple) {
        assert Indexed(t.index, Flows(t)[j], j);
      }
    }
  }

  // ---------------------------------------------------------------------------------------------
  // Which packets are which
  // ---------------------------------------------------------------------------------------------

  predicate ToLentPort(net: Net, t: FiveTuple) {
    net.mode == Nat && (t.dstIp == 0 || t.dstIp in net.lips) && 10000 <= t.dstPort <= 60000
  }

  predicate ToProbePort(net: Net, t: FiveTuple) {
    t.dstIp == net.hcSrc && 61000 <= t.dstPort <= 61999
  }

  /** Replies are what goes to a lent port of a local address, probe answers what goes to a probe port of the health
      checker; no packet is both, and only what is neither can be for a service. */
  lemma Classes(net: Net, t: FiveTuple)
    ensures !(ToLentPort(net, t) && ToProbePort(net, t))
    ensures Classify(net, t) == Return <==> ToLentPort(net, t)
    ensures Classify(net, t) == HealthReply <==> ToProbePort(net, t)
    ensures Classify(net, t) == Inbound <==>
      KeyOf(t) in net.services && !ToLentPort(net, t) && !ToProbePort(net, t)
  {
  }

  /** Probe answers over TCP are handed to the health checker, everything that is for no service is dropped, and neither
      touches a session. */
  lemma OtherPacket(fab: Fabric, snap: Snapshot, me: nat, t: Table, now: nat, to: Timeouts, tuple: FiveTuple,
                    f: TcpFlags, redirected: bool, env: Env)
    requires fab.Valid() && fab.Admits(snap) && Kept(t) && !ToLentPort(fab.net, tuple)
    requires ToProbePort(fab.net, tuple) || KeyOf(tuple) !in fab.net.services
    ensures HandleTransport(fab, snap, me, t, now, to, tuple, f, redirected, env) ==
            Handled(t, if ToProbePort(fab.net, tuple) && tuple.protocol == PROTO_TCP then Consumed else Discard, 0, 0)
  {
    Classes(fab.net, tuple);
    hide Kept;
    hide Classify;
    hide HandleInbound;
    hide HandleReturn;
  }

  // ---------------------------------------------------------------------------------------------
  // ICMP errors
  // ---------------------------------------------------------------------------------------------

  /** The error is about a translated request: it came back to a local address and quotes a lent port. */
  predicate AboutRequest(net: Net, outerDst: u32, inner: FiveTuple) {
    net.mode == Nat && net.IsLip(outerDst) && net.IsLip(inner.srcIp) && 10000 <= inner.srcPort <= 60000
  }

  /** The error is about a packet to a client: it came back to a service address and quotes one as source. */
  predicate AboutReply(net: Net, outerDst: u32, inner: FiveTuple) {
    !AboutRequest(net, outerDst, inner) && net.IsVip(outerDst) && net.IsVip(inner.srcIp)
  }

  lemma NamedByKey(t: Table, key: FiveTuple)
    requires Kept(t)
    ensures key in t.index ==>
      t.index[key] in Flows(t) && Flows(t)[t.index[key]] == FlowOf(t.ss[t.index[key]]) && HasKey(Flows(t)[t.index[key]], key)
    ensures forall i :: i in Flows(t) && HasKey(Flows(t)[i], key) ==> key in t.index && t.index[key] == i
  {
    hide Sound;
    forall i | i in Flows(t) && HasKey(Flows(t)[i], key) ensures key in t.index && t.index[key] == i {
      assert Indexed(t.index, Flows(t)[i], i);
    }
  }

  /** The answer to an ICMP error at the worker that owns the quoted packet. An error about a translated request goes to
      the client and quotes what the client sent; one about a packet to a client goes to the server, translated in NAT
      mode and as it is in DR mode; without a flow, a next hop or hops left it is dropped. */
  lemma ErrorPacket(fab: Fabric, snap: Snapshot, me: nat, t: Table, outerSrc: u32, outerDst: u32, inner: FiveTuple,
                    redirected: bool, env: Env)
    requires fab.Valid() && fab.Admits(snap) && Kept(t) && Owns(fab, me, Flows(t))
    requires AboutRequest(fab.net, outerDst, inner) ==> fab.st.RetOwner(inner.Reverse()) == me
    requires AboutReply(fab.net, outerDst, inner) ==> fab.st.FwdOwner(inner.Reverse()) == me
    ensures var v := HandleIcmpError(fab, snap, me, t, outerSrc, outerDst, inner, redirected, env);
            && (AboutRequest(fab.net, outerDst, inner) ==>
                  && (forall i :: i in Flows(t) && Flows(t)[i].server == Some(inner.Reverse()) ==>
                        var client := Flows(t)[i].client;
                        v == if env.neighbour && env.ttlOk then SendError(client.dstIp, client.srcIp, client) else Discard)
                  && ((forall i :: i in Flows(t) ==> Flows(t)[i].server != Some(inner.Reverse())) ==> v == Discard))
            && (AboutReply(fab.net, outerDst, inner) ==>
                  && (forall i :: i in Flows(t) && Flows(t)[i].client == inner.Reverse() ==>
                        var fl := Flows(t)[i];
                        && (fl.server.Some? <==> fab.net.mode == Nat)
                        && v == if fl.app.rsId !in snap.rs || !Reaches(snap, env) then Discard
                                else if fl.server.None? then SendError(outerSrc, outerDst, inner)
                                else SendError(fl.server.value.dstIp, fl.server.value.srcIp, fl.server.value))
                  && ((forall i :: i in Flows(t) ==> Flows(t)[i].client != inner.Reverse()) ==> v == Discard))
            && (!AboutRequest(fab.net, outerDst, inner) && !AboutReply(fab.net, outerDst, inner) ==> v == Discard)
  {
    hide Sound;
    hide IndexExact;
    hide Steering.FwdOwner;
    hide Steering.RetOwner;
    var key := inner.Reverse();
    NamedByKey(t, key);
    if key in t.index { assert FlowOk(fab, me, Flows(t)[t.index[key]]); }
    hide Owns;
    hide Flows;
    hide Classify;
  }
}
