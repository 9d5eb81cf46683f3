/** What every live flow of every worker says about the packets the worker has handled for it: its state is that of
    the segments seen since it was opened, and its deadline that of the last one. */
module Histories {
  import opened Types
  import opened Links
  import opened Wheel
  import opened Expiry
  import opened TableOps
  import opened Handlers
  import opened Ownership
  import opened TcpStates
  import Lifetimes
  import opened Answers
  import opened Cluster
  import opened Fates

  /** A segment, and the second it was handled in. */
  datatype Event = Event(segment: Segment, tick: nat)

  /** What the step is for flow `fl` of worker `w`: a client segment, a server segment, or nothing. */
  ghost function Means(fab: Fabric, c: Cluster, a: Action, w: nat, fl: Flow): seq<Event> {
    if !(Ready(fab, c, a) && Handles(a) && a.w == w && PacketOf(fab, c, a).Transport?) then []
    else
      var pkt := PacketOf(fab, c, a);
      if pkt.tuple == fl.client then [Event(Segment(pkt.flags, true), c.ws[w].now)]
      else if Some(pkt.tuple) == fl.server then [Event(Segment(pkt.flags, false), c.ws[w].now)]
      else []
  }

  /** A flow after what one step means for it. */
  function AfterEvents(fl: Flow, es: seq<Event>, to: Timeouts): Flow
    requires |es| <= 1
  {
    if es == [] then fl
    else if es[0].segment.fromClient then AfterSegment(fl, es[0].segment, es[0].tick, to)
    else AfterReply(fl, es[0].segment.flags, es[0].tick, to)
  }

  /** The step opened the flow at `i`, in place of an older one of the same client if there was one. */
  ghost predicate Started(fab: Fabric, c: Cluster, a: Action, d: Cluster, w: nat, i: nat) {
    && Ready(fab, c, a) && Handles(a) && a.w == w && w < |c.ws| && w < |d.ws|
    && PacketOf(fab, c, a).Transport? && i in Flows(d.ws[w].t)
    && Flows(d.ws[w].t)[i].client == PacketOf(fab, c, a).tuple && d.ws[w].sessNew > c.ws[w].sessNew
  }

  // ---------------------------------------------------------------------------------------------
  // One step
  // ---------------------------------------------------------------------------------------------

  /** A flow after a step was either opened by it, as a first packet leaves it, or has taken in what the step means. */
  ghost predicate Continues(fab: Fabric, to: Timeouts, c: Cluster, a: Action, d: Cluster, w: nat, i: nat)
    requires w < |c.ws| && w < |d.ws| && i in Flows(d.ws[w].t)
  {
    var fl := Flows(d.ws[w].t)[i];
    if Started(fab, c, a, d, w, i) then
      var pkt := PacketOf(fab, c, a);
      && MayOpen(pkt.tuple, pkt.flags) && a.env.pick.Some?
      && fl == OpenedFlow(a.snap, c.ws[w].now, to, pkt.tuple, pkt.flags, a.env)
    else
      && i in Flows(c.ws[w].t)
      && fl == AfterEvents(Flows(c.ws[w].t)[i], Means(fab, c, a, w, Flows(c.ws[w].t)[i]), to)
  }

  /** The two keys of a flow are of different classes. */
  lemma KeyClasses(fab: Fabric, me: nat, m: map<nat, Flow>, i: nat)
    requires fab.Valid() && Owns(fab, me, m) && i in m
    ensures Classify(fab.net, m[i].client) == Inbound && fab.st.FwdOwner(m[i].client) == me
    ensures m[i].server.Some? ==> Classify(fab.net, m[i].server.value) == Return && fab.st.RetOwner(m[i].server.value) == me
  {
    assert FlowOk(fab, me, m[i]);
  }

  /** The effect of one handled TCP or UDP packet on the flow at `i`. */
  ghost predicate PacketContinues(to: Timeouts, snap: Snapshot, t: Table, now: nat, r: Handled, tuple: FiveTuple,
                                  f: TcpFlags, env: Env, i: nat)
    requires i in Flows(r.t)
  {
    var fl := Flows(r.t)[i];
    if r.created > 0 && fl.client == tuple then
      MayOpen(tuple, f) && env.pick.Some? && fl == OpenedFlow(snap, now, to, tuple, f, env)
    else
      && i in Flows(t)
      && var before := Flows(t)[i];
         fl == if before.client == tuple then AfterSegment(before, Segment(f, true), now, to)
               else if before.server == Some(tuple) then AfterReply(before, f, now, to)
               else before
  }

  lemma InboundContinues(fab: Fabric, snap: Snapshot, to: Timeouts, me: nat, t: Table, now: nat, tuple: FiveTuple,
                         f: TcpFlags, redirected: bool, env: Env, i: nat)
    requires fab.Valid() && fab.Admits(snap) && Kept(t) && Owns(fab, me, Flows(t))
    requires Classify(fab.net, tuple) == Inbound && EnvOk(fab, snap, me, FindSession(snap, t, tuple, f).t, tuple, env)
    requires i in Flows(HandleInbound(fab, snap, me, t, now, to, tuple, f, redirected, env).t)
    ensures var r := HandleInbound(fab, snap, me, t, now, to, tuple, f, redirected, env);
            PacketContinues(to, snap, t, now, r, tuple, f, env, i)
  {
    hide Sound;
    hide IndexExact;
    hide Owns;
    hide Classify;
    hide EnvOk;
    hide Fabric.Admits;
    hide FindSession;
    hide Forward;
    hide HandleNew;
    hide AfterSegment;
    hide AfterReply;
    hide Flows;
    if i in Flows(t) { KeyClasses(fab, me, Flows(t), i); }
    if fab.st.FwdOwner(tuple) == me {
      if j: nat :| GoesOn(snap, Flows(t), j, tuple, f) {
        LaterPacket(fab, snap, me, t, now, to, tuple, f, redirected, env, j);
        OneFlowPerClient(fab, me, t, tuple, i, j);
      } else {
        var j := FirstPacket(fab, snap, me, t, now, to, tuple, f, redirected, env);
      }
    }
  }

  lemma OneFlowPerClient(fab: Fabric, me: nat, t: Table, tuple: FiveTuple, i: nat, j: nat)
    requires fab.Valid() && Kept(t) && Owns(fab, me, Flows(t)) && Classify(fab.net, tuple) == Inbound
    requires j in Flows(t) && Flows(t)[j].client == tuple
    ensures i in Flows(t) && Flows(t)[i].client == tuple ==> i == j
  {
    NamedByClient(fab, me, t, tuple);
  }

  lemma ReturnContinues(fab: Fabric, snap: Snapshot, to: Timeouts, me: nat, t: Table, now: nat, tuple: FiveTuple,
                        f: TcpFlags, redirected: bool, env: Env, i: nat)
    requires fab.Valid() && Kept(t) && Owns(fab, me, Flows(t)) && Classify(fab.net, tuple) == Return
    requires i in Flows(HandleReturn(fab, snap, me, t, now, to, tuple, f, redirected, env).t)
    ensures var r := HandleReturn(fab, snap, me, t, now, to, tuple, f, redirected, env);
            PacketContinues(to, snap, t, now, r, tuple, f, env, i)
  {
    hide Sound;
    hide IndexExact;
    hide Owns;
    hide Classify;
    hide Advanced;
    hide AfterSegment;
    hide AfterReply;
    hide OpenedFlow;
    hide Flows;
    if i in Flows(t) { KeyClasses(fab, me, Flows(t), i); }
    if fab.st.RetOwner(tuple) == me {
      ReplyPacket(fab, snap, me, t, now, to, tuple, f, redirected, env);
      hide HandleReturn;
    }
  }

  lemma TransportContinues(fab: Fabric, snap: Snapshot, to: Timeouts, me: nat, t: Table, now: nat, tuple: FiveTuple,
                           f: TcpFlags, redirected: bool, env: Env, i: nat)
    requires fab.Valid() && fab.Admits(snap) && Kept(t) && Owns(fab, me, Flows(t))
    requires Classify(fab.net, tuple) == Inbound ==> EnvOk(fab, snap, me, FindSession(snap, t, tuple, f).t, tuple, env)
    requires i in Flows(HandleTransport(fab, snap, me, t, now, to, tuple, f, redirected, env).t)
    ensures var r := HandleTransport(fab, snap, me, t, now, to, tuple, f, redirected, env);
            PacketContinues(to, snap, t, now, r, tuple, f, env, i)
  {
    hide Sound;
    hide IndexExact;
    hide Owns;
    hide Classify;
    hide EnvOk;
    hide FindSession;
    hide HandleInbound;
    hide HandleReturn;
    hide AfterSegment;
    hide AfterReply;
    hide OpenedFlow;
    hide Flows;
    match Classify(fab.net, tuple)
    case Inbound => InboundContinues(fab, snap, to, me, t, now, tuple, f, redirected, env, i);
    case Return => ReturnContinues(fab, snap, to, me, t, now, tuple, f, redirected, env, i);
    case HealthReply => KeyClasses(fab, me, Flows(t), i);
    case NoService => KeyClasses(fab, me, Flows(t), i);
  }

  lemma HandlingContinues(fab: Fabric, to: Timeouts, c: Cluster, a: Action, i: nat)
    requires Inv(fab, c) && Enabled(fab, c, a) && Handles(a)
    requires a.w < |Next(fab, to, c, a).ws| && i in Flows(Next(fab, to, c, a).ws[a.w].t)
    ensures Continues(fab, to, c, a, Next(fab, to, c, a), a.w, i)
  {
    hide Kept;
    hide Owns;
    hide HandleTransport;
    hide PacketOwner;
    hide Classify;
    hide EnvOk;
    hide Fabric.Admits;
    hide FindSession;
    hide AfterSegment;
    hide AfterReply;
    hide OpenedFlow;
    hide Flows;
    var d, pkt, w := Next(fab, to, c, a), PacketOf(fab, c, a), c.ws[a.w];
    assert WorkerInv(fab, a.w, w);
    hide WorkerInv;
    TableAfter(fab, to, c, a);
    hide Next;
    if pkt.Transport? {
      TransportContinues(fab, a.snap, to, a.w, w.t, w.now, pkt.tuple, pkt.flags, a.FromRing?, a.env, i);
    }
  }

  /** Settling a packet touches no table, no clock and no session counter. */
  lemma SettleKeepsTables(c: Cluster, k: nat, id: nat, pkt: Packet, verdict: Verdict)
    requires k < |c.ws|
    ensures var d := Settle(c, k, id, pkt, verdict);
            && |d.ws| == |c.ws|
            && forall v: nat :: v < |c.ws| ==>
                 d.ws[v].t == c.ws[v].t && d.ws[v].now == c.ws[v].now && d.ws[v].sessNew == c.ws[v].sessNew
  {
  }

  lemma TableAfter(fab: Fabric, to: Timeouts, c: Cluster, a: Action)
    requires Ready(fab, c, a) && Handles(a)
    ensures var w, d := c.ws[a.w], Next(fab, to, c, a);
            var h := HandlePacket(fab, a.snap, to, a.w, w.t, w.now, PacketOf(fab, c, a), a.FromRing?, a.env);
            && |d.ws| == |c.ws| && d.ws[a.w].t == h.t && d.ws[a.w].sessNew == w.sessNew + h.created
            && (forall v: nat :: v < |c.ws| ==> d.ws[v].now == c.ws[v].now && (v != a.w ==> d.ws[v].t == c.ws[v].t))
  {
    hide Kept;
    hide AnswersOk;
    hide HandlePacket;
    hide Settle;
    var w, pkt := c.ws[a.w], PacketOf(fab, c, a);
    var h := HandlePacket(fab, a.snap, to, a.w, w.t, w.now, pkt, a.FromRing?, a.env);
    SettleKeepsTables(c.(ws := c.ws[a.w := AfterHandling(Popped(fab, c, a), h)]), a.w, pkt.id, pkt, h.verdict);
  }

  lemma StepContinues(fab: Fabric, to: Timeouts, c: Cluster, a: Action, w: nat, i: nat)
    requires Inv(fab, c) && Enabled(fab, c, a) && w < |c.ws|
    requires w < |Next(fab, to, c, a).ws| && i in Flows(Next(fab, to, c, a).ws[w].t)
    ensures Continues(fab, to, c, a, Next(fab, to, c, a), w, i)
  {
    hide WorkerInv;
    hide Kept;
    hide AnswersOk;
    hide HandlePacket;
    hide Flows;
    hide Expire;
    hide OpenedFlow;
    if Handles(a) {
      if a.w == w { HandlingContinues(fab, to, c, a, i); } else { TableAfter(fab, to, c, a); }
      hide Next;
    } else if a.Tick? && a.w == w {
      TickContinues(fab, c, w, a.next, i);
    }
  }

  lemma TickContinues(fab: Fabric, c: Cluster, w: nat, next: nat, i: nat)
    requires Inv(fab, c) && w < |c.ws| && Kept(c.ws[w].t) && i in Flows(Expire(c.ws[w].t, next, EXPIRE_BUDGET))
    ensures i in Flows(c.ws[w].t) && Flows(c.ws[w].t)[i] == Flows(Expire(c.ws[w].t, next, EXPIRE_BUDGET))[i]
  {
    var t := c.ws[w].t;
    ExpireRemovesOnlyDue(t, next, EXPIRE_BUDGET);
    assert SameRecord(t.ss[i], Expire(t, next, EXPIRE_BUDGET).ss[i]);
  }

  // ---------------------------------------------------------------------------------------------
  // Whole runs
  // ---------------------------------------------------------------------------------------------

  /** What worker `w` has handled for the flow at `i` since the flow was opened. */
  ghost function History(fab: Fabric, states: seq<Cluster>, actions: seq<Action>, w: nat, i: nat, k: nat): seq<Event>
    requires |states| == |actions| + 1 && k < |states|
  {
    if k == 0 || w >= |states[k].ws| || i !in Flows(states[k].ws[w].t) then []
    else
      var c, a, d := states[k - 1], actions[k - 1], states[k];
      var news := Means(fab, c, a, w, Flows(d.ws[w].t)[i]);
      if Started(fab, c, a, d, w, i) then news else History(fab, states, actions, w, i, k - 1) + news
  }

  function Segments(h: seq<Event>): (s: seq<Segment>)
    ensures |s| == |h| && forall j: nat :: j < |h| ==> s[j] == h[j].segment
  {
    if h == [] then [] else Segments(h[..|h| - 1]) + [h[|h| - 1].segment]
  }

  lemma SegmentsStep(h: seq<Event>, e: Event)
    ensures Segments(h + [e]) == Segments(h) + [e.segment]
  {
    assert (h + [e])[..|h|] == h;
  }

  /** A session before its first segment. */
  function Blank(fl: Flow): App {
    App(fl.app.rsId, if fl.client.protocol == PROTO_TCP then StNone else UdpFlow, false, false, false)
  }

  predicate SameState(a: App, b: App) {
    a.rsId == b.rsId && a.state == b.state && a.clientFin == b.clientFin && a.serverFin == b.serverFin
  }

  /** The flow is what its history makes it: opened by a packet that may open one, in the state the segments lead to,
      with the timeout of that state running from the last of them; and while the client's address is still to be told,
      the server has answered with SYNs only. */
  ghost predicate Tells(fl: Flow, h: seq<Event>, to: Timeouts) {
    && |h| > 0 && h[0].segment.fromClient && MayOpen(fl.client, h[0].segment.flags) && fl.created == h[0].tick
    && SameState(fl.app, After(Blank(fl), Segments(h)))
    && fl.expire == Deadline(h[|h| - 1].tick, StateTimeout(fl.app.state, to))
    && (fl.app.toaPending ==> forall j: nat :: j < |h| && !h[j].segment.fromClient ==> h[j].segment.flags.syn)
  }

  lemma AfterMore(a: App, s: seq<Segment>, x: Segment)
    ensures After(a, s + [x]) == NextApp(After(a, s), x.flags, x.fromClient)
  {
    assert (s + [x])[..|s|] == s;
  }

  lemma NextSameState(a: App, b: App, f: TcpFlags, fromClient: bool)
    requires SameState(a, b)
    ensures SameState(NextApp(a, f, fromClient), NextApp(b, f, fromClient))
    ensures NextApp(a, f, fromClient).rsId == a.rsId && NextApp(a, f, fromClient).toaPending == a.toaPending
  {
  }

  lemma TellsMore(fl: Flow, h: seq<Event>, e: Event, to: Timeouts)
    requires Tells(fl, h, to)
    ensures Tells(AfterEvents(fl, [e], to), h + [e], to)
  {
    OneSegment(fl.app, e.segment);
    SegmentsStep(h, e);
    AfterMore(Blank(fl), Segments(h), e.segment);
    NextSameState(fl.app, After(Blank(fl), Segments(h)), e.segment.flags, e.segment.fromClient);
    hide NextApp;
    hide After;
    hide Segments;
    hide StateTimeout;
    hide Deadline;
  }

  lemma TellsFirst(snap: Snapshot, now: nat, to: Timeouts, tuple: FiveTuple, f: TcpFlags, env: Env)
    requires MayOpen(tuple, f) && env.pick.Some?
    ensures Tells(OpenedFlow(snap, now, to, tuple, f, env), [Event(Segment(f, true), now)], to)
  {
    var fl, e := OpenedFlow(snap, now, to, tuple, f, env), Event(Segment(f, true), now);
    assert [e][..0] == [] && Segments([e]) == [e.segment];
    OneSegment(Blank(fl), e.segment);
    hide After;
    hide Segments;
  }

  lemma NothingAtFirst(fab: Fabric, c: Cluster, w: nat)
    requires Initial(fab, c) && w < |c.ws|
    ensures Flows(c.ws[w].t) == map[]
  {
    var capacity: nat, now: nat :| capacity <= FREE && now > 0
      && c.ws[w] == Worker(Fresh(capacity, now), now, [], [], [], 0, 0, 0, 0, 0);
    FreshIsSound(capacity, now);
  }

  lemma SameKeys(fl: Flow, es: seq<Event>, to: Timeouts)
    requires |es| <= 1
    ensures AfterEvents(fl, es, to).client == fl.client && AfterEvents(fl, es, to).server == fl.server
  {
  }

  lemma HistoryStep(fab: Fabric, to: Timeouts, states: seq<Cluster>, actions: seq<Action>, w: nat, i: nat, k: nat)
    requires |states| == |actions| + 1 && 0 < k < |states| && w < |states[k].ws| && w < |states[k - 1].ws|
    requires i in Flows(states[k].ws[w].t) && Continues(fab, to, states[k - 1], actions[k - 1], states[k], w, i)
    requires !Started(fab, states[k - 1], actions[k - 1], states[k], w, i) ==>
      Tells(Flows(states[k - 1].ws[w].t)[i], History(fab, states, actions, w, i, k - 1), to)
    ensures Tells(Flows(states[k].ws[w].t)[i], History(fab, states, actions, w, i, k), to)
  {
    hide Flows;
    hide Tells;
    hide AfterEvents;
    hide Enabled;
    var c, a, d := states[k - 1], actions[k - 1], states[k];
    var fl := Flows(d.ws[w].t)[i];
    if Started(fab, c, a, d, w, i) {
      var pkt := PacketOf(fab, c, a);
      TellsFirst(a.snap, c.ws[w].now, to, pkt.tuple, pkt.flags, a.env);
    } else {
      var before := Flows(c.ws[w].t)[i];
      var news, h := Means(fab, c, a, w, before), History(fab, states, actions, w, i, k - 1);
      SameKeys(before, news, to);
      assert news == Means(fab, c, a, w, fl);
      NoEvents(before, to);
      if news == [] {
        assert h + news == h;
      } else {
        assert news == [news[0]];
        TellsMore(before, h, news[0], to);
      }
    }
  }

  lemma NoEvents(fl: Flow, to: Timeouts)
    ensures AfterEvents(fl, [], to) == fl
  {
  }

  /** On every run every live flow of every worker is what its history makes it. */
  lemma {:induction false} EveryFlowTellsItsHistory(fab: Fabric, to: Timeouts, states: seq<Cluster>,
                                                    actions: seq<Action>, w: nat, i: nat, k: nat)
    requires IsRun(fab, to, states, actions) && k < |states| && w < |states[k].ws| && i in Flows(states[k].ws[w].t)
    ensures Tells(Flows(states[k].ws[w].t)[i], History(fab, states, actions, w, i, k), to)
  {
    hide Next;
    hide Flows;
    hide Tells;
    hide WorkerInv;
    hide Enabled;
    hide Conserved;
    hide Means;
    if k == 0 {
      NothingAtFirst(fab, states[0], w);
      assert false;
    } else {
      var c, a, d := states[k - 1], actions[k - 1], states[k];
      EveryRunKeepsOwnership(fab, to, states, actions, k - 1);
      EveryRunKeepsOwnership(fab, to, states, actions, k);
      assert Leads(fab, to, states[k - 1], actions[k - 1], states[k - 1 + 1]);
      StepContinues(fab, to, c, a, w, i);
      if !Started(fab, c, a, d, w, i) {
        EveryFlowTellsItsHistory(fab, to, states, actions, w, i, k - 1);
      }
      HistoryStep(fab, to, states, actions, w, i, k);
    }
  }

  /** How long a flow with this history may stay silent. */
  ghost function MayRest(fl: Flow, h: seq<Event>, to: Timeouts): nat {
    if fl.client.protocol == PROTO_TCP then Patience(Segments(h), to) else to.udp
  }

  lemma RestInForce(fl: Flow, h: seq<Event>, to: Timeouts)
    requires Tells(fl, h, to)
    ensures fl.expire == Lifetimes.LastSecond(h[|h| - 1].tick, MayRest(fl, h, to)) + 1
  {
    if fl.client.protocol == PROTO_TCP {
      TimeoutTellsHistory(Blank(fl), Segments(h), to);
    } else {
      DatagramsHaveNoState(Blank(fl), Segments(h), to);
    }
    hide Patience;
    hide After;
    hide Segments;
    hide StateTimeout;
  }

  /** No tick takes a flow before its time: counted from the last packet handled for it, in seconds, and with the timeout
      its whole history calls for. */
  lemma NoFlowGoesEarly(fab: Fabric, to: Timeouts, states: seq<Cluster>, actions: seq<Action>, i: nat, k: nat)
    requires IsRun(fab, to, states, actions) && k < |actions| && actions[k].Tick?
    requires actions[k].w < |states[k].ws| && i in Flows(states[k].ws[actions[k].w].t)
    ensures var w, next := actions[k].w, actions[k].next;
            var fl, h := Flows(states[k].ws[w].t)[i], History(fab, states, actions, w, i, k);
            && |h| > 0 && w < |states[k + 1].ws|
            && (next <= Lifetimes.LastSecond(h[|h| - 1].tick, MayRest(fl, h, to)) ==>
                  i in Flows(states[k + 1].ws[w].t) && Flows(states[k + 1].ws[w].t)[i] == fl)
  {
    hide Flows;
    hide Tells;
    hide WorkerInv;
    hide Kept;
    hide AnswersOk;
    hide Conserved;
    hide Expire;
    hide History;
    hide MayRest;
    var w, next := actions[k].w, actions[k].next;
    var fl, h := Flows(states[k].ws[w].t)[i], History(fab, states, actions, w, i, k);
    EveryFlowTellsItsHistory(fab, to, states, actions, w, i, k);
    EveryRunKeepsOwnership(fab, to, states, actions, k);
    assert Leads(fab, to, states[k], actions[k], states[k + 1]);
    NotEmpty(fl, h, to);
    RestInForce(fl, h, to);
    SurvivesTick(states[k].ws[w].t, next, i);
  }

  lemma NotEmpty(fl: Flow, h: seq<Event>, to: Timeouts)
    requires Tells(fl, h, to)
    ensures |h| > 0
  {
  }

  lemma SurvivesTick(t: Table, next: nat, i: nat)
    requires Kept(t) && i in Flows(t)
    ensures var r := Expire(t, next, EXPIRE_BUDGET);
            Flows(t)[i].expire > next ==> i in Flows(r) && Flows(r)[i] == Flows(t)[i]
  {
    ExpireRemovesOnlyDue(t, next, EXPIRE_BUDGET);
    if Flows(t)[i].expire > next {
      assert Live(Expire(t, next, EXPIRE_BUDGET), i);
      assert SameRecord(t.ss[i], Expire(t, next, EXPIRE_BUDGET).ss[i]);
    }
  }
}
