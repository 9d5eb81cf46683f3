/** The session tables of a running cluster: with timeouts shorter than the wheel and ticks that finish, no worker ever
    loses a session, and a tick takes exactly the flows that have been silent for longer than they may. */
module Ticks {
  import opened Types
  import opened Links
  import opened Wheel
  import opened Expiry
  import opened TableOps
  import R = Runs
  import opened Handlers
  import Lifetimes
  import opened Cluster
  import opened Fates
  import opened Histories

  /** Every timeout is shorter than a turn of the wheel. */
  predicate Short(to: Timeouts) {
    && to.tcpSyn < WHEEL_SLOTS && to.tcpEstablished < WHEEL_SLOTS && to.tcpFin < WHEEL_SLOTS
    && to.tcpTimeWait < WHEEL_SLOTS && to.tcpClose < WHEEL_SLOTS && to.udp < WHEEL_SLOTS
  }

  lemma ShortTimeout(s: TcpState, to: Timeouts)
    requires Short(to)
    ensures StateTimeout(s, to) < WHEEL_SLOTS
  {
  }

  // ---------------------------------------------------------------------------------------------
  // Handlers keep a table safe
  // ---------------------------------------------------------------------------------------------

  lemma SafeIsSound(c: R.Clocked)
    requires R.Safe(c)
    ensures Sound(c.t)
  {
  }

  lemma SafeApp(t: Table, now: nat, i: nat, app: App)
    requires R.Safe(R.Clocked(t, now)) && Live(t, i)
    ensures R.Safe(R.Clocked(WithApp(t, i, app), now)) && Live(WithApp(t, i, app), i)
  {
    hide WellLinked;
    hide Acyclic;
    hide FreeExact;
    hide PendingExact;
    hide Lost;
    WithAppSound(t, i, app);
  }

  lemma SafeInsert(t: Table, now: nat, client: FiveTuple, server: Option<FiveTuple>, timeout: nat, a: bool, b: bool)
    requires R.Safe(R.Clocked(t, now)) && timeout < WHEEL_SLOTS
    ensures Sound(t) && R.Safe(R.Clocked(Create(t, client, server, now, timeout, a, b).table, now))
  {
    hide R.Safe;
    SafeIsSound(R.Clocked(t, now));
    hide Sound;
    R.ApplyPaced(R.Clocked(t, now), R.Insert(client, server, timeout, a, b), WHEEL_SLOTS - 1);
  }

  lemma SafeTouch(t: Table, now: nat, i: nat, timeout: nat)
    requires R.Safe(R.Clocked(t, now)) && Live(t, i) && timeout < WHEEL_SLOTS
    ensures Sound(t) && R.Safe(R.Clocked(Touch(t, i, now, timeout), now))
  {
    hide R.Safe;
    SafeIsSound(R.Clocked(t, now));
    hide Sound;
    R.ApplyPaced(R.Clocked(t, now), R.Refresh(i, timeout), WHEEL_SLOTS - 1);
  }

  lemma SafeRemove(t: Table, now: nat, i: nat)
    requires R.Safe(R.Clocked(t, now)) && Live(t, i)
    ensures Sound(t) && R.Safe(R.Clocked(Remove(t, i), now))
  {
    hide R.Safe;
    SafeIsSound(R.Clocked(t, now));
    hide Sound;
    R.ApplyPaced(R.Clocked(t, now), R.Drop(i), 0);
  }

  lemma SafeAdvance(t: Table, now: nat, to: Timeouts, i: nat, f: TcpFlags, fromClient: bool)
    requires R.Safe(R.Clocked(t, now)) && Short(to) && Sound(t) && Live(t, i)
    ensures R.Safe(R.Clocked(Advanced(t, i, now, to, f, fromClient), now))
  {
    hide R.Safe;
    hide Sound;
    hide Touch;
    hide WithApp;
    var app := NextApp(t.ss[i].app, f, fromClient);
    hide NextApp;
    ShortTimeout(app.state, to);
    SafeApp(t, now, i, app);
    SafeTouch(WithApp(t, i, app), now, i, StateTimeout(app.state, to));
  }

  lemma SafeForward(snap: Snapshot, t: Table, i: nat, now: nat, to: Timeouts, tuple: FiveTuple, f: TcpFlags, env: Env,
                    isNew: bool, closed: nat)
    requires R.Safe(R.Clocked(t, now)) && Short(to) && Sound(t) && Live(t, i)
    ensures R.Safe(R.Clocked(Forward(snap, t, i, now, to, tuple, f, env, isNew, closed).t, now))
  {
    hide R.Safe;
    hide Sound;
    hide Advanced;
    hide Remove;
    SafeAdvance(t, now, to, i, f, true);
    AdvancedFlows(t, i, now, to, f, true);
    SafeRemove(Advanced(t, i, now, to, f, true), now, i);
  }

  lemma SafeNewSession(snap: Snapshot, t: Table, now: nat, to: Timeouts, tuple: FiveTuple, env: Env)
    requires R.Safe(R.Clocked(t, now)) && Short(to) && Sound(t)
    ensures R.Safe(R.Clocked(NewSession(snap, t, now, to, tuple, env).t, now))
  {
    hide R.Safe;
    hide WellLinked;
    hide Acyclic;
    hide FreeExact;
    hide PendingExact;
    hide WithApp;
    hide FirstApp;
    if env.pick.Some? && (snap.net.mode == Nat ==> env.server.Some?) {
      var timeout := if tuple.protocol == PROTO_TCP then to.tcpSyn else to.udp;
      var key := ReplyKey(snap, env);
      SafeInsert(t, now, tuple, key, timeout, env.clientAdded, env.serverAdded);
      CreateFails(t, tuple, key, now, timeout, env.clientAdded, env.serverAdded);
      var c := Create(t, tuple, key, now, timeout, env.clientAdded, env.serverAdded);
      if c.idx.Some? {
        var app := FirstApp(snap.net.mode, tuple, env.pick.value, env.toa);
        StartedFlows(t, tuple, key, now, timeout, app);
        hide Create;
        SafeApp(c.table, now, c.idx.value, app);
      }
    }
  }

  lemma SafeNew(snap: Snapshot, t: Table, now: nat, to: Timeouts, tuple: FiveTuple, f: TcpFlags, env: Env, closed: nat)
    requires R.Safe(R.Clocked(t, now)) && Short(to) && Sound(t)
    ensures R.Safe(R.Clocked(HandleNew(snap, t, now, to, tuple, f, env, closed).t, now))
  {
    hide R.Safe;
    hide Sound;
    hide NewSession;
    hide Forward;
    SafeNewSession(snap, t, now, to, tuple, env);
    NewSessionFlows(snap, t, now, to, tuple, env);
    var o := NewSession(snap, t, now, to, tuple, env);
    if o.idx.Some? { SafeForward(snap, o.t, o.idx.value, now, to, tuple, f, env, true, closed); }
  }

  lemma SafeFind(snap: Snapshot, t: Table, now: nat, tuple: FiveTuple, f: TcpFlags)
    requires R.Safe(R.Clocked(t, now)) && Kept(t)
    ensures R.Safe(R.Clocked(FindSession(snap, t, tuple, f).t, now))
  {
    hide R.Safe;
    hide Sound;
    hide Remove;
    if tuple in t.index {
      assert t.index[tuple] in Flows(t);
      SafeRemove(t, now, t.index[tuple]);
    }
  }

  lemma SafeInbound(fab: Fabric, snap: Snapshot, me: nat, t: Table, now: nat, to: Timeouts, tuple: FiveTuple, f: TcpFlags,
                    redirected: bool, env: Env)
    requires fab.Valid() && Kept(t) && R.Safe(R.Clocked(t, now)) && Short(to)
    ensures R.Safe(R.Clocked(HandleInbound(fab, snap, me, t, now, to, tuple, f, redirected, env).t, now))
  {
    hide R.Safe;
    hide Sound;
    hide IndexExact;
    hide FindSession;
    hide Forward;
    hide HandleNew;
    FindSessionEffect(snap, t, tuple, f);
    SafeFind(snap, t, now, tuple, f);
    var found := FindSession(snap, t, tuple, f);
    if found.idx.Some? {
      SafeForward(snap, t, found.idx.value, now, to, tuple, f, env, false, 0);
    } else {
      SafeNew(snap, found.t, now, to, tuple, f, env, found.closed);
    }
  }

  lemma SafeReturn(fab: Fabric, snap: Snapshot, me: nat, t: Table, now: nat, to: Timeouts, tuple: FiveTuple, f: TcpFlags,
                   redirected: bool, env: Env)
    requires fab.Valid() && Kept(t) && R.Safe(R.Clocked(t, now)) && Short(to)
    ensures R.Safe(R.Clocked(HandleReturn(fab, snap, me, t, now, to, tuple, f, redirected, env).t, now))
  {
    hide R.Safe;
    hide Sound;
    hide Advanced;
    hide Remove;
    hide WithApp;
    if tuple in t.index {
      var i := t.index[tuple];
      assert i in Flows(t);
      SafeRemove(t, now, i);
      SafeAdvance(t, now, to, i, f, false);
      AdvancedFlows(t, i, now, to, f, false);
      var u := Advanced(t, i, now, to, f, false);
      SafeApp(u, now, i, u.ss[i].app.(toaPending := u.ss[i].app.toaPending && f.syn));
    }
  }

  lemma SafePacket(fab: Fabric, snap: Snapshot, to: Timeouts, me: nat, t: Table, now: nat, pkt: Packet, redirected: bool,
                   env: Env)
    requires fab.Valid() && Kept(t) && R.Safe(R.Clocked(t, now)) && Short(to)
    ensures R.Safe(R.Clocked(HandlePacket(fab, snap, to, me, t, now, pkt, redirected, env).t, now))
  {
    hide R.Safe;
    hide Kept;
    hide HandleInbound;
    hide HandleReturn;
    hide Classify;
    if pkt.Transport? {
      SafeInbound(fab, snap, me, t, now, to, pkt.tuple, pkt.flags, redirected, env);
      SafeReturn(fab, snap, me, t, now, to, pkt.tuple, pkt.flags, redirected, env);
    }
  }

  // ---------------------------------------------------------------------------------------------
  // Whole runs
  // ---------------------------------------------------------------------------------------------

  /** A run with short timeouts on which every tick finishes its work. */
  ghost predicate PacedRun(fab: Fabric, to: Timeouts, states: seq<Cluster>, actions: seq<Action>) {
    && IsRun(fab, to, states, actions) && Short(to)
    && forall k: nat :: k < |actions| ==> TickFinishes(actions[k], states[k + 1])
  }

  predicate TickFinishes(a: Action, d: Cluster) {
    a.Tick? && a.w < |d.ws| ==> Finished(d.ws[a.w].t, a.next)
  }

  lemma StepSafe(fab: Fabric, to: Timeouts, c: Cluster, a: Action, w: nat)
    requires Inv(fab, c) && Enabled(fab, c, a) && Short(to) && w < |c.ws| && R.Safe(R.Clocked(c.ws[w].t, c.ws[w].now))
    requires TickFinishes(a, Next(fab, to, c, a))
    ensures var d := Next(fab, to, c, a); w < |d.ws| && R.Safe(R.Clocked(d.ws[w].t, d.ws[w].now))
  {
    hide R.Safe;
    hide WorkerInv;
    hide Kept;
    hide AnswersOk;
    hide HandlePacket;
    hide Expire;
    hide Finished;
    if Handles(a) {
      TableAfter(fab, to, c, a);
      hide Next;
      if a.w == w {
        SafePacket(fab, a.snap, to, w, c.ws[w].t, c.ws[w].now, PacketOf(fab, c, a), a.FromRing?, a.env);
      }
    } else if a.Tick? && a.w == w {
      R.PacedTick(R.Clocked(c.ws[w].t, c.ws[w].now), a.next);
    }
  }

  /** No worker ever loses a session on such a run. */
  lemma {:induction false} EveryTableIsSafe(fab: Fabric, to: Timeouts, states: seq<Cluster>, actions: seq<Action>, w: nat,
                                            k: nat)
    requires PacedRun(fab, to, states, actions) && k < |states| && w < |states[k].ws|
    ensures var c := R.Clocked(states[k].ws[w].t, states[k].ws[w].now); R.Safe(c) && Timely(c.t, c.now)
  {
    hide Next;
    hide R.Safe;
    hide Timely;
    hide WorkerInv;
    hide Enabled;
    hide Conserved;
    EveryRunKeepsOwnership(fab, to, states, actions, k);
    if k == 0 {
      FirstIsSafe(fab, states[0], w);
    } else {
      EveryRunKeepsOwnership(fab, to, states, actions, k - 1);
      EveryTableIsSafe(fab, to, states, actions, w, k - 1);
      assert Leads(fab, to, states[k - 1], actions[k - 1], states[k - 1 + 1]);
      assert TickFinishes(actions[k - 1], states[k - 1 + 1]);
      StepSafe(fab, to, states[k - 1], actions[k - 1], w);
    }
    SafeIsTimely(R.Clocked(states[k].ws[w].t, states[k].ws[w].now));
  }

  lemma SafeIsTimely(c: R.Clocked)
    requires R.Safe(c)
    ensures Timely(c.t, c.now)
  {
  }

  lemma FirstIsSafe(fab: Fabric, c: Cluster, w: nat)
    requires Initial(fab, c) && w < |c.ws|
    ensures R.Safe(R.Clocked(c.ws[w].t, c.ws[w].now))
  {
    var capacity: nat, now: nat :| capacity <= FREE && now > 0
      && c.ws[w] == Worker(Fresh(capacity, now), now, [], [], [], 0, 0, 0, 0, 0);
    R.FreshIsStarting(capacity, now);
  }

  lemma TickTakesTheDue(t: Table, now: nat, next: nat)
    requires R.Safe(R.Clocked(t, now)) && now <= next && Kept(t) && Finished(Expire(t, next, EXPIRE_BUDGET), next)
    ensures forall i :: i in Flows(t) ==>
      (i in Flows(Expire(t, next, EXPIRE_BUDGET)) <==> Flows(t)[i].expire > next)
  {
    hide WellLinked;
    hide Acyclic;
    hide FreeExact;
    hide PendingExact;
    hide Clobbers;
    hide Lost;
    hide OnTime;
    R.PacedTick(R.Clocked(t, now), next);
    SafeIsTimely(R.Clocked(t, now));
    ExpireRefinesDeadlines(t, next, EXPIRE_BUDGET);
  }

  /** On such a run a flow lasts exactly as long as it may rest: a tick leaves it as it is up to the last second of the
      timeout its history calls for, counted from the last packet handled for it, and takes it after that. */
  lemma FlowsLastExactly(fab: Fabric, to: Timeouts, states: seq<Cluster>, actions: seq<Action>, i: nat, k: nat)
    requires PacedRun(fab, to, states, actions) && k < |actions| && actions[k].Tick?
    requires actions[k].w < |states[k].ws| && i in Flows(states[k].ws[actions[k].w].t)
    ensures var w, next := actions[k].w, actions[k].next;
            var fl, h := Flows(states[k].ws[w].t)[i], History(fab, states, actions, w, i, k);
            && |h| > 0 && w < |states[k + 1].ws|
            && (i in Flows(states[k + 1].ws[w].t) <==>
                  next <= Lifetimes.LastSecond(h[|h| - 1].tick, MayRest(fl, h, to)))
  {
    hide Flows;
    hide Tells;
    hide R.Safe;
    hide WorkerInv;
    hide Kept;
    hide AnswersOk;
    hide Conserved;
    hide Expire;
    hide History;
    hide MayRest;
    hide Finished;
    hide Timely;
    var w, next := actions[k].w, actions[k].next;
    var fl, h := Flows(states[k].ws[w].t)[i], History(fab, states, actions, w, i, k);
    EveryFlowTellsItsHistory(fab, to, states, actions, w, i, k);
    EveryRunKeepsOwnership(fab, to, states, actions, k);
    assert Leads(fab, to, states[k], actions[k], states[k + 1]);
    NotEmpty(fl, h, to);
    RestInForce(fl, h, to);
    EveryTableIsSafe(fab, to, states, actions, w, k);
    assert TickFinishes(actions[k], states[k + 1]);
    TickTakesTheDue(states[k].ws[w].t, states[k].ws[w].now, next);
  }
}
