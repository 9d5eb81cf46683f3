/** Every handler keeps the worker's flows its own: both directions of a flow belong to the worker that
    holds its session, and the two keys of a flow are told apart by classification. */
module Ownership {
  import opened Types
  import opened Steering
  import opened Links
  import opened Wheel
  import opened TableOps
  import opened Handlers

  /** A flow worker `me` may hold. */
  ghost predicate FlowOk(fab: Fabric, me: nat, fl: Flow)
    requires fab.Valid()
  {
    && Classify(fab.net, fl.client) == Inbound && fab.st.FwdOwner(fl.client) == me
    && fab.service(fl.app.rsId) == KeyOf(fl.client)
    && (fl.server.Some? <==> fab.net.mode == Nat)
    && (fl.server.Some? ==> ServerOk(fab, me, fl.client, fl.app.rsId, fl.server.value))
  }

  /** Replies with key `server` come from the flow's real server to a local address and to worker `me`. */
  predicate ServerOk(fab: Fabric, me: nat, client: FiveTuple, rsId: nat, server: FiveTuple)
    requires fab.Valid()
  {
    && server.dstIp in fab.net.lips && InNatRange(server.dstPort) && server.protocol == client.protocol
    && fab.st.RetOwner(server) == me
    && RsAddr(server.srcIp, server.srcPort) == fab.addr(rsId)
  }

  ghost predicate Owns(fab: Fabric, me: nat, m: map<nat, Flow>)
    requires fab.Valid()
  {
    forall i :: i in m ==> FlowOk(fab, me, m[i])
  }

  /** The state a handler leaves behind: exact index, own flows, and counters that match. */
  ghost predicate Keeps(fab: Fabric, me: nat, t: Table, r: Handled)
    requires fab.Valid()
  {
    && Kept(r.t) && Owns(fab, me, Flows(r.t))
    && |Flows(r.t)| + r.closed == |Flows(t)| + r.created
  }

  // ---------------------------------------------------------------------------------------------
  // Keys and sizes
  // ---------------------------------------------------------------------------------------------

  /** A client key never names a flow by its reply key, nor the other way round. */
  lemma LookupByDirection(fab: Fabric, me: nat, t: Table, tuple: FiveTuple)
    requires fab.Valid() && Kept(t) && Owns(fab, me, Flows(t)) && tuple in t.index
    ensures t.index[tuple] in Flows(t)
    ensures Classify(fab.net, tuple) == Inbound ==> Flows(t)[t.index[tuple]].client == tuple
    ensures Classify(fab.net, tuple) == Return ==> Flows(t)[t.index[tuple]].server == Some(tuple)
  {
    var fl := Flows(t)[t.index[tuple]];
    assert HasKey(fl, tuple) && FlowOk(fab, me, fl);
  }

  lemma RemovedSize(m: map<nat, Flow>, i: nat)
    requires i in m
    ensures |m - {i}| + 1 == |m|
  {
    assert m.Keys == (m - {i}).Keys + {i};
  }

  lemma AddedSize(m: map<nat, Flow>, i: nat, fl: Flow)
    ensures |m[i := fl]| == if i in m then |m| else |m| + 1
  {
    assert m[i := fl].Keys == m.Keys + {i};
    assert i in m ==> m.Keys + {i} == m.Keys;
  }

  lemma SameKeysIndex(index: map<FiveTuple, nat>, m: map<nat, Flow>, i: nat, fl: Flow)
    requires IndexExact(index, m) && i in m && fl.client == m[i].client && fl.server == m[i].server
    ensures IndexExact(index, m[i := fl])
  {
    var m' := m[i := fl];
    forall j | j in m' ensures Indexed(index, m'[j], j) {
      assert Indexed(index, m[j], j);
    }
    forall key | key in index ensures index[key] in m' && HasKey(m'[index[key]], key) {
      assert HasKey(m[index[key]], key);
    }
  }

  lemma OwnsUpdated(fab: Fabric, me: nat, m: map<nat, Flow>, i: nat, fl: Flow)
    requires fab.Valid() && Owns(fab, me, m) && FlowOk(fab, me, fl)
    ensures Owns(fab, me, m[i := fl])
  {
    hide FlowOk;
  }

  lemma OwnsRemoved(fab: Fabric, me: nat, m: map<nat, Flow>, i: nat)
    requires fab.Valid() && Owns(fab, me, m)
    ensures Owns(fab, me, m - {i})
  {
    hide FlowOk;
  }

  lemma KeepsFrom(fab: Fabric, me: nat, t: Table, r: Handled, m: map<nat, Flow>)
    requires fab.Valid() && Sound(r.t) && m == Flows(r.t) && IndexExact(r.t.index, m) && Owns(fab, me, m)
    requires |m| + r.closed == |Flows(t)| + r.created
    ensures Keeps(fab, me, t, r)
  {
  }

  // ---------------------------------------------------------------------------------------------
  // Parts of the handlers
  // ---------------------------------------------------------------------------------------------

  lemma RemoveOwns(fab: Fabric, me: nat, t: Table, i: nat)
    requires fab.Valid() && Kept(t) && Owns(fab, me, Flows(t)) && Live(t, i)
    ensures Keeps(fab, me, t, Handled(Remove(t, i), Discard, 0, 1))
  {
    RemoveTakesOne(t, i);
    RemoveIndex(t, i);
    assert i in Flows(t);
    hide *;
    RemovedSize(Flows(t), i);
    OwnsRemoved(fab, me, Flows(t), i);
    KeepsFrom(fab, me, t, Handled(Remove(t, i), Discard, 0, 1), Flows(t) - {i});
  }

  lemma FindSessionOwns(fab: Fabric, snap: Snapshot, me: nat, t: Table, tuple: FiveTuple, f: TcpFlags)
    requires fab.Valid() && Kept(t) && Owns(fab, me, Flows(t)) && Classify(fab.net, tuple) == Inbound
    ensures var r := FindSession(snap, t, tuple, f);
            && Keeps(fab, me, t, Handled(r.t, Discard, 0, r.closed))
            && (r.idx.None? ==> tuple !in r.t.index)
            && (r.idx.Some? ==> Live(r.t, r.idx.value) && r.t.ss[r.idx.value].client == tuple)
  {
    hide Sound;
    hide IndexExact;
    hide Classify;
    hide Owns;
    FindSessionEffect(snap, t, tuple, f);
    var r := FindSession(snap, t, tuple, f);
    if tuple !in t.index {
      KeepsFrom(fab, me, t, Handled(t, Discard, 0, 0), Flows(t));
    } else {
      LookupByDirection(fab, me, t, tuple);
      var i := t.index[tuple];
      assert FlowOf(t.ss[i]).client == tuple;
      if r.idx.None? { RemoveOwns(fab, me, t, i); } else { KeepsFrom(fab, me, t, Handled(t, Discard, 0, 0), Flows(t)); }
    }
  }

  lemma SameServer(a: App, f: TcpFlags, fromClient: bool)
    ensures NextApp(a, f, fromClient).rsId == a.rsId
  {
  }

  lemma AdvancedOwns(fab: Fabric, me: nat, t: Table, i: nat, now: nat, to: Timeouts, f: TcpFlags, fromClient: bool)
    requires fab.Valid() && Kept(t) && Owns(fab, me, Flows(t)) && Live(t, i)
    ensures var r := Advanced(t, i, now, to, f, fromClient);
            && Keeps(fab, me, t, Handled(r, Discard, 0, 0)) && Live(r, i)
            && FlowOf(r.ss[i]).client == FlowOf(t.ss[i]).client
            && FlowOf(r.ss[i]).server == FlowOf(t.ss[i]).server
            && FlowOf(r.ss[i]).app.rsId == FlowOf(t.ss[i]).app.rsId
  {
    hide Sound;
    hide IndexExact;
    hide Owns;
    hide Advanced;
    hide NextApp;
    var fl := AdvancedFlow(FlowOf(t.ss[i]), now, to, f, fromClient);
    AdvancedFlows(t, i, now, to, f, fromClient);
    SameServer(FlowOf(t.ss[i]).app, f, fromClient);
    var r := Advanced(t, i, now, to, f, fromClient);
    assert Flows(t)[i] == FlowOf(t.ss[i]) && Flows(r)[i] == FlowOf(r.ss[i]);
    FlowAt(fab, me, t, i);
    assert FlowOk(fab, me, fl);
    hide *;
    SameKeysIndex(t.index, Flows(t), i, fl);
    AddedSize(Flows(t), i, fl);
    OwnsUpdated(fab, me, Flows(t), i, fl);
    KeepsFrom(fab, me, t, Handled(r, Discard, 0, 0), Flows(t)[i := fl]);
  }

  lemma NewFlowOk(fab: Fabric, snap: Snapshot, me: nat, t: Table, tuple: FiveTuple, env: Env, fl: Flow)
    requires fab.Valid() && fab.Admits(snap)
    requires Classify(fab.net, tuple) == Inbound && fab.st.FwdOwner(tuple) == me
    requires EnvOk(fab, snap, me, t, tuple, env) && env.pick.Some? && (snap.net.mode == Nat ==> env.server.Some?)
    requires fl.client == tuple && fl.server == ReplyKey(snap, env) && fl.app.rsId == env.pick.value
    ensures FlowOk(fab, me, fl) && (fl.server.Some? ==> fl.server.value !in t.index)
  {
  }

  lemma NewSessionOwns(fab: Fabric, snap: Snapshot, me: nat, t: Table, now: nat, to: Timeouts, tuple: FiveTuple, env: Env)
    requires fab.Valid() && fab.Admits(snap) && Kept(t) && Owns(fab, me, Flows(t))
    requires Classify(fab.net, tuple) == Inbound && fab.st.FwdOwner(tuple) == me && tuple !in t.index
    requires EnvOk(fab, snap, me, t, tuple, env)
    ensures var r := NewSession(snap, t, now, to, tuple, env);
            && Keeps(fab, me, t, Handled(r.t, Discard, if r.idx.Some? then 1 else 0, 0))
            && (r.idx.None? ==> r.t == t)
            && (r.idx.Some? ==> env.pick.Some? && Live(r.t, r.idx.value)
                                && FlowOf(r.t.ss[r.idx.value]).client == tuple
                                && FlowOf(r.t.ss[r.idx.value]).app.rsId == env.pick.value)
  {
    NewSessionFlows(snap, t, now, to, tuple, env);
    var r := NewSession(snap, t, now, to, tuple, env);
    if r.idx.None? {
      KeepsFrom(fab, me, t, Handled(t, Discard, 0, 0), Flows(t));
    } else {
      var i := r.idx.value;
      var fl := Flows(r.t)[i];
      assert fl == FlowOf(r.t.ss[i]);
      assert fl.client == tuple && fl.server == ReplyKey(snap, env) && fl.app.rsId == env.pick.value;
      hide *;
      NewFlowOk(fab, snap, me, t, tuple, env, fl);
      IndexAddIff(t.index, Flows(t), i, fl);
      AddedSize(Flows(t), i, fl);
      OwnsUpdated(fab, me, Flows(t), i, fl);
      KeepsFrom(fab, me, t, Handled(r.t, Discard, 1, 0), Flows(t)[i := fl]);
    }
  }

  // ---------------------------------------------------------------------------------------------
  // Whole handlers
  // ---------------------------------------------------------------------------------------------

  /** `out` is what a client packet `tuple` looks like on its way to a usable server: it belongs to a live
      flow of that client and, after translation, is addressed to that server. */
  ghost predicate ToServer(snap: Snapshot, t: Table, tuple: FiveTuple, out: FiveTuple) {
    exists i :: i in Flows(t) && CarriedBy(snap, Flows(t)[i], tuple, out)
  }

  predicate CarriedBy(snap: Snapshot, fl: Flow, tuple: FiveTuple, out: FiveTuple) {
    && fl.client == tuple && fl.app.rsId in snap.rs && snap.rs[fl.app.rsId].Usable()
    && snap.rs[fl.app.rsId].service == KeyOf(tuple)
    && if snap.net.mode == Dr then out == tuple
       else fl.server == Some(out.Reverse()) && RsAddr(out.dstIp, out.dstPort) == snap.rs[fl.app.rsId].addr
  }

  lemma FlowAt(fab: Fabric, me: nat, t: Table, i: nat)
    requires fab.Valid() && Owns(fab, me, Flows(t)) && Live(t, i)
    ensures i in Flows(t) && Flows(t)[i] == FlowOf(t.ss[i]) && FlowOk(fab, me, FlowOf(t.ss[i]))
  {
    hide FlowOk;
  }

  lemma SentOut(fab: Fabric, snap: Snapshot, me: nat, t: Table, i: nat, tuple: FiveTuple)
    requires fab.Valid() && fab.Admits(snap) && Owns(fab, me, Flows(t)) && Live(t, i)
    requires FlowOf(t.ss[i]).client == tuple
    requires FlowOf(t.ss[i]).app.rsId in snap.rs && snap.rs[FlowOf(t.ss[i]).app.rsId].Usable()
    ensures ToServer(snap, t, tuple, if snap.net.mode == Dr then tuple else t.ss[i].server.Reverse())
  {
    FlowAt(fab, me, t, i);
    assert CarriedBy(snap, Flows(t)[i], tuple, if snap.net.mode == Dr then tuple else t.ss[i].server.Reverse());
  }

  lemma ForwardOwns(fab: Fabric, snap: Snapshot, me: nat, t: Table, i: nat, now: nat, to: Timeouts,
                    tuple: FiveTuple, f: TcpFlags, env: Env, isNew: bool, closed: nat)
    requires fab.Valid() && fab.Admits(snap) && Kept(t) && Owns(fab, me, Flows(t)) && Live(t, i)
    requires FlowOf(t.ss[i]).client == tuple
    requires FlowOf(t.ss[i]).app.rsId in snap.rs && snap.rs[FlowOf(t.ss[i]).app.rsId].Usable()
    ensures var r := Forward(snap, t, i, now, to, tuple, f, env, isNew, closed);
            && r.created == (if isNew then 1 else 0) && closed <= r.closed
            && Keeps(fab, me, t, r.(created := 0, closed := r.closed - closed))
            && !r.verdict.Redirect?
            && (r.verdict.Send? ==> ToServer(snap, r.t, tuple, r.verdict.tuple))
  {
    hide Sound;
    hide IndexExact;
    hide Owns;
    hide Flows;
    hide Advanced;
    hide Remove;
    hide ToServer;
    hide Fabric.Admits;
    AdvancedOwns(fab, me, t, i, now, to, f, true);
    var u := Advanced(t, i, now, to, f, true);
    SentOut(fab, snap, me, u, i, tuple);
    RemoveOwns(fab, me, u, i);
  }

  lemma HandleNewOwns(fab: Fabric, snap: Snapshot, me: nat, t: Table, now: nat, to: Timeouts,
                      tuple: FiveTuple, f: TcpFlags, env: Env, closed: nat)
    requires fab.Valid() && fab.Admits(snap) && Kept(t) && Owns(fab, me, Flows(t))
    requires Classify(fab.net, tuple) == Inbound && fab.st.FwdOwner(tuple) == me && tuple !in t.index
    requires EnvOk(fab, snap, me, t, tuple, env)
    ensures var r := HandleNew(snap, t, now, to, tuple, f, env, closed);
            && closed <= r.closed && Keeps(fab, me, t, r.(closed := r.closed - closed))
            && !r.verdict.Redirect?
            && (r.verdict.Send? ==> ToServer(snap, r.t, tuple, r.verdict.tuple))
            && (r.created > 0 ==> env.pick.Some?)
  {
    hide Sound;
    hide IndexExact;
    hide Owns;
    hide Flows;
    hide NewSession;
    hide Forward;
    hide ToServer;
    hide Classify;
    hide Fabric.Admits;
    hide EnvOk;
    PickIsSchedulable(fab, snap, me, t, tuple, env);
    KeepsFrom(fab, me, t, Handled(t, Discard, 0, 0), Flows(t));
    NewSessionOwns(fab, snap, me, t, now, to, tuple, env);
    var o := NewSession(snap, t, now, to, tuple, env);
    if o.idx.Some? {
      ForwardOwns(fab, snap, me, o.t, o.idx.value, now, to, tuple, f, env, true, closed);
    }
  }

  /** The inbound path keeps ownership, counts what it opens and closes, sends only to usable servers of the service
      the client addressed, opens sessions only on schedulable ones, and redirects only to the owner and only once. */
  lemma InboundOwns(fab: Fabric, snap: Snapshot, me: nat, t: Table, now: nat, to: Timeouts,
                    tuple: FiveTuple, f: TcpFlags, redirected: bool, env: Env)
    requires fab.Valid() && fab.Admits(snap) && Kept(t) && Owns(fab, me, Flows(t))
    requires Classify(fab.net, tuple) == Inbound
    requires EnvOk(fab, snap, me, FindSession(snap, t, tuple, f).t, tuple, env)
    ensures var r := HandleInbound(fab, snap, me, t, now, to, tuple, f, redirected, env);
            && Keeps(fab, me, t, r)
            && (r.verdict.Send? ==> ToServer(snap, r.t, tuple, r.verdict.tuple))
            && (r.created > 0 ==> env.pick.Some? && snap.MayPick(tuple, env.pick.value))
            && (r.verdict.Redirect? ==> r.verdict.to == fab.st.FwdOwner(tuple) != me && !redirected)
  {
    hide Sound;
    hide IndexExact;
    hide Owns;
    hide Flows;
    hide FindSession;
    hide HandleNew;
    hide Forward;
    hide ToServer;
    hide Classify;
    hide Fabric.Admits;
    hide EnvOk;
    PickIsSchedulable(fab, snap, me, FindSession(snap, t, tuple, f).t, tuple, env);
    if fab.st.FwdOwner(tuple) != me {
      KeepsFrom(fab, me, t, Handled(t, Discard, 0, 0), Flows(t));
    } else {
      FindSessionOwns(fab, snap, me, t, tuple, f);
      FindSessionEffect(snap, t, tuple, f);
      var found := FindSession(snap, t, tuple, f);
      if found.idx.Some? {
        ForwardOwns(fab, snap, me, found.t, found.idx.value, now, to, tuple, f, env, false, 0);
      } else {
        HandleNewOwns(fab, snap, me, found.t, now, to, tuple, f, env, found.closed);
      }
    }
  }

  lemma PickIsSchedulable(fab: Fabric, snap: Snapshot, me: nat, t: Table, tuple: FiveTuple, env: Env)
    requires fab.Valid() && EnvOk(fab, snap, me, t, tuple, env)
    ensures env.pick.Some? ==> snap.MayPick(tuple, env.pick.value)
  {
  }

  /** `out` is the answer of the flow with reply key `tuple`, turned back into what its client expects. */
  ghost predicate ToClient(t: Table, tuple: FiveTuple, out: FiveTuple) {
    exists i :: i in Flows(t) && Flows(t)[i].server == Some(tuple) && out == Flows(t)[i].client.Reverse()
  }

  lemma WithAppOwns(fab: Fabric, me: nat, t: Table, i: nat, app: App)
    requires fab.Valid() && Kept(t) && Owns(fab, me, Flows(t)) && Live(t, i) && app.rsId == t.ss[i].app.rsId
    ensures Keeps(fab, me, t, Handled(WithApp(t, i, app), Discard, 0, 0))
  {
    var fl := FlowOf(t.ss[i]).(app := app);
    WithAppSound(t, i, app);
    WithAppFlows(t, i, app);
    assert i in Flows(t);
    assert FlowOk(fab, me, fl) by { assert FlowOk(fab, me, Flows(t)[i]); }
    assert WithApp(t, i, app).index == t.index && Flows(t)[i] == FlowOf(t.ss[i]);
    hide *;
    SameKeysIndex(t.index, Flows(t), i, fl);
    AddedSize(Flows(t), i, fl);
    OwnsUpdated(fab, me, Flows(t), i, fl);
    KeepsFrom(fab, me, t, Handled(WithApp(t, i, app), Discard, 0, 0), Flows(t)[i := fl]);
  }

  lemma ReturnOwns(fab: Fabric, snap: Snapshot, me: nat, t: Table, now: nat, to: Timeouts,
                   tuple: FiveTuple, f: TcpFlags, redirected: bool, env: Env)
    requires fab.Valid() && Kept(t) && Owns(fab, me, Flows(t)) && Classify(fab.net, tuple) == Return
    ensures var r := HandleReturn(fab, snap, me, t, now, to, tuple, f, redirected, env);
            && Keeps(fab, me, t, r) && r.created == 0
            && (r.verdict.Send? ==> ToClient(t, tuple, r.verdict.tuple))
            && (r.verdict.Redirect? ==> r.verdict.to == fab.st.RetOwner(tuple) != me && !redirected)
  {
    hide Sound;
    hide IndexExact;
    hide Owns;
    hide Advanced;
    hide Remove;
    hide WithApp;
    hide Classify;
    KeepsFrom(fab, me, t, Handled(t, Discard, 0, 0), Flows(t));
    if fab.st.RetOwner(tuple) == me && tuple in t.index {
      LookupByDirection(fab, me, t, tuple);
      var i := t.index[tuple];
      FlowAt(fab, me, t, i);
      RemoveOwns(fab, me, t, i);
      AdvancedOwns(fab, me, t, i, now, to, f, false);
      var u := Advanced(t, i, now, to, f, false);
      hide Flows;
      WithAppOwns(fab, me, u, i, u.ss[i].app.(toaPending := u.ss[i].app.toaPending && f.syn));
    }
  }
}
