/** A worker's own state as it is updated in place: its session table and its SNAT cursors. The port search
    is proved to deliver what the ownership argument asks of it, and the handlers built on it are proved
    equal to the functions in Handlers.dfy. */
module WorkerContext {
  import opened Types
  import opened Steering
  import opened Links
  import opened Wheel
  import opened TableOps
  import opened Handlers
  import opened Sessions

  /** Ports one search tries on one local address. */
  function Probes(st: Steering, protocol: u8): nat {
    if st.RetByRss(protocol) then 64 * st.n else 64
  }

  /** However replies are steered, a search looks through a stretch of 64 ports for each worker. */
  lemma SearchStretch(st: Steering, protocol: u8)
    requires st.Valid()
    ensures Probes(st, protocol) * st.PortStep(protocol) == 64 * st.n
  {
  }

  /** The reply key offered for one cursor value. */
  function Candidate(st: Steering, me: nat, rs: RsAddr, lip: u32, protocol: u8, cursor: nat): FiveTuple
    requires st.Valid() && st.n <= NAT_RANGE
  {
    FiveTuple(rs.ip, lip, rs.port, CandidatePort(st.PortStep(protocol), me, cursor), protocol)
  }

  /** The search passes over a candidate whose replies go elsewhere or whose key is taken. */
  predicate Rejected(st: Steering, me: nat, index: map<FiveTuple, nat>, key: FiveTuple)
    requires st.Valid()
  {
    (st.RetByRss(key.protocol) && st.RetOwner(key) != me) || key in index
  }

  /** The 32-bit cursor after `j` increments. */
  function CursorAfter(start: nat, j: nat): (c: nat)
    ensures c < WRAP32
  {
    (start + j) % WRAP32
  }

  lemma CursorSteps(start: nat, j: nat)
    ensures CursorAfter(start, 0) == start % WRAP32
    ensures (CursorAfter(start, j) + 1) % WRAP32 == CursorAfter(start, j + 1)
  {
  }

  /** Every port tried on `lip` from cursor value `start` on, `count` of them, was rejected. */
  ghost predicate AllRejected(st: Steering, me: nat, index: map<FiveTuple, nat>, rs: RsAddr, lip: u32, protocol: u8,
                              start: nat, count: nat)
    requires st.Valid() && st.n <= NAT_RANGE
  {
    forall j: nat :: j < count ==> Rejected(st, me, index, Candidate(st, me, rs, lip, protocol, CursorAfter(start, j)))
  }

  /** The search rejects exactly the candidates that would not do: the others come back to this worker, are free, and
      are in range for replies. */
  lemma AcceptedIsGood(fab: Fabric, snap: Snapshot, me: nat, t: Table, client: FiveTuple, rsId: nat, lip: u32, cursor: nat)
    requires fab.Valid() && fab.st.n <= NAT_RANGE && me < fab.st.n && rsId in snap.rs && lip in snap.net.lips
    ensures var key := Candidate(fab.st, me, snap.rs[rsId].addr, lip, client.protocol, cursor);
            !Rejected(fab.st, me, t.index, key) <==> GoodServer(fab, snap, me, t, client, rsId, key)
  {
    var step := fab.st.PortStep(client.protocol);
    var key := Candidate(fab.st, me, snap.rs[rsId].addr, lip, client.protocol, cursor);
    if fab.st.RetByRss(client.protocol) {
      PortInRange(step, me, cursor);
    } else {
      CandidateInRange(step, me, cursor);
      CandidateComesBack(fab.st, me, cursor, key);
    }
  }

  /** With step 1 every port of the range is a candidate, whichever worker asks. */
  lemma PortInRange(step: nat, idx: nat, cursor: nat)
    requires step == 1
    ensures InNatRange(CandidatePort(step, idx, cursor))
  {
  }

  lemma NewSessionLives(snap: Snapshot, t: Table, now: nat, to: Timeouts, tuple: FiveTuple, env: Env)
    requires Sound(t)
    ensures var r := NewSession(snap, t, now, to, tuple, env); r.idx.Some? ==> Live(r.t, r.idx.value)
  {
    NewSessionFlows(snap, t, now, to, tuple, env);
  }

  /** Forwarding looks only at the neighbour and TTL answers. */
  lemma ForwardAnswers(snap: Snapshot, t: Table, i: nat, now: nat, to: Timeouts, tuple: FiveTuple, f: TcpFlags,
                       a: Env, b: Env, isNew: bool, closed: nat)
    requires Sound(t) && Live(t, i) && a.neighbour == b.neighbour && a.ttlOk == b.ttlOk
    ensures Forward(snap, t, i, now, to, tuple, f, a, isNew, closed) ==
            Forward(snap, t, i, now, to, tuple, f, b, isNew, closed)
  {
    hide Sound;
    hide Advanced;
    hide Remove;
  }

  /** One cursor for each local address; new ones start at zero. */
  function Cursors(cursor: seq<u32>, n: nat): (r: seq<u32>)
    ensures |r| >= n && |r| >= |cursor|
  {
    if |cursor| < n then cursor + seq(n - |cursor|, _ => 0) else cursor
  }

  class WorkerCtx {
    const idx: nat
    const sessions: SessionTable
    var lipCursor: seq<u32>
    var lipRr: nat
    var now: nat

    ghost predicate Valid()
      reads this, sessions, sessions.sessions, sessions.freeStack, sessions.slots
    {
      sessions.Valid()
    }

    constructor (idx: nat, capacity: nat, now: nat)
      requires 0 < capacity <= FREE && now > 0
      ensures Valid() && this.idx == idx && this.now == now && lipCursor == [] && lipRr == 0
      ensures sessions.View() == Fresh(capacity, now) && fresh(sessions)
    {
      this.idx := idx;
      sessions := new SessionTable(capacity, now);
      lipCursor, lipRr, this.now := [], 0, now;
    }

    /** Search one local address for the first port that is not rejected, `tried` of them having been; the cursor moves
        past every port looked at. */
    method TryLip(fab: Fabric, rs: RsAddr, lip: u32, li: nat, protocol: u8)
      returns (key: Option<FiveTuple>, ghost tried: nat)
      requires Valid() && fab.Valid() && fab.st.n <= NAT_RANGE && idx < fab.st.n && li < |lipCursor|
      modifies this`lipCursor
      ensures |lipCursor| == |old(lipCursor)|
      ensures forall j: nat :: j < |lipCursor| && j != li ==> lipCursor[j] == old(lipCursor)[j]
      ensures AllRejected(fab.st, idx, sessions.index, rs, lip, protocol, old(lipCursor)[li], tried)
      ensures key.Some? ==>
        && tried < Probes(fab.st, protocol) && lipCursor[li] == CursorAfter(old(lipCursor)[li], tried + 1)
        && key.value == Candidate(fab.st, idx, rs, lip, protocol, CursorAfter(old(lipCursor)[li], tried))
        && !Rejected(fab.st, idx, sessions.index, key.value)
      ensures key.None? ==>
        tried == Probes(fab.st, protocol) && lipCursor[li] == CursorAfter(old(lipCursor)[li], tried)
    {
      hide CursorAfter;
      hide CandidatePort;
      var step := fab.st.PortStep(protocol);
      var probes := Probes(fab.st, protocol);
      ghost var start := lipCursor[li];
      CursorSteps(start, 0);
      var i := 0;
      while i < probes
        invariant i <= probes && |lipCursor| == |old(lipCursor)|
        invariant forall j: nat :: j < |lipCursor| && j != li ==> lipCursor[j] == old(lipCursor)[j]
        invariant lipCursor[li] == CursorAfter(start, i)
        invariant AllRejected(fab.st, idx, sessions.index, rs, lip, protocol, start, i)
      {
        CursorSteps(start, i);
        var cur := lipCursor[li];
        lipCursor := lipCursor[li := (cur + 1) % WRAP32];
        tried := i;
        i := i + 1;
        var port := CandidatePort(step, idx, cur);
        var k := FiveTuple(rs.ip, lip, rs.port, port, protocol);
        assert k == Candidate(fab.st, idx, rs, lip, protocol, cur);
        assert InNatRange(port) by {
          if step == 1 { PortInRange(step, idx, cur); } else { CandidateInRange(step, idx, cur); }
        }
        if port <= NAT_PORT_MAX && !(fab.st.RetByRss(protocol) && fab.st.RetOwner(k) != idx) && k !in sessions.index {
          key := Some(k);
          return;
        }
      }
      key, tried := None, probes;
    }

    /** Search every local address in turn, starting after the one used last: the answer is the first candidate that is
        not rejected, `tried` of them having been on the address of turn `round` and all on those before. */
    method FindServer(fab: Fabric, snap: Snapshot, client: FiveTuple, rsId: nat)
      returns (key: Option<FiveTuple>, li: nat, ghost round: nat, ghost tried: nat)
      requires Valid() && fab.Valid() && fab.st.n <= NAT_RANGE && idx < fab.st.n && rsId in snap.rs
      modifies this`lipCursor
      ensures key.Some? ==> GoodServer(fab, snap, idx, sessions.View(), client, rsId, key.value)
      ensures key.Some? ==>
        var lips, rs, start := snap.net.lips, snap.rs[rsId].addr, Cursors(old(lipCursor), |snap.net.lips|);
        && round < |lips| && li == Turn(lipRr, round, |lips|) && key.value.dstIp == lips[li]
        && key.value == Candidate(fab.st, idx, rs, lips[li], client.protocol, CursorAfter(start[li], tried))
        && AllRejected(fab.st, idx, sessions.index, rs, lips[li], client.protocol, start[li], tried)
        && forall m: nat :: m < round ==>
             var j := Turn(lipRr, m, |lips|);
             AllRejected(fab.st, idx, sessions.index, rs, lips[j], client.protocol, start[j],
                         Probes(fab.st, client.protocol))
      ensures key.None? ==> forall j: nat :: j < |snap.net.lips| ==>
        AllRejected(fab.st, idx, sessions.index, snap.rs[rsId].addr, snap.net.lips[j], client.protocol,
                    Cursors(old(lipCursor), |snap.net.lips|)[j], Probes(fab.st, client.protocol))
    {
      var lips := snap.net.lips;
      lipCursor := Cursors(lipCursor, |lips|);
      hide AllRejected;
      hide GoodServer;
      hide Turn;
      ghost var start := lipCursor;
      ghost var done: set<nat> := {};
      var n := 0;
      while n < |lips|
        invariant n <= |lips| <= |lipCursor| == |start|
        invariant forall j: nat :: j < |lips| && j !in done ==> lipCursor[j] == start[j]
        invariant forall j: nat :: j in done ==> j < |lips|
        invariant forall j: nat :: j in done ==>
          AllRejected(fab.st, idx, sessions.index, snap.rs[rsId].addr, lips[j], client.protocol, start[j],
                      Probes(fab.st, client.protocol))
        invariant forall m: nat :: m < n ==> Turn(lipRr, m, |lips|) in done
        invariant forall j: nat :: j in done ==> exists m: nat :: m < n && j == Turn(lipRr, m, |lips|)
      {
        li := Turn(lipRr, n, |lips|);
        assert li !in done by {
          if li in done {
            var m: nat :| m < n && li == Turn(lipRr, m, |lips|);
            TurnsDiffer(lipRr, m, n, |lips|);
          }
        }
        ghost var before := lipCursor[li];
        key, tried := TryLip(fab, snap.rs[rsId].addr, lips[li], li, client.protocol);
        if key.Some? {
          round := n;
          AcceptedIsGood(fab, snap, idx, sessions.View(), client, rsId, lips[li], CursorAfter(before, tried));
          return;
        }
        done := done + {li};
        n := n + 1;
      }
      forall j: nat | j < |lips| ensures j in done {
        EveryTurnComes(lipRr, j, |lips|);
      }
      key, li, round, tried := None, 0, 0, 0;
    }

    /** Look the client key up and end a session that must not go on. */
    method Find(snap: Snapshot, tuple: FiveTuple, f: TcpFlags) returns (i: Option<nat>, closed: nat)
      requires Valid() && Kept(sessions.View())
      modifies sessions, sessions.sessions, sessions.freeStack, sessions.slots
      ensures Valid() && Found(sessions.View(), i, closed) == FindSession(snap, old(sessions.View()), tuple, f)
    {
      hide WellLinked;
      hide Acyclic;
      hide PendingExact;
      i := sessions.Lookup(tuple);
      closed := 0;
      if i.Some? {
        ghost var t := sessions.View();
        assert i.value in Flows(t);
        var app := sessions.sessions[i.value].app;
        var reuse := IsSyn(tuple, f) && Reusable(app.state);
        if app.rsId !in snap.rs || !snap.rs[app.rsId].Usable() || reuse {
          sessions.Remove(i.value);
          i, closed := None, 1;
        }
      }
    }

    /** The reply key for a new session: none in DR mode, else what the port search finds. */
    method ChooseKey(fab: Fabric, snap: Snapshot, tuple: FiveTuple, answers: Env)
      returns (server: Option<FiveTuple>, li: nat, ghost env: Env)
      requires Valid() && fab.Valid() && fab.st.n <= NAT_RANGE && idx < fab.st.n
      requires answers.pick.Some? && snap.MayPick(tuple, answers.pick.value)
      modifies this`lipCursor
      ensures env == answers.(server := server) && ReplyKey(snap, env) == server
      ensures EnvOk(fab, snap, idx, sessions.View(), tuple, env)
      ensures server.Some? ==> li < |snap.net.lips| && snap.net.lips[li] == server.value.dstIp
    {
      hide GoodServer;
      hide AllRejected;
      hide Candidate;
      hide SessionTable.View;
      server, li := None, 0;
      if snap.net.mode == Nat {
        ghost var round, tried;
        server, li, round, tried := FindServer(fab, snap, tuple, answers.pick.value);
      }
      env := answers.(server := server);
    }

    /** Open a session on server `pick`; `env` records what the port search answered. */
    method Open(fab: Fabric, snap: Snapshot, to: Timeouts, tuple: FiveTuple, answers: Env)
      returns (i: Option<nat>, ghost env: Env)
      requires Valid() && fab.Valid() && fab.st.n <= NAT_RANGE && idx < fab.st.n
      requires answers.pick.Some? ==> snap.MayPick(tuple, answers.pick.value)
      modifies this`lipCursor, this`lipRr, sessions, sessions.sessions, sessions.freeStack, sessions.slots
      ensures Valid()
      ensures env == answers.(server := env.server) && EnvOk(fab, snap, idx, old(sessions.View()), tuple, env)
      ensures Opened(sessions.View(), i) == NewSession(snap, old(sessions.View()), now, to, tuple, env)
      ensures i.None? || snap.net.mode == Dr ==> lipRr == old(lipRr)
      ensures i.Some? && snap.net.mode == Nat ==>
        1 <= lipRr <= |snap.net.lips| && env.server.Some? && snap.net.lips[lipRr - 1] == env.server.value.dstIp
    {
      hide WellLinked;
      hide Acyclic;
      hide FreeExact;
      hide PendingExact;
      hide GoodServer;
      hide FirstApp;
      env := answers.(server := None);
      i := None;
      if answers.pick.None? {
        return;
      }
      var server, li;
      server, li, env := ChooseKey(fab, snap, tuple, answers);
      if snap.net.mode == Nat && server.None? {
        return;
      }
      var timeout := if tuple.protocol == PROTO_TCP then to.tcpSyn else to.udp;
      i := Start(tuple, server, timeout, answers.clientAdded, answers.serverAdded,
                 FirstApp(snap.net.mode, tuple, answers.pick.value, answers.toa));
      if i.Some? && snap.net.mode == Nat {
        lipRr := li + 1;
      }
    }

    /** Insert a session and fill in what the handlers keep in it. */
    method Start(client: FiveTuple, server: Option<FiveTuple>, timeout: nat, clientAdded: bool, serverAdded: bool, app: App)
      returns (i: Option<nat>)
      requires Valid()
      modifies sessions, sessions.sessions, sessions.freeStack, sessions.slots
      ensures Valid()
      ensures var c := Create(old(sessions.View()), client, server, now, timeout, clientAdded, serverAdded);
              && i == c.idx
              && (i.Some? ==> i.value < |c.table.ss| && sessions.View() == WithApp(c.table, i.value, app))
              && (i.None? ==> sessions.View() == c.table)
    {
      hide WellLinked;
      hide Acyclic;
      hide PendingExact;
      ghost var t := sessions.View();
      CreateFails(t, client, server, now, timeout, clientAdded, serverAdded);
      i := sessions.Create(client, server, now, timeout, clientAdded, serverAdded);
      if i.Some? {
        StartedFlows(t, client, server, now, timeout, app);
        sessions.SetApp(i.value, app);
      }
    }

    /** Advance the connection state of a session and refresh its deadline. */
    method UpdateState(i: nat, to: Timeouts, f: TcpFlags, fromClient: bool)
      requires Valid() && Live(sessions.View(), i)
      modifies sessions, sessions.sessions, sessions.slots
      ensures Valid() && sessions.View() == Advanced(old(sessions.View()), i, now, to, f, fromClient)
    {
      hide WellLinked;
      var app := NextApp(sessions.sessions[i].app, f, fromClient);
      sessions.SetApp(i, app);
      sessions.Touch(i, now, StateTimeout(app.state, to));
    }

    /** The inbound path; `env` is `answers` with the outcome of the port search filled in. */
    method Inbound(fab: Fabric, snap: Snapshot, to: Timeouts, tuple: FiveTuple, f: TcpFlags, redirected: bool, answers: Env)
      returns (verdict: Verdict, created: nat, closed: nat, ghost env: Env)
      requires Valid() && Kept(sessions.View()) && fab.Valid() && fab.st.n <= NAT_RANGE && idx < fab.st.n
      requires answers.pick.Some? ==> snap.MayPick(tuple, answers.pick.value)
      modifies this`lipCursor, this`lipRr, sessions, sessions.sessions, sessions.freeStack, sessions.slots
      ensures Valid()
      ensures env == answers.(server := env.server)
      ensures EnvOk(fab, snap, idx, FindSession(snap, old(sessions.View()), tuple, f).t, tuple, env)
      ensures Handled(sessions.View(), verdict, created, closed)
              == HandleInbound(fab, snap, idx, old(sessions.View()), now, to, tuple, f, redirected, env)
    {
      hide WellLinked;
      hide Acyclic;
      hide FreeExact;
      hide PendingExact;
      hide IndexExact;
      hide FindSession;
      hide HandleNew;
      hide Forward;
      hide GoodServer;
      ghost var t := sessions.View();
      env := answers.(server := None);
      created, closed := 0, 0;
      var owner := fab.st.FwdOwner(tuple);
      if owner != idx {
        verdict := if redirected then Discard else Redirect(owner);
        return;
      }
      FindSessionEffect(snap, t, tuple, f);
      var i;
      i, closed := Find(snap, tuple, f);
      if i.Some? {
        ForwardAnswers(snap, sessions.View(), i.value, now, to, tuple, f, answers, env, false, closed);
        verdict, closed := ForwardPacket(snap, to, i.value, tuple, f, answers, false, closed);
      } else {
        verdict, created, closed, env := InboundNew(fab, snap, to, tuple, f, answers, closed);
      }
    }

    method InboundNew(fab: Fabric, snap: Snapshot, to: Timeouts, tuple: FiveTuple, f: TcpFlags, answers: Env, before: nat)
      returns (verdict: Verdict, created: nat, closed: nat, ghost env: Env)
      requires Valid() && fab.Valid() && fab.st.n <= NAT_RANGE && idx < fab.st.n
      requires answers.pick.Some? ==> snap.MayPick(tuple, answers.pick.value)
      modifies this`lipCursor, this`lipRr, sessions, sessions.sessions, sessions.freeStack, sessions.slots
      ensures Valid()
      ensures env == answers.(server := env.server) && EnvOk(fab, snap, idx, old(sessions.View()), tuple, env)
      ensures Handled(sessions.View(), verdict, created, closed)
              == HandleNew(snap, old(sessions.View()), now, to, tuple, f, env, before)
    {
      hide Sound;
      hide NewSession;
      hide Forward;
      hide GoodServer;
      hide Snapshot.MayPick;
      hide IsSyn;
      hide SessionTable.View;
      hide SessionTable.Shape;
      ghost var t := sessions.View();
      env := answers.(server := None);
      verdict, created, closed := Discard, 0, before;
      if tuple.protocol == PROTO_TCP && !IsSyn(tuple, f) {
        return;
      }
      var i;
      i, env := Open(fab, snap, to, tuple, answers);
      NewSessionLives(snap, t, now, to, tuple, env);
      if i.Some? {
        created := 1;
        ForwardAnswers(snap, sessions.View(), i.value, now, to, tuple, f, answers, env, true, closed);
        verdict, closed := ForwardPacket(snap, to, i.value, tuple, f, answers, true, closed);
      }
    }

    /** Refresh the session and send, or give a session opened for this packet back. */
    method ForwardPacket(snap: Snapshot, to: Timeouts, i: nat, tuple: FiveTuple, f: TcpFlags, env: Env,
                         isNew: bool, before: nat)
      returns (verdict: Verdict, closed: nat)
      requires Valid() && Live(sessions.View(), i)
      modifies sessions, sessions.sessions, sessions.freeStack, sessions.slots
      ensures Valid()
      ensures Handled(sessions.View(), verdict, if isNew then 1 else 0, closed)
              == Forward(snap, old(sessions.View()), i, now, to, tuple, f, env, isNew, before)
    {
      hide WellLinked;
      hide Acyclic;
      hide PendingExact;
      hide Advanced;
      AdvancedFlows(sessions.View(), i, now, to, f, true);
      UpdateState(i, to, f, true);
      closed := before;
      if !env.neighbour || (snap.net.mode == Nat && !env.ttlOk) {
        verdict := Discard;
        if isNew {
          sessions.Remove(i);
          closed := before + 1;
        }
      } else if snap.net.mode == Dr {
        verdict := Send(tuple);
      } else {
        verdict := Send(sessions.sessions[i].server.Reverse());
      }
    }

    /** The path of replies from servers. */
    method Reply(fab: Fabric, snap: Snapshot, to: Timeouts, tuple: FiveTuple, f: TcpFlags, redirected: bool, env: Env)
      returns (verdict: Verdict, closed: nat)
      requires Valid() && Kept(sessions.View()) && fab.Valid()
      modifies sessions, sessions.sessions, sessions.freeStack, sessions.slots
      ensures Valid()
      ensures Handled(sessions.View(), verdict, 0, closed)
              == HandleReturn(fab, snap, idx, old(sessions.View()), now, to, tuple, f, redirected, env)
    {
      hide WellLinked;
      hide Acyclic;
      hide FreeExact;
      hide PendingExact;
      hide Advanced;
      closed := 0;
      verdict := Discard;
      var owner := fab.st.RetOwner(tuple);
      if owner != idx {
        verdict := if redirected then Discard else Redirect(owner);
        return;
      }
      var found := sessions.Lookup(tuple);
      if found.None? {
        return;
      }
      var i := found.value;
      assert i in Flows(sessions.View());
      var s := sessions.sessions[i];
      if !s.fullnat || s.server != tuple {
        return;
      }
      if s.app.rsId !in snap.rs || !snap.rs[s.app.rsId].Usable() {
        sessions.Remove(i);
        closed := 1;
        return;
      }
      AdvancedFlows(sessions.View(), i, now, to, f, false);
      UpdateState(i, to, f, false);
      var app := sessions.sessions[i].app;
      sessions.SetApp(i, app.(toaPending := app.toaPending && f.syn));
      if env.neighbour && env.ttlOk {
        verdict := Send(s.client.Reverse());
      }
    }
  }

  /** The local address tried in round `m`. */
  function Turn(start: nat, m: nat, n: nat): (r: nat)
    requires n > 0
    ensures r < n
  {
    (start + m) % n
  }

  lemma TurnsDiffer(start: nat, a: nat, b: nat, n: nat)
    requires a < b < n
    ensures Turn(start, a, n) != Turn(start, b, n)
  {
    ResiduesDiffer(start + a, start + b, n);
  }

  lemma EveryTurnComes(start: nat, li: nat, n: nat)
    requires li < n
    ensures exists m: nat :: m < n && Turn(start, m, n) == li
  {
    var s := start % n;
    var m := if li >= s then li - s else li + n - s;
    ModPlusMultiple(s + m, start / n, n);
    assert start + m == s + m + start / n * n;
    if li >= s { ModShift(li, 0, n); } else { ModShift(li, 1, n); }
    assert Turn(start, m, n) == li;
  }
}
