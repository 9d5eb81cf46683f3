/** All workers together: packets arrive anywhere, wait in receive and redirect rings, are handled one at
    a time against any snapshot of the deployment, and leave through transmit buffers. Workers take steps
    in any order. */
module Cluster {
  import opened Types
  import opened Steering
  import opened Links
  import opened Wheel
  import opened Expiry
  import opened TableOps
  import opened Handlers
  import opened Ownership

  /** A redirect ring of 4096 slots keeps one of them empty. */
  const RING_ROOM := 4095
  const BURST_SIZE := 64

  /** A received buffer, told apart from all others by `id`. */
  datatype Packet =
    | Transport(id: nat, tuple: FiveTuple, flags: TcpFlags)
    | IcmpError(id: nat, outerSrc: u32, outerDst: u32, inner: FiveTuple)

  datatype Worker = Worker(
    t: Table, now: nat, rx: seq<Packet>, ring: seq<Packet>, tx: seq<nat>,
    sessNew: nat, sessExpired: nat, sessClosed: nat, redirectOut: nat, redirectIn: nat)

  /** `received`, `sent` and `freed` collect buffer ids over the whole run. */
  datatype Cluster = Cluster(ws: seq<Worker>, received: multiset<nat>, sent: multiset<nat>, freed: multiset<nat>)

  datatype Action =
    | Arrive(w: nat, pkt: Packet, room: bool)
    | FromRx(w: nat, snap: Snapshot, env: Env)
    | FromRing(w: nat, snap: Snapshot, env: Env)
    | Flush(w: nat, accepted: nat)
    | Tick(w: nat, next: nat)

  // ---------------------------------------------------------------------------------------------
  // One packet at one worker
  // ---------------------------------------------------------------------------------------------

  function HandlePacket(fab: Fabric, snap: Snapshot, to: Timeouts, me: nat, t: Table, now: nat, pkt: Packet,
                        redirected: bool, env: Env): Handled
    requires fab.Valid() && Kept(t)
  {
    match pkt
    case Transport(_, tuple, flags) => HandleTransport(fab, snap, me, t, now, to, tuple, flags, redirected, env)
    case IcmpError(_, outerSrc, outerDst, inner) =>
      Handled(t, HandleIcmpError(fab, snap, me, t, outerSrc, outerDst, inner, redirected, env), 0, 0)
  }

  /** The worker every worker sends this packet to, if it is redirected at all. */
  function PacketOwner(fab: Fabric, pkt: Packet): Option<nat>
    requires fab.Valid()
  {
    match pkt
    case Transport(_, tuple, _) =>
      (match Classify(fab.net, tuple)
       case Return => Some(fab.st.RetOwner(tuple))
       case Inbound => Some(fab.st.FwdOwner(tuple))
       case _ => None)
    case IcmpError(_, _, outerDst, inner) =>
      if fab.net.mode == Nat && fab.net.IsLip(outerDst) && fab.net.IsLip(inner.srcIp) && InNatRange(inner.srcPort)
      then Some(fab.st.RetOwner(inner.Reverse()))
      else if fab.net.IsVip(outerDst) && fab.net.IsVip(inner.srcIp) then Some(fab.st.FwdOwner(inner.Reverse()))
      else None
  }

  /** The outside answers a handler may get for this packet. */
  ghost predicate AnswersOk(fab: Fabric, snap: Snapshot, me: nat, t: Table, pkt: Packet, env: Env)
    requires fab.Valid() && Kept(t)
  {
    pkt.Transport? && Classify(fab.net, pkt.tuple) == Inbound ==>
      EnvOk(fab, snap, me, FindSession(snap, t, pkt.tuple, pkt.flags).t, pkt.tuple, env)
  }

  lemma HandlePacketOwns(fab: Fabric, snap: Snapshot, to: Timeouts, me: nat, t: Table, now: nat, pkt: Packet,
                         redirected: bool, env: Env)
    requires fab.Valid() && fab.Admits(snap) && Kept(t) && Owns(fab, me, Flows(t))
    requires AnswersOk(fab, snap, me, t, pkt, env)
    ensures var r := HandlePacket(fab, snap, to, me, t, now, pkt, redirected, env);
            && Keeps(fab, me, t, r)
            && (r.verdict.Redirect? ==> PacketOwner(fab, pkt) == Some(r.verdict.to) && r.verdict.to != me && !redirected)
  {
    hide Sound;
    hide IndexExact;
    hide Owns;
    hide Flows;
    hide Classify;
    hide HandleReturn;
    hide HandleInbound;
    hide FindSession;
    hide EnvOk;
    KeepsFrom(fab, me, t, Handled(t, Discard, 0, 0), Flows(t));
    if pkt.Transport? {
      match Classify(fab.net, pkt.tuple)
      case Return => ReturnOwns(fab, snap, me, t, now, to, pkt.tuple, pkt.flags, redirected, env);
      case Inbound => InboundOwns(fab, snap, me, t, now, to, pkt.tuple, pkt.flags, redirected, env);
      case HealthReply =>
      case NoService =>
    }
  }

  /** At its owner a redirected packet, TCP, UDP or ICMP error, is handled exactly as if it had arrived there, and is
      not passed on: the test that would drop it for being in the wrong place does not fire. */
  lemma RedirectedMeetsOwner(fab: Fabric, snap: Snapshot, to: Timeouts, me: nat, t: Table, now: nat, pkt: Packet, env: Env)
    requires fab.Valid() && fab.Admits(snap) && Kept(t) && PacketOwner(fab, pkt) == Some(me)
    ensures var r := HandlePacket(fab, snap, to, me, t, now, pkt, true, env);
            r == HandlePacket(fab, snap, to, me, t, now, pkt, false, env) && !r.verdict.Redirect?
  {
    hide Sound;
    hide IndexExact;
    hide Flows;
    hide FindSession;
    hide HandleNew;
    hide Forward;
    hide Advanced;
    if pkt.Transport? && Classify(fab.net, pkt.tuple) == Inbound {
      OwnInboundStays(fab, snap, to, me, t, now, pkt.tuple, pkt.flags, env);
      hide HandleInbound;
    }
  }

  /** The NIC's own distribution needs no redirects: a packet of a client, and a reply where the NIC hashes ports, is
      handled by the worker whose queue it arrives in. */
  lemma NicNeedsNoRedirect(fab: Fabric, nic: Nic, snap: Snapshot, to: Timeouts, t: Table, now: nat, id: nat,
                           tuple: FiveTuple, f: TcpFlags, env: Env)
    requires fab.Valid() && fab.Admits(snap) && Mirrors(fab.st, nic) && Kept(t)
    requires Classify(fab.net, tuple) == Inbound || (Classify(fab.net, tuple) == Return && fab.st.L4Hashed(tuple.protocol))
    ensures !HandlePacket(fab, snap, to, nic.Queue(tuple), t, now, Transport(id, tuple, f), false, env).verdict.Redirect?
  {
    hide Kept;
    hide Classify;
    hide HandleTransport;
    NicAgrees(fab.st, nic, tuple);
    RedirectedMeetsOwner(fab, snap, to, nic.Queue(tuple), t, now, Transport(id, tuple, f), env);
  }

  /** A worker that does not own a packet leaves its own table alone and passes the packet to the worker that does. */
  lemma PassedOn(fab: Fabric, snap: Snapshot, to: Timeouts, me: nat, t: Table, now: nat, pkt: Packet, env: Env, owner: nat)
    requires fab.Valid() && fab.Admits(snap) && Kept(t) && PacketOwner(fab, pkt) == Some(owner) && owner != me
    ensures HandlePacket(fab, snap, to, me, t, now, pkt, false, env) == Handled(t, Redirect(owner), 0, 0)
  {
    hide Sound;
    hide IndexExact;
    hide Flows;
    hide FindSession;
    hide HandleNew;
    hide Forward;
    hide Advanced;
  }

  lemma OwnInboundStays(fab: Fabric, snap: Snapshot, to: Timeouts, me: nat, t: Table, now: nat, tuple: FiveTuple,
                        f: TcpFlags, env: Env)
    requires fab.Valid() && Kept(t) && fab.st.FwdOwner(tuple) == me
    ensures var r := HandleInbound(fab, snap, me, t, now, to, tuple, f, true, env);
            r == HandleInbound(fab, snap, me, t, now, to, tuple, f, false, env) && !r.verdict.Redirect?
  {
    hide Sound;
    hide IndexExact;
    hide Flows;
    hide FindSession;
    hide Advanced;
    hide NewSession;
  }

  // ---------------------------------------------------------------------------------------------
  // Steps
  // ---------------------------------------------------------------------------------------------

  function Ids(s: seq<Packet>): multiset<nat> {
    if s == [] then multiset{} else multiset{s[0].id} + Ids(s[1..])
  }

  /** Buffers a worker is holding. */
  function HeldBy(w: Worker): multiset<nat> {
    Ids(w.rx) + Ids(w.ring) + multiset(w.tx)
  }

  /** Transmit: the driver takes a prefix, the rest is freed. */
  function Flushed(c: Cluster, k: nat, accepted: nat): Cluster
    requires k < |c.ws| && accepted <= |c.ws[k].tx|
  {
    var w := c.ws[k];
    c.(ws := c.ws[k := w.(tx := [])],
       sent := c.sent + multiset(w.tx[..accepted]),
       freed := c.freed + multiset(w.tx[accepted..]))
  }

  /** What the worker loop does with a handled packet. */
  function Settle(c: Cluster, k: nat, id: nat, pkt: Packet, verdict: Verdict): (d: Cluster)
    requires k < |c.ws|
  {
    match verdict
    case Send(_) => Queued(c, k, id)
    case SendError(_, _, _) => Queued(c, k, id)
    case Redirect(to) =>
      if to < |c.ws| && |c.ws[to].ring| < RING_ROOM then
        var c1 := c.(ws := c.ws[to := c.ws[to].(ring := c.ws[to].ring + [pkt])]);
        c1.(ws := c1.ws[k := c1.ws[k].(redirectOut := c1.ws[k].redirectOut + 1)])
      else c.(freed := c.freed + multiset{id})
    case Discard => c.(freed := c.freed + multiset{id})
    case Consumed => c.(freed := c.freed + multiset{id})
  }

  /** tx_buffer_add without the flush it triggers when full. */
  function Queued(c: Cluster, k: nat, id: nat): Cluster
    requires k < |c.ws|
  {
    c.(ws := c.ws[k := c.ws[k].(tx := c.ws[k].tx + [id])])
  }

  /** Worker `k` after handling `pkt`, before the buffer is disposed of. */
  function AfterHandling(w: Worker, h: Handled): Worker {
    w.(t := h.t, sessNew := w.sessNew + h.created, sessClosed := w.sessClosed + h.closed)
  }

  /** Worker `k`, in state `w` once it has taken `pkt` out of a ring, handles it. */
  function HandleAt(fab: Fabric, to: Timeouts, c: Cluster, k: nat, w: Worker, snap: Snapshot, pkt: Packet,
                    redirected: bool, env: Env): Cluster
    requires fab.Valid() && k < |c.ws| && Kept(w.t)
  {
    var h := HandlePacket(fab, snap, to, k, w.t, w.now, pkt, redirected, env);
    Settle(c.(ws := c.ws[k := AfterHandling(w, h)]), k, pkt.id, pkt, h.verdict)
  }

  predicate Valid(fab: Fabric, c: Cluster) {
    fab.Valid() && |c.ws| == fab.st.n
  }

  ghost predicate Enabled(fab: Fabric, c: Cluster, a: Action)
    requires Valid(fab, c)
  {
    && a.w < |c.ws| && Kept(c.ws[a.w].t)
    && match a
       case Arrive(_, _, _) => true
       case FromRx(k, snap, env) =>
         && |c.ws[k].rx| > 0 && |c.ws[k].tx| < BURST_SIZE
         && fab.Admits(snap) && AnswersOk(fab, snap, k, c.ws[k].t, c.ws[k].rx[0], env)
       case FromRing(k, snap, env) =>
         && |c.ws[k].ring| > 0 && |c.ws[k].tx| < BURST_SIZE
         && fab.Admits(snap) && AnswersOk(fab, snap, k, c.ws[k].t, c.ws[k].ring[0], env)
       case Flush(k, accepted) => accepted <= |c.ws[k].tx|
       case Tick(k, next) => c.ws[k].now <= next
  }

  function Next(fab: Fabric, to: Timeouts, c: Cluster, a: Action): Cluster
    requires Valid(fab, c) && Enabled(fab, c, a)
  {
    var w := c.ws[a.w];
    match a
    case Arrive(k, pkt, room) =>
      var c1 := c.(received := c.received + multiset{pkt.id});
      if room then c1.(ws := c.ws[k := w.(rx := w.rx + [pkt])])
      else c1.(freed := c.freed + multiset{pkt.id})
    case FromRx(k, snap, env) =>
      HandleAt(fab, to, c, k, w.(rx := w.rx[1..]), snap, w.rx[0], false, env)
    case FromRing(k, snap, env) =>
      HandleAt(fab, to, c, k, w.(ring := w.ring[1..], redirectIn := w.redirectIn + 1), snap, w.ring[0], true, env)
    case Flush(k, accepted) => Flushed(c, k, accepted)
    case Tick(k, next) =>
      var t := Expire(w.t, next, EXPIRE_BUDGET);
      ExpireBounded(w.t, next, EXPIRE_BUDGET);
      c.(ws := c.ws[k := w.(t := t, now := next, sessExpired := w.sessExpired + (|t.free| - |w.t.free|))])
  }

  // ---------------------------------------------------------------------------------------------
  // Ownership on every run
  // ---------------------------------------------------------------------------------------------

  /** Worker `k` holds only its own flows, its counters add up, and what waits in its redirect ring is for it. */
  ghost predicate WorkerInv(fab: Fabric, k: nat, w: Worker)
    requires fab.Valid()
  {
    && Kept(w.t) && Owns(fab, k, Flows(w.t))
    && w.sessNew == w.sessExpired + w.sessClosed + |Flows(w.t)|
    && forall j: nat :: j < |w.ring| ==> PacketOwner(fab, w.ring[j]) == Some(k)
  }

  ghost predicate Inv(fab: Fabric, c: Cluster) {
    Valid(fab, c) && forall k: nat :: k < |c.ws| ==> WorkerInv(fab, k, c.ws[k])
  }

  lemma ExpireOwns(fab: Fabric, me: nat, t: Table, now: nat)
    requires fab.Valid() && Kept(t) && Owns(fab, me, Flows(t))
    ensures var r := Expire(t, now, EXPIRE_BUDGET);
            && Kept(r) && Owns(fab, me, Flows(r)) && |t.free| <= |r.free|
            && |Flows(r)| + (|r.free| - |t.free|) == |Flows(t)|
  {
    hide WellLinked;
    hide Expire;
    hide IndexExact;
    hide FlowOk;
    var r := Expire(t, now, EXPIRE_BUDGET);
    ExpireSound(t, now, EXPIRE_BUDGET);
    ExpireIndex(t, now, EXPIRE_BUDGET);
    ExpireRemovesOnlyDue(t, now, EXPIRE_BUDGET);
    ExpireBounded(t, now, EXPIRE_BUDGET);
    ActiveIsFlowCount(t);
    ActiveIsFlowCount(r);
    hide Sound;
    forall i | i in Flows(r) ensures FlowOk(fab, me, Flows(r)[i]) {
      assert SameRecord(t.ss[i], r.ss[i]);
      assert Flows(r)[i] == Flows(t)[i];
    }
  }

  lemma TickInv(fab: Fabric, k: nat, w: Worker, next: nat)
    requires fab.Valid() && WorkerInv(fab, k, w)
    ensures var t := Expire(w.t, next, EXPIRE_BUDGET);
            && |w.t.free| <= |t.free|
            && WorkerInv(fab, k, w.(t := t, now := next, sessExpired := w.sessExpired + (|t.free| - |w.t.free|)))
  {
    hide Expire;
    hide Sound;
    hide IndexExact;
    hide Owns;
    hide Flows;
    hide PacketOwner;
    ExpireOwns(fab, k, w.t, next);
  }

  lemma HandlingInv(fab: Fabric, snap: Snapshot, to: Timeouts, k: nat, w: Worker, pkt: Packet, redirected: bool, env: Env)
    requires fab.Valid() && fab.Admits(snap) && WorkerInv(fab, k, w) && AnswersOk(fab, snap, k, w.t, pkt, env)
    ensures WorkerInv(fab, k, AfterHandling(w, HandlePacket(fab, snap, to, k, w.t, w.now, pkt, redirected, env)))
  {
    hide HandlePacket;
    hide Sound;
    hide Owns;
    hide IndexExact;
    hide Flows;
    hide PacketOwner;
    hide AnswersOk;
    HandlePacketOwns(fab, snap, to, k, w.t, w.now, pkt, redirected, env);
  }

  lemma UpdateInv(fab: Fabric, c: Cluster, k: nat, w: Worker)
    requires Inv(fab, c) && k < |c.ws| && WorkerInv(fab, k, w)
    ensures Inv(fab, c.(ws := c.ws[k := w]))
  {
    hide WorkerInv;
  }

  lemma SettleInv(fab: Fabric, c: Cluster, k: nat, id: nat, pkt: Packet, verdict: Verdict)
    requires Inv(fab, c) && k < |c.ws|
    requires verdict.Redirect? ==> PacketOwner(fab, pkt) == Some(verdict.to)
    ensures Inv(fab, Settle(c, k, id, pkt, verdict))
  {
    hide Kept;
    hide Owns;
    hide Flows;
    hide PacketOwner;
    if verdict.Redirect? && verdict.to < |c.ws| && |c.ws[verdict.to].ring| < RING_ROOM {
      var to := verdict.to;
      UpdateInv(fab, c, to, c.ws[to].(ring := c.ws[to].ring + [pkt]));
      var c1 := c.(ws := c.ws[to := c.ws[to].(ring := c.ws[to].ring + [pkt])]);
      UpdateInv(fab, c1, k, c1.ws[k].(redirectOut := c1.ws[k].redirectOut + 1));
    } else if verdict.Send? || verdict.SendError? {
      UpdateInv(fab, c, k, c.ws[k].(tx := c.ws[k].tx + [id]));
    }
  }

  lemma HandleAtInv(fab: Fabric, to: Timeouts, c: Cluster, k: nat, w: Worker, snap: Snapshot, pkt: Packet,
                    redirected: bool, env: Env)
    requires Inv(fab, c) && k < |c.ws| && WorkerInv(fab, k, w) && fab.Admits(snap)
    requires AnswersOk(fab, snap, k, w.t, pkt, env)
    ensures Inv(fab, HandleAt(fab, to, c, k, w, snap, pkt, redirected, env))
  {
    var h := HandlePacket(fab, snap, to, k, w.t, w.now, pkt, redirected, env);
    HandlingInv(fab, snap, to, k, w, pkt, redirected, env);
    HandlePacketOwns(fab, snap, to, k, w.t, w.now, pkt, redirected, env);
    hide *;
    UpdateInv(fab, c, k, AfterHandling(w, h));
    SettleInv(fab, c.(ws := c.ws[k := AfterHandling(w, h)]), k, pkt.id, pkt, h.verdict);
  }

  lemma PoppedInv(fab: Fabric, k: nat, w: Worker)
    requires fab.Valid() && WorkerInv(fab, k, w)
    ensures |w.rx| > 0 ==> WorkerInv(fab, k, w.(rx := w.rx[1..]))
    ensures |w.ring| > 0 ==> WorkerInv(fab, k, w.(ring := w.ring[1..], redirectIn := w.redirectIn + 1))
    ensures forall pkt: Packet :: WorkerInv(fab, k, w.(rx := w.rx + [pkt]))
    ensures WorkerInv(fab, k, w.(tx := []))
  {
    hide Kept;
    hide Owns;
    hide Flows;
    hide PacketOwner;
  }

  /** Every step of every worker keeps ownership. */
  lemma StepInv(fab: Fabric, to: Timeouts, c: Cluster, a: Action)
    requires Inv(fab, c) && Enabled(fab, c, a)
    ensures Inv(fab, Next(fab, to, c, a))
  {
    hide Sound;
    hide IndexExact;
    hide Owns;
    hide Flows;
    hide PacketOwner;
    hide HandleAt;
    hide AnswersOk;
    hide WorkerInv;
    var w := c.ws[a.w];
    PoppedInv(fab, a.w, w);
    match a
    case Arrive(k, pkt, _) => UpdateInv(fab, c, k, w.(rx := w.rx + [pkt]));
    case FromRx(k, snap, env) =>
      HandleAtInv(fab, to, c, k, w.(rx := w.rx[1..]), snap, w.rx[0], false, env);
    case FromRing(k, snap, env) =>
      HandleAtInv(fab, to, c, k, w.(ring := w.ring[1..], redirectIn := w.redirectIn + 1), snap, w.ring[0], true, env);
    case Flush(k, accepted) => UpdateInv(fab, c, k, w.(tx := []));
    case Tick(k, next) => TickStepInv(fab, c, k, next);
  }

  lemma TickStepInv(fab: Fabric, c: Cluster, k: nat, next: nat)
    requires Inv(fab, c) && k < |c.ws|
    ensures var w := c.ws[k];
            && Kept(w.t)
            && var t := Expire(w.t, next, EXPIRE_BUDGET);
            && |w.t.free| <= |t.free|
            && Inv(fab, c.(ws := c.ws[k := w.(t := t, now := next,
                                              sessExpired := w.sessExpired + (|t.free| - |w.t.free|))]))
  {
    hide WellLinked;
    hide IndexExact;
    hide Owns;
    hide Flows;
    hide Expire;
    hide PacketOwner;
    hide FreeExact;
    hide Acyclic;
    hide PendingExact;
    var w := c.ws[k];
    assert WorkerInv(fab, k, w);
    TickInv(fab, k, w, next);
    var t := Expire(w.t, next, EXPIRE_BUDGET);
    UpdateInv(fab, c, k, w.(t := t, now := next, sessExpired := w.sessExpired + (|t.free| - |w.t.free|)));
  }

  // ---------------------------------------------------------------------------------------------
  // Conservation
  // ---------------------------------------------------------------------------------------------

  function Held(ws: seq<Worker>): multiset<nat> {
    if ws == [] then multiset{} else Held(ws[..|ws| - 1]) + HeldBy(ws[|ws| - 1])
  }

  /** Handed over but not taken in yet, minus what the ring holds: zero when nothing is lost on the way. */
  function Slack(w: Worker): int {
    w.redirectOut - w.redirectIn - |w.ring|
  }

  function TotalSlack(ws: seq<Worker>): int {
    if ws == [] then 0 else TotalSlack(ws[..|ws| - 1]) + Slack(ws[|ws| - 1])
  }

  /** Every received buffer is in exactly one place, except for those in `loose`, which a step is about to
      put somewhere; redirects are neither lost nor invented, up to `slack`. */
  ghost predicate Accounted(c: Cluster, loose: multiset<nat>, slack: int) {
    c.received == c.sent + c.freed + Held(c.ws) + loose && TotalSlack(c.ws) == slack
  }

  ghost predicate Conserved(c: Cluster) {
    Accounted(c, multiset{}, 0)
  }

  lemma {:induction false} HeldUpdate(ws: seq<Worker>, k: nat, w: Worker)
    requires k < |ws|
    ensures Held(ws[k := w]) + HeldBy(ws[k]) == Held(ws) + HeldBy(w)
  {
    hide HeldBy;
    var n := |ws| - 1;
    if k == n {
      assert ws[k := w][..n] == ws[..n];
    } else {
      HeldUpdate(ws[..n], k, w);
      assert ws[k := w][..n] == ws[..n][k := w];
      AddBoth(Held(ws[..n][k := w]), HeldBy(ws[k]), Held(ws[..n]), HeldBy(w), HeldBy(ws[n]));
    }
  }

  lemma {:induction false} SlackUpdate(ws: seq<Worker>, k: nat, w: Worker)
    requires k < |ws|
    ensures TotalSlack(ws[k := w]) + Slack(ws[k]) == TotalSlack(ws) + Slack(w)
  {
    hide Slack;
    var n := |ws| - 1;
    if k == n {
      assert ws[k := w][..n] == ws[..n];
    } else {
      SlackUpdate(ws[..n], k, w);
      assert ws[k := w][..n] == ws[..n][k := w];
    }
  }

  /** Replacing one worker moves the buffers it gains or gives up in or out of the loose ones. */
  lemma Moved(c: Cluster, k: nat, w: Worker, loose: multiset<nat>, slack: int, loose': multiset<nat>, slack': int)
    requires k < |c.ws| && Accounted(c, loose, slack)
    requires HeldBy(w) + loose' == HeldBy(c.ws[k]) + loose && Slack(w) - slack' == Slack(c.ws[k]) - slack
    ensures Accounted(c.(ws := c.ws[k := w]), loose', slack')
  {
    hide HeldBy;
    hide Slack;
    HeldUpdate(c.ws, k, w);
    SlackUpdate(c.ws, k, w);
    hide Held;
    Cancel(Held(c.ws[k := w]), HeldBy(c.ws[k]), Held(c.ws), HeldBy(w), loose, loose');
    SamePart(c.sent + c.freed, Held(c.ws), loose, Held(c.ws[k := w]), loose');
  }

  lemma AddBoth(a: multiset<nat>, b: multiset<nat>, c: multiset<nat>, d: multiset<nat>, n: multiset<nat>)
    requires a + b == c + d
    ensures (a + n) + b == (c + n) + d
  {
    assert (a + n) + b == (a + b) + n && (c + n) + d == (c + d) + n;
  }

  lemma SamePart(p: multiset<nat>, a: multiset<nat>, b: multiset<nat>, c: multiset<nat>, d: multiset<nat>)
    requires a + b == c + d
    ensures p + a + b == p + c + d
  {
    assert p + a + b == p + (a + b) && p + c + d == p + (c + d);
  }

  lemma Cancel(a: multiset<nat>, b: multiset<nat>, c: multiset<nat>, d: multiset<nat>, x: multiset<nat>, y: multiset<nat>)
    requires a + b == c + d && d + y == b + x
    ensures a + y == c + x
  {
    forall e ensures (a + y)[e] == (c + x)[e] {
      assert (a + b)[e] == (c + d)[e] && (d + y)[e] == (b + x)[e];
    }
  }

  lemma {:induction false} IdsAppend(s: seq<Packet>, p: Packet)
    ensures Ids(s + [p]) == Ids(s) + multiset{p.id}
  {
    if s == [] {
      assert s + [p] == [p];
    } else {
      IdsAppend(s[1..], p);
      assert (s + [p])[1..] == s[1..] + [p];
    }
  }

  lemma HeldByMore(w: Worker, pkt: Packet)
    ensures HeldBy(w.(ring := w.ring + [pkt])) == HeldBy(w) + multiset{pkt.id}
    ensures HeldBy(w.(rx := w.rx + [pkt])) == HeldBy(w) + multiset{pkt.id}
    ensures HeldBy(w.(tx := w.tx + [pkt.id])) == HeldBy(w) + multiset{pkt.id}
  {
    IdsAppend(w.ring, pkt);
    IdsAppend(w.rx, pkt);
    hide Ids;
    var r, x, t, p := Ids(w.ring), Ids(w.rx), multiset(w.tx), multiset{pkt.id};
    assert x + (r + p) + t == x + r + t + p;
    assert (x + p) + r + t == x + r + t + p;
    assert x + r + (t + p) == x + r + t + p;
  }

  lemma SettleConserves(c: Cluster, k: nat, pkt: Packet, verdict: Verdict)
    requires k < |c.ws| && Accounted(c, multiset{pkt.id}, 0)
    ensures Conserved(Settle(c, k, pkt.id, pkt, verdict))
  {
    hide Held;
    hide TotalSlack;
    hide HeldBy;
    if verdict.Redirect? && verdict.to < |c.ws| && |c.ws[verdict.to].ring| < RING_ROOM {
      hide Accounted;
      var to := verdict.to;
      var w1 := c.ws[to].(ring := c.ws[to].ring + [pkt]);
      HeldByMore(c.ws[to], pkt);
      Moved(c, to, w1, multiset{pkt.id}, 0, multiset{}, -1);
      var c1 := c.(ws := c.ws[to := w1]);
      var w2 := c1.ws[k].(redirectOut := c1.ws[k].redirectOut + 1);
      SameHeld(c1.ws[k], w2);
      Moved(c1, k, w2, multiset{}, -1, multiset{}, 0);
    } else if verdict.Send? || verdict.SendError? {
      hide Accounted;
      HeldByMore(c.ws[k], pkt);
      Moved(c, k, c.ws[k].(tx := c.ws[k].tx + [pkt.id]), multiset{pkt.id}, 0, multiset{}, 0);
    } else {
      FreedLoose(c, pkt.id);
    }
  }

  lemma FreedLoose(c: Cluster, id: nat)
    requires Accounted(c, multiset{id}, 0)
    ensures Conserved(c.(freed := c.freed + multiset{id}))
  {
    hide Held;
    hide TotalSlack;
    assert c.sent + (c.freed + multiset{id}) + Held(c.ws) == c.sent + c.freed + Held(c.ws) + multiset{id};
  }

  lemma SameHeld(a: Worker, b: Worker)
    requires a.rx == b.rx && a.ring == b.ring && a.tx == b.tx
    ensures HeldBy(a) == HeldBy(b)
  {
  }

  lemma HandleAtConserves(fab: Fabric, to: Timeouts, c: Cluster, k: nat, w: Worker, snap: Snapshot, pkt: Packet,
                          redirected: bool, env: Env)
    requires fab.Valid() && k < |c.ws| && Kept(w.t) && Conserved(c)
    requires HeldBy(w) + multiset{pkt.id} == HeldBy(c.ws[k]) && Slack(w) == Slack(c.ws[k])
    ensures Conserved(HandleAt(fab, to, c, k, w, snap, pkt, redirected, env))
  {
    var h := HandlePacket(fab, snap, to, k, w.t, w.now, pkt, redirected, env);
    var w1 := AfterHandling(w, h);
    assert HeldBy(w1) == HeldBy(w) && Slack(w1) == Slack(w);
    assert HeldBy(w) + multiset{pkt.id} == HeldBy(c.ws[k]) + multiset{};
    assert Accounted(c, multiset{}, 0);
    hide *;
    Moved(c, k, w1, multiset{}, 0, multiset{pkt.id}, 0);
    SettleConserves(c.(ws := c.ws[k := w1]), k, pkt, h.verdict);
  }

  lemma ArriveConserves(c: Cluster, k: nat, pkt: Packet)
    requires k < |c.ws| && Conserved(c)
    ensures var c1 := c.(received := c.received + multiset{pkt.id});
            && Conserved(c1.(ws := c.ws[k := c.ws[k].(rx := c.ws[k].rx + [pkt])]))
            && Conserved(c1.(freed := c.freed + multiset{pkt.id}))
  {
    hide Held;
    hide TotalSlack;
    var c1 := c.(received := c.received + multiset{pkt.id});
    assert Accounted(c1, multiset{pkt.id}, 0);
    FreedLoose(c1, pkt.id);
    HeldByMore(c.ws[k], pkt);
    hide HeldBy;
    Moved(c1, k, c.ws[k].(rx := c.ws[k].rx + [pkt]), multiset{pkt.id}, 0, multiset{}, 0);
  }

  lemma FlushConserves(c: Cluster, k: nat, accepted: nat)
    requires k < |c.ws| && accepted <= |c.ws[k].tx| && Conserved(c)
    ensures Conserved(Flushed(c, k, accepted))
  {
    hide Held;
    hide TotalSlack;
    var w := c.ws[k];
    assert w.tx == w.tx[..accepted] + w.tx[accepted..];
    Moved(c, k, w.(tx := []), multiset{}, 0, multiset(w.tx), 0);
  }

  lemma HeldByLess(w: Worker)
    ensures |w.rx| > 0 ==> HeldBy(w.(rx := w.rx[1..])) + multiset{w.rx[0].id} == HeldBy(w)
    ensures |w.ring| > 0 ==>
      HeldBy(w.(ring := w.ring[1..], redirectIn := w.redirectIn + 1)) + multiset{w.ring[0].id} == HeldBy(w)
  {
    if |w.rx| > 0 { assert Ids(w.rx) == multiset{w.rx[0].id} + Ids(w.rx[1..]); }
    if |w.ring| > 0 { assert Ids(w.ring) == multiset{w.ring[0].id} + Ids(w.ring[1..]); }
  }

  /** Every step moves buffers from one place to another and drops none. */
  lemma StepConserves(fab: Fabric, to: Timeouts, c: Cluster, a: Action)
    requires Valid(fab, c) && Enabled(fab, c, a) && Conserved(c)
    ensures Conserved(Next(fab, to, c, a))
  {
    hide Sound;
    hide IndexExact;
    hide Flows;
    hide AnswersOk;
    hide HandleAt;
    hide Conserved;
    hide HeldBy;
    hide Expire;
    hide Flushed;
    var w := c.ws[a.w];
    HeldByLess(w);
    match a
    case Arrive(k, pkt, _) => ArriveConserves(c, k, pkt);
    case FromRx(k, snap, env) =>
      HandleAtConserves(fab, to, c, k, w.(rx := w.rx[1..]), snap, w.rx[0], false, env);
    case FromRing(k, snap, env) =>
      HandleAtConserves(fab, to, c, k, w.(ring := w.ring[1..], redirectIn := w.redirectIn + 1), snap, w.ring[0], true, env);
    case Flush(k, accepted) => FlushConserves(c, k, accepted);
    case Tick(k, next) =>
      var w1 := Next(fab, to, c, a).ws[k];
      SameHeld(w, w1);
      TickConserves(c, k, w1);
  }

  lemma TickConserves(c: Cluster, k: nat, w: Worker)
    requires k < |c.ws| && Conserved(c) && HeldBy(w) == HeldBy(c.ws[k]) && Slack(w) == Slack(c.ws[k])
    ensures Conserved(c.(ws := c.ws[k := w]))
  {
    Moved(c, k, w, multiset{}, 0, multiset{}, 0);
  }

  // ---------------------------------------------------------------------------------------------
  // Runs
  // ---------------------------------------------------------------------------------------------

  /** Start: empty tables, empty rings, all counters zero. */
  ghost predicate Initial(fab: Fabric, c: Cluster) {
    && Valid(fab, c) && c.received == c.sent == c.freed == multiset{}
    && forall k: nat :: k < |c.ws| ==>
         exists capacity: nat, now: nat :: capacity <= FREE && now > 0
           && c.ws[k] == Worker(Fresh(capacity, now), now, [], [], [], 0, 0, 0, 0, 0)
  }

  ghost predicate Leads(fab: Fabric, to: Timeouts, c: Cluster, a: Action, d: Cluster) {
    Inv(fab, c) ==> Enabled(fab, c, a) && d == Next(fab, to, c, a)
  }

  ghost predicate IsRun(fab: Fabric, to: Timeouts, states: seq<Cluster>, actions: seq<Action>) {
    && |states| == |actions| + 1 && Initial(fab, states[0])
    && forall k: nat :: k < |actions| ==> Leads(fab, to, states[k], actions[k], states[k + 1])
  }

  lemma {:induction false} InitialHoldsNothing(ws: seq<Worker>)
    requires forall k: nat :: k < |ws| ==> HeldBy(ws[k]) == multiset{} && Slack(ws[k]) == 0
    ensures Held(ws) == multiset{} && TotalSlack(ws) == 0
  {
    if ws != [] { InitialHoldsNothing(ws[..|ws| - 1]); }
  }

  lemma InitialInv(fab: Fabric, c: Cluster)
    requires Initial(fab, c)
    ensures Inv(fab, c) && Conserved(c)
  {
    forall k: nat | k < |c.ws|
      ensures WorkerInv(fab, k, c.ws[k]) && HeldBy(c.ws[k]) == multiset{} && Slack(c.ws[k]) == 0
    {
      var capacity: nat, now: nat :| capacity <= FREE && now > 0
        && c.ws[k] == Worker(Fresh(capacity, now), now, [], [], [], 0, 0, 0, 0, 0);
      NewWorkerInv(fab, k, capacity, now);
    }
    hide WorkerInv;
    InitialHoldsNothing(c.ws);
  }

  lemma NewWorkerInv(fab: Fabric, k: nat, capacity: nat, now: nat)
    requires fab.Valid() && capacity <= FREE && now > 0
    ensures var w := Worker(Fresh(capacity, now), now, [], [], [], 0, 0, 0, 0, 0);
            WorkerInv(fab, k, w) && HeldBy(w) == multiset{} && Slack(w) == 0
  {
    FreshIsSound(capacity, now);
    hide Fresh;
  }

  /** On every run, however the workers' steps interleave: each worker holds only flows whose both
      directions it owns, with an exact index and counters that match; whatever is redirected is in its
      owner's ring; and every buffer received is in exactly one place. */
  lemma {:induction false} EveryRunKeepsOwnership(fab: Fabric, to: Timeouts, states: seq<Cluster>,
                                                  actions: seq<Action>, k: nat)
    requires IsRun(fab, to, states, actions) && k < |states|
    ensures Inv(fab, states[k]) && Conserved(states[k])
  {
    hide Next;
    hide WorkerInv;
    hide Conserved;
    if k == 0 {
      InitialInv(fab, states[0]);
    } else {
      EveryRunKeepsOwnership(fab, to, states, actions, k - 1);
      assert Leads(fab, to, states[k - 1], actions[k - 1], states[k - 1 + 1]);
      StepInv(fab, to, states[k - 1], actions[k - 1]);
      StepConserves(fab, to, states[k - 1], actions[k - 1]);
    }
  }

  /** On every run, every packet a worker takes out of its redirect ring is handled as one that arrived at its owner. */
  lemma EveryRedirectMeetsOwner(fab: Fabric, to: Timeouts, states: seq<Cluster>, actions: seq<Action>, k: nat)
    requires IsRun(fab, to, states, actions) && k < |actions| && actions[k].FromRing?
    ensures Inv(fab, states[k]) && Enabled(fab, states[k], actions[k])
    ensures var c, a := states[k], actions[k];
            var w := c.ws[a.w];
            && !HandlePacket(fab, a.snap, to, a.w, w.t, w.now, w.ring[0], true, a.env).verdict.Redirect?
            && states[k + 1] == HandleAt(fab, to, c, a.w, w.(ring := w.ring[1..], redirectIn := w.redirectIn + 1), a.snap,
                                         w.ring[0], false, a.env)
  {
    hide WorkerInv;
    hide Conserved;
    hide HandlePacket;
    hide HandleAt;
    hide AnswersOk;
    hide Kept;
    hide Next;
    EveryRunKeepsOwnership(fab, to, states, actions, k);
    assert Leads(fab, to, states[k], actions[k], states[k + 1]);
    RingStepMeetsOwner(fab, to, states[k], actions[k]);
  }

  lemma RingStepMeetsOwner(fab: Fabric, to: Timeouts, c: Cluster, a: Action)
    requires Inv(fab, c) && Enabled(fab, c, a) && a.FromRing?
    ensures var w := c.ws[a.w];
            && !HandlePacket(fab, a.snap, to, a.w, w.t, w.now, w.ring[0], true, a.env).verdict.Redirect?
            && Next(fab, to, c, a) == HandleAt(fab, to, c, a.w, w.(ring := w.ring[1..], redirectIn := w.redirectIn + 1),
                                               a.snap, w.ring[0], false, a.env)
  {
    hide HandlePacket;
    hide Settle;
    hide AnswersOk;
    hide Kept;
    hide Owns;
    hide PacketOwner;
    var w := c.ws[a.w];
    assert WorkerInv(fab, a.w, w) && PacketOwner(fab, w.ring[0]) == Some(a.w);
    hide WorkerInv;
    RedirectedMeetsOwner(fab, a.snap, to, a.w, w.t, w.now, w.ring[0], a.env);
  }

  // ---------------------------------------------------------------------------------------------
  // What ownership is for
  // ---------------------------------------------------------------------------------------------

  /** Live flows that share a key are the same flow of the same worker: no two workers lend out the same
      reply tuple, and the translation from client keys to reply keys is injective. */
  lemma KeysAreUnique(fab: Fabric, c: Cluster, w1: nat, i1: nat, w2: nat, i2: nat)
    requires Inv(fab, c) && w1 < |c.ws| && w2 < |c.ws| && i1 in Flows(c.ws[w1].t) && i2 in Flows(c.ws[w2].t)
    requires var f1, f2 := Flows(c.ws[w1].t)[i1], Flows(c.ws[w2].t)[i2];
             f1.client == f2.client || (f1.server.Some? && f1.server == f2.server)
    ensures w1 == w2 && i1 == i2
  {
    var f1, f2 := Flows(c.ws[w1].t)[i1], Flows(c.ws[w2].t)[i2];
    assert WorkerInv(fab, w1, c.ws[w1]) && WorkerInv(fab, w2, c.ws[w2]);
    assert FlowOk(fab, w1, f1) && FlowOk(fab, w2, f2);
    assert w1 == w2;
    assert Indexed(c.ws[w1].t.index, f1, i1) && Indexed(c.ws[w1].t.index, f2, i2);
  }

  /** A worker that holds the flow of a reply key turns the reply into the reverse of the client's packets;
      every other worker passes it on. */
  lemma ReplyAtWorker(fab: Fabric, snap: Snapshot, to: Timeouts, w: nat, t: Table, now: nat, i: nat, reply: FiveTuple,
                      flags: TcpFlags, redirected: bool, env: Env)
    requires fab.Valid() && Kept(t) && Owns(fab, w, Flows(t)) && i in Flows(t) && Flows(t)[i].server == Some(reply)
    requires Flows(t)[i].app.rsId in snap.rs && snap.rs[Flows(t)[i].app.rsId].Usable()
    requires env.neighbour && env.ttlOk
    ensures HandleReturn(fab, snap, w, t, now, to, reply, flags, redirected, env).verdict
              == Send(Flows(t)[i].client.Reverse())
  {
    assert Indexed(t.index, Flows(t)[i], i) && FlowOk(fab, w, Flows(t)[i]);
    hide Sound;
    hide IndexExact;
    hide Owns;
    hide Advanced;
    hide Remove;
    hide WithApp;
    assert t.index[reply] == i && FlowOf(t.ss[i]) == Flows(t)[i];
  }

  /** The reply to a translated request: wherever it arrives it is sent to the worker that holds the flow,
      and there it becomes the reverse of what the client sent. */
  lemma ReplyReachesClient(fab: Fabric, snap: Snapshot, to: Timeouts, c: Cluster, w: nat, i: nat, out: FiveTuple,
                           v: nat, flags: TcpFlags, redirected: bool, env: Env)
    requires Inv(fab, c) && fab.Admits(snap) && fab.net.mode == Nat && w < |c.ws| && v < |c.ws|
    requires i in Flows(c.ws[w].t) && CarriedBy(snap, Flows(c.ws[w].t)[i], Flows(c.ws[w].t)[i].client, out)
    ensures WorkerInv(fab, w, c.ws[w]) && WorkerInv(fab, v, c.ws[v])
    ensures v != w ==>
      HandleTransport(fab, snap, v, c.ws[v].t, c.ws[v].now, to, out.Reverse(), flags, false, env).verdict == Redirect(w)
    ensures env.neighbour && env.ttlOk ==>
      HandleTransport(fab, snap, w, c.ws[w].t, c.ws[w].now, to, out.Reverse(), flags, redirected, env).verdict
        == Send(Flows(c.ws[w].t)[i].client.Reverse())
  {
    assert WorkerInv(fab, w, c.ws[w]) && WorkerInv(fab, v, c.ws[v]);
    var fl := Flows(c.ws[w].t)[i];
    assert FlowOk(fab, w, fl) && fl.server == Some(out.Reverse());
    assert Classify(fab.net, out.Reverse()) == Return;
    if env.neighbour && env.ttlOk {
      ReplyAtWorker(fab, snap, to, w, c.ws[w].t, c.ws[w].now, i, out.Reverse(), flags, redirected, env);
    }
    hide Sound;
    hide IndexExact;
    hide Owns;
    hide Flows;
    hide HandleInbound;
    assert v != w ==> HandleReturn(fab, snap, v, c.ws[v].t, c.ws[v].now, to, out.Reverse(), flags, false, env).verdict
                        == Redirect(w);
    hide HandleReturn;
  }

  /** At the worker that holds the flow a packet of its client goes to the flow's server, translated in NAT mode. */
  lemma RequestAtWorker(fab: Fabric, snap: Snapshot, to: Timeouts, w: nat, t: Table, now: nat, i: nat, flags: TcpFlags,
                        redirected: bool, env: Env)
    requires fab.Valid() && fab.Admits(snap) && Kept(t) && Owns(fab, w, Flows(t)) && i in Flows(t)
    requires var app := Flows(t)[i].app;
             && app.rsId in snap.rs && snap.rs[app.rsId].Usable()
             && !(IsSyn(Flows(t)[i].client, flags) && Reusable(app.state))
    requires env.neighbour && env.ttlOk
    ensures var fl := Flows(t)[i];
            && (fl.server.Some? <==> fab.net.mode == Nat)
            && HandleInbound(fab, snap, w, t, now, to, fl.client, flags, redirected, env).verdict
                 == Send(if fl.server.Some? then fl.server.value.Reverse() else fl.client)
  {
    hide Sound;
    hide IndexExact;
    hide Owns;
    hide Advanced;
    hide NewSession;
    hide Remove;
    HolderFinds(fab, w, t, i);
    AdvancedKeepsServer(t, i, now, to, flags, true);
    hide Flows;
  }

  lemma HolderFinds(fab: Fabric, w: nat, t: Table, i: nat)
    requires fab.Valid() && Kept(t) && Owns(fab, w, Flows(t)) && i in Flows(t)
    ensures var fl := Flows(t)[i];
            && FlowOk(fab, w, fl) && Live(t, i) && fl == FlowOf(t.ss[i])
            && fl.client in t.index && t.index[fl.client] == i
  {
    hide Sound;
    hide FlowOk;
    assert FlowOk(fab, w, Flows(t)[i]) && Indexed(t.index, Flows(t)[i], i);
  }

  lemma AdvancedKeepsServer(t: Table, i: nat, now: nat, to: Timeouts, f: TcpFlags, fromClient: bool)
    requires Sound(t) && Live(t, i)
    ensures var u := Advanced(t, i, now, to, f, fromClient);
            Live(u, i) && FlowOf(u.ss[i]).server == FlowOf(t.ss[i]).server
  {
    hide Sound;
    AdvancedFlows(t, i, now, to, f, fromClient);
    var u := Advanced(t, i, now, to, f, fromClient);
    hide Advanced;
    assert i in Flows(u) && Flows(u)[i] == FlowOf(u.ss[i]);
  }

  /** Every further packet of a client, wherever it arrives, is sent to the worker that holds its flow, and from there
      to the same real server. */
  lemma RequestReachesServer(fab: Fabric, snap: Snapshot, to: Timeouts, c: Cluster, w: nat, i: nat, v: nat,
                             flags: TcpFlags, redirected: bool, env: Env)
    requires Inv(fab, c) && fab.Admits(snap) && w < |c.ws| && v < |c.ws| && i in Flows(c.ws[w].t)
    ensures WorkerInv(fab, w, c.ws[w]) && WorkerInv(fab, v, c.ws[v])
    ensures v != w ==>
      HandleTransport(fab, snap, v, c.ws[v].t, c.ws[v].now, to, Flows(c.ws[w].t)[i].client, flags, false, env).verdict
        == Redirect(w)
    ensures var fl := Flows(c.ws[w].t)[i];
            && env.neighbour && env.ttlOk && fl.app.rsId in snap.rs && snap.rs[fl.app.rsId].Usable()
            && !(IsSyn(fl.client, flags) && Reusable(fl.app.state)) ==>
              HandleTransport(fab, snap, w, c.ws[w].t, c.ws[w].now, to, fl.client, flags, redirected, env).verdict
                == Send(if fl.server.Some? then fl.server.value.Reverse() else fl.client)
  {
    assert WorkerInv(fab, w, c.ws[w]) && WorkerInv(fab, v, c.ws[v]);
    var fl := Flows(c.ws[w].t)[i];
    assert FlowOk(fab, w, fl);
    if env.neighbour && env.ttlOk && fl.app.rsId in snap.rs && snap.rs[fl.app.rsId].Usable()
       && !(IsSyn(fl.client, flags) && Reusable(fl.app.state)) {
      RequestAtWorker(fab, snap, to, w, c.ws[w].t, c.ws[w].now, i, flags, redirected, env);
    }
    hide Sound;
    hide IndexExact;
    hide Owns;
    hide Flows;
    hide HandleReturn;
    assert v != w ==> HandleInbound(fab, snap, v, c.ws[v].t, c.ws[v].now, to, fl.client, flags, false, env).verdict
                        == Redirect(w);
    hide HandleInbound;
  }

  /** At the worker that holds the flow an ICMP error about either translated packet goes to that packet's sender,
      quoting the packet as it was sent; every other worker passes the error on. */
  lemma ErrorAtWorker(fab: Fabric, snap: Snapshot, w: nat, t: Table, i: nat, from: u32, redirected: bool, env: Env)
    requires fab.Valid() && fab.Admits(snap) && fab.net.mode == Nat && Kept(t) && Owns(fab, w, Flows(t)) && i in Flows(t)
    requires Flows(t)[i].app.rsId in snap.rs && env.neighbour && env.ttlOk
    ensures var fl := Flows(t)[i];
            && fl.server.Some?
            && var client, server := fl.client, fl.server.value;
               && HandleIcmpError(fab, snap, w, t, from, server.dstIp, server.Reverse(), redirected, env)
                    == SendError(client.dstIp, client.srcIp, client)
               && HandleIcmpError(fab, snap, w, t, from, client.dstIp, client.Reverse(), redirected, env)
                    == SendError(server.dstIp, server.srcIp, server)
  {
    var fl := Flows(t)[i];
    assert FlowOk(fab, w, fl) && Indexed(t.index, fl, i);
    assert KeyOf(fl.client) in fab.net.services;
    hide Sound;
    hide IndexExact;
    hide Owns;
    assert t.index[fl.server.value] == i && t.index[fl.client] == i && FlowOf(t.ss[i]) == fl;
    hide Flows;
    hide Steering.FwdOwner;
    hide Steering.RetOwner;
  }

  lemma ErrorElsewhere(fab: Fabric, snap: Snapshot, w: nat, fl: Flow, v: nat, t: Table, from: u32, env: Env)
    requires fab.Valid() && fab.Admits(snap) && fab.net.mode == Nat && FlowOk(fab, w, fl) && Kept(t) && v != w
    ensures var client, server := fl.client, fl.server.value;
            && HandleIcmpError(fab, snap, v, t, from, server.dstIp, server.Reverse(), false, env) == Redirect(w)
            && HandleIcmpError(fab, snap, v, t, from, client.dstIp, client.Reverse(), false, env) == Redirect(w)
  {
    assert KeyOf(fl.client) in fab.net.services;
    hide Sound;
    hide IndexExact;
    hide Flows;
    hide Steering.FwdOwner;
    hide Steering.RetOwner;
  }

  /** Errors find their way like replies do: an ICMP error about a translated request reaches the client from the
      service's address, one about a translated reply reaches the real server from the local address, each quoting
      the packet its receiver sent itself, wherever the error arrives first. */
  lemma ErrorsReachSenders(fab: Fabric, snap: Snapshot, c: Cluster, w: nat, i: nat, v: nat, from: u32,
                           redirected: bool, env: Env)
    requires Inv(fab, c) && fab.Admits(snap) && fab.net.mode == Nat && w < |c.ws| && v < |c.ws| && i in Flows(c.ws[w].t)
    requires Flows(c.ws[w].t)[i].app.rsId in snap.rs && env.neighbour && env.ttlOk
    ensures WorkerInv(fab, w, c.ws[w]) && WorkerInv(fab, v, c.ws[v]) && Flows(c.ws[w].t)[i].server.Some?
    ensures var client, server := Flows(c.ws[w].t)[i].client, Flows(c.ws[w].t)[i].server.value;
            && HandleIcmpError(fab, snap, v, c.ws[v].t, from, server.dstIp, server.Reverse(), redirected && v == w, env)
                 == (if v == w then SendError(client.dstIp, client.srcIp, client) else Redirect(w))
            && HandleIcmpError(fab, snap, v, c.ws[v].t, from, client.dstIp, client.Reverse(), redirected && v == w, env)
                 == (if v == w then SendError(server.dstIp, server.srcIp, server) else Redirect(w))
  {
    assert WorkerInv(fab, w, c.ws[w]) && WorkerInv(fab, v, c.ws[v]);
    assert FlowOk(fab, w, Flows(c.ws[w].t)[i]);
    hide Kept;
    hide Owns;
    hide FlowOk;
    hide HandleIcmpError;
    if v == w {
      ErrorAtWorker(fab, snap, w, c.ws[w].t, i, from, redirected, env);
    } else {
      ErrorElsewhere(fab, snap, w, Flows(c.ws[w].t)[i], v, c.ws[v].t, from, env);
      ErrorAtWorker(fab, snap, w, c.ws[w].t, i, from, redirected, env);
    }
  }
}
