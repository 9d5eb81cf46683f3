/** Where every buffer goes on a run of the cluster: which step puts it into which queue, and why it is freed. */
module Fates {
  import opened Wheel
  import opened Handlers
  import opened Ownership
  import opened Cluster

  /** The step handles a packet. */
  predicate Handles(a: Action) { a.FromRx? || a.FromRing? }

  /** A step that can be taken. */
  ghost predicate Ready(fab: Fabric, c: Cluster, a: Action) {
    Valid(fab, c) && Enabled(fab, c, a)
  }

  ghost function PacketOf(fab: Fabric, c: Cluster, a: Action): Packet
    requires Ready(fab, c, a) && Handles(a)
  {
    if a.FromRx? then c.ws[a.w].rx[0] else c.ws[a.w].ring[0]
  }

  /** What the handler says about the packet of the step. */
  ghost function VerdictOf(fab: Fabric, to: Timeouts, c: Cluster, a: Action): Verdict
    requires Ready(fab, c, a) && Handles(a)
  {
    HandlePacket(fab, a.snap, to, a.w, c.ws[a.w].t, c.ws[a.w].now, PacketOf(fab, c, a), a.FromRing?, a.env).verdict
  }

  // ---------------------------------------------------------------------------------------------
  // What one step puts where
  // ---------------------------------------------------------------------------------------------

  /** Into the receive queue of `w`: an arrival there is room for. */
  function IntoRx(a: Action, w: nat): seq<Packet> {
    if a.Arrive? && a.w == w && a.room then [a.pkt] else []
  }

  function OutOfRx(c: Cluster, a: Action, w: nat): seq<Packet> {
    if a.FromRx? && a.w == w < |c.ws| then c.ws[w].rx[..if |c.ws[w].rx| > 0 then 1 else 0] else []
  }

  /** Into the redirect ring of `w`: a packet redirected to `w` while the ring has room. */
  ghost function IntoRing(fab: Fabric, to: Timeouts, c: Cluster, a: Action, w: nat): seq<Packet> {
    if Ready(fab, c, a) && Handles(a) && VerdictOf(fab, to, c, a) == Redirect(w) && w < |c.ws| && |c.ws[w].ring| < 4095
    then [PacketOf(fab, c, a)] else []
  }

  function OutOfRing(c: Cluster, a: Action, w: nat): seq<Packet> {
    if a.FromRing? && a.w == w < |c.ws| then c.ws[w].ring[..if |c.ws[w].ring| > 0 then 1 else 0] else []
  }

  /** Into the transmit buffer of `w`: every packet `w` handles that is to be sent. */
  ghost function IntoTx(fab: Fabric, to: Timeouts, c: Cluster, a: Action, w: nat): seq<nat> {
    if Ready(fab, c, a) && Handles(a) && a.w == w
       && (VerdictOf(fab, to, c, a).Send? || VerdictOf(fab, to, c, a).SendError?)
    then [PacketOf(fab, c, a).id] else []
  }

  function OutOfTx(c: Cluster, a: Action, w: nat): seq<nat> {
    if a.Flush? && a.w == w < |c.ws| then c.ws[w].tx else []
  }

  /** Onto the link: what the driver accepts of a flushed transmit buffer. */
  function Sent(c: Cluster, a: Action): seq<nat> {
    if a.Flush? && a.w < |c.ws| && a.accepted <= |c.ws[a.w].tx| then c.ws[a.w].tx[..a.accepted] else []
  }

  /** Freed, and for one of five reasons only: no room in the receive queue, refused by the driver, dropped by the
      handler, consumed by the health checker, or redirected to a full ring. */
  ghost function Freed(fab: Fabric, to: Timeouts, c: Cluster, a: Action): seq<nat> {
    if !Ready(fab, c, a) then []
    else match a
      case Arrive(_, pkt, room) => if room then [] else [pkt.id]
      case Flush(k, accepted) => c.ws[k].tx[accepted..]
      case Tick(_, _) => []
      case _ =>
        match VerdictOf(fab, to, c, a)
        case Discard => [PacketOf(fab, c, a).id]
        case Consumed => [PacketOf(fab, c, a).id]
        case Redirect(v) => if v < |c.ws| && |c.ws[v].ring| < 4095 then [] else [PacketOf(fab, c, a).id]
        case Send(_) => []
        case SendError(_, _, _) => []
  }

  /** The queues of worker `w` give up their oldest and take in their newest exactly as said. */
  ghost predicate MovesAt(fab: Fabric, to: Timeouts, c: Cluster, a: Action, d: Cluster, w: nat)
    requires w < |c.ws| && w < |d.ws|
  {
    && c.ws[w].rx + IntoRx(a, w) == OutOfRx(c, a, w) + d.ws[w].rx
    && c.ws[w].ring + IntoRing(fab, to, c, a, w) == OutOfRing(c, a, w) + d.ws[w].ring
    && c.ws[w].tx + IntoTx(fab, to, c, a, w) == OutOfTx(c, a, w) + d.ws[w].tx
  }

  ghost predicate Moves(fab: Fabric, to: Timeouts, c: Cluster, a: Action, d: Cluster) {
    && |d.ws| == |c.ws| && (forall w: nat :: w < |c.ws| ==> MovesAt(fab, to, c, a, d, w))
    && d.sent == c.sent + multiset(Sent(c, a)) && d.freed == c.freed + multiset(Freed(fab, to, c, a))
  }

  /** What becomes of a handled buffer, verdict by verdict. */
  lemma SettledAt(c: Cluster, k: nat, id: nat, pkt: Packet, verdict: Verdict, w: nat)
    requires k < |c.ws| && verdict != Redirect(k) && w < |c.ws|
    ensures var d := Settle(c, k, id, pkt, verdict);
            && |d.ws| == |c.ws| && d.ws[w].rx == c.ws[w].rx
            && d.ws[w].ring == c.ws[w].ring + (if verdict == Redirect(w) && |c.ws[w].ring| < 4095 then [pkt] else [])
            && d.ws[w].tx == c.ws[w].tx + (if w == k && (verdict.Send? || verdict.SendError?) then [id] else [])
            && d.sent == c.sent
            && d.freed == c.freed +
                 (match verdict
                  case Discard => multiset{id}
                  case Consumed => multiset{id}
                  case Redirect(v) => if v < |c.ws| && |c.ws[v].ring| < 4095 then multiset{} else multiset{id}
                  case _ => multiset{})
  {
  }

  lemma StepMoves(fab: Fabric, to: Timeouts, c: Cluster, a: Action)
    requires Inv(fab, c) && Enabled(fab, c, a)
    ensures Moves(fab, to, c, a, Next(fab, to, c, a))
  {
    hide WorkerInv;
    hide Kept;
    hide AnswersOk;
    hide HandlePacket;
    hide Moves;
    if Handles(a) {
      NotToItself(fab, to, c, a);
      HandlingMoves(fab, to, c, a);
    } else {
      OtherMoves(fab, to, c, a);
    }
  }

  lemma NotToItself(fab: Fabric, to: Timeouts, c: Cluster, a: Action)
    requires Inv(fab, c) && Enabled(fab, c, a) && Handles(a)
    ensures VerdictOf(fab, to, c, a) != Redirect(a.w)
  {
    hide HandlePacket;
    hide AnswersOk;
    hide Kept;
    hide Owns;
    assert WorkerInv(fab, a.w, c.ws[a.w]);
    HandlePacketOwns(fab, a.snap, to, a.w, c.ws[a.w].t, c.ws[a.w].now, PacketOf(fab, c, a), a.FromRing?, a.env);
  }

  /** The worker once it has taken the packet of the step out of its queue. */
  ghost function Popped(fab: Fabric, c: Cluster, a: Action): Worker
    requires Ready(fab, c, a) && Handles(a)
  {
    var w := c.ws[a.w];
    if a.FromRx? then w.(rx := w.rx[1..]) else w.(ring := w.ring[1..], redirectIn := w.redirectIn + 1)
  }

  lemma HandlingSettles(fab: Fabric, to: Timeouts, c: Cluster, a: Action) returns (c1: Cluster)
    requires Ready(fab, c, a) && Handles(a)
    ensures |c1.ws| == |c.ws| && c1.sent == c.sent && c1.freed == c.freed
    ensures forall w: nat :: w < |c.ws| && w != a.w ==> c1.ws[w] == c.ws[w]
    ensures var v := Popped(fab, c, a);
            c1.ws[a.w].rx == v.rx && c1.ws[a.w].ring == v.ring && c1.ws[a.w].tx == v.tx
    ensures Next(fab, to, c, a) == Settle(c1, a.w, PacketOf(fab, c, a).id, PacketOf(fab, c, a), VerdictOf(fab, to, c, a))
  {
    hide Kept;
    hide AnswersOk;
    hide HandlePacket;
    hide Settle;
    var w := c.ws[a.w];
    var h := HandlePacket(fab, a.snap, to, a.w, w.t, w.now, PacketOf(fab, c, a), a.FromRing?, a.env);
    c1 := c.(ws := c.ws[a.w := AfterHandling(Popped(fab, c, a), h)]);
  }

  lemma HandlingMoves(fab: Fabric, to: Timeouts, c: Cluster, a: Action)
    requires Valid(fab, c) && Enabled(fab, c, a) && Handles(a) && VerdictOf(fab, to, c, a) != Redirect(a.w)
    ensures Moves(fab, to, c, a, Next(fab, to, c, a))
  {
    hide Kept;
    hide AnswersOk;
    hide VerdictOf;
    hide Next;
    hide Settle;
    hide MovesAt;
    var d := Next(fab, to, c, a);
    var c1 := HandlingSettles(fab, to, c, a);
    SettledAt(c1, a.w, PacketOf(fab, c, a).id, PacketOf(fab, c, a), VerdictOf(fab, to, c, a), a.w);
    forall w: nat | w < |c.ws| ensures MovesAt(fab, to, c, a, d, w) {
      SettledAt(c1, a.w, PacketOf(fab, c, a).id, PacketOf(fab, c, a), VerdictOf(fab, to, c, a), w);
      QueuesMove(fab, to, c, a, c1, d, w);
    }
  }

  lemma QueuesMove(fab: Fabric, to: Timeouts, c: Cluster, a: Action, c1: Cluster, d: Cluster, w: nat)
    requires Ready(fab, c, a) && Handles(a) && VerdictOf(fab, to, c, a) != Redirect(a.w) && w < |c.ws|
    requires |c1.ws| == |c.ws| == |d.ws| && (w != a.w ==> c1.ws[w] == c.ws[w])
    requires w == a.w ==>
      var v := Popped(fab, c, a); c1.ws[w].rx == v.rx && c1.ws[w].ring == v.ring && c1.ws[w].tx == v.tx
    requires var pkt, verdict := PacketOf(fab, c, a), VerdictOf(fab, to, c, a);
             && d.ws[w].rx == c1.ws[w].rx
             && d.ws[w].ring == c1.ws[w].ring + (if verdict == Redirect(w) && |c1.ws[w].ring| < 4095 then [pkt] else [])
             && d.ws[w].tx == c1.ws[w].tx + (if w == a.w && (verdict.Send? || verdict.SendError?) then [pkt.id] else [])
    ensures MovesAt(fab, to, c, a, d, w)
  {
    hide VerdictOf;
    hide Kept;
    hide AnswersOk;
  }

  lemma OtherMoves(fab: Fabric, to: Timeouts, c: Cluster, a: Action)
    requires Valid(fab, c) && Enabled(fab, c, a) && !Handles(a)
    ensures Moves(fab, to, c, a, Next(fab, to, c, a))
  {
    hide Kept;
    hide AnswersOk;
    hide VerdictOf;
    hide Expire;
    hide MovesAt;
    var d := Next(fab, to, c, a);
    forall w: nat | w < |c.ws| ensures MovesAt(fab, to, c, a, d, w) {
      OtherMovesAt(fab, to, c, a, d, w);
    }
    if a.Flush? { assert c.ws[a.w].tx == c.ws[a.w].tx[..a.accepted] + c.ws[a.w].tx[a.accepted..]; }
  }

  lemma OtherMovesAt(fab: Fabric, to: Timeouts, c: Cluster, a: Action, d: Cluster, w: nat)
    requires Valid(fab, c) && Enabled(fab, c, a) && !Handles(a) && d == Next(fab, to, c, a) && w < |c.ws|
    ensures w < |d.ws| && MovesAt(fab, to, c, a, d, w)
  {
    hide Kept;
    hide AnswersOk;
    hide VerdictOf;
    hide Expire;
  }

  // ---------------------------------------------------------------------------------------------
  // Whole runs
  // ---------------------------------------------------------------------------------------------

  /** All that went into and came out of a worker's queues, in order. */
  datatype Log = Log(rxIn: seq<Packet>, rxOut: seq<Packet>, ringIn: seq<Packet>, ringOut: seq<Packet>,
                     txIn: seq<nat>, txOut: seq<nat>)

  ghost function LogOf(fab: Fabric, to: Timeouts, states: seq<Cluster>, actions: seq<Action>, w: nat, k: nat): Log
    requires |states| == |actions| + 1 && k < |states|
  {
    if k == 0 then Log([], [], [], [], [], [])
    else
      var l, c, a := LogOf(fab, to, states, actions, w, k - 1), states[k - 1], actions[k - 1];
      Log(l.rxIn + IntoRx(a, w), l.rxOut + OutOfRx(c, a, w),
          l.ringIn + IntoRing(fab, to, c, a, w), l.ringOut + OutOfRing(c, a, w),
          l.txIn + IntoTx(fab, to, c, a, w), l.txOut + OutOfTx(c, a, w))
  }

  ghost function AllSent(states: seq<Cluster>, actions: seq<Action>, k: nat): seq<nat>
    requires |states| == |actions| + 1 && k < |states|
  {
    if k == 0 then [] else AllSent(states, actions, k - 1) + Sent(states[k - 1], actions[k - 1])
  }

  ghost function AllFreed(fab: Fabric, to: Timeouts, states: seq<Cluster>, actions: seq<Action>, k: nat): seq<nat>
    requires |states| == |actions| + 1 && k < |states|
  {
    if k == 0 then [] else AllFreed(fab, to, states, actions, k - 1) + Freed(fab, to, states[k - 1], actions[k - 1])
  }

  /** What went into each queue of a worker is what came out, in the same order, and what still waits there. */
  ghost predicate InOrder(l: Log, w: Worker) {
    l.rxIn == l.rxOut + w.rx && l.ringIn == l.ringOut + w.ring && l.txIn == l.txOut + w.tx
  }

  lemma QueueStep<T>(into: seq<T>, out: seq<T>, q: seq<T>, x: seq<T>, y: seq<T>, r: seq<T>)
    requires into == out + q && q + x == y + r
    ensures into + x == (out + y) + r
  {
    assert into + x == out + (q + x) && (out + y) + r == out + (y + r);
  }

  lemma LogStep(fab: Fabric, to: Timeouts, states: seq<Cluster>, actions: seq<Action>, w: nat, k: nat)
    requires |states| == |actions| + 1 && 0 < k < |states| && w < |states[k - 1].ws| && w < |states[k].ws|
    requires InOrder(LogOf(fab, to, states, actions, w, k - 1), states[k - 1].ws[w])
    requires MovesAt(fab, to, states[k - 1], actions[k - 1], states[k], w)
    ensures InOrder(LogOf(fab, to, states, actions, w, k), states[k].ws[w])
  {
    hide IntoRing;
    hide IntoTx;
    hide IntoRx;
    hide OutOfRx;
    hide OutOfRing;
    hide OutOfTx;
    var l, c, a, d := LogOf(fab, to, states, actions, w, k - 1), states[k - 1], actions[k - 1], states[k];
    QueueStep(l.rxIn, l.rxOut, c.ws[w].rx, IntoRx(a, w), OutOfRx(c, a, w), d.ws[w].rx);
    QueueStep(l.ringIn, l.ringOut, c.ws[w].ring, IntoRing(fab, to, c, a, w), OutOfRing(c, a, w), d.ws[w].ring);
    QueueStep(l.txIn, l.txOut, c.ws[w].tx, IntoTx(fab, to, c, a, w), OutOfTx(c, a, w), d.ws[w].tx);
  }

  /** On every run: every arrival there is room for is handled, every redirected packet is handled by the worker it was
      redirected to, and every packet to be sent is offered to the driver, each in the order it came; what is
      transmitted is what the driver accepted; and nothing is freed for any other reason than those `Freed` lists. */
  lemma {:induction false} EveryBufferHasItsFate(fab: Fabric, to: Timeouts, states: seq<Cluster>, actions: seq<Action>,
                                                 k: nat)
    requires IsRun(fab, to, states, actions) && k < |states|
    ensures |states[k].ws| == |states[0].ws|
    ensures forall w: nat :: w < |states[k].ws| ==> InOrder(LogOf(fab, to, states, actions, w, k), states[k].ws[w])
    ensures states[k].sent == multiset(AllSent(states, actions, k))
    ensures states[k].freed == multiset(AllFreed(fab, to, states, actions, k))
  {
    hide Next;
    hide WorkerInv;
    hide Enabled;
    hide MovesAt;
    hide Conserved;
    hide Sent;
    hide Freed;
    if k > 0 {
      EveryBufferHasItsFate(fab, to, states, actions, k - 1);
      EveryRunKeepsOwnership(fab, to, states, actions, k - 1);
      assert Leads(fab, to, states[k - 1], actions[k - 1], states[k - 1 + 1]);
      StepMoves(fab, to, states[k - 1], actions[k - 1]);
      forall w: nat | w < |states[k].ws| ensures InOrder(LogOf(fab, to, states, actions, w, k), states[k].ws[w]) {
        LogStep(fab, to, states, actions, w, k);
      }
    } else {
      forall w: nat | w < |states[0].ws| ensures InOrder(LogOf(fab, to, states, actions, w, 0), states[0].ws[w]) {
      }
    }
  }
}
