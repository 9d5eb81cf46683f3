/** Whole runs of a session table: what every run keeps, when the lazy wheel is the plain map of
    deadlines, and exactly how long a timeout may be before sessions get lost. */
module Runs {
  import opened Types
  import opened Links
  import opened Wheel
  import opened Expiry
  import opened TableOps

  /** A table together with the clock its owner reads. */
  datatype Clocked = Clocked(t: Table, now: nat)

  datatype Op =
    | Insert(client: FiveTuple, server: Option<FiveTuple>, timeout: nat, clientAdded: bool, serverAdded: bool)
    | Refresh(i: nat, timeout: nat)
    | Drop(i: nat)
    | Tick(next: nat)

  /** Owners refresh and drop live sessions only, and their clock does not run backwards. */
  predicate Legal(c: Clocked, op: Op) {
    match op
    case Insert(_, _, _, _, _) => true
    case Refresh(i, _) => Live(c.t, i)
    case Drop(i) => Live(c.t, i)
    case Tick(next) => c.now <= next
  }

  function Apply(c: Clocked, op: Op): Clocked
    requires Sound(c.t) && Legal(c, op)
  {
    match op
    case Insert(client, server, timeout, clientAdded, serverAdded) =>
      c.(t := Create(c.t, client, server, c.now, timeout, clientAdded, serverAdded).table)
    case Refresh(i, timeout) => c.(t := Touch(c.t, i, c.now, timeout))
    case Drop(i) => c.(t := Remove(c.t, i))
    case Tick(next) => Clocked(Expire(c.t, next, EXPIRE_BUDGET), next)
  }

  ghost predicate Leads(c: Clocked, op: Op, d: Clocked) {
    Legal(c, op) && (Sound(c.t) ==> d == Apply(c, op))
  }

  /** States of a run; `ops[k]` leads from state `k` to state `k + 1`. */
  ghost predicate IsRun(states: seq<Clocked>, ops: seq<Op>) {
    && |states| == |ops| + 1 && Sound(states[0].t)
    && forall k: nat :: k < |ops| ==> Leads(states[k], ops[k], states[k + 1])
  }

  lemma ApplySound(c: Clocked, op: Op)
    requires Sound(c.t) && Legal(c, op)
    ensures Sound(Apply(c, op).t)
  {
    match op
    case Insert(client, server, timeout, clientAdded, serverAdded) =>
      CreateFails(c.t, client, server, c.now, timeout, clientAdded, serverAdded);
      if |c.t.free| > 0 { CreateAdds(c.t, client, server, c.now, timeout); }
    case Refresh(i, timeout) => TouchSound(c.t, i, c.now, timeout);
    case Drop(i) => RemoveSound(c.t, i);
    case Tick(next) => ExpireSound(c.t, next, EXPIRE_BUDGET);
  }

  /** Links, free stack and pending list stay consistent on every run, whatever the clock and timeouts do. */
  lemma {:induction false} EveryRunIsSound(states: seq<Clocked>, ops: seq<Op>, k: nat)
    requires IsRun(states, ops) && k < |states|
    ensures Sound(states[k].t)
  {
    if k > 0 {
      EveryRunIsSound(states, ops, k - 1);
      assert Leads(states[k - 1], ops[k - 1], states[k - 1 + 1]);
      ApplySound(states[k - 1], ops[k - 1]);
    }
  }

  // ---------------------------------------------------------------------------------------------
  // Refinement of the deadline map
  // ---------------------------------------------------------------------------------------------

  /** The deadline the operation sets is within the reach of the wheel. */
  predicate WithinReach(c: Clocked, op: Op) {
    match op
    case Insert(_, _, timeout, _, _) => Deadline(c.now, timeout) < Horizon(c.t)
    case Refresh(_, timeout) => Deadline(c.now, timeout) < Horizon(c.t)
    case _ => true
  }

  /** Every session is reachable, on time and less than a turn away. */
  ghost predicate Tended(c: Clocked) {
    Timely(c.t, c.now) && NoLap(c.t)
  }

  lemma ApplyTended(c: Clocked, op: Op)
    requires Tended(c) && Legal(c, op) && WithinReach(c, op)
    ensures Tended(Apply(c, op))
  {
    match op
    case Insert(client, server, timeout, clientAdded, serverAdded) =>
      CreateFails(c.t, client, server, c.now, timeout, clientAdded, serverAdded);
      if |c.t.free| > 0 { CreateTimely(c.t, client, server, c.now, timeout); }
    case Refresh(i, timeout) => TouchTimely(c.t, i, c.now, timeout);
    case Drop(i) => RemoveTimely(c.t, i, c.now);
    case Tick(next) => NoLapExpire(c.t, next, EXPIRE_BUDGET);
  }

  /** What the operation means for a plain map of flows: no wheel, no laziness, no links. */
  ghost predicate SpecStep(m: map<nat, Flow>, capacity: nat, now: nat, op: Op, m': map<nat, Flow>, caughtUp: bool) {
    match op
    case Insert(client, server, timeout, clientAdded, serverAdded) =>
      if |m| < capacity && clientAdded && (server.Some? ==> serverAdded)
      then exists i: nat :: i !in m && m' == m[i := NewFlow(client, server, now, timeout)]
      else m' == m
    case Refresh(i, timeout) => i in m && m' == m[i := m[i].(expire := Deadline(now, timeout))]
    case Drop(i) => i in m && m' == m - {i}
    case Tick(next) =>
      && (forall i :: i in m' ==> i in m && m'[i] == m[i])
      && (forall i :: i in m && m[i].expire > next ==> i in m')
      && (caughtUp ==> forall i :: i in m' ==> m'[i].expire > next)
  }

  /** Any step from a timely table that loses nothing is a step of the deadline map. */
  lemma ApplyRefines(c: Clocked, op: Op)
    requires Timely(c.t, c.now) && Legal(c, op) && (op.Tick? ==> !Clobbers(c.t, op.next, EXPIRE_BUDGET))
    ensures var d := Apply(c, op);
            SpecStep(Flows(c.t), |c.t.ss|, c.now, op, Flows(d.t), Finished(d.t, d.now))
  {
    match op
    case Insert(client, server, timeout, clientAdded, serverAdded) =>
      ActiveIsFlowCount(c.t);
      CreateFails(c.t, client, server, c.now, timeout, clientAdded, serverAdded);
      if |c.t.free| > 0 { CreateAdds(c.t, client, server, c.now, timeout); }
    case Refresh(i, timeout) => TouchRefreshes(c.t, i, c.now, timeout);
    case Drop(i) => RemoveTakesOne(c.t, i);
    case Tick(next) => ExpireRefinesDeadlines(c.t, next, EXPIRE_BUDGET);
  }

  /** On every run whose deadlines stay within reach no session is lost, and every step is a step of the
      deadline map; a flow leaves at a tick only if its deadline has passed, and must once expiry catches up. */
  lemma {:induction false} RunRefinesDeadlineMap(states: seq<Clocked>, ops: seq<Op>, k: nat)
    requires IsRun(states, ops) && k < |states| && Tended(states[0])
    requires forall j: nat :: j < |ops| ==> WithinReach(states[j], ops[j])
    ensures Tended(states[k])
    ensures k < |ops| ==> SpecStep(Flows(states[k].t), |states[k].t.ss|, states[k].now, ops[k],
                                   Flows(states[k + 1].t), Finished(states[k + 1].t, states[k + 1].now))
  {
    if k > 0 {
      RunRefinesDeadlineMap(states, ops, k - 1);
      assert Leads(states[k - 1], ops[k - 1], states[k - 1 + 1]);
      ApplyTended(states[k - 1], ops[k - 1]);
    }
    if k < |ops| {
      assert Leads(states[k], ops[k], states[k + 1]);
      if ops[k].Tick? { NoLapExpire(states[k].t, ops[k].next, EXPIRE_BUDGET); }
      ApplyRefines(states[k], ops[k]);
    }
  }

  // ---------------------------------------------------------------------------------------------
  // The longest safe timeout
  // ---------------------------------------------------------------------------------------------

  /** Expiry has caught up with the clock. */
  ghost predicate Paced(c: Clocked) {
    c.t.pending == NIL && c.t.cur == c.now + 1
  }

  /** The operation uses timeouts up to `limit`, and a tick's expiry finishes its work. */
  predicate PacedOp(op: Op, limit: nat, d: Clocked) {
    match op
    case Insert(_, _, timeout, _, _) => timeout <= limit
    case Refresh(_, timeout) => timeout <= limit
    case Drop(_) => true
    case Tick(next) => Finished(d.t, next)
  }

  /** A run from a new table that keeps pace: hand and clock start at the same tick. */
  ghost predicate PacedRun(states: seq<Clocked>, ops: seq<Op>, capacity: nat, limit: nat) {
    && IsRun(states, ops) && capacity <= FREE && states[0].now > 0
    && states[0] == Clocked(Fresh(capacity, states[0].now), states[0].now)
    && forall k: nat :: k < |ops| ==> PacedOp(ops[k], limit, states[k + 1])
  }

  /** Before the first tick: nothing is due in the slot under the hand, and nothing is due more than a turn ahead. */
  ghost predicate Starting(c: Clocked) {
    && Timely(c.t, c.now) && c.t.pending == NIL && c.t.cur == c.now
    && forall i: nat :: Live(c.t, i) ==> c.now < c.t.ss[i].slotTick && c.t.ss[i].expire <= c.now + WHEEL_SLOTS
  }

  /** The first sweep takes down only sessions due exactly a turn after the start, so all of them are due or none is;
      and once they are, no session is left behind in their slot. */
  ghost predicate FirstSweep(t: Table, start: nat, now: nat) {
    && Timely(t, now) && t.cur == start + 1
    && (forall i: nat :: Live(t, i) ==> t.ss[i].expire <= start + WHEEL_SLOTS)
    && (forall i: nat :: Live(t, i) && t.ss[i].inPending ==> t.ss[i].expire == start + WHEEL_SLOTS)
    && (start + WHEEL_SLOTS <= now ==>
          forall i: nat :: Live(t, i) && !t.ss[i].inPending ==> t.ss[i].slotTick != start + WHEEL_SLOTS)
  }

  lemma FirstSweepStarts(c: Clocked, now: nat)
    requires Starting(c) && c.now <= now
    ensures FirstSweep(Advance(c.t), c.now, now)
  {
    hide WellLinked;
    hide Acyclic;
    hide FreeExact;
    hide PendingExact;
    hide Advance;
    var t, r := c.t, Advance(c.t);
    AdvanceTimely(t, now);
    forall i: nat | Live(r, i)
      ensures r.ss[i].expire <= c.now + WHEEL_SLOTS
      ensures r.ss[i].inPending <==> r.ss[i].slotTick == c.now + WHEEL_SLOTS
      ensures r.ss[i].inPending ==> r.ss[i].expire == c.now + WHEEL_SLOTS
    {
      Swept(t, i);
      WithinOneTurn(t.ss[i].slotTick, c.now);
    }
  }

  /** Taking a slot down moves exactly its sessions to the pending list and changes no deadline. */
  lemma Swept(t: Table, i: nat)
    requires Sound(t) && OnTime(t) && t.pending == NIL && Lost(t) == {} && Live(Advance(t), i)
    ensures var r := Advance(t);
            && Live(t, i) && r.ss[i].expire == t.ss[i].expire && r.ss[i].slotTick == t.ss[i].slotTick
            && t.ss[i].slotTick <= t.ss[i].expire
            && (r.ss[i].inPending <==> t.ss[i].slotTick % WHEEL_SLOTS == t.cur % WHEEL_SLOTS)
  {
    var r := Advance(t);
    AdvanceSound(t);
    AdvanceFrame(t);
    AdvanceLost(t);
    AdvanceAcyclic(t);
    hide Advance;
    assert SameRecord(t.ss[i], r.ss[i]);
    EmptyList(t, PENDING_LIST, i);
    if !r.ss[i].inPending { EmptyList(r, t.cur % WHEEL_SLOTS, i); }
  }

  lemma WithinOneTurn(tick: nat, start: nat)
    requires start < tick <= start + WHEEL_SLOTS
    ensures tick % WHEEL_SLOTS == start % WHEEL_SLOTS <==> tick == start + WHEEL_SLOTS
  {
  }

  lemma FirstSweepStep(t: Table, start: nat, now: nat)
    requires FirstSweep(t, start, now) && t.pending != NIL
    ensures !WillClobber(t, now) && FirstSweep(Process(t, now), start, now)
  {
    assert HeadOk(t, PENDING_LIST);
    var k := t.ss[t.pending].slotTick % WHEEL_SLOTS;
    assert HeadOk(t, k);
    if HeadIsDue(t, now) && t.slots[k] != NIL {
      WithinOneTurn(t.ss[t.slots[k]].slotTick, start);
      assert false;
    }
    ProcessTimely(t, now);
    ProcessFrame(t, now);
    ProcessLinks(t, now);
    var r := Process(t, now);
    hide Process;
    hide WellLinked;
    hide Acyclic;
    forall i: nat | Live(r, i) ensures Live(t, i) && r.ss[i].expire == t.ss[i].expire {
      assert SameRecord(t.ss[i], r.ss[i]);
    }
  }

  /** A call during the first sweep is safe, and once the sweep is over nothing is due a turn ahead. */
  lemma {:induction false} FirstSweepExpire(t: Table, start: nat, now: nat, budget: nat)
    requires FirstSweep(t, start, now)
    ensures !Clobbers(t, now, budget)
    ensures var r := Expire(t, now, budget); Timely(r, now) && (r.pending == NIL ==> NoLap(r))
    decreases budget
  {
    hide Process;
    hide Advance;
    hide WellLinked;
    if t.pending == NIL {
      NoLapExpire(t, now, budget);
    } else if budget > 0 {
      FirstSweepStep(t, start, now);
      FirstSweepExpire(Process(t, now), start, now, budget - 1);
    }
  }

  /** Where a paced run can be: not yet at its first tick, or within the reach of the wheel and caught up. */
  ghost predicate Safe(c: Clocked) {
    Starting(c) || (Tended(c) && Paced(c))
  }

  lemma StartingStep(c: Clocked, op: Op, limit: nat)
    requires limit < WHEEL_SLOTS && Starting(c) && Legal(c, op) && PacedOp(op, limit, Apply(c, op)) && !op.Tick?
    ensures Starting(Apply(c, op))
  {
    hide Starting;
    match op
    case Insert(client, server, timeout, clientAdded, serverAdded) =>
      StartingInsert(c, client, server, timeout, clientAdded, serverAdded);
    case Refresh(i, timeout) => StartingRefresh(c, i, timeout);
    case Drop(i) => StartingDrop(c, i);
  }

  lemma StartingDrop(c: Clocked, i: nat)
    requires Starting(c) && Live(c.t, i)
    ensures Starting(c.(t := Remove(c.t, i)))
  {
    hide WellLinked;
    hide Acyclic;
    hide FreeExact;
    hide PendingExact;
    hide Remove;
    hide OnTime;
    hide Lost;
    var r := Remove(c.t, i);
    RemoveTimely(c.t, i, c.now);
    RemoveFrame(c.t, i);
    RemoveTakesOne(c.t, i);
    forall j: nat | Live(r, j) ensures Live(c.t, j) && r.ss[j].expire == c.t.ss[j].expire {
      assert j in Flows(r) && j in Flows(c.t) && SameRecord(c.t.ss[j], r.ss[j]);
    }
  }

  lemma StartingInsert(c: Clocked, client: FiveTuple, server: Option<FiveTuple>, timeout: nat, clientAdded: bool,
                       serverAdded: bool)
    requires Starting(c) && timeout < WHEEL_SLOTS
    ensures Starting(c.(t := Create(c.t, client, server, c.now, timeout, clientAdded, serverAdded).table))
  {
    hide WellLinked;
    hide Acyclic;
    hide FreeExact;
    hide PendingExact;
    hide Create;
    var t := c.t;
    CreateFails(t, client, server, c.now, timeout, clientAdded, serverAdded);
    if |t.free| > 0 {
      CreateTimely(t, client, server, c.now, timeout);
      CreateFrame(t, client, server, c.now, timeout);
      CreatePlace(t, client, server, c.now, timeout);
      CreateAdds(t, client, server, c.now, timeout);
      var idx, r := t.free[|t.free| - 1], Create(t, client, server, c.now, timeout, true, true).table;
      StartingAdded(t, r, idx, c.now, timeout);
    }
  }

  lemma StartingAdded(t: Table, r: Table, idx: nat, now: nat, timeout: nat)
    requires Starting(Clocked(t, now)) && timeout < WHEEL_SLOTS && |r.ss| == |t.ss| && idx < |t.ss|
    requires Timely(r, now) && r.pending == NIL && r.cur == now
    requires Flows(r).Keys == Flows(t).Keys + {idx} && FlowOf(r.ss[idx]).expire == Deadline(now, timeout)
    requires r.ss[idx].slotTick == Deadline(now, timeout)
    requires forall j: nat :: j < |t.ss| && j != idx ==>
      SameRecord(t.ss[j], r.ss[j]) && r.ss[j].slotTick == t.ss[j].slotTick
    ensures Starting(Clocked(r, now))
  {
    hide Timely;
    forall j: nat | Live(r, j) && j != idx ensures Live(t, j) && r.ss[j].expire == t.ss[j].expire {
      assert j in Flows(r) && j in Flows(t) && SameRecord(t.ss[j], r.ss[j]);
    }
  }

  lemma StartingRefresh(c: Clocked, i: nat, timeout: nat)
    requires Starting(c) && Live(c.t, i) && timeout < WHEEL_SLOTS
    ensures Starting(c.(t := Touch(c.t, i, c.now, timeout)))
  {
    var t, u, r := c.t, TouchMoved(c.t, i, c.now, timeout), Touch(c.t, i, c.now, timeout);
    TouchTimely(t, i, c.now, timeout);
    TouchRefreshes(t, i, c.now, timeout);
    TouchMovedFrame(t, i, c.now, timeout);
    TouchFrame(t, i, c.now, timeout);
    hide Touch;
    hide TouchMoved;
    hide Sound;
    forall j: nat | Live(r, j) && j != i
      ensures r.ss[j].expire == t.ss[j].expire && r.ss[j].slotTick == t.ss[j].slotTick
    {
      assert SameRecord(t.ss[j], u.ss[j]);
    }
  }

  /** A tick of a paced run: the first one ends the start, later ones stay within reach. */
  lemma PacedTick(c: Clocked, next: nat)
    requires Safe(c) && c.now <= next
    ensures !Clobbers(c.t, next, EXPIRE_BUDGET)
    ensures var t := Expire(c.t, next, EXPIRE_BUDGET); Finished(t, next) ==> Safe(Clocked(t, next))
  {
    hide Advance;
    hide Process;
    ExpireBounded(c.t, next, EXPIRE_BUDGET);
    if Starting(c) {
      FirstSweepStarts(c, next);
      FirstSweepExpire(Advance(c.t), c.now, next, EXPIRE_BUDGET);
      assert Expire(c.t, next, EXPIRE_BUDGET) == Expire(Advance(c.t), next, EXPIRE_BUDGET);
    } else {
      NoLapExpire(c.t, next, EXPIRE_BUDGET);
    }
  }

  lemma ApplyPaced(c: Clocked, op: Op, limit: nat)
    requires limit < WHEEL_SLOTS && Safe(c) && Legal(c, op) && PacedOp(op, limit, Apply(c, op))
    ensures Safe(Apply(c, op))
  {
    hide Starting;
    if op.Tick? {
      PacedTick(c, op.next);
    } else if Starting(c) {
      StartingStep(c, op, limit);
    } else {
      CaughtUpStep(c, op, limit);
    }
  }

  lemma CaughtUpStep(c: Clocked, op: Op, limit: nat)
    requires limit < WHEEL_SLOTS && Tended(c) && Paced(c) && Legal(c, op) && PacedOp(op, limit, Apply(c, op)) && !op.Tick?
    ensures Tended(Apply(c, op)) && Paced(Apply(c, op))
  {
    ApplyTended(c, op);
    match op
    case Insert(client, server, timeout, clientAdded, serverAdded) =>
      CreateFails(c.t, client, server, c.now, timeout, clientAdded, serverAdded);
      if |c.t.free| > 0 {
        CreateFrame(c.t, client, server, c.now, timeout);
        CreatePlace(c.t, client, server, c.now, timeout);
      }
    case Refresh(i, timeout) =>
      TouchTimely(c.t, i, c.now, timeout);
      TouchRefreshes(c.t, i, c.now, timeout);
    case Drop(i) =>
      RemoveTimely(c.t, i, c.now);
      RemoveFrame(c.t, i);
  }

  /** With timeouts shorter than the wheel no paced run ever loses a session, from the very first operation, and every
      step of it is a step of the deadline map. */
  lemma {:induction false} ShortTimeoutsAreSafe(states: seq<Clocked>, ops: seq<Op>, capacity: nat, limit: nat, k: nat)
    requires PacedRun(states, ops, capacity, limit) && limit < WHEEL_SLOTS && k < |states|
    ensures Safe(states[k]) && Timely(states[k].t, states[k].now)
    ensures k < |ops| ==> SpecStep(Flows(states[k].t), |states[k].t.ss|, states[k].now, ops[k],
                                   Flows(states[k + 1].t), Finished(states[k + 1].t, states[k + 1].now))
  {
    hide SpecStep;
    hide Sound;
    if k == 0 {
      FreshIsSound(capacity, states[0].now);
      FreshIsStarting(capacity, states[0].now);
    } else {
      ShortTimeoutsAreSafe(states, ops, capacity, limit, k - 1);
      assert Leads(states[k - 1], ops[k - 1], states[k - 1 + 1]);
      assert PacedOp(ops[k - 1], limit, states[k - 1 + 1]);
      ApplyPaced(states[k - 1], ops[k - 1], limit);
    }
    if k < |ops| {
      assert Leads(states[k], ops[k], states[k + 1]);
      if ops[k].Tick? { PacedTick(states[k], ops[k].next); }
      ApplyRefines(states[k], ops[k]);
    }
  }

  lemma FreshIsStarting(capacity: nat, now: nat)
    requires capacity <= FREE && now > 0
    ensures Starting(Clocked(Fresh(capacity, now), now))
  {
    FreshIsSound(capacity, now);
  }

  /** Two sessions share the slot under the hand; the older one, `a`, is due a whole number of turns later
      and the newer one, `b`, is due now. */
  ghost predicate LappedPair(t: Table, now: nat, a: nat, b: nat) {
    && WellLinked(t) && t.pending == NIL && t.cur <= now
    && a != b && t.slots[t.cur % WHEEL_SLOTS] == b
    && b < |t.ss| && t.ss[b].next == a && a < |t.ss| && t.ss[a].next == NIL
    && now < t.ss[a].expire && t.ss[a].expire % WHEEL_SLOTS == t.cur % WHEEL_SLOTS
    && t.ss[b].expire <= now
  }

  lemma SweepPair(t: Table, now: nat, a: nat, b: nat)
    requires LappedPair(t, now, a, b)
    ensures var u := Advance(t);
            && |u.ss| == |t.ss|
            && u.pending == a && u.ss[a].next == b && u.ss[b].next == NIL && u.ss[b].prev == a
            && u.slots == t.slots[t.cur % WHEEL_SLOTS := NIL]
            && u.ss[a].expire == t.ss[a].expire && u.ss[b].expire == t.ss[b].expire
            && u.ss[a].slotTick % WHEEL_SLOTS == u.ss[b].slotTick % WHEEL_SLOTS == t.cur % WHEEL_SLOTS
  {
    var k := t.cur % WHEEL_SLOTS;
    assert HeadOk(t, k) && NextOk(t, b);
    AdvanceAsDrain(t);
    AdvanceFrame(t);
    var t1 := SweepStart(t);
    PushSafe(t1, b);
    PushShape(t1, b);
    var t2 := Push(t1, b);
    PushSafe(t2, a);
    PushShape(t2, a);
    assert DrainFrom(t1, b) == DrainFrom(t2, a) == DrainFrom(Push(t2, a), NIL) == Push(t2, a);
  }

  /** A lapped pair under the hand always loses the older session. */
  lemma LappedPairIsLost(t: Table, now: nat, a: nat, b: nat, budget: nat)
    requires LappedPair(t, now, a, b) && budget >= 2
    ensures Clobbers(t, now, budget)
  {
    SweepPair(t, now, a, b);
    var u := Advance(t);
    PopFrame(u);
    PopShape(u);
    var p := Pop(u);
    assert HeadOk(u, PENDING_LIST);
    assert p.pending == b;
    LinkFrame(p, a, p.ss[a].expire);
    var v := Process(u, now);
    assert v == Link(p, a, p.ss[a].expire);
    assert v.pending == b && v.slots[t.cur % WHEEL_SLOTS] == a;
    assert WillClobber(v, now);
    assert Clobbers(u, now, budget);
  }

  // The run that loses a session: two sessions share a slot, the older one is refreshed for one full
  // turn of the wheel, and the tick that removes the newer one cuts the older one off.

  const KEY_A := FiveTuple(1, 9, 1000, 80, PROTO_TCP)
  const KEY_B := FiveTuple(2, 9, 1000, 80, PROTO_TCP)
  const LOSING_OPS: seq<Op> :=
    [Tick(1), Insert(KEY_A, None, 1, true, true), Insert(KEY_B, None, 1, true, true), Tick(2), Refresh(0, WHEEL_SLOTS),
     Tick(3)]

  /** Only slot 3 is in use and it starts with `head`. */
  ghost predicate OnlySlotThree(t: Table, head: nat) {
    && |t.slots| == WHEEL_SLOTS && t.pending == NIL && t.slots[3] == head
    && forall k: nat :: k < WHEEL_SLOTS && k != 3 ==> t.slots[k] == NIL
  }

  lemma FirstInserted(capacity: nat) returns (t: Table)
    requires 2 <= capacity <= FREE
    ensures Sound(Fresh(capacity, 2)) && t == Create(Fresh(capacity, 2), KEY_A, None, 1, 1, true, true).table
    ensures Sound(t) && Lost(t) == {} && |t.ss| == capacity && t.cur == 2 && |t.free| == capacity - 1
    ensures OnlySlotThree(t, 0) && t.free[capacity - 2] == 1
    ensures t.ss[0].next == NIL && t.ss[0].expire == 3 && t.ss[0].slotTick == 3
  {
    FreshIsSound(capacity, 2);
    var t0 := Fresh(capacity, 2);
    assert t0.free[capacity - 1] == 0 && t0.free[capacity - 2] == 1;
    CreateAdds(t0, KEY_A, None, 1, 1);
    CreateFrame(t0, KEY_A, None, 1, 1);
    CreatePlace(t0, KEY_A, None, 1, 1);
    t := Create(t0, KEY_A, None, 1, 1, true, true).table;
  }

  /** Sessions 1 and 0, in that order, are due at tick 3. */
  ghost predicate BothDueAtThree(t: Table) {
    && Sound(t) && Lost(t) == {} && |t.ss| >= 2 && t.cur == 2 && OnlySlotThree(t, 1)
    && t.ss[1].next == 0 && t.ss[0].next == NIL
    && t.ss[0].expire == 3 && t.ss[1].expire == 3 && t.ss[0].slotTick == 3
  }

  lemma SecondInserted(t: Table)
    requires Sound(t) && Lost(t) == {} && |t.ss| >= 2 && t.cur == 2
    requires OnlySlotThree(t, 0) && |t.free| > 0 && t.free[|t.free| - 1] == 1
    requires t.ss[0].next == NIL && t.ss[0].expire == 3 && t.ss[0].slotTick == 3
    ensures BothDueAtThree(Create(t, KEY_B, None, 1, 1, true, true).table)
  {
    CreateAdds(t, KEY_B, None, 1, 1);
    CreateFrame(t, KEY_B, None, 1, 1);
    CreatePlace(t, KEY_B, None, 1, 1);
    hide Sound;
    assert SameRecord(t.ss[0], Create(t, KEY_B, None, 1, 1, true, true).table.ss[0]);
  }

  /** Sweeping an empty slot only moves the hand. */
  lemma EmptySweep(t: Table)
    requires WellLinked(t) && t.slots[t.cur % WHEEL_SLOTS] == NIL
    ensures Advance(t) == t.(cur := t.cur + 1)
  {
    assert t.slots[t.cur % WHEEL_SLOTS := NIL] == t.slots;
  }

  lemma RefreshedForATurn(t: Table) returns (u: Table, v: Table)
    requires BothDueAtThree(t)
    ensures Sound(u) && Live(u, 0) && u == Expire(t, 2, EXPIRE_BUDGET) && Finished(u, 2)
    ensures Sound(v) && Lost(v) == {} && v == Touch(u, 0, 2, WHEEL_SLOTS) && LappedPair(v, 3, 0, 1)
  {
    assert HeadOk(t, 3) && NextOk(t, 1);
    EmptySweep(t);
    u := t.(cur := 3);
    SameLinks(t, u);
    ExpireSound(t, 2, EXPIRE_BUDGET);
    assert u == Expire(t, 2, EXPIRE_BUDGET);
    TouchSound(u, 0, 2, WHEEL_SLOTS);
    TouchFrame(u, 0, 2, WHEEL_SLOTS);
    v := Touch(u, 0, 2, WHEEL_SLOTS);
    assert !TouchMoves(u, 0, 2, WHEEL_SLOTS);
    assert v == u.(ss := u.ss[0 := u.ss[0].(expire := 3 + WHEEL_SLOTS)]);
  }

  /** A step of expiry leaves the rest of the pending list. */
  lemma ProcessRest(t: Table, now: nat)
    requires WellLinked(t) && t.pending != NIL
    ensures t.pending < |t.ss| && Process(t, now).pending == t.ss[t.pending].next
  {
    assert HeadOk(t, PENDING_LIST);
    PopFrame(t);
    PopShape(t);
    var u, p := Pop(t), t.pending;
    if u.ss[p].expire <= now { UnlinkFrame(u, p); }
  }

  lemma PairAfterFirst(v: Table)
    requires LappedPair(v, 3, 0, 1)
    ensures var u := Advance(v);
            && u.pending == 0 && Process(u, 3).pending == 1
            && |Process(u, 3).ss| > 1 && Process(u, 3).ss[1].next == NIL
  {
    SweepPair(v, 3, 0, 1);
    var u := Advance(v);
    ProcessRest(u, 3);
    PopFrame(u);
    PopShape(u);
    assert HeadOk(u, PENDING_LIST);
    LinkFrame(Pop(u), 0, Pop(u).ss[0].expire);
  }

  /** The last tick looks at both sessions and is done. */
  lemma FinishesAtThree(v: Table)
    requires LappedPair(v, 3, 0, 1) && v.cur == 3
    ensures Finished(Expire(v, 3, EXPIRE_BUDGET), 3)
  {
    PairAfterFirst(v);
    var u := Advance(v);
    ProcessFrame(u, 3);
    var p := Process(u, 3);
    ProcessRest(p, 3);
    ProcessFrame(p, 3);
    var q := Process(p, 3);
    hide Process;
    hide Advance;
    hide WellLinked;
    assert Finished(q, 3);
    assert Expire(q, 3, EXPIRE_BUDGET - 2) == q;
    assert Expire(p, 3, EXPIRE_BUDGET - 1) == q;
    assert Expire(u, 3, EXPIRE_BUDGET) == q;
  }

  lemma LosesAtThree(v: Table)
    requires Sound(v) && Lost(v) == {} && LappedPair(v, 3, 0, 1)
    ensures Sound(Expire(v, 3, EXPIRE_BUDGET)) && Lost(Expire(v, 3, EXPIRE_BUDGET)) != {}
  {
    LappedPairIsLost(v, 3, 0, 1, EXPIRE_BUDGET);
    ExpireLosesNothingIff(v, 3, EXPIRE_BUDGET);
    ExpireSound(v, 3, EXPIRE_BUDGET);
  }

  /** The first tick finds an empty slot. */
  lemma FirstTick(capacity: nat)
    requires capacity <= FREE
    ensures Sound(Fresh(capacity, 1)) && Expire(Fresh(capacity, 1), 1, EXPIRE_BUDGET) == Fresh(capacity, 2)
    ensures Finished(Fresh(capacity, 2), 1)
  {
    FreshIsSound(capacity, 1);
    FreshIsSound(capacity, 2);
    var t, u := Fresh(capacity, 1), Fresh(capacity, 2);
    EmptySweep(t);
    assert Advance(t) == u;
    hide Advance;
    hide Process;
    hide WellLinked;
    assert Expire(u, 1, EXPIRE_BUDGET) == u;
  }

  lemma LosingSteps(capacity: nat, t1: Table, t2: Table, u: Table, v: Table)
    requires 2 <= capacity <= FREE && Sound(Fresh(capacity, 1)) && Sound(Fresh(capacity, 2))
    requires Expire(Fresh(capacity, 1), 1, EXPIRE_BUDGET) == Fresh(capacity, 2)
    requires Sound(t1) && Sound(t2) && Sound(u) && Sound(v)
    requires t1 == Create(Fresh(capacity, 2), KEY_A, None, 1, 1, true, true).table
    requires t2 == Create(t1, KEY_B, None, 1, 1, true, true).table
    requires u == Expire(t2, 2, EXPIRE_BUDGET) && Live(u, 0) && v == Touch(u, 0, 2, WHEEL_SLOTS)
    ensures Leads(Clocked(Fresh(capacity, 1), 1), LOSING_OPS[0], Clocked(Fresh(capacity, 2), 1))
    ensures Leads(Clocked(Fresh(capacity, 2), 1), LOSING_OPS[1], Clocked(t1, 1))
    ensures Leads(Clocked(t1, 1), LOSING_OPS[2], Clocked(t2, 1))
    ensures Leads(Clocked(t2, 1), LOSING_OPS[3], Clocked(u, 2))
    ensures Leads(Clocked(u, 2), LOSING_OPS[4], Clocked(v, 2))
    ensures Leads(Clocked(v, 2), LOSING_OPS[5], Clocked(Expire(v, 3, EXPIRE_BUDGET), 3))
  {
    hide WellLinked;
    hide Expire;
    hide Create;
    hide Touch;
    hide Fresh;
  }

  lemma SixSteps(states: seq<Clocked>, ops: seq<Op>, capacity: nat, limit: nat)
    requires |states| == 7 && |ops| == 6 && capacity <= FREE && Sound(states[0].t) && states[0].now > 0
    requires states[0] == Clocked(Fresh(capacity, states[0].now), states[0].now)
    requires Leads(states[0], ops[0], states[1]) && PacedOp(ops[0], limit, states[1])
    requires Leads(states[1], ops[1], states[2]) && PacedOp(ops[1], limit, states[2])
    requires Leads(states[2], ops[2], states[3]) && PacedOp(ops[2], limit, states[3])
    requires Leads(states[3], ops[3], states[4]) && PacedOp(ops[3], limit, states[4])
    requires Leads(states[4], ops[4], states[5]) && PacedOp(ops[4], limit, states[5])
    requires Leads(states[5], ops[5], states[6]) && PacedOp(ops[5], limit, states[6])
    ensures PacedRun(states, ops, capacity, limit)
  {
    hide Leads;
    hide PacedOp;
    hide Sound;
  }

  /** From a new table, six operations that keep pace lose a session. */
  lemma LosingRun(capacity: nat) returns (states: seq<Clocked>)
    requires 2 <= capacity <= FREE
    ensures PacedRun(states, LOSING_OPS, capacity, WHEEL_SLOTS)
    ensures Sound(states[6].t) && Lost(states[6].t) != {}
  {
    hide Fresh;
    hide Expire;
    FirstTick(capacity);
    var t1 := FirstInserted(capacity);
    SecondInserted(t1);
    var t2 := Create(t1, KEY_B, None, 1, 1, true, true).table;
    var u, v := RefreshedForATurn(t2);
    FinishesAtThree(v);
    LosesAtThree(v);
    hide *;
    states := [Clocked(Fresh(capacity, 1), 1), Clocked(Fresh(capacity, 2), 1), Clocked(t1, 1), Clocked(t2, 1),
               Clocked(u, 2), Clocked(v, 2), Clocked(Expire(v, 3, EXPIRE_BUDGET), 3)];
    LosingSteps(capacity, t1, t2, u, v);
    SixSteps(states, LOSING_OPS, capacity, WHEEL_SLOTS);
  }

  /** Nothing is lost on any run that keeps pace with timeouts up to `limit` exactly when `limit` is
      shorter than the wheel. */
  lemma LongestSafeTimeout(capacity: nat, limit: nat)
    requires 2 <= capacity <= FREE
    ensures (forall states: seq<Clocked>, ops: seq<Op> {:trigger PacedRun(states, ops, capacity, limit)} ::
               PacedRun(states, ops, capacity, limit) ==>
               forall k: nat :: k < |states| ==> Sound(states[k].t) && Lost(states[k].t) == {})
            <==> limit < WHEEL_SLOTS
  {
    if limit < WHEEL_SLOTS {
      forall states: seq<Clocked>, ops: seq<Op>, k: nat | PacedRun(states, ops, capacity, limit) && k < |states|
        ensures Sound(states[k].t) && Lost(states[k].t) == {}
      {
        ShortTimeoutsAreSafe(states, ops, capacity, limit, k);
      }
    } else {
      var states := LosingRun(capacity);
      assert PacedRun(states, LOSING_OPS, capacity, limit);
    }
  }
}
