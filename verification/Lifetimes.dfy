/** How long a flow lasts on a run of the session table, said in seconds and not through the deadline the table
    stores: its timeout in full, and no longer than the first tick that catches up after it. */
module Lifetimes {
  import opened Links
  import opened Wheel
  import opened Expiry
  import opened TableOps
  import opened Runs

  ghost predicate NothingLost(t: Table) {
    |t.slots| == WHEEL_SLOTS && Lost(t) == {}
  }

  /** A run that starts from a table in order and never loses a session. */
  ghost predicate KeptRun(states: seq<Clocked>, ops: seq<Op>) {
    && IsRun(states, ops) && Timely(states[0].t, states[0].now)
    && forall k: nat :: k < |states| ==> NothingLost(states[k].t)
  }

  lemma ApplyTimely(c: Clocked, op: Op)
    requires Timely(c.t, c.now) && Legal(c, op) && NothingLost(Apply(c, op).t)
    ensures Timely(Apply(c, op).t, Apply(c, op).now)
    ensures op.Tick? ==> !Clobbers(c.t, op.next, EXPIRE_BUDGET)
  {
    match op
    case Insert(client, server, timeout, clientAdded, serverAdded) =>
      CreateFails(c.t, client, server, c.now, timeout, clientAdded, serverAdded);
      if |c.t.free| > 0 { CreateTimely(c.t, client, server, c.now, timeout); }
    case Refresh(i, timeout) => TouchTimely(c.t, i, c.now, timeout);
    case Drop(i) => RemoveTimely(c.t, i, c.now);
    case Tick(next) =>
      ExpireLosesNothingIff(c.t, next, EXPIRE_BUDGET);
      ExpireTimely(c.t, next, EXPIRE_BUDGET);
  }

  /** A run that loses nothing is a run of the deadline map, however far its deadlines reach. */
  lemma {:induction false} KeptRunRefines(states: seq<Clocked>, ops: seq<Op>, k: nat)
    requires KeptRun(states, ops) && k < |states|
    ensures Timely(states[k].t, states[k].now)
    ensures k < |ops| ==> SpecStep(Flows(states[k].t), |states[k].t.ss|, states[k].now, ops[k],
                                   Flows(states[k + 1].t), Finished(states[k + 1].t, states[k + 1].now))
    ensures k < |ops| ==> states[k + 1].now == if ops[k].Tick? then ops[k].next else states[k].now
    ensures k < |ops| ==> states[k].now <= states[k + 1].now
  {
    hide SpecStep;
    hide Timely;
    hide NothingLost;
    hide Sound;
    hide Clobbers;
    if k > 0 {
      KeptRunRefines(states, ops, k - 1);
      assert Leads(states[k - 1], ops[k - 1], states[k - 1 + 1]);
      SoundWhenTimely(states[k - 1]);
      ApplyTimely(states[k - 1], ops[k - 1]);
    }
    if k < |ops| {
      SoundWhenTimely(states[k]);
      assert Leads(states[k], ops[k], states[k + 1]);
      ApplyTimely(states[k], ops[k]);
      ApplyRefines(states[k], ops[k]);
    }
  }

  lemma SoundWhenTimely(c: Clocked)
    requires Timely(c.t, c.now)
    ensures Sound(c.t)
  {
  }

  // ---------------------------------------------------------------------------------------------
  // Lifetimes
  // ---------------------------------------------------------------------------------------------

  /** The operation gives flow `i` a timeout of `n` seconds, by opening or by refreshing it. */
  ghost predicate Grants(c: Clocked, op: Op, d: Clocked, i: nat, n: nat) {
    || op == Refresh(i, n)
    || (op.Insert? && op.timeout == n && i !in Flows(c.t) && i in Flows(d.t))
  }

  /** The operation neither refreshes nor drops flow `i`. */
  predicate LeavesAlone(op: Op, i: nat) {
    op.Insert? || op.Tick? || op.i != i
  }

  /** Flow `i` got a timeout of `n` seconds in step `j`, and was left alone up to state `k`. */
  ghost predicate Granted(states: seq<Clocked>, ops: seq<Op>, i: nat, n: nat, j: nat, k: nat) {
    && KeptRun(states, ops) && |states| == |ops| + 1 && j < k < |states| && Grants(states[j], ops[j], states[j + 1], i, n)
    && forall m: nat :: j < m < k ==> LeavesAlone(ops[m], i)
  }

  /** The last second of a timeout; a timeout of zero counts as one. */
  function LastSecond(start: nat, n: nat): nat {
    start + if n == 0 then 1 else n
  }

  /** In state `k` the flow at `i` is `fl`. */
  ghost predicate Holds(states: seq<Clocked>, k: nat, i: nat, fl: Flow) {
    k < |states| && i in Flows(states[k].t) && Flows(states[k].t)[i] == fl
  }

  lemma GrantedDeadline(states: seq<Clocked>, ops: seq<Op>, i: nat, n: nat, j: nat)
    requires KeptRun(states, ops) && j < |ops| && Grants(states[j], ops[j], states[j + 1], i, n)
    ensures i in Flows(states[j + 1].t) && Flows(states[j + 1].t)[i].expire == LastSecond(states[j].now, n) + 1
    ensures states[j + 1].now == states[j].now
  {
    KeptRunRefines(states, ops, j);
    hide KeptRun;
    hide Flows;
  }

  /** One step leaves an undisturbed flow as it is, unless it is a tick past the flow's deadline. */
  lemma StepKeeps(states: seq<Clocked>, ops: seq<Op>, i: nat, m: nat)
    requires KeptRun(states, ops) && m < |ops| && LeavesAlone(ops[m], i) && i in Flows(states[m].t)
    ensures states[m].now <= states[m + 1].now
    ensures i in Flows(states[m + 1].t) ==> Holds(states, m + 1, i, Flows(states[m].t)[i])
    ensures i !in Flows(states[m + 1].t) ==> ops[m].Tick? && Flows(states[m].t)[i].expire <= states[m + 1].now
    ensures ops[m].Tick? && Finished(states[m + 1].t, states[m + 1].now) && Flows(states[m].t)[i].expire <= states[m + 1].now
            ==> i !in Flows(states[m + 1].t)
  {
    KeptRunRefines(states, ops, m);
    hide KeptRun;
    hide Flows;
  }

  /** A flow lasts its timeout: as long as it is left alone it is there, unchanged, up to its last second, whatever
      ticks and other flows come in between. */
  lemma {:induction false} LastsItsTimeout(states: seq<Clocked>, ops: seq<Op>, i: nat, n: nat, j: nat, k: nat)
    requires Granted(states, ops, i, n, j, k) && states[k].now <= LastSecond(states[j].now, n)
    ensures i in Flows(states[j + 1].t) && Holds(states, k, i, Flows(states[j + 1].t)[i])
  {
    GrantedDeadline(states, ops, i, n, j);
    if k > j + 1 {
      KeptRunRefines(states, ops, k - 1);
      hide KeptRun;
      hide Flows;
      hide SpecStep;
      LastsItsTimeout(states, ops, i, n, j, k - 1);
      assert LeavesAlone(ops[k - 1], i);
      StepKeeps(states, ops, i, k - 1);
    }
  }

  /** A flow that is left alone goes at the latest with the first tick that catches up after its last second, and no
      earlier than a tick past it. */
  lemma LeavesAfterItsTimeout(states: seq<Clocked>, ops: seq<Op>, i: nat, n: nat, j: nat, k: nat)
    returns (m: nat, fl: Flow)
    requires Granted(states, ops, i, n, j, k) && states[k].now > LastSecond(states[j].now, n)
    requires ops[k - 1].Tick? && Finished(states[k].t, states[k].now)
    ensures j + 1 < m <= k && ops[m - 1].Tick? && states[m].now > LastSecond(states[j].now, n)
    ensures i !in Flows(states[m].t) && forall p: nat :: j < p < m ==> Holds(states, p, i, fl)
  {
    hide KeptRun;
    hide Flows;
    hide Finished;
    hide Grants;
    GrantedDeadline(states, ops, i, n, j);
    m, fl := j + 1, Flows(states[j + 1].t)[i];
    while i in Flows(states[m].t)
      invariant j < m <= k
      invariant forall p: nat :: j < p < m ==> Holds(states, p, i, fl)
      invariant i in Flows(states[m].t) ==> m < k && Holds(states, m, i, fl)
      invariant i !in Flows(states[m].t) ==> m > j + 1 && ops[m - 1].Tick? && states[m].now > LastSecond(states[j].now, n)
      decreases k - m
    {
      assert LeavesAlone(ops[m], i);
      StepKeeps(states, ops, i, m);
      m := m + 1;
    }
  }

  /** Runs from init that keep pace with timeouts shorter than the wheel lose nothing, so flows on them last as said. */
  lemma PacedRunsAreKept(states: seq<Clocked>, ops: seq<Op>, capacity: nat, limit: nat)
    requires PacedRun(states, ops, capacity, limit) && limit < WHEEL_SLOTS
    ensures KeptRun(states, ops)
  {
    forall k: nat | k < |states| ensures NothingLost(states[k].t) && Timely(states[k].t, states[k].now) {
      ShortTimeoutsAreSafe(states, ops, capacity, limit, k);
    }
  }
}
