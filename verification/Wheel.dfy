/** Operations of the session table and what every run of them keeps. Expiry unlinks a popped session
    a second time when it removes it, exactly as the source does; the theorems say when that is harmless
    and what the lazy wheel then computes: the plain map of sessions to deadlines. */
module Wheel {
  import opened Types
  import opened Links

  // ---------------------------------------------------------------------------------------------
  // Operations
  // ---------------------------------------------------------------------------------------------

  function Released(t: Table, i: nat): Table
    requires i < |t.ss|
  {
    t.(ss := t.ss[i := t.ss[i].(prev := FREE)], free := t.free + [i])
  }

  function Remove(t: Table, i: nat): (r: Table)
    requires WellLinked(t) && Live(t, i)
    ensures WellLinked(r)
  {
    var s := t.ss[i];
    var index := t.index - {s.client};
    var index := if s.fullnat then index - {s.server} else index;
    UnlinkShape(t, i);
    var u := Unlink(t, i);
    ReleaseShape(u, i);
    SameLinks(Released(u, i), Released(u, i).(index := index));
    Released(u, i).(index := index)
  }

  const BLANK := Session(ZERO_TUPLE, ZERO_TUPLE, false, FRESH_APP, 0, 0, 0, FREE, 0, false)

  /** The table `init` builds: low indices are handed out first. */
  function Fresh(capacity: nat, now: nat): Table {
    Table(seq(capacity, _ => BLANK), seq(capacity, i requires 0 <= i < capacity => capacity - 1 - i),
          seq(WHEEL_SLOTS, _ => NIL), NIL, now, map[])
  }

  /** The outcome of an insertion: `None` when the table is full or the hash refuses a key. */
  datatype Created = Created(table: Table, idx: Option<nat>)

  /** `clientAdded` and `serverAdded` say whether the hash accepts each key; an accepted key overwrites. */
  function Create(t: Table, client: FiveTuple, server: Option<FiveTuple>, now: nat, timeout: nat,
                  clientAdded: bool, serverAdded: bool): (r: Created)
    requires WellLinked(t) && FreeExact(t)
    ensures WellLinked(r.table)
  {
    if |t.free| == 0 || !clientAdded then Created(t, None)
    else
      var idx := t.free[|t.free| - 1];
      assert idx in t.free;
      var index := t.index[client := idx];
      if server.Some? && !serverAdded then
        SameLinks(t, t.(index := index - {client}));
        Created(t.(index := index - {client}), None)
      else
        var index := if server.Some? then index[server.value := idx] else index;
        var deadline := Deadline(now, timeout);
        var s := Session(client, if server.Some? then server.value else ZERO_TUPLE, server.Some?, FRESH_APP,
                         now, deadline, 0, FREE, NIL, false);
        var t1 := t.(ss := t.ss[idx := s], free := t.free[..|t.free| - 1], index := index);
        FreshShape(t, idx, s, t1);
        LinkShape(t1, idx, deadline);
        Created(Link(t1, idx, deadline), Some(idx))
  }

  /** A longer timeout only moves the deadline; a shorter one moves the session unless it is pending. */
  function Touch(t: Table, i: nat, now: nat, timeout: nat): (r: Table)
    requires WellLinked(t) && Live(t, i)
    ensures WellLinked(r)
  {
    var exp := Deadline(now, timeout);
    var t1 := if exp < t.ss[i].slotTick && !t.ss[i].inPending then
                UnlinkShape(t, i);
                LinkShape(Unlink(t, i), i, exp);
                Link(Unlink(t, i), i, exp)
              else t;
    RewriteShape(t1, i, t1.ss[i].(expire := exp));
    t1.(ss := t1.ss[i := t1.ss[i].(expire := exp)])
  }

  /** One iteration of expiry on a pending session. */
  function Process(t: Table, now: nat): (r: Table)
    requires WellLinked(t) && t.pending != NIL
    ensures WellLinked(r)
  {
    PopShape(t);
    var p, u := t.pending, Pop(t);
    if u.ss[p].expire <= now then
      Remove(u, p)
    else
      LinkShape(u, p, u.ss[p].expire);
      Link(u, p, u.ss[p].expire)
  }

  function Expire(t: Table, now: nat, budget: nat): (r: Table)
    requires WellLinked(t)
    ensures WellLinked(r)
    decreases budget, if t.cur <= now then now + 1 - t.cur else 0
  {
    if budget == 0 then t
    else if t.pending == NIL then
      if t.cur > now then t else Expire(Advance(t), now, budget)
    else Expire(Process(t, now), now, budget - 1)
  }

  /** Expiry stopped because nothing is left to look at, not because its budget ran out. */
  predicate Finished(t: Table, now: nat) {
    t.pending == NIL && t.cur > now
  }

  // ---------------------------------------------------------------------------------------------
  // Invariants
  // ---------------------------------------------------------------------------------------------

  /** The free stack holds each unused index once and nothing else. */
  ghost predicate FreeExact(t: Table) {
    && (forall i: nat :: i in t.free ==> i < |t.ss|)
    && (forall i: nat :: i < |t.ss| ==> (i in t.free <==> !Live(t, i)))
    && (forall a: nat, b: nat :: a < b < |t.free| ==> t.free[a] != t.free[b])
  }

  /** Pending sessions came from the slot swept last, and none of them is lost. */
  ghost predicate PendingExact(t: Table) {
    && (forall i: nat :: Live(t, i) && t.ss[i].inPending ==> t.ss[i].slotTick % WHEEL_SLOTS == (t.cur - 1) % WHEEL_SLOTS)
    && (|t.slots| == WHEEL_SLOTS ==> forall i: nat :: i in Lost(t) ==> !t.ss[i].inPending)
  }

  /** What every operation keeps under any clock and any timeout. */
  ghost predicate Sound(t: Table) {
    WellLinked(t) && Acyclic(t) && FreeExact(t) && PendingExact(t)
  }

  /** Nothing is due in a slot that has been swept. */
  ghost predicate OnTime(t: Table) {
    forall i: nat :: Live(t, i) && !t.ss[i].inPending ==> t.cur <= t.ss[i].slotTick <= t.ss[i].expire
  }

  /** The first tick that shares a slot with one that may still hold due sessions. */
  function Horizon(t: Table): nat {
    t.cur + (if t.pending == NIL then WHEEL_SLOTS else WHEEL_SLOTS - 1)
  }

  /** No session is due a full turn of the wheel ahead. */
  ghost predicate NoLap(t: Table) {
    forall i: nat :: Live(t, i) ==> t.ss[i].expire < Horizon(t)
  }

  // ---------------------------------------------------------------------------------------------
  // Shape lemmas used by the operations above
  // ---------------------------------------------------------------------------------------------

  lemma ReleaseShape(t: Table, i: nat)
    requires WellLinked(t) && Live(t, i) && Detached(t, i)
    ensures WellLinked(Released(t, i))
    ensures Lost(Released(t, i)) == Lost(t) - {i}
    ensures forall j: nat :: Live(Released(t, i), j) <==> Live(t, j) && j != i
    ensures Acyclic(t) ==> Acyclic(Released(t, i))
  {
    var u := Released(t, i);
    forall list: nat | list <= PENDING_LIST ensures HeadOk(u, list) { assert HeadOk(t, list); }
    forall j: nat | Live(u, j) ensures PrevOk(u, j) && NextOk(u, j) { assert PrevOk(t, j) && NextOk(t, j); }
    forall j: nat | j < |t.ss| ensures IsLost(u, j) <==> IsLost(t, j) && j != i { }
    if Acyclic(t) {
      var rank: seq<nat>, top: nat :| Ranked(t, rank, top);
      assert Ranked(u, rank, top);
    }
  }

  /** Writing the record of an unused index disturbs no list. */
  lemma FreshShape(t: Table, i: nat, s: Session, u: Table)
    requires WellLinked(t) && i < |t.ss| && !Live(t, i)
    requires s.prev == FREE && u.ss == t.ss[i := s]
    requires u.slots == t.slots && u.pending == t.pending
    ensures WellLinked(u) && Detached(u, i) && Lost(u) == Lost(t)
    ensures forall j: nat :: Live(u, j) <==> Live(t, j)
    ensures Acyclic(t) ==> Acyclic(u)
  {
    forall list: nat | list <= PENDING_LIST ensures HeadOk(u, list) { assert HeadOk(t, list); }
    forall j: nat | Live(u, j) ensures PrevOk(u, j) && NextOk(u, j) { assert PrevOk(t, j) && NextOk(t, j); }
    forall j: nat | j < |t.ss| ensures IsLost(u, j) <==> IsLost(t, j) { }
    if Acyclic(t) {
      var rank: seq<nat>, top: nat :| Ranked(t, rank, top);
      assert Ranked(u, rank, top);
    }
  }

  /** Rewriting a record without touching its links disturbs no list. */
  lemma RewriteShape(t: Table, i: nat, s: Session)
    requires WellLinked(t) && Live(t, i)
    requires s.prev == t.ss[i].prev && s.next == t.ss[i].next
    requires s.slotTick == t.ss[i].slotTick && s.inPending == t.ss[i].inPending
    ensures var u := t.(ss := t.ss[i := s]);
            WellLinked(u) && Lost(u) == Lost(t) && (Acyclic(t) ==> Acyclic(u))
  {
    var u := t.(ss := t.ss[i := s]);
    forall list: nat | list <= PENDING_LIST ensures HeadOk(u, list) { assert HeadOk(t, list); }
    forall j: nat | Live(u, j) ensures PrevOk(u, j) && NextOk(u, j) { assert PrevOk(t, j) && NextOk(t, j); }
    forall j: nat | j < |t.ss| ensures IsLost(u, j) <==> IsLost(t, j) { }
    if Acyclic(t) {
      var rank: seq<nat>, top: nat :| Ranked(t, rank, top);
      assert Ranked(u, rank, top);
    }
  }
}
