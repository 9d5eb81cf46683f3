/** What creation, refreshing and removal do to a session table, and its view as a map of flows. */
module TableOps {
  import opened Finite
  import opened Types
  import opened Links
  import opened Wheel
  import opened Expiry

  /** A session as its users see it, without its place on the wheel. */
  datatype Flow = Flow(client: FiveTuple, server: Option<FiveTuple>, app: App, created: nat, expire: nat)

  function FlowOf(s: Session): Flow {
    Flow(s.client, if s.fullnat then Some(s.server) else None, s.app, s.created, s.expire)
  }

  /** The table as a plain map from array index to flow. */
  ghost function Flows(t: Table): map<nat, Flow> {
    map i: nat | i < |t.ss| && Live(t, i) :: FlowOf(t.ss[i])
  }

  lemma FlowsShrink(t: Table, r: Table, gone: set<nat>)
    requires |r.ss| == |t.ss| && (forall j: nat :: j < |t.ss| ==> SameRecord(t.ss[j], r.ss[j]))
    requires forall j: nat :: Live(r, j) <==> Live(t, j) && j !in gone
    ensures Flows(r) == Flows(t) - gone
  {
    forall j: nat | Live(r, j) ensures FlowOf(t.ss[j]) == FlowOf(r.ss[j]) {
      assert SameRecord(t.ss[j], r.ss[j]);
    }
    assert Flows(r).Keys == Flows(t).Keys - gone;
  }

  lemma PendingKept(t: Table, r: Table)
    requires WellLinked(t) && WellLinked(r) && PendingExact(t) && r.cur == t.cur && |r.ss| == |t.ss|
    requires forall j: nat :: Live(r, j) ==> Live(t, j)
    requires forall j: nat :: Live(r, j) ==>
      (r.ss[j].slotTick == t.ss[j].slotTick && r.ss[j].inPending == t.ss[j].inPending) || !r.ss[j].inPending
    requires forall j: nat :: j in Lost(r) ==> j in Lost(t) || !r.ss[j].inPending
    ensures PendingExact(r)
  {
  }

  // ---------------------------------------------------------------------------------------------
  // Create
  // ---------------------------------------------------------------------------------------------

  function NewFlow(client: FiveTuple, server: Option<FiveTuple>, now: nat, timeout: nat): Flow {
    Flow(client, server, FRESH_APP, now, Deadline(now, timeout))
  }

  /** The table just before the new session is linked. */
  function Prepared(t: Table, client: FiveTuple, server: Option<FiveTuple>, now: nat, timeout: nat): Table
    requires |t.free| > 0 && t.free[|t.free| - 1] < |t.ss|
  {
    var idx := t.free[|t.free| - 1];
    var index := t.index[client := idx];
    t.(ss := t.ss[idx := Session(client, if server.Some? then server.value else ZERO_TUPLE, server.Some?, FRESH_APP,
                                 now, Deadline(now, timeout), 0, FREE, NIL, false)],
       free := t.free[..|t.free| - 1],
       index := if server.Some? then index[server.value := idx] else index)
  }

  lemma CreateLinks(t: Table, client: FiveTuple, server: Option<FiveTuple>, now: nat, timeout: nat)
    requires Sound(t) && |t.free| > 0
    ensures var idx := t.free[|t.free| - 1];
            && idx < |t.ss| && !Live(t, idx)
            && var u := Prepared(t, client, server, now, timeout);
            && WellLinked(u) && Detached(u, idx)
            && var r := Link(u, idx, Deadline(now, timeout));
            && Created(r, Some(idx)) == Create(t, client, server, now, timeout, true, true)
            && WellLinked(r) && Acyclic(r) && Lost(r) == Lost(t)
            && (forall j: nat :: Live(r, j) <==> Live(t, j) || j == idx)
  {
    var idx := t.free[|t.free| - 1];
    assert idx in t.free;
    var u := Prepared(t, client, server, now, timeout);
    FreshShape(t, idx, u.ss[idx], u);
    LinkShape(u, idx, Deadline(now, timeout));
    LinkLost(u, idx, Deadline(now, timeout));
    LinkAcyclic(u, idx, Deadline(now, timeout));
  }

  lemma CreateFrame(t: Table, client: FiveTuple, server: Option<FiveTuple>, now: nat, timeout: nat)
    requires Sound(t) && |t.free| > 0
    ensures var idx := t.free[|t.free| - 1];
            var r := Create(t, client, server, now, timeout, true, true).table;
            && idx < |t.ss| == |r.ss| && r.cur == t.cur
            && r.free == t.free[..|t.free| - 1]
            && r.index == (if server.Some? then t.index[client := idx][server.value := idx] else t.index[client := idx])
            && FlowOf(r.ss[idx]) == NewFlow(client, server, now, timeout)
            && !r.ss[idx].inPending
            && r.ss[idx].slotTick == (var d := Deadline(now, timeout); if d < t.cur then t.cur else d)
            && (forall j: nat :: j < |t.ss| && j != idx ==>
                  && SameRecord(t.ss[j], r.ss[j])
                  && r.ss[j].slotTick == t.ss[j].slotTick && r.ss[j].inPending == t.ss[j].inPending)
  {
    var idx := t.free[|t.free| - 1];
    CreateLinks(t, client, server, now, timeout);
    var u := Prepared(t, client, server, now, timeout);
    LinkFrame(u, idx, Deadline(now, timeout));
    var r := Link(u, idx, Deadline(now, timeout));
    forall j: nat | j < |t.ss| && j != idx
      ensures SameRecord(t.ss[j], r.ss[j])
    {
      assert u.ss[j] == t.ss[j];
    }
    assert SameRecord(u.ss[idx], r.ss[idx]);
  }

  /** Where a new session goes: in front of whatever is in the slot of its deadline. */
  lemma CreatePlace(t: Table, client: FiveTuple, server: Option<FiveTuple>, now: nat, timeout: nat)
    requires Sound(t) && |t.free| > 0 && t.cur <= now + 1
    ensures var idx := t.free[|t.free| - 1];
            var k := Deadline(now, timeout) % WHEEL_SLOTS;
            var r := Create(t, client, server, now, timeout, true, true).table;
            && |r.ss| == |t.ss| && idx < |t.ss|
            && r.slots == t.slots[k := idx] && r.pending == t.pending && r.ss[idx].next == t.slots[k]
            && (forall j: nat :: j < |t.ss| && j != idx ==> r.ss[j].next == t.ss[j].next)
  {
    CreateLinks(t, client, server, now, timeout);
    assert HeadOk(t, Deadline(now, timeout) % WHEEL_SLOTS);
  }

  lemma FreePopped(t: Table, u: Table)
    requires FreeExact(t) && |t.free| > 0 && |u.ss| == |t.ss| && u.free == t.free[..|t.free| - 1]
    requires forall j: nat :: Live(u, j) <==> Live(t, j) || j == t.free[|t.free| - 1]
    ensures FreeExact(u)
  {
    var last := t.free[|t.free| - 1];
    assert last in t.free;
    assert t.free == u.free + [last];
    forall j: nat ensures j in t.free <==> j in u.free || j == last { }
    assert last !in u.free;
  }

  lemma CreateSound(t: Table, client: FiveTuple, server: Option<FiveTuple>, now: nat, timeout: nat)
    requires Sound(t) && |t.free| > 0
    ensures Sound(Create(t, client, server, now, timeout, true, true).table)
  {
    var r := Create(t, client, server, now, timeout, true, true).table;
    CreateLinks(t, client, server, now, timeout);
    CreateFrame(t, client, server, now, timeout);
    FreePopped(t, r);
    hide Wheel.Create;
    hide Link;
    hide WellLinked;
    hide Acyclic;
    hide FreeExact;
  }

  lemma CreateFlows(t: Table, client: FiveTuple, server: Option<FiveTuple>, now: nat, timeout: nat)
    requires Sound(t) && |t.free| > 0
    ensures var idx := t.free[|t.free| - 1];
            var r := Create(t, client, server, now, timeout, true, true).table;
            idx !in Flows(t) && Flows(r) == Flows(t)[idx := NewFlow(client, server, now, timeout)]
  {
    var idx := t.free[|t.free| - 1];
    var r := Create(t, client, server, now, timeout, true, true).table;
    CreateLinks(t, client, server, now, timeout);
    CreateFrame(t, client, server, now, timeout);
    hide Wheel.Create;
    hide Link;
    hide Sound;
    hide WellLinked;
    forall j: nat | j in Flows(r) && j != idx ensures FlowOf(t.ss[j]) == FlowOf(r.ss[j]) {
      assert SameRecord(t.ss[j], r.ss[j]);
    }
    assert Flows(r).Keys == Flows(t).Keys + {idx};
  }

  /** A successful creation keeps the structure and adds exactly the new flow. */
  lemma CreateAdds(t: Table, client: FiveTuple, server: Option<FiveTuple>, now: nat, timeout: nat)
    requires Sound(t) && |t.free| > 0
    ensures var idx := t.free[|t.free| - 1];
            var r := Create(t, client, server, now, timeout, true, true).table;
            && Sound(r) && Lost(r) == Lost(t)
            && idx !in Flows(t) && Flows(r) == Flows(t)[idx := NewFlow(client, server, now, timeout)]
  {
    CreateSound(t, client, server, now, timeout);
    CreateFlows(t, client, server, now, timeout);
    CreateLinks(t, client, server, now, timeout);
  }

  /** When creation fails no flow changes; refusing the second key also drops whatever the first one named. */
  lemma CreateFails(t: Table, client: FiveTuple, server: Option<FiveTuple>, now: nat, timeout: nat,
                    clientAdded: bool, serverAdded: bool)
    requires Sound(t)
    ensures var r := Create(t, client, server, now, timeout, clientAdded, serverAdded);
            && (r.idx.Some? <==> |t.free| > 0 && clientAdded && (server.Some? ==> serverAdded))
            && (r.idx.Some? ==> r == Create(t, client, server, now, timeout, true, true))
            && (r.idx.None? ==> Sound(r.table) && Lost(r.table) == Lost(t) && Flows(r.table) == Flows(t)
                                && r.table == t.(index := r.table.index)
                                && (client !in t.index ==> r.table == t))
  {
    var r := Create(t, client, server, now, timeout, clientAdded, serverAdded);
    if r.idx.None? {
      assert client !in t.index ==> t.index[client := 0] - {client} == t.index;
      assert client !in t.index ==> r.table.index == t.index;
      SameLinks(t, r.table);
      var rank: seq<nat>, top: nat :| Ranked(t, rank, top);
      assert Ranked(r.table, rank, top);
    }
  }

  /** Creation at the current time keeps the wheel on time, and keeps no-lap exactly for short timeouts. */
  lemma CreateTimely(t: Table, client: FiveTuple, server: Option<FiveTuple>, now: nat, timeout: nat)
    requires Timely(t, now) && |t.free| > 0
    ensures var r := Create(t, client, server, now, timeout, true, true).table;
            && Timely(r, now)
            && (NoLap(r) <==> NoLap(t) && Deadline(now, timeout) < Horizon(t))
  {
    var idx := t.free[|t.free| - 1];
    var r := Create(t, client, server, now, timeout, true, true).table;
    CreateAdds(t, client, server, now, timeout);
    CreateLinks(t, client, server, now, timeout);
    CreateFrame(t, client, server, now, timeout);
    CreatePlace(t, client, server, now, timeout);
    if NoLap(r) {
      assert Live(r, idx);
      forall j: nat | Live(t, j) ensures t.ss[j].expire < Horizon(t) {
        assert Live(r, j) && SameRecord(t.ss[j], r.ss[j]);
      }
    }
  }

  // ---------------------------------------------------------------------------------------------
  // Remove
  // ---------------------------------------------------------------------------------------------

  lemma RemoveLinks(t: Table, i: nat)
    requires Sound(t) && Live(t, i)
    ensures var r := Remove(t, i);
            && WellLinked(r) && Acyclic(r)
            && Lost(r) == Lost(t) - {i} + Evicted(t, i)
            && (forall j: nat :: Live(r, j) <==> Live(t, j) && j != i)
  {
    UnlinkShape(t, i);
    UnlinkLost(t, i);
    UnlinkAcyclic(t, i);
    ReleaseShape(Unlink(t, i), i);
    RemoveAsRelease(t, i);
    assert i !in Evicted(t, i);
  }

  lemma RemoveFrame(t: Table, i: nat)
    requires Sound(t) && Live(t, i)
    ensures var r := Remove(t, i);
            && |r.ss| == |t.ss| && r.cur == t.cur && r.free == t.free + [i]
            && r.index == (var index := t.index - {t.ss[i].client};
                           if t.ss[i].fullnat then index - {t.ss[i].server} else index)
            && (forall j: nat :: j < |t.ss| ==> SameRecord(t.ss[j], r.ss[j]))
            && (forall j: nat :: j < |t.ss| ==>
                  r.ss[j].slotTick == t.ss[j].slotTick && r.ss[j].inPending == t.ss[j].inPending)
  {
    UnlinkShape(t, i);
    UnlinkFrame(t, i);
  }

  /** Unlinking evicts a session only if it was itself lost, and never a pending one. */
  lemma EvictedOnlyByLost(t: Table, i: nat)
    requires Sound(t) && Live(t, i)
    ensures i !in Lost(t) ==> Evicted(t, i) == {}
    ensures forall j: nat :: j in Evicted(t, i) ==> j < |t.ss| && !t.ss[j].inPending
  {
    assert HeadOk(t, ListOf(t.ss[i]));
  }

  /** Taking a session off its list cannot start a new pending list. */
  lemma UnlinkKeepsIdle(t: Table, i: nat)
    requires Sound(t) && Live(t, i)
    ensures t.pending == NIL ==> Unlink(t, i).pending == NIL
  {
    if t.pending == NIL { EmptyList(t, PENDING_LIST, i); }
  }

  /** Removal keeps the structure, whether or not the session could be reached. */
  lemma RemoveSound(t: Table, i: nat)
    requires Sound(t) && Live(t, i)
    ensures Sound(Remove(t, i)) && Lost(Remove(t, i)) == Lost(t) - {i} + Evicted(t, i)
  {
    var r := Remove(t, i);
    RemoveLinks(t, i);
    RemoveFrame(t, i);
    EvictedOnlyByLost(t, i);
    FreePushed(t, r, i);
    PendingKept(t, r);
  }

  /** Removal takes exactly one flow out of the table. */
  lemma RemoveTakesOne(t: Table, i: nat)
    requires Sound(t) && Live(t, i)
    ensures Sound(Remove(t, i)) && Flows(Remove(t, i)) == Flows(t) - {i}
  {
    RemoveSound(t, i);
    RemoveLinks(t, i);
    RemoveFrame(t, i);
    FlowsShrink(t, Remove(t, i), {i});
  }

  /** Removing a session from a timely table keeps every other one reachable and on time. */
  lemma RemoveTimely(t: Table, i: nat, now: nat)
    requires Timely(t, now) && Live(t, i)
    ensures Timely(Remove(t, i), now) && (NoLap(t) ==> NoLap(Remove(t, i)))
    ensures t.pending == NIL ==> Remove(t, i).pending == NIL
  {
    RemoveSound(t, i);
    RemoveLinks(t, i);
    RemoveFrame(t, i);
    EvictedOnlyByLost(t, i);
    UnlinkKeepsIdle(t, i);
    UnlinkShape(t, i);
    RemoveAsRelease(t, i);
    hide Remove;
    hide WellLinked;
    forall j: nat | Live(Remove(t, i), j) ensures Remove(t, i).ss[j].expire == t.ss[j].expire {
      assert SameRecord(t.ss[j], Remove(t, i).ss[j]);
    }
  }

  // ---------------------------------------------------------------------------------------------
  // Touch
  // ---------------------------------------------------------------------------------------------

  predicate TouchMoves(t: Table, i: nat, now: nat, timeout: nat)
    requires i < |t.ss|
  {
    Deadline(now, timeout) < t.ss[i].slotTick && !t.ss[i].inPending
  }

  /** The table once the session has been moved, if it has to be, and before its deadline is stored. */
  function TouchMoved(t: Table, i: nat, now: nat, timeout: nat): (r: Table)
    requires WellLinked(t) && Live(t, i)
    ensures WellLinked(r) && |r.ss| == |t.ss|
  {
    if TouchMoves(t, i, now, timeout) then
      UnlinkShape(t, i);
      LinkShape(Unlink(t, i), i, Deadline(now, timeout));
      Link(Unlink(t, i), i, Deadline(now, timeout))
    else t
  }

  lemma TouchLinks(t: Table, i: nat, now: nat, timeout: nat)
    requires Sound(t) && Live(t, i)
    ensures var u := TouchMoved(t, i, now, timeout);
            && Acyclic(u) && (forall j: nat :: Live(u, j) <==> Live(t, j))
            && Lost(u) == (if TouchMoves(t, i, now, timeout) then Lost(t) - {i} + Evicted(t, i) else Lost(t))
            && (t.pending == NIL ==> u.pending == NIL)
  {
    if TouchMoves(t, i, now, timeout) {
      var d, v := Deadline(now, timeout), Unlink(t, i);
      UnlinkShape(t, i);
      UnlinkLost(t, i);
      UnlinkAcyclic(t, i);
      UnlinkKeepsIdle(t, i);
      LinkShape(v, i, d);
      LinkLost(v, i, d);
      LinkAcyclic(v, i, d);
    }
  }

  lemma TouchMovedFrame(t: Table, i: nat, now: nat, timeout: nat)
    requires Sound(t) && Live(t, i)
    ensures var u := TouchMoved(t, i, now, timeout);
            && OnlyMoved(t, u, i)
            && u.ss[i].inPending == t.ss[i].inPending
            && u.ss[i].slotTick == (if !TouchMoves(t, i, now, timeout) then t.ss[i].slotTick else
                                    var d := Deadline(now, timeout); if d < t.cur then t.cur else d)
  {
    if TouchMoves(t, i, now, timeout) {
      var d, v := Deadline(now, timeout), Unlink(t, i);
      UnlinkShape(t, i);
      UnlinkFrame(t, i);
      LinkFrame(v, i, d);
      forall j: nat | j < |t.ss| ensures SameRecord(t.ss[j], Link(v, i, d).ss[j]) {
        assert SameRecord(t.ss[j], v.ss[j]) && SameRecord(v.ss[j], Link(v, i, d).ss[j]);
      }
    }
  }

  lemma TouchFrame(t: Table, i: nat, now: nat, timeout: nat)
    requires Sound(t) && Live(t, i)
    ensures var u, r := TouchMoved(t, i, now, timeout), Touch(t, i, now, timeout);
            && r == u.(ss := u.ss[i := u.ss[i].(expire := Deadline(now, timeout))])
            && Acyclic(r) && Lost(r) == Lost(u) && (forall j: nat :: Live(r, j) <==> Live(t, j))
  {
    TouchLinks(t, i, now, timeout);
    var u := TouchMoved(t, i, now, timeout);
    RewriteShape(u, i, u.ss[i].(expire := Deadline(now, timeout)));
  }

  lemma TouchSound(t: Table, i: nat, now: nat, timeout: nat)
    requires Sound(t) && Live(t, i)
    ensures Sound(Touch(t, i, now, timeout))
  {
    var u, r := TouchMoved(t, i, now, timeout), Touch(t, i, now, timeout);
    TouchLinks(t, i, now, timeout);
    TouchMovedFrame(t, i, now, timeout);
    TouchFrame(t, i, now, timeout);
    EvictedOnlyByLost(t, i);
    hide WellLinked;
    hide Touch;
    hide TouchMoved;
    assert r.free == t.free && |r.ss| == |t.ss|;
    assert FreeExact(r);
    PendingKept(t, r);
  }

  lemma SetExpireFlows(t: Table, i: nat, exp: nat)
    requires Live(t, i)
    ensures Flows(t.(ss := t.ss[i := t.ss[i].(expire := exp)])) == Flows(t)[i := FlowOf(t.ss[i]).(expire := exp)]
  {
    assert Flows(t.(ss := t.ss[i := t.ss[i].(expire := exp)])).Keys == Flows(t).Keys;
  }

  lemma TouchFlows(t: Table, u: Table, i: nat, exp: nat)
    requires OnlyMoved(t, u, i) && Live(t, i) && (forall j: nat :: Live(u, j) <==> Live(t, j))
    ensures Flows(u.(ss := u.ss[i := u.ss[i].(expire := exp)])) == Flows(t)[i := FlowOf(t.ss[i]).(expire := exp)]
  {
    FlowsShrink(t, u, {});
    assert Flows(t) - {} == Flows(t);
    assert SameRecord(t.ss[i], u.ss[i]);
    SetExpireFlows(u, i, exp);
  }

  /** Refreshing changes one deadline and nothing else, wherever the session has to go. */
  lemma TouchRefreshes(t: Table, i: nat, now: nat, timeout: nat)
    requires Sound(t) && Live(t, i)
    ensures var r := Touch(t, i, now, timeout);
            && Sound(r) && r.index == t.index && r.free == t.free && r.cur == t.cur && |r.ss| == |t.ss|
            && Flows(r) == Flows(t)[i := FlowOf(t.ss[i]).(expire := Deadline(now, timeout))]
  {
    TouchSound(t, i, now, timeout);
    TouchLinks(t, i, now, timeout);
    TouchMovedFrame(t, i, now, timeout);
    TouchFrame(t, i, now, timeout);
    hide Touch;
    hide TouchMoved;
    hide WellLinked;
    TouchFlows(t, TouchMoved(t, i, now, timeout), i, Deadline(now, timeout));
  }

  lemma TouchOnTime(t: Table, i: nat, now: nat, timeout: nat)
    requires Timely(t, now) && Live(t, i)
    ensures OnTime(Touch(t, i, now, timeout))
    ensures NoLap(t) && Deadline(now, timeout) < Horizon(t) ==> NoLap(Touch(t, i, now, timeout))
  {
    hide Touch;
    hide TouchMoved;
    hide WellLinked;
    var u, r := TouchMoved(t, i, now, timeout), Touch(t, i, now, timeout);
    TouchLinks(t, i, now, timeout);
    TouchMovedFrame(t, i, now, timeout);
    TouchFrame(t, i, now, timeout);
    forall j: nat | Live(r, j) && j != i
      ensures r.ss[j].expire == t.ss[j].expire && r.ss[j].slotTick == t.ss[j].slotTick
    {
      assert SameRecord(t.ss[j], u.ss[j]);
    }
  }

  /** Refreshing at the current time keeps the wheel on time. */
  lemma TouchTimely(t: Table, i: nat, now: nat, timeout: nat)
    requires Timely(t, now) && Live(t, i)
    ensures Timely(Touch(t, i, now, timeout), now)
    ensures NoLap(t) && Deadline(now, timeout) < Horizon(t) ==> NoLap(Touch(t, i, now, timeout))
    ensures t.pending == NIL ==> Touch(t, i, now, timeout).pending == NIL
  {
    TouchRefreshes(t, i, now, timeout);
    TouchOnTime(t, i, now, timeout);
    TouchLinks(t, i, now, timeout);
    TouchFrame(t, i, now, timeout);
    EvictedOnlyByLost(t, i);
  }

  // ---------------------------------------------------------------------------------------------
  // Expire, as seen from the flows
  // ---------------------------------------------------------------------------------------------

  /** Flows of `m` that outlive `now`. */
  ghost function NotDue(m: map<nat, Flow>, now: nat): map<nat, Flow> {
    map i | i in m && m[i].expire > now :: m[i]
  }

  /** The lazy, budgeted wheel computes the plain deadline map: it never removes a flow early, never
      changes one, and once it catches up only the flows that are not due are left. */
  lemma ExpireRefinesDeadlines(t: Table, now: nat, budget: nat)
    requires Timely(t, now) && !Clobbers(t, now, budget)
    ensures var r := Expire(t, now, budget);
            && Timely(r, now)
            && (forall i :: i in NotDue(Flows(t), now) ==> i in Flows(r))
            && (forall i :: i in Flows(r) ==> i in Flows(t) && Flows(r)[i] == Flows(t)[i])
            && (Finished(r, now) ==> Flows(r) == NotDue(Flows(t), now))
  {
    var r := Expire(t, now, budget);
    ExpireTimely(t, now, budget);
    ExpireRemovesOnlyDue(t, now, budget);
    forall j: nat | Live(r, j) ensures FlowOf(t.ss[j]) == FlowOf(r.ss[j]) {
      assert SameRecord(t.ss[j], r.ss[j]);
    }
    if Finished(r, now) {
      ExpireExact(t, now, budget);
    }
  }

  ghost function Elements(s: seq<nat>): (r: set<nat>)
    requires forall a: nat, b: nat :: a < b < |s| ==> s[a] != s[b]
    ensures |r| == |s| && forall i: nat :: i in r <==> i in s
  {
    if s == [] then {}
    else
      assert s == s[..|s| - 1] + [s[|s| - 1]];
      Elements(s[..|s| - 1]) + {s[|s| - 1]}
  }

  lemma DifferenceSize(all: set<nat>, part: set<nat>)
    requires part <= all
    ensures |part| <= |all| && |all - part| == |all| - |part|
  {
    assert all == part + (all - part);
  }

  /** `active()` counts the live sessions. */
  lemma ActiveIsFlowCount(t: Table)
    requires FreeExact(t)
    ensures |t.free| <= |t.ss| && |Flows(t)| == |t.ss| - |t.free|
  {
    var all, free := Slots(|t.ss|), Elements(t.free);
    DifferenceSize(all, free);
    assert Flows(t).Keys == all - free;
  }

  // ---------------------------------------------------------------------------------------------
  // Each index is on exactly one list
  // ---------------------------------------------------------------------------------------------

  /** The sessions met when following `next` from `h`. */
  ghost function Chain(t: Table, rank: seq<nat>, top: nat, h: nat): (c: seq<nat>)
    requires WellLinked(t) && Ranked(t, rank, top) && (h == NIL || Live(t, h))
    ensures forall i :: i in c ==> h != NIL && Live(t, i) && ListOf(t.ss[i]) == ListOf(t.ss[h]) && rank[i] <= rank[h]
    ensures h != NIL ==> h in c
    ensures forall i :: i in c && t.ss[i].next != NIL ==> t.ss[i].next in c
    decreases if h == NIL then 0 else rank[h] + 1
  {
    if h == NIL then []
    else
      assert NextOk(t, h);
      var n := t.ss[h].next;
      assert n != NIL ==> rank[n] < rank[h];
      [h] + Chain(t, rank, top, n)
  }

  lemma {:induction false} ChainDistinct(t: Table, rank: seq<nat>, top: nat, h: nat, a: nat, b: nat)
    requires WellLinked(t) && Ranked(t, rank, top) && (h == NIL || Live(t, h))
    requires a < b < |Chain(t, rank, top, h)|
    ensures Chain(t, rank, top, h)[a] != Chain(t, rank, top, h)[b]
    decreases a
  {
    assert NextOk(t, h);
    var n := t.ss[h].next;
    var rest := Chain(t, rank, top, n);
    if a == 0 {
      assert rest[b - 1] in rest;
    } else {
      ChainDistinct(t, rank, top, n, a - 1, b - 1);
    }
  }

  /** With nothing lost, walking a list from its head meets every live session that names that list. */
  lemma {:induction false} EveryLiveIsOnItsList(t: Table, rank: seq<nat>, top: nat, i: nat)
    requires WellLinked(t) && Ranked(t, rank, top) && Lost(t) == {} && Live(t, i)
    ensures var h := Head(t, ListOf(t.ss[i]));
            && Live(t, h) && i in Chain(t, rank, top, h)
    decreases top - rank[i]
  {
    var p := t.ss[i].prev;
    if p == NIL {
      assert i !in Lost(t);
    } else {
      assert PrevOk(t, i);
      EveryLiveIsOnItsList(t, rank, top, p);
    }
  }

  /** Every array index is on the free stack or on exactly one list, and on no list twice. */
  lemma IndicesArePartitioned(t: Table, rank: seq<nat>, top: nat, i: nat, list: nat)
    requires Sound(t) && Ranked(t, rank, top) && Lost(t) == {} && i < |t.ss| && list <= PENDING_LIST
    ensures Head(t, list) == NIL || Live(t, Head(t, list))
    ensures i in Chain(t, rank, top, Head(t, list)) <==> i !in t.free && ListOf(t.ss[i]) == list
    ensures var c := Chain(t, rank, top, Head(t, list)); forall a: nat, b: nat :: a < b < |c| ==> c[a] != c[b]
    ensures forall a: nat, b: nat :: a < b < |t.free| ==> t.free[a] != t.free[b]
  {
    assert HeadOk(t, list);
    var h := Head(t, list);
    if Live(t, i) { EveryLiveIsOnItsList(t, rank, top, i); }
    forall a: nat, b: nat | a < b < |Chain(t, rank, top, h)|
      ensures Chain(t, rank, top, h)[a] != Chain(t, rank, top, h)[b]
    {
      ChainDistinct(t, rank, top, h, a, b);
    }
  }

  // ---------------------------------------------------------------------------------------------
  // The hash index
  // ---------------------------------------------------------------------------------------------

  predicate HasKey(f: Flow, key: FiveTuple) {
    f.client == key || f.server == Some(key)
  }

  /** Both keys of `f` name `i`. */
  predicate Indexed(index: map<FiveTuple, nat>, f: Flow, i: nat) {
    && f.client in index && index[f.client] == i
    && (f.server.Some? ==> f.server.value in index && index[f.server.value] == i)
  }

  /** The index holds the keys of the live flows, each naming the flow it belongs to, and nothing else. */
  ghost predicate IndexExact(index: map<FiveTuple, nat>, flows: map<nat, Flow>) {
    && (forall i :: i in flows ==> Indexed(index, flows[i], i))
    && (forall key :: key in index ==> index[key] in flows && HasKey(flows[index[key]], key))
  }

  function IndexWith(index: map<FiveTuple, nat>, i: nat, client: FiveTuple, server: Option<FiveTuple>): map<FiveTuple, nat> {
    if server.Some? then index[client := i][server.value := i] else index[client := i]
  }

  function IndexWithout(index: map<FiveTuple, nat>, f: Flow): map<FiveTuple, nat> {
    if f.server.Some? then index - {f.client} - {f.server.value} else index - {f.client}
  }

  lemma IndexAddIff(index: map<FiveTuple, nat>, flows: map<nat, Flow>, i: nat, f: Flow)
    requires IndexExact(index, flows) && i !in flows
    ensures IndexExact(IndexWith(index, i, f.client, f.server), flows[i := f])
            <==> f.client !in index && (f.server.Some? ==> f.server.value !in index)
  {
    var flows', index' := flows[i := f], IndexWith(index, i, f.client, f.server);
    if f.client in index {
      var j := index[f.client];
      assert HasKey(flows[j], f.client) && !Indexed(index', flows'[j], j);
    } else if f.server.Some? && f.server.value in index {
      var j := index[f.server.value];
      assert HasKey(flows[j], f.server.value) && !Indexed(index', flows'[j], j);
    } else {
      forall j | j in flows' ensures Indexed(index', flows'[j], j) {
        assert j != i ==> Indexed(index, flows[j], j);
      }
    }
  }

  lemma IndexRemove(index: map<FiveTuple, nat>, flows: map<nat, Flow>, i: nat)
    requires IndexExact(index, flows) && i in flows
    ensures IndexExact(IndexWithout(index, flows[i]), flows - {i})
  {
    var f, flows', index' := flows[i], flows - {i}, IndexWithout(index, flows[i]);
    forall j | j in flows' ensures Indexed(index', flows'[j], j) {
      assert Indexed(index, flows[j], j) && Indexed(index, f, i);
    }
    forall key | key in index' ensures index'[key] in flows' && HasKey(flows'[index'[key]], key) {
      assert HasKey(flows[index[key]], key);
    }
  }

  /** An added key overwrites silently, so the index stays exact exactly when the caller brought new keys. */
  lemma CreateIndexIff(t: Table, client: FiveTuple, server: Option<FiveTuple>, now: nat, timeout: nat)
    requires Sound(t) && |t.free| > 0 && IndexExact(t.index, Flows(t))
    ensures var r := Create(t, client, server, now, timeout, true, true).table;
            IndexExact(r.index, Flows(r)) <==> client !in t.index && (server.Some? ==> server.value !in t.index)
  {
    CreateAdds(t, client, server, now, timeout);
    CreateFrame(t, client, server, now, timeout);
    IndexAddIff(t.index, Flows(t), t.free[|t.free| - 1], NewFlow(client, server, now, timeout));
  }

  lemma RemoveIndex(t: Table, i: nat)
    requires Sound(t) && Live(t, i) && IndexExact(t.index, Flows(t))
    ensures IndexExact(Remove(t, i).index, Flows(Remove(t, i)))
  {
    RemoveTakesOne(t, i);
    RemoveFrame(t, i);
    IndexRemove(t.index, Flows(t), i);
  }

  lemma {:induction false} ExpireIndex(t: Table, now: nat, budget: nat)
    requires WellLinked(t) && IndexExact(t.index, Flows(t))
    ensures IndexExact(Expire(t, now, budget).index, Flows(Expire(t, now, budget)))
    decreases budget, if t.cur <= now then now + 1 - t.cur else 0
  {
    if budget == 0 {
    } else if t.pending == NIL {
      if t.cur <= now {
        AdvanceFlows(t);
        ExpireIndex(Advance(t), now, budget);
      }
    } else {
      ProcessIndex(t, now);
      ExpireIndex(Process(t, now), now, budget - 1);
    }
  }

  lemma ProcessFlows(t: Table, now: nat)
    requires WellLinked(t) && t.pending != NIL
    ensures var r := Process(t, now);
            && t.pending in Flows(t)
            && Flows(r) == (if HeadIsDue(t, now) then Flows(t) - {t.pending} else Flows(t))
            && r.index == (if HeadIsDue(t, now) then IndexWithout(t.index, Flows(t)[t.pending]) else t.index)
  {
    assert HeadOk(t, PENDING_LIST);
    ProcessFrame(t, now);
    ProcessLinks(t, now);
    FlowsShrink(t, Process(t, now), if HeadIsDue(t, now) then {t.pending} else {});
    assert Flows(t) - {} == Flows(t);
  }

  lemma ProcessIndex(t: Table, now: nat)
    requires WellLinked(t) && t.pending != NIL && IndexExact(t.index, Flows(t))
    ensures IndexExact(Process(t, now).index, Flows(Process(t, now)))
  {
    ProcessFlows(t, now);
    if HeadIsDue(t, now) { IndexRemove(t.index, Flows(t), t.pending); }
  }

  lemma AdvanceFlows(t: Table)
    requires WellLinked(t)
    ensures Flows(Advance(t)) == Flows(t) && Advance(t).index == t.index
  {
    AdvanceFrame(t);
    AdvanceLost(t);
    FlowsShrink(t, Advance(t), {});
    assert Flows(t) - {} == Flows(t);
  }

  /** A new table is empty, sound and timely. */
  lemma FreshIsSound(capacity: nat, now: nat)
    requires capacity <= FREE && now > 0
    ensures var t := Fresh(capacity, now);
            && Timely(t, now) && NoLap(t) && Flows(t) == map[] && IndexExact(t.index, Flows(t))
  {
    var t := Fresh(capacity, now);
    forall list: nat | list <= PENDING_LIST ensures HeadOk(t, list) { }
    assert Ranked(t, seq(capacity, _ => 0), 0);
    forall i: nat | i < capacity ensures i in t.free {
      assert t.free[capacity - 1 - i] == i;
    }
  }

  /** While a session is live the free stack has room for it. */
  lemma FreeIsNotFull(t: Table, i: nat)
    requires FreeExact(t) && Live(t, i)
    ensures |t.free| < |t.ss|
  {
    ActiveIsFlowCount(t);
    assert i in Flows(t);
    assert |Flows(t)| != 0;
  }

  function WithApp(t: Table, i: nat, app: App): Table
    requires i < |t.ss|
  {
    t.(ss := t.ss[i := t.ss[i].(app := app)])
  }

  lemma WithAppSound(t: Table, i: nat, app: App)
    requires Sound(t) && Live(t, i)
    ensures var r := WithApp(t, i, app);
            && Sound(r) && Lost(r) == Lost(t) && (OnTime(t) ==> OnTime(r)) && (NoLap(t) ==> NoLap(r))
  {
    RewriteShape(t, i, t.ss[i].(app := app));
    assert FreeExact(WithApp(t, i, app));
  }

  lemma WithAppFlows(t: Table, i: nat, app: App)
    requires Live(t, i)
    ensures Flows(WithApp(t, i, app)) == Flows(t)[i := FlowOf(t.ss[i]).(app := app)]
  {
    assert Flows(WithApp(t, i, app)).Keys == Flows(t).Keys;
  }
}
