/** What expiry does, step by step and over whole calls. */
module Expiry {
  import opened Finite
  import opened Links
  import opened Wheel

  // ---------------------------------------------------------------------------------------------
  // One step
  // ---------------------------------------------------------------------------------------------

  predicate HeadIsDue(t: Table, now: nat) {
    t.pending < |t.ss| && t.ss[t.pending].expire <= now
  }

  /** The first session cut off when the second unlink of a due session empties a slot in use. */
  ghost function Clobbered(t: Table, now: nat): set<nat>
    requires |t.slots| == WHEEL_SLOTS
  {
    if HeadIsDue(t, now) && t.slots[t.ss[t.pending].slotTick % WHEEL_SLOTS] != NIL
    then {t.slots[t.ss[t.pending].slotTick % WHEEL_SLOTS]} else {}
  }

  /** The guard of the failing case: a due session is next, and its own slot has been refilled. */
  predicate WillClobber(t: Table, now: nat)
    requires |t.slots| == WHEEL_SLOTS
  {
    HeadIsDue(t, now) && t.slots[t.ss[t.pending].slotTick % WHEEL_SLOTS] != NIL
  }

  lemma ProcessLinksDue(t: Table, now: nat)
    requires WellLinked(t) && t.pending != NIL && HeadIsDue(t, now)
    ensures Lost(Process(t, now)) == Lost(t) + Clobbered(t, now)
    ensures forall j: nat :: Live(Process(t, now), j) <==> Live(t, j) && j != t.pending
    ensures Acyclic(t) ==> Acyclic(Process(t, now))
  {
    PopShape(t);
    PopFrame(t);
    assert HeadOk(t, PENDING_LIST);
    var p, u := t.pending, Pop(t);
    assert HeadOk(t, ListOf(u.ss[p]));
    if Acyclic(t) {
      PopAcyclic(t);
      UnlinkAcyclic(u, p);
    }
    UnlinkShape(u, p);
    UnlinkLost(u, p);
    ReleaseShape(Unlink(u, p), p);
    RemoveAsRelease(u, p);
    hide WellLinked;
    hide Acyclic;
    hide Pop;
    hide Unlink;
    assert Evicted(u, p) == Clobbered(t, now);
    assert Lost(Process(t, now)) == Lost(t) + {p} + {p} + Clobbered(t, now) - {p};
  }

  lemma ProcessLinks(t: Table, now: nat)
    requires WellLinked(t) && t.pending != NIL
    ensures Lost(Process(t, now)) == Lost(t) + Clobbered(t, now)
    ensures forall j: nat :: Live(Process(t, now), j) <==> Live(t, j) && !(j == t.pending && HeadIsDue(t, now))
    ensures Acyclic(t) ==> Acyclic(Process(t, now))
  {
    PopFrame(t);
    if HeadIsDue(t, now) {
      ProcessLinksDue(t, now);
    } else {
      PopShape(t);
      assert HeadOk(t, PENDING_LIST);
      var p, u := t.pending, Pop(t);
      LinkShape(u, p, u.ss[p].expire);
      LinkLost(u, p, u.ss[p].expire);
      if Acyclic(t) {
        PopAcyclic(t);
        LinkAcyclic(u, p, u.ss[p].expire);
      }
    }
  }

  lemma RemoveAsRelease(t: Table, i: nat)
    requires WellLinked(t) && Live(t, i)
    ensures (UnlinkShape(t, i); var v := Released(Unlink(t, i), i); var r := Remove(t, i);
             && r == v.(index := r.index) && (WellLinked(v) ==> Lost(r) == Lost(v))
             && (Acyclic(v) ==> Acyclic(r)))
  {
    UnlinkShape(t, i);
    var v := Released(Unlink(t, i), i);
    var r := Remove(t, i);
    if WellLinked(v) { SameLinks(v, r); }
    if Acyclic(v) {
      var rank: seq<nat>, top: nat :| Ranked(v, rank, top);
      assert Ranked(r, rank, top);
    }
  }

  lemma ProcessFrame(t: Table, now: nat)
    requires WellLinked(t) && t.pending != NIL
    ensures var r := Process(t, now);
            && t.pending < |t.ss| == |r.ss| && r.cur == t.cur
            && (forall j: nat :: j < |t.ss| ==> SameRecord(t.ss[j], r.ss[j]))
            && (forall j: nat :: j < |t.ss| && j != t.pending ==>
                  r.ss[j].slotTick == t.ss[j].slotTick && r.ss[j].inPending == t.ss[j].inPending)
            && !r.ss[t.pending].inPending
            && r.free == (if HeadIsDue(t, now) then t.free + [t.pending] else t.free)
            && r.index == (if !HeadIsDue(t, now) then t.index else
                           var index := t.index - {t.ss[t.pending].client};
                           if t.ss[t.pending].fullnat then index - {t.ss[t.pending].server} else index)
            && (!HeadIsDue(t, now) ==>
                  r.ss[t.pending].slotTick == var e := t.ss[t.pending].expire; if e < t.cur then t.cur else e)
  {
    PopShape(t);
    PopFrame(t);
    var p, u := t.pending, Pop(t);
    if u.ss[p].expire <= now {
      UnlinkShape(u, p);
      UnlinkFrame(u, p);
      RemoveAsRelease(u, p);
    } else {
      LinkFrame(u, p, u.ss[p].expire);
    }
  }

  /** The state in which the sweep of the current slot starts: the slot is empty, its old head lost. */
  function SweepStart(t: Table): Table
    requires |t.slots| == WHEEL_SLOTS
  {
    t.(slots := t.slots[t.cur % WHEEL_SLOTS := NIL])
  }

  lemma AdvanceAsDrain(t: Table)
    requires WellLinked(t)
    ensures Draining(SweepStart(t), t.slots[t.cur % WHEEL_SLOTS])
    ensures Repaired(SweepStart(t), t.slots[t.cur % WHEEL_SLOTS]) == SweepStart(t)
    ensures Advance(t) == DrainFrom(SweepStart(t), t.slots[t.cur % WHEEL_SLOTS]).(cur := t.cur + 1)
  {
    assert HeadOk(t, t.cur % WHEEL_SLOTS);
    AdvanceStart(t);
    var h := t.slots[t.cur % WHEEL_SLOTS];
    assert Repaired(SweepStart(t), h).ss == t.ss;
  }

  lemma AdvanceFrame(t: Table)
    requires WellLinked(t)
    ensures var r := Advance(t);
            && |r.ss| == |t.ss| && r.free == t.free && r.index == t.index
            && (forall j: nat :: j < |t.ss| ==> SameRecord(t.ss[j], r.ss[j]) && r.ss[j].slotTick == t.ss[j].slotTick)
            && (forall j: nat :: j < |t.ss| && ListOf(t.ss[j]) != t.cur % WHEEL_SLOTS ==>
                  r.ss[j].inPending == t.ss[j].inPending)
            && r.slots == t.slots[t.cur % WHEEL_SLOTS := NIL]
  {
    AdvanceAsDrain(t);
    assert HeadOk(t, t.cur % WHEEL_SLOTS);
    DrainFrame(SweepStart(t), t.slots[t.cur % WHEEL_SLOTS]);
  }

  lemma AdvanceLost(t: Table)
    requires WellLinked(t)
    ensures var r := Advance(t);
            && |r.ss| == |t.ss|
            && (forall j: nat :: Live(r, j) <==> Live(t, j))
            && Lost(r) == Lost(t)
            && (forall j: nat :: j in Lost(r) ==> r.ss[j].inPending == t.ss[j].inPending)
  {
    AdvanceAsDrain(t);
    AdvanceStart(t);
    assert HeadOk(t, t.cur % WHEEL_SLOTS);
    var h := t.slots[t.cur % WHEEL_SLOTS];
    DrainFrame(SweepStart(t), h);
    DrainLost(SweepStart(t), h);
    var t2 := DrainFrom(SweepStart(t), h);
    SameLinks(t2, Advance(t));
    assert h !in Lost(t);
    assert forall j: nat :: Live(SweepStart(t), j) <==> Live(t, j);
    assert forall j: nat :: Live(Advance(t), j) <==> Live(t2, j);
  }

  lemma AdvanceAcyclic(t: Table)
    requires WellLinked(t) && Acyclic(t)
    ensures Acyclic(Advance(t))
  {
    AdvanceAsDrain(t);
    var rank: seq<nat>, top: nat :| Ranked(t, rank, top);
    assert Ranked(SweepStart(t), rank, top);
    DrainAcyclic(SweepStart(t), t.slots[t.cur % WHEEL_SLOTS]);
    var t2 := DrainFrom(SweepStart(t), t.slots[t.cur % WHEEL_SLOTS]);
    var rank2: seq<nat>, top2: nat :| Ranked(t2, rank2, top2);
    assert Ranked(Advance(t), rank2, top2);
  }

  // ---------------------------------------------------------------------------------------------
  // What every step keeps
  // ---------------------------------------------------------------------------------------------

  lemma FreePushed(t: Table, u: Table, i: nat)
    requires FreeExact(t) && Live(t, i) && |u.ss| == |t.ss| && u.free == t.free + [i]
    requires forall j: nat :: Live(u, j) <==> Live(t, j) && j != i
    ensures FreeExact(u)
  {
    assert i !in t.free;
    forall j: nat ensures j in u.free <==> j in t.free || j == i { }
  }

  lemma ProcessPendingTicks(t: Table, now: nat, i: nat)
    requires Sound(t) && t.pending != NIL && Live(Process(t, now), i) && Process(t, now).ss[i].inPending
    ensures Process(t, now).ss[i].slotTick % WHEEL_SLOTS == (Process(t, now).cur - 1) % WHEEL_SLOTS
  {
    hide Process;
    hide WellLinked;
    ProcessLinks(t, now);
    ProcessFrame(t, now);
    assert Live(t, i) && t.ss[i].inPending;
  }

  lemma ProcessLostNotPending(t: Table, now: nat, i: nat)
    requires Sound(t) && t.pending != NIL && i in Lost(Process(t, now))
    ensures i < |Process(t, now).ss| && !Process(t, now).ss[i].inPending
  {
    ProcessLinks(t, now);
    ProcessFrame(t, now);
    assert HeadOk(t, t.ss[t.pending].slotTick % WHEEL_SLOTS);
    hide Process;
    hide WellLinked;
    assert i in Lost(t) || i in Clobbered(t, now);
  }

  lemma ProcessPending(t: Table, now: nat)
    requires Sound(t) && t.pending != NIL
    ensures PendingExact(Process(t, now))
  {
    var r := Process(t, now);
    forall i: nat | Live(r, i) && r.ss[i].inPending
      ensures r.ss[i].slotTick % WHEEL_SLOTS == (r.cur - 1) % WHEEL_SLOTS
    {
      ProcessPendingTicks(t, now, i);
    }
    forall i: nat | i in Lost(r)
      ensures !r.ss[i].inPending
    {
      ProcessLostNotPending(t, now, i);
    }
  }

  lemma ProcessSound(t: Table, now: nat)
    requires Sound(t) && t.pending != NIL
    ensures Sound(Process(t, now))
  {
    ProcessPending(t, now);
    ProcessLinks(t, now);
    ProcessFrame(t, now);
    assert HeadOk(t, PENDING_LIST);
    if HeadIsDue(t, now) {
      FreePushed(t, Process(t, now), t.pending);
    }
  }

  lemma AdvanceSound(t: Table)
    requires Sound(t) && t.pending == NIL
    ensures Sound(Advance(t))
  {
    AdvanceFrame(t);
    AdvanceLost(t);
    AdvanceAcyclic(t);
    var r := Advance(t);
    forall j: nat | Live(r, j) && r.ss[j].inPending
      ensures r.ss[j].slotTick % WHEEL_SLOTS == (r.cur - 1) % WHEEL_SLOTS
    {
      EmptyList(t, PENDING_LIST, j);
    }
  }

  // ---------------------------------------------------------------------------------------------
  // One call
  // ---------------------------------------------------------------------------------------------

  /** At some step of `Expire(t, now, budget)` a due session was next and its slot had been refilled. */
  predicate Clobbers(t: Table, now: nat, budget: nat)
    requires WellLinked(t)
    decreases budget, if t.cur <= now then now + 1 - t.cur else 0
  {
    budget > 0 &&
    if t.pending == NIL then t.cur <= now && Clobbers(Advance(t), now, budget)
    else WillClobber(t, now) || Clobbers(Process(t, now), now, budget - 1)
  }

  /** One step keeps every session reachable exactly when its guard is false. */
  lemma StepLosesNothingIff(t: Table, now: nat)
    requires WellLinked(t) && t.pending != NIL
    ensures Lost(t) <= Lost(Process(t, now))
    ensures Lost(Process(t, now)) == Lost(t) <==> !WillClobber(t, now)
  {
    ProcessLinks(t, now);
    assert HeadOk(t, PENDING_LIST);
    var k := t.ss[t.pending].slotTick % WHEEL_SLOTS;
    assert HeadOk(t, k);
    assert t.slots[k] != NIL ==> !IsLost(t, t.slots[k]);
    if WillClobber(t, now) {
      assert t.slots[k] in Lost(Process(t, now));
    }
  }

  /** A call keeps every session reachable exactly when no step met the guard; what is lost stays lost. */
  lemma {:induction false} ExpireLosesNothingIff(t: Table, now: nat, budget: nat)
    requires WellLinked(t)
    ensures Lost(t) <= Lost(Expire(t, now, budget))
    ensures Lost(Expire(t, now, budget)) == Lost(t) <==> !Clobbers(t, now, budget)
    decreases budget, if t.cur <= now then now + 1 - t.cur else 0
  {
    hide Process;
    hide Advance;
    hide WellLinked;
    if budget == 0 {
    } else if t.pending == NIL {
      if t.cur <= now {
        AdvanceLost(t);
        ExpireLosesNothingIff(Advance(t), now, budget);
      }
    } else {
      StepLosesNothingIff(t, now);
      ExpireLosesNothingIff(Process(t, now), now, budget - 1);
    }
  }

  /** Structure survives every call, whatever the clock and the timeouts. */
  lemma {:induction false} ExpireSound(t: Table, now: nat, budget: nat)
    requires Sound(t)
    ensures Sound(Expire(t, now, budget))
    decreases budget, if t.cur <= now then now + 1 - t.cur else 0
  {
    hide Process;
    hide Advance;
    hide WellLinked;
    if budget == 0 {
    } else if t.pending == NIL {
      if t.cur <= now {
        AdvanceSound(t);
        ExpireSound(Advance(t), now, budget);
      }
    } else {
      ProcessSound(t, now);
      ExpireSound(Process(t, now), now, budget - 1);
    }
  }

  /** `r` is `t` with some due sessions gone and the others' records unchanged. */
  ghost predicate OnlyDueGone(t: Table, r: Table, now: nat) {
    && |r.ss| == |t.ss|
    && (forall j: nat :: Live(r, j) ==> Live(t, j))
    && (forall j: nat :: j < |t.ss| ==> SameRecord(t.ss[j], r.ss[j]))
    && (forall j: nat :: Live(t, j) && !Live(r, j) ==> t.ss[j].expire <= now)
  }

  lemma OnlyDueGoneTransitive(a: Table, b: Table, c: Table, now: nat)
    requires OnlyDueGone(a, b, now) && OnlyDueGone(b, c, now)
    ensures OnlyDueGone(a, c, now)
  {
    forall j: nat | j < |a.ss| ensures SameRecord(a.ss[j], c.ss[j]) {
      assert SameRecord(a.ss[j], b.ss[j]) && SameRecord(b.ss[j], c.ss[j]);
    }
  }

  lemma StepRemovesOnlyDue(t: Table, now: nat)
    requires WellLinked(t) && t.pending != NIL
    ensures OnlyDueGone(t, Process(t, now), now)
  {
    ProcessFrame(t, now);
    ProcessLinks(t, now);
  }

  /** Only due sessions go, and the ones that stay keep their record. */
  lemma {:induction false} ExpireRemovesOnlyDue(t: Table, now: nat, budget: nat)
    requires WellLinked(t)
    ensures OnlyDueGone(t, Expire(t, now, budget), now)
    decreases budget, if t.cur <= now then now + 1 - t.cur else 0
  {
    hide Process;
    hide Advance;
    hide WellLinked;
    if budget == 0 {
    } else if t.pending == NIL {
      if t.cur <= now {
        AdvanceFrame(t);
        AdvanceLost(t);
        ExpireRemovesOnlyDue(Advance(t), now, budget);
        OnlyDueGoneTransitive(t, Advance(t), Expire(Advance(t), now, budget), now);
      }
    } else {
      StepRemovesOnlyDue(t, now);
      ExpireRemovesOnlyDue(Process(t, now), now, budget - 1);
      OnlyDueGoneTransitive(t, Process(t, now), Expire(Process(t, now), now, budget - 1), now);
    }
  }

  lemma StepBounded(t: Table, now: nat)
    requires WellLinked(t)
    ensures t.pending != NIL ==>
      var r := Process(t, now); r.cur == t.cur && |t.free| <= |r.free| <= |t.free| + 1
    ensures |Advance(t).free| == |t.free|
  {
    AdvanceFrame(t);
    if t.pending != NIL { ProcessFrame(t, now); }
  }

  /** The hand never runs ahead of the clock, and a call frees at most `budget` sessions. */
  lemma {:induction false} ExpireBounded(t: Table, now: nat, budget: nat)
    requires WellLinked(t)
    ensures t.cur <= Expire(t, now, budget).cur
    ensures t.cur <= now + 1 ==> Expire(t, now, budget).cur <= now + 1
    ensures |t.free| <= |Expire(t, now, budget).free| <= |t.free| + budget
    decreases budget, if t.cur <= now then now + 1 - t.cur else 0
  {
    hide Process;
    hide Advance;
    hide WellLinked;
    if budget == 0 {
    } else if t.pending == NIL {
      if t.cur <= now {
        StepBounded(t, now);
        ExpireBounded(Advance(t), now, budget);
      }
    } else {
      StepBounded(t, now);
      ExpireBounded(Process(t, now), now, budget - 1);
    }
  }

  lemma ProcessOnTime(t: Table, now: nat)
    requires Sound(t) && t.pending != NIL && OnTime(t) && t.cur <= now + 1
    ensures OnTime(Process(t, now))
  {
    ProcessFrame(t, now);
    ProcessLinks(t, now);
  }

  lemma AdvanceOnTime(t: Table)
    requires Sound(t) && t.pending == NIL && OnTime(t) && Lost(t) == {}
    ensures OnTime(Advance(t))
  {
    AdvanceFrame(t);
    AdvanceLost(t);
    AdvanceAcyclic(t);
    var r := Advance(t);
    forall j: nat | Live(r, j) && !r.ss[j].inPending
      ensures r.cur <= r.ss[j].slotTick <= r.ss[j].expire
    {
      EmptyList(r, t.cur % WHEEL_SLOTS, j);
    }
  }

  /** Every live session is reachable, no slot holds overdue sessions, and the hand is not ahead of `now`. */
  ghost predicate Timely(t: Table, now: nat) {
    Sound(t) && OnTime(t) && Lost(t) == {} && t.cur <= now + 1
  }

  lemma ProcessTimely(t: Table, now: nat)
    requires Timely(t, now) && t.pending != NIL && !WillClobber(t, now)
    ensures Timely(Process(t, now), now)
  {
    ProcessSound(t, now);
    StepLosesNothingIff(t, now);
    ProcessOnTime(t, now);
    StepBounded(t, now);
  }

  lemma AdvanceTimely(t: Table, now: nat)
    requires Timely(t, now) && t.pending == NIL && t.cur <= now
    ensures Timely(Advance(t), now)
  {
    AdvanceSound(t);
    AdvanceLost(t);
    AdvanceOnTime(t);
  }

  /** A call that loses nothing keeps the table timely. */
  lemma {:induction false} ExpireTimely(t: Table, now: nat, budget: nat)
    requires Timely(t, now) && !Clobbers(t, now, budget)
    ensures Timely(Expire(t, now, budget), now)
    decreases budget, if t.cur <= now then now + 1 - t.cur else 0
  {
    if budget == 0 {
    } else if t.pending == NIL {
      if t.cur <= now {
        AdvanceTimely(t, now);
        ExpireTimely(Advance(t), now, budget);
      }
    } else {
      ProcessTimely(t, now);
      ExpireTimely(Process(t, now), now, budget - 1);
    }
  }

  /** In a timely table with nothing left to look at, nothing is due. */
  lemma FinishedNotDue(t: Table, now: nat, j: nat)
    requires Timely(t, now) && Finished(t, now) && Live(t, j)
    ensures t.ss[j].expire > now
  {
    EmptyList(t, PENDING_LIST, j);
  }

  /** The wheel is the deadline map: a finished call that loses nothing leaves exactly the sessions that
      are not due yet, with their records untouched. */
  lemma ExpireExact(t: Table, now: nat, budget: nat)
    requires Timely(t, now) && !Clobbers(t, now, budget) && Finished(Expire(t, now, budget), now)
    ensures OnlyDueGone(t, Expire(t, now, budget), now)
    ensures forall j: nat :: Live(Expire(t, now, budget), j) <==> Live(t, j) && t.ss[j].expire > now
  {
    var r := Expire(t, now, budget);
    ExpireTimely(t, now, budget);
    ExpireRemovesOnlyDue(t, now, budget);
    forall j: nat
      ensures Live(r, j) <==> Live(t, j) && t.ss[j].expire > now
    {
      if Live(r, j) {
        FinishedNotDue(r, now, j);
        assert SameRecord(t.ss[j], r.ss[j]);
      }
    }
  }

  // ---------------------------------------------------------------------------------------------
  // Without laps nothing is ever lost
  // ---------------------------------------------------------------------------------------------

  lemma NoLapGuard(t: Table, now: nat)
    requires Timely(t, now) && NoLap(t) && t.pending != NIL
    ensures !WillClobber(t, now)
  {
    assert HeadOk(t, PENDING_LIST);
    var k := t.ss[t.pending].slotTick % WHEEL_SLOTS;
    assert HeadOk(t, k);
    if t.slots[k] != NIL {
      assert false;
    }
  }

  /** Both steps keep a table without laps as it is; a step that removes or moves a session never clobbers. */
  lemma NoLapStep(t: Table, now: nat)
    requires Timely(t, now) && NoLap(t)
    ensures t.pending != NIL ==>
      !WillClobber(t, now) && Timely(Process(t, now), now) && NoLap(Process(t, now))
    ensures t.pending == NIL && t.cur <= now ==> Timely(Advance(t), now) && NoLap(Advance(t))
  {
    if t.pending != NIL {
      NoLapGuard(t, now);
      ProcessTimely(t, now);
      ProcessFrame(t, now);
      StepRemovesOnlyDue(t, now);
    } else if t.cur <= now {
      AdvanceTimely(t, now);
      AdvanceFrame(t);
      AdvanceLost(t);
    }
  }

  /** Under no-lap every call is safe and no-lap still holds after it. */
  lemma {:induction false} NoLapExpire(t: Table, now: nat, budget: nat)
    requires Timely(t, now) && NoLap(t)
    ensures !Clobbers(t, now, budget)
    ensures Timely(Expire(t, now, budget), now) && NoLap(Expire(t, now, budget))
    decreases budget, if t.cur <= now then now + 1 - t.cur else 0
  {
    NoLapStep(t, now);
    if budget == 0 {
    } else if t.pending == NIL {
      if t.cur <= now { NoLapExpire(Advance(t), now, budget); }
    } else {
      NoLapExpire(Process(t, now), now, budget - 1);
    }
  }

  // ---------------------------------------------------------------------------------------------
  // The budget delays removal, it does not lose it
  // ---------------------------------------------------------------------------------------------

  /** Sessions a call at `now` still has to look at. */
  ghost function Backlog(t: Table, now: nat): set<nat> {
    set j: nat | j < |t.ss| && Live(t, j) && (t.ss[j].inPending || t.ss[j].slotTick <= now)
  }

  lemma SameTick(a: nat, b: nat)
    requires b <= a < b + WHEEL_SLOTS && a % WHEEL_SLOTS == b % WHEEL_SLOTS
    ensures a == b
  {
  }

  lemma ProcessBacklog(t: Table, now: nat)
    requires Timely(t, now) && t.pending != NIL
    ensures |Backlog(Process(t, now), now)| + 1 == |Backlog(t, now)|
  {
    assert HeadOk(t, PENDING_LIST);
    ProcessFrame(t, now);
    ProcessLinks(t, now);
    hide WellLinked;
    hide Process;
    assert Backlog(Process(t, now), now) == Backlog(t, now) - {t.pending};
  }

  lemma AdvanceBacklog(t: Table, now: nat)
    requires Timely(t, now) && NoLap(t) && t.pending == NIL && t.cur <= now
    ensures Backlog(Advance(t), now) == Backlog(t, now)
  {
    AdvanceFrame(t);
    AdvanceLost(t);
    var r := Advance(t);
    forall j: nat | Live(t, j)
      ensures j in Backlog(r, now) <==> j in Backlog(t, now)
    {
      EmptyList(t, PENDING_LIST, j);
      hide WellLinked;
      hide Advance;
      if r.ss[j].inPending {
        assert ListOf(t.ss[j]) == t.cur % WHEEL_SLOTS;
        SameTick(t.ss[j].slotTick, t.cur);
      }
    }
  }

  /** What a call owes: it finished, or it took exactly `budget` sessions off a backlog of `size`. */
  ghost predicate Paid(r: Table, now: nat, budget: nat, size: nat) {
    Finished(r, now) || |Backlog(r, now)| + budget == size
  }

  lemma {:induction false} ExpireBacklog(t: Table, now: nat, budget: nat, size: nat)
    requires Timely(t, now) && NoLap(t) && size == |Backlog(t, now)|
    ensures Paid(Expire(t, now, budget), now, budget, size)
    decreases budget, if t.cur <= now then now + 1 - t.cur else 0
  {
    hide Process;
    hide Advance;
    hide WellLinked;
    NoLapStep(t, now);
    if budget == 0 {
    } else if t.pending == NIL {
      if t.cur <= now {
        AdvanceBacklog(t, now);
        ExpireBacklog(Advance(t), now, budget, size);
      }
    } else {
      ProcessBacklog(t, now);
      ExpireBacklog(Process(t, now), now, budget - 1, size - 1);
      assert Paid(Expire(Process(t, now), now, budget - 1), now, budget, size);
    }
  }

  /** `r` holds exactly the sessions of `t` that are not due at `now`. */
  ghost predicate ExactlyNotDue(t: Table, r: Table, now: nat) {
    forall j: nat :: Live(r, j) <==> Live(t, j) && t.ss[j].expire > now
  }

  lemma ExactlyNotDueAfter(t: Table, u: Table, r: Table, now: nat)
    requires OnlyDueGone(t, u, now) && ExactlyNotDue(u, r, now)
    ensures ExactlyNotDue(t, r, now)
  {
    forall j: nat | j < |t.ss| ensures t.ss[j].expire == u.ss[j].expire {
      assert SameRecord(t.ss[j], u.ss[j]);
    }
  }

  lemma CallPays(t: Table, now: nat)
    requires Timely(t, now) && NoLap(t)
    ensures var r := Expire(t, now, EXPIRE_BUDGET);
            && Timely(r, now) && NoLap(r) && OnlyDueGone(t, r, now)
            && (if Finished(r, now) then ExactlyNotDue(r, r, now)
                else |Backlog(r, now)| + EXPIRE_BUDGET == |Backlog(t, now)|)
  {
    NoLapExpire(t, now, EXPIRE_BUDGET);
    ExpireBacklog(t, now, EXPIRE_BUDGET, |Backlog(t, now)|);
    ExpireRemovesOnlyDue(t, now, EXPIRE_BUDGET);
    if Finished(Expire(t, now, EXPIRE_BUDGET), now) {
      ExpireExact(t, now, EXPIRE_BUDGET);
    }
  }

  /** Consecutive calls at the same tick, with the states between them. */
  ghost predicate ExpireRun(run: seq<Table>, now: nat) {
    && |run| > 0
    && forall k: nat :: k + 1 < |run| ==> WellLinked(run[k]) && run[k + 1] == Expire(run[k], now, EXPIRE_BUDGET)
  }

  /** After `k` calls the work is done, or the backlog is `k` full budgets shorter. */
  lemma {:induction false} RunPays(run: seq<Table>, now: nat, k: nat)
    requires ExpireRun(run, now) && k < |run| && Timely(run[0], now) && NoLap(run[0])
    ensures Timely(run[k], now) && NoLap(run[k]) && OnlyDueGone(run[0], run[k], now)
    ensures Finished(run[k], now) || |Backlog(run[k], now)| + k * EXPIRE_BUDGET == |Backlog(run[0], now)|
  {
    if k > 0 {
      RunPays(run, now, k - 1);
      assert run[k - 1 + 1] == Expire(run[k - 1], now, EXPIRE_BUDGET);
      CallPays(run[k - 1], now);
      OnlyDueGoneTransitive(run[0], run[k - 1], run[k], now);
    }
  }

  ghost function LiveSet(t: Table): set<nat> {
    set j: nat | j < |t.ss| && Live(t, j)
  }

  /** With the clock standing still, one call more than the live sessions fill budgets leaves exactly
      the sessions that are not due. */
  lemma CallsDrainEverythingDue(run: seq<Table>, now: nat)
    requires ExpireRun(run, now) && Timely(run[0], now) && NoLap(run[0])
    requires |run| - 1 > |LiveSet(run[0])| / EXPIRE_BUDGET
    ensures ExactlyNotDue(run[0], run[|run| - 1], now)
  {
    var k := |run| - 1;
    RunPays(run, now, k);
    SubsetSize(Backlog(run[0], now), LiveSet(run[0]));
    assert Finished(run[k], now);
    forall j: nat | Live(run[k], j)
      ensures run[k].ss[j].expire > now
    {
      FinishedNotDue(run[k], now, j);
    }
    ExactlyNotDueAfter(run[0], run[k], run[k], now);
  }
}
