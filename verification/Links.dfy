/** The session table as a value, and the intrusive doubly linked lists threaded through its array:
    one list per wheel slot and the half-processed pending list. Every function performs the same
    stores as the list operation it is named after; the lemmas say which sessions each one loses. */
module Links {
  import opened Types

  const NIL: nat := 0xFFFF_FFFF
  /** Value of `prev` that marks an unused array element. */
  const FREE: nat := 0xFFFF_FFFE
  const WHEEL_SLOTS: nat := 4096
  const EXPIRE_BUDGET: nat := 4096
  /** List number of the half-processed list; numbers below it are wheel slots. */
  const PENDING_LIST: nat := 4096

  /** What the packet handlers keep in a session besides its keys and its deadline. */
  datatype App = App(rsId: nat, state: TcpState, clientFin: bool, serverFin: bool, toaPending: bool)

  const FRESH_APP := App(0, StNone, false, false, false)

  datatype Session = Session(
    client: FiveTuple, server: FiveTuple, fullnat: bool, app: App, created: nat, expire: nat,
    slotTick: nat, prev: nat, next: nat, inPending: bool)

  datatype Table = Table(
    ss: seq<Session>, free: seq<nat>, slots: seq<nat>, pending: nat, cur: nat, index: map<FiveTuple, nat>)

  /** A tick is a second, and only whole seconds advance: the extra one makes a session last its full timeout. */
  function Deadline(now: nat, timeout: nat): nat {
    now + (if timeout == 0 then 1 else timeout) + 1
  }

  predicate Live(t: Table, i: nat) {
    i < |t.ss| && t.ss[i].prev != FREE
  }

  /** The list a session says it is on. */
  function ListOf(s: Session): nat {
    if s.inPending then PENDING_LIST else s.slotTick % WHEEL_SLOTS
  }

  function Head(t: Table, list: nat): nat
    requires |t.slots| == WHEEL_SLOTS && list <= PENDING_LIST
  {
    if list == PENDING_LIST then t.pending else t.slots[list]
  }

  function SetHead(t: Table, list: nat, h: nat): Table
    requires |t.slots| == WHEEL_SLOTS && list <= PENDING_LIST
  {
    if list == PENDING_LIST then t.(pending := h) else t.(slots := t.slots[list := h])
  }

  // ---------------------------------------------------------------------------------------------
  // Shape of the intrusive lists
  // ---------------------------------------------------------------------------------------------

  predicate PrevOk(t: Table, i: nat)
    requires i < |t.ss|
  {
    var p := t.ss[i].prev;
    p == NIL || (Live(t, p) && t.ss[p].next == i && ListOf(t.ss[p]) == ListOf(t.ss[i]))
  }

  predicate NextOk(t: Table, i: nat)
    requires i < |t.ss|
  {
    var n := t.ss[i].next;
    n == NIL || (Live(t, n) && t.ss[n].prev == i && ListOf(t.ss[n]) == ListOf(t.ss[i]))
  }

  predicate HeadOk(t: Table, list: nat)
    requires |t.slots| == WHEEL_SLOTS && list <= PENDING_LIST
  {
    var h := Head(t, list);
    h == NIL || (Live(t, h) && t.ss[h].prev == NIL && ListOf(t.ss[h]) == list)
  }

  /** Neighbouring links agree and heads start lists. This is what every operation keeps, whatever the
      clock and the timeouts do; it does not say that each list can be reached from its head. */
  ghost predicate WellLinked(t: Table) {
    && |t.ss| <= FREE
    && |t.slots| == WHEEL_SLOTS
    && (forall i: nat {:trigger PrevOk(t, i)} :: Live(t, i) ==> PrevOk(t, i))
    && (forall i: nat {:trigger NextOk(t, i)} :: Live(t, i) ==> NextOk(t, i))
    && (forall list: nat :: list <= PENDING_LIST ==> HeadOk(t, list))
  }

  /** A live session that starts a list no head points to. */
  predicate IsLost(t: Table, i: nat)
    requires |t.slots| == WHEEL_SLOTS
  {
    Live(t, i) && t.ss[i].prev == NIL && Head(t, ListOf(t.ss[i])) != i
  }

  ghost function Lost(t: Table): set<nat>
    requires |t.slots| == WHEEL_SLOTS
  {
    set i: nat | i < |t.ss| && IsLost(t, i)
  }

  /** On no list: nothing points to `i` and it points to nothing. */
  ghost predicate Detached(t: Table, i: nat) {
    && |t.slots| == WHEEL_SLOTS
    && i < |t.ss|
    && (Live(t, i) ==> t.ss[i].prev == NIL && t.ss[i].next == NIL && IsLost(t, i))
  }

  // ---------------------------------------------------------------------------------------------
  // List operations
  // ---------------------------------------------------------------------------------------------

  /** wheel_link: push `i` on the slot of `tick`, never on a slot that has been swept already. */
  function Link(t: Table, i: nat, tick: nat): (r: Table)
    requires WellLinked(t) && i < |t.ss|
    ensures |r.ss| == |t.ss| && |r.slots| == |t.slots|
  {
    var at := if tick < t.cur then t.cur else tick;
    var slot := at % WHEEL_SLOTS;
    var h := t.slots[slot];
    assert HeadOk(t, slot);
    var ss := t.ss[i := t.ss[i].(slotTick := at, inPending := false, prev := NIL, next := h)];
    var ss := if h != NIL then ss[h := ss[h].(prev := i)] else ss;
    t.(ss := ss, slots := t.slots[slot := i])
  }

  /** wheel_unlink: the head store happens whenever `prev` is nil, without looking at the old head. */
  function Unlink(t: Table, i: nat): (r: Table)
    requires WellLinked(t) && Live(t, i)
    ensures |r.ss| == |t.ss| && |r.slots| == |t.slots|
  {
    var s := t.ss[i];
    assert PrevOk(t, i) && NextOk(t, i);
    var t1 := if s.prev != NIL
              then t.(ss := t.ss[s.prev := t.ss[s.prev].(next := s.next)])
              else SetHead(t, ListOf(s), s.next);
    var ss := if s.next != NIL then t1.ss[s.next := t1.ss[s.next].(prev := s.prev)] else t1.ss;
    t1.(ss := ss[i := ss[i].(prev := NIL, next := NIL)])
  }

  /** pending_push: the follower of `i` on its old list keeps pointing back at `i`. */
  function Push(t: Table, i: nat): Table
    requires i < |t.ss| && (t.pending == NIL || t.pending < |t.ss|)
  {
    var ss := t.ss[i := t.ss[i].(inPending := true, prev := NIL, next := t.pending)];
    var ss := if t.pending != NIL then ss[t.pending := ss[t.pending].(prev := i)] else ss;
    t.(ss := ss, pending := i)
  }

  /** pending_pop. */
  function Pop(t: Table): Table
    requires WellLinked(t) && t.pending != NIL
  {
    assert HeadOk(t, PENDING_LIST);
    var t1 := Unlink(t, t.pending);
    t1.(ss := t1.ss[t.pending := t1.ss[t.pending].(inPending := false)])
  }

  // ---------------------------------------------------------------------------------------------
  // What each list operation keeps, and which sessions it loses
  // ---------------------------------------------------------------------------------------------

  /** Fields that list operations leave alone. */
  predicate SameRecord(a: Session, b: Session) {
    a.client == b.client && a.server == b.server && a.fullnat == b.fullnat && a.app == b.app
    && a.created == b.created && a.expire == b.expire
  }

  lemma LinkHeads(t: Table, i: nat, tick: nat)
    requires WellLinked(t) && Detached(t, i)
    ensures forall list: nat :: list <= PENDING_LIST ==> HeadOk(Link(t, i, tick), list)
  {
    var u := Link(t, i, tick);
    assert HeadOk(t, (if tick < t.cur then t.cur else tick) % WHEEL_SLOTS);
    forall list: nat | list <= PENDING_LIST
      ensures HeadOk(u, list)
    {
      assert HeadOk(t, list);
    }
  }

  lemma LinkPrevs(t: Table, i: nat, tick: nat)
    requires WellLinked(t) && Detached(t, i)
    ensures forall j: nat :: Live(Link(t, i, tick), j) ==> PrevOk(Link(t, i, tick), j)
  {
    var u := Link(t, i, tick);
    assert HeadOk(t, (if tick < t.cur then t.cur else tick) % WHEEL_SLOTS);
    forall j: nat | Live(u, j)
      ensures PrevOk(u, j)
    {
      if j != i { assert PrevOk(t, j); }
    }
  }

  lemma LinkNexts(t: Table, i: nat, tick: nat)
    requires WellLinked(t) && Detached(t, i)
    ensures forall j: nat :: Live(Link(t, i, tick), j) ==> NextOk(Link(t, i, tick), j)
  {
    var u := Link(t, i, tick);
    assert HeadOk(t, (if tick < t.cur then t.cur else tick) % WHEEL_SLOTS);
    forall j: nat | Live(u, j)
      ensures NextOk(u, j)
    {
      if j != i { assert NextOk(t, j); }
    }
  }

  lemma LinkShape(t: Table, i: nat, tick: nat)
    requires WellLinked(t) && Detached(t, i)
    ensures WellLinked(Link(t, i, tick))
    ensures forall j: nat :: Live(Link(t, i, tick), j) <==> Live(t, j) || j == i
  {
    assert HeadOk(t, (if tick < t.cur then t.cur else tick) % WHEEL_SLOTS);
    LinkHeads(t, i, tick);
    LinkPrevs(t, i, tick);
    LinkNexts(t, i, tick);
  }

  lemma LinkLost(t: Table, i: nat, tick: nat)
    requires WellLinked(t) && Detached(t, i)
    ensures Lost(Link(t, i, tick)) == Lost(t) - {i}
  {
    var u := Link(t, i, tick);
    var slot := (if tick < t.cur then t.cur else tick) % WHEEL_SLOTS;
    var h := t.slots[slot];
    assert HeadOk(t, slot);
    forall j: nat | j < |t.ss|
      ensures IsLost(u, j) <==> IsLost(t, j) && j != i
    {
      if j != i && j != h {
        assert u.ss[j] == t.ss[j];
      }
    }
  }

  /** The session a head store of `Unlink(t, i)` cuts off: the list head, if `i` is not it. */
  ghost function Evicted(t: Table, i: nat): set<nat>
    requires |t.slots| == WHEEL_SLOTS && Live(t, i)
  {
    var h := Head(t, ListOf(t.ss[i]));
    if t.ss[i].prev == NIL && h != i && h != NIL then {h} else {}
  }

  lemma UnlinkHeads(t: Table, i: nat)
    requires WellLinked(t) && Live(t, i)
    ensures forall list: nat :: list <= PENDING_LIST ==> HeadOk(Unlink(t, i), list) && Head(Unlink(t, i), list) != i
  {
    var u := Unlink(t, i);
    assert PrevOk(t, i) && NextOk(t, i);
    forall list: nat | list <= PENDING_LIST
      ensures HeadOk(u, list) && Head(u, list) != i
    {
      assert HeadOk(t, list);
    }
  }

  lemma UnlinkPrevs(t: Table, i: nat)
    requires WellLinked(t) && Live(t, i)
    ensures forall j: nat :: Live(Unlink(t, i), j) ==> PrevOk(Unlink(t, i), j)
  {
    var u := Unlink(t, i);
    assert PrevOk(t, i) && NextOk(t, i);
    forall j: nat | Live(u, j)
      ensures PrevOk(u, j)
    {
      if j != i { assert PrevOk(t, j); }
    }
  }

  lemma UnlinkNexts(t: Table, i: nat)
    requires WellLinked(t) && Live(t, i)
    ensures forall j: nat :: Live(Unlink(t, i), j) ==> NextOk(Unlink(t, i), j)
  {
    var u := Unlink(t, i);
    assert PrevOk(t, i) && NextOk(t, i);
    forall j: nat | Live(u, j)
      ensures NextOk(u, j)
    {
      if j != i { assert NextOk(t, j); }
    }
  }

  lemma UnlinkShape(t: Table, i: nat)
    requires WellLinked(t) && Live(t, i)
    ensures WellLinked(Unlink(t, i)) && Detached(Unlink(t, i), i)
    ensures forall j: nat :: Live(Unlink(t, i), j) <==> Live(t, j)
  {
    assert PrevOk(t, i) && NextOk(t, i);
    UnlinkHeads(t, i);
    UnlinkPrevs(t, i);
    UnlinkNexts(t, i);
  }

  lemma UnlinkLost(t: Table, i: nat)
    requires WellLinked(t) && Live(t, i)
    ensures Lost(Unlink(t, i)) == Lost(t) + {i} + Evicted(t, i)
  {
    var u := Unlink(t, i);
    UnlinkHeads(t, i);
    assert PrevOk(t, i) && NextOk(t, i);
    var h := Head(t, ListOf(t.ss[i]));
    assert HeadOk(t, ListOf(t.ss[i]));
    forall j: nat | j < |t.ss|
      ensures IsLost(u, j) <==> IsLost(t, j) || j == i || j in Evicted(t, i)
    {
      if j != i {
        assert Live(t, j) ==> PrevOk(t, j) && HeadOk(t, ListOf(t.ss[j]));
      }
    }
  }

  lemma PopShape(t: Table)
    requires WellLinked(t) && t.pending != NIL
    ensures Live(t, t.pending)
    ensures WellLinked(Pop(t)) && Detached(Pop(t), t.pending)
    ensures forall j: nat :: Live(Pop(t), j) <==> Live(t, j)
    ensures Lost(Pop(t)) == Lost(t) + {t.pending}
  {
    var p := t.pending;
    assert HeadOk(t, PENDING_LIST);
    var t1 := Unlink(t, p);
    UnlinkShape(t, p);
    UnlinkLost(t, p);
    var u := Pop(t);
    forall list: nat | list <= PENDING_LIST
      ensures HeadOk(u, list) && Head(u, list) != p
    {
      assert HeadOk(t1, list);
    }
    forall j: nat | Live(u, j)
      ensures PrevOk(u, j) && NextOk(u, j)
    {
      assert PrevOk(t1, j) && NextOk(t1, j);
    }
    forall j: nat | j < |t.ss|
      ensures IsLost(u, j) <==> IsLost(t1, j)
    {
    }
  }

  // ---------------------------------------------------------------------------------------------
  // Sweeping one slot
  // ---------------------------------------------------------------------------------------------

  /** `t` with the back link of `head` cleared: a push leaves the follower's back link stale. */
  function Repaired(t: Table, head: nat): Table
    requires head == NIL || head < |t.ss|
  {
    if head == NIL then t else t.(ss := t.ss[head := t.ss[head].(prev := NIL)])
  }

  /** A sweep is under way and `head` starts what is left of the slot. */
  ghost predicate Draining(t: Table, head: nat) {
    && (head == NIL || head < |t.ss|)
    && WellLinked(Repaired(t, head))
    && (head != NIL ==> IsLost(Repaired(t, head), head) && !t.ss[head].inPending)
  }

  ghost function NotPending(t: Table): set<nat> {
    set i: nat | i < |t.ss| && !t.ss[i].inPending
  }

  /** State after pushing `head`, with the stale back link of its follower cleared. */
  function Pushed(t: Table, head: nat): Table
    requires head < |t.ss| && (t.pending == NIL || t.pending < |t.ss|)
    requires t.ss[head].next == NIL || t.ss[head].next < |t.ss|
  {
    Repaired(Push(t, head), t.ss[head].next)
  }

  lemma PushSafe(t: Table, head: nat)
    requires Draining(t, head) && head != NIL
    ensures (t.pending == NIL || t.pending < |t.ss|) && (t.ss[head].next == NIL || t.ss[head].next < |t.ss|)
    ensures NotPending(Push(t, head)) == NotPending(t) - {head}
  {
    assert NextOk(Repaired(t, head), head);
    assert HeadOk(Repaired(t, head), PENDING_LIST);
  }

  lemma PushPrevs(t: Table, head: nat)
    requires Draining(t, head) && head != NIL
    ensures (PushSafe(t, head); forall j: nat :: Live(Pushed(t, head), j) ==> PrevOk(Pushed(t, head), j))
  {
    PushSafe(t, head);
    var w, u := Repaired(t, head), Pushed(t, head);
    assert NextOk(w, head) && HeadOk(w, PENDING_LIST);
    forall j: nat | Live(u, j)
      ensures PrevOk(u, j)
    {
      assert PrevOk(w, j);
    }
  }

  lemma PushNexts(t: Table, head: nat)
    requires Draining(t, head) && head != NIL
    ensures (PushSafe(t, head); forall j: nat :: Live(Pushed(t, head), j) ==> NextOk(Pushed(t, head), j))
  {
    PushSafe(t, head);
    var w, u := Repaired(t, head), Pushed(t, head);
    assert NextOk(w, head) && HeadOk(w, PENDING_LIST);
    forall j: nat | Live(u, j)
      ensures NextOk(u, j)
    {
      assert NextOk(w, j);
    }
  }

  lemma PushShape(t: Table, head: nat)
    requires Draining(t, head) && head != NIL
    ensures (PushSafe(t, head); Draining(Push(t, head), t.ss[head].next))
  {
    PushSafe(t, head);
    PushPrevs(t, head);
    PushNexts(t, head);
    var w, u := Repaired(t, head), Pushed(t, head);
    var n := t.ss[head].next;
    assert NextOk(w, head) && HeadOk(w, PENDING_LIST);
    if n != NIL { assert HeadOk(w, ListOf(w.ss[n])); }
    forall list: nat | list <= PENDING_LIST
      ensures HeadOk(u, list)
    {
      assert HeadOk(w, list);
    }
  }

  lemma PushLost(t: Table, head: nat)
    requires Draining(t, head) && head != NIL
    ensures (PushSafe(t, head);
             var n := t.ss[head].next;
             n !in Lost(Repaired(t, head))
             && Lost(Pushed(t, head)) == Lost(Repaired(t, head)) - {head} + (if n == NIL then {} else {n}))
  {
    PushSafe(t, head);
    PushShape(t, head);
    var w, u := Repaired(t, head), Pushed(t, head);
    var n := t.ss[head].next;
    assert NextOk(w, head) && HeadOk(w, PENDING_LIST);
    forall j: nat | j < |t.ss|
      ensures IsLost(u, j) <==> (IsLost(w, j) && j != head) || j == n
    {
    }
  }

  /** Move the rest of a slot, starting at `head`, onto the pending list. */
  function DrainFrom(t: Table, head: nat): (r: Table)
    requires Draining(t, head)
    ensures WellLinked(r)
    decreases NotPending(t)
  {
    if head == NIL then t
    else
      PushSafe(t, head);
      PushShape(t, head);
      DrainFrom(Push(t, head), t.ss[head].next)
  }

  /** The part of expire that takes the current slot down and moves the clock hand. */
  function Advance(t: Table): (r: Table)
    requires WellLinked(t)
    ensures WellLinked(r)
    ensures r.cur == t.cur + 1
  {
    var slot := t.cur % WHEEL_SLOTS;
    var t1 := t.(slots := t.slots[slot := NIL]);
    AdvanceStart(t);
    var t2 := DrainFrom(t1, t.slots[slot]);
    DrainFrame(t1, t.slots[slot]);
    assert forall list: nat {:trigger HeadOk(t2.(cur := t.cur + 1), list)} :: list <= PENDING_LIST ==>
      HeadOk(t2, list) ==> HeadOk(t2.(cur := t.cur + 1), list);
    SameLinks(t2, t2.(cur := t.cur + 1));
    t2.(cur := t.cur + 1)
  }

  lemma SameLinks(t: Table, u: Table)
    requires WellLinked(t) && u.ss == t.ss && u.slots == t.slots && u.pending == t.pending
    ensures WellLinked(u) && Lost(u) == Lost(t)
  {
    forall list: nat | list <= PENDING_LIST ensures HeadOk(u, list) { assert HeadOk(t, list); }
    forall j: nat | Live(u, j) ensures PrevOk(u, j) && NextOk(u, j) { assert PrevOk(t, j) && NextOk(t, j); }
    forall j: nat | j < |t.ss| ensures IsLost(u, j) <==> IsLost(t, j) { }
  }

  lemma AdvanceStart(t: Table)
    requires WellLinked(t)
    ensures Draining(t.(slots := t.slots[t.cur % WHEEL_SLOTS := NIL]), t.slots[t.cur % WHEEL_SLOTS])
    ensures var h := t.slots[t.cur % WHEEL_SLOTS];
            Lost(t.(slots := t.slots[t.cur % WHEEL_SLOTS := NIL])) == Lost(t) + (if h == NIL then {} else {h})
  {
    var slot := t.cur % WHEEL_SLOTS;
    var h := t.slots[slot];
    var t1 := t.(slots := t.slots[slot := NIL]);
    assert HeadOk(t, slot);
    assert Repaired(t1, h).ss == t1.ss;
    assert Repaired(t1, h) == t1;
    forall list: nat | list <= PENDING_LIST ensures HeadOk(t1, list) { assert HeadOk(t, list); }
    forall j: nat | Live(t1, j) ensures PrevOk(t1, j) && NextOk(t1, j) { assert PrevOk(t, j) && NextOk(t, j); }
    forall j: nat | j < |t.ss| ensures IsLost(t1, j) <==> IsLost(t, j) || j == h {
      if Live(t, j) { assert HeadOk(t, ListOf(t.ss[j])); }
    }
  }

  /** A sweep changes links only; members of other lists keep their place. */
  lemma {:induction false} DrainFrame(t: Table, head: nat)
    requires Draining(t, head)
    ensures var r := DrainFrom(t, head);
            && |r.ss| == |t.ss| && r.slots == t.slots && r.cur == t.cur && r.free == t.free && r.index == t.index
            && (forall j: nat :: j < |t.ss| ==> SameRecord(t.ss[j], r.ss[j]) && r.ss[j].slotTick == t.ss[j].slotTick)
            && (forall j: nat :: j < |t.ss| && head != NIL && ListOf(t.ss[j]) != ListOf(t.ss[head]) ==>
                  r.ss[j].inPending == t.ss[j].inPending)
            && (forall j: nat :: j < |t.ss| && t.ss[j].inPending ==> r.ss[j].inPending)
    decreases NotPending(t)
  {
    if head != NIL {
      PushSafe(t, head);
      PushShape(t, head);
      assert NextOk(Repaired(t, head), head);
      DrainFrame(Push(t, head), t.ss[head].next);
    }
  }

  /** A sweep keeps every session, and the only lost one it takes in is the one it starts from. */
  lemma {:induction false} DrainLost(t: Table, head: nat)
    requires Draining(t, head)
    ensures var r := DrainFrom(t, head);
            && (forall j: nat :: Live(r, j) <==> Live(Repaired(t, head), j))
            && Lost(r) == Lost(Repaired(t, head)) - {head}
            && (forall j: nat :: j in Lost(r) ==> r.ss[j].inPending == t.ss[j].inPending)
    decreases NotPending(t)
  {
    if head != NIL {
      PushSafe(t, head);
      PushShape(t, head);
      PushLost(t, head);
      var w, u := Repaired(t, head), Pushed(t, head);
      assert NextOk(w, head) && HeadOk(w, PENDING_LIST);
      assert forall j: nat :: Live(u, j) <==> Live(w, j);
      DrainLost(Push(t, head), t.ss[head].next);
    }
  }

  // ---------------------------------------------------------------------------------------------
  // No list runs in a circle
  // ---------------------------------------------------------------------------------------------

  /** `rank` numbers sessions by when they were last pushed: a follower was pushed before its predecessor. */
  ghost predicate Ranked(t: Table, rank: seq<nat>, top: nat) {
    && |rank| == |t.ss|
    && forall i: nat :: Live(t, i) ==>
         rank[i] <= top && (t.ss[i].prev != NIL ==> t.ss[i].prev < |t.ss| && rank[i] < rank[t.ss[i].prev])
  }

  ghost predicate Acyclic(t: Table) {
    exists rank: seq<nat>, top: nat :: Ranked(t, rank, top)
  }

  lemma LinkAcyclic(t: Table, i: nat, tick: nat)
    requires WellLinked(t) && Detached(t, i) && Acyclic(t)
    ensures Acyclic(Link(t, i, tick))
  {
    var rank: seq<nat>, top: nat :| Ranked(t, rank, top);
    var u := Link(t, i, tick);
    assert HeadOk(t, (if tick < t.cur then t.cur else tick) % WHEEL_SLOTS);
    forall j: nat | Live(u, j)
      ensures rank[i := top + 1][j] <= top + 1
      ensures u.ss[j].prev != NIL ==> u.ss[j].prev < |u.ss| && rank[i := top + 1][j] < rank[i := top + 1][u.ss[j].prev]
    {
      if j != i { assert PrevOk(t, j); }
    }
    assert Ranked(u, rank[i := top + 1], top + 1);
  }

  lemma UnlinkAcyclic(t: Table, i: nat)
    requires WellLinked(t) && Live(t, i) && Acyclic(t)
    ensures Acyclic(Unlink(t, i))
  {
    var rank: seq<nat>, top: nat :| Ranked(t, rank, top);
    var u := Unlink(t, i);
    assert PrevOk(t, i) && NextOk(t, i);
    forall j: nat | Live(u, j)
      ensures rank[j] <= top
      ensures u.ss[j].prev != NIL ==> u.ss[j].prev < |u.ss| && rank[j] < rank[u.ss[j].prev]
    {
      assert Live(t, j);
    }
    assert Ranked(u, rank, top);
  }

  lemma PopAcyclic(t: Table)
    requires WellLinked(t) && t.pending != NIL && Acyclic(t)
    ensures Acyclic(Pop(t))
  {
    assert HeadOk(t, PENDING_LIST);
    UnlinkAcyclic(t, t.pending);
    var rank: seq<nat>, top: nat :| Ranked(Unlink(t, t.pending), rank, top);
    assert Ranked(Pop(t), rank, top);
  }

  lemma {:induction false} DrainAcyclic(t: Table, head: nat)
    requires Draining(t, head) && Acyclic(Repaired(t, head))
    ensures Acyclic(DrainFrom(t, head))
    decreases NotPending(t)
  {
    if head != NIL {
      PushSafe(t, head);
      PushShape(t, head);
      var w, u := Repaired(t, head), Pushed(t, head);
      var rank: seq<nat>, top: nat :| Ranked(w, rank, top);
      assert NextOk(w, head) && HeadOk(w, PENDING_LIST);
      forall j: nat | Live(u, j)
        ensures rank[head := top + 1][j] <= top + 1
        ensures u.ss[j].prev != NIL ==>
          u.ss[j].prev < |u.ss| && rank[head := top + 1][j] < rank[head := top + 1][u.ss[j].prev]
      {
        assert PrevOk(w, j);
      }
      assert Ranked(u, rank[head := top + 1], top + 1);
      hide WellLinked;
      hide Ranked;
      DrainAcyclic(Push(t, head), t.ss[head].next);
    }
  }

  /** Following back links from any session ends at the start of its list. */
  lemma {:induction false} StartOfList(t: Table, rank: seq<nat>, top: nat, i: nat) returns (root: nat)
    requires WellLinked(t) && Ranked(t, rank, top) && Live(t, i)
    ensures Live(t, root) && t.ss[root].prev == NIL && ListOf(t.ss[root]) == ListOf(t.ss[i])
    decreases top - rank[i]
  {
    root := i;
    if t.ss[i].prev != NIL {
      assert PrevOk(t, i);
      root := StartOfList(t, rank, top, t.ss[i].prev);
    }
  }

  /** A list whose head is nil has no members, unless it has lost one. */
  lemma EmptyList(t: Table, list: nat, i: nat)
    requires WellLinked(t) && Acyclic(t) && list <= PENDING_LIST && Head(t, list) == NIL
    requires forall j: nat :: j in Lost(t) ==> ListOf(t.ss[j]) != list
    ensures Live(t, i) ==> ListOf(t.ss[i]) != list
  {
    if Live(t, i) {
      var rank: seq<nat>, top: nat :| Ranked(t, rank, top);
      var root := StartOfList(t, rank, top, i);
      assert root in Lost(t) || Head(t, ListOf(t.ss[root])) == root;
    }
  }

  // ---------------------------------------------------------------------------------------------
  // What list operations leave alone
  // ---------------------------------------------------------------------------------------------

  /** `u` differs from `t` in links only, except that session `i` may have changed list. */
  ghost predicate OnlyMoved(t: Table, u: Table, i: nat) {
    && |u.ss| == |t.ss| && u.cur == t.cur && u.free == t.free && u.index == t.index
    && (forall j: nat :: j < |t.ss| ==> SameRecord(t.ss[j], u.ss[j]))
    && (forall j: nat :: j < |t.ss| && j != i ==>
          u.ss[j].slotTick == t.ss[j].slotTick && u.ss[j].inPending == t.ss[j].inPending)
  }

  lemma LinkFrame(t: Table, i: nat, tick: nat)
    requires WellLinked(t) && i < |t.ss|
    ensures OnlyMoved(t, Link(t, i, tick), i)
    ensures Detached(t, i) ==>
      !Link(t, i, tick).ss[i].inPending && Link(t, i, tick).ss[i].slotTick == if tick < t.cur then t.cur else tick
  {
    assert HeadOk(t, (if tick < t.cur then t.cur else tick) % WHEEL_SLOTS);
  }

  lemma UnlinkAt(t: Table, i: nat, j: nat)
    requires WellLinked(t) && Live(t, i) && j < |t.ss|
    ensures SameRecord(t.ss[j], Unlink(t, i).ss[j])
    ensures Unlink(t, i).ss[j].slotTick == t.ss[j].slotTick && Unlink(t, i).ss[j].inPending == t.ss[j].inPending
  {
    assert PrevOk(t, i) && NextOk(t, i);
  }

  lemma UnlinkFrame(t: Table, i: nat)
    requires WellLinked(t) && Live(t, i)
    ensures OnlyMoved(t, Unlink(t, i), i)
    ensures Unlink(t, i).ss[i].slotTick == t.ss[i].slotTick && Unlink(t, i).ss[i].inPending == t.ss[i].inPending
  {
    assert PrevOk(t, i) && NextOk(t, i);
    var u := Unlink(t, i);
    assert u.cur == t.cur && u.free == t.free && u.index == t.index;
    hide Unlink;
    forall j: nat | j < |t.ss|
      ensures SameRecord(t.ss[j], u.ss[j])
      ensures u.ss[j].slotTick == t.ss[j].slotTick && u.ss[j].inPending == t.ss[j].inPending
    {
      UnlinkAt(t, i, j);
    }
  }

  lemma PopFrame(t: Table)
    requires WellLinked(t) && t.pending != NIL
    ensures OnlyMoved(t, Pop(t), t.pending) && t.pending < |t.ss|
    ensures Pop(t).slots == t.slots
    ensures !Pop(t).ss[t.pending].inPending && Pop(t).ss[t.pending].slotTick == t.ss[t.pending].slotTick
  {
    assert HeadOk(t, PENDING_LIST);
    UnlinkFrame(t, t.pending);
  }

  /** The index is not part of the lists. */
  lemma UnlinkIgnoresIndex(t: Table, i: nat, index: map<FiveTuple, nat>)
    requires WellLinked(t) && Live(t, i)
    ensures WellLinked(t.(index := index))
    ensures Unlink(t.(index := index), i) == Unlink(t, i).(index := index)
  {
    SameLinks(t, t.(index := index));
  }
}
