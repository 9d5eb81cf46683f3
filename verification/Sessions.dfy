/** The session table as the worker owns it: arrays and counters updated in place. Each method is proved
    to leave exactly the state its function in Links.dfy and Wheel.dfy describes. */
module Sessions {
  import opened Types
  import opened Links
  import opened Wheel
  import opened Expiry
  import opened TableOps

  class SessionTable {
    const sessions: array<Session>
    const freeStack: array<nat>
    const slots: array<nat>
    var freeTop: nat
    var pending: nat
    var curTick: nat
    var index: map<FiveTuple, nat>

    ghost predicate Shape()
      reads this
    {
      freeStack != slots && slots.Length == WHEEL_SLOTS && freeStack.Length == sessions.Length
      && freeTop <= freeStack.Length
    }

    /** The abstract value of the table. */
    ghost function View(): Table
      reads this, sessions, freeStack, slots
      requires Shape()
    {
      Table(sessions[..], freeStack[..freeTop], slots[..], pending, curTick, index)
    }

    /** Holds between any two operations, whatever the clock and the timeouts were. */
    ghost predicate Valid()
      reads this, sessions, freeStack, slots
    {
      Shape() && Sound(View())
    }

    constructor (capacity: nat, now: nat)
      requires 0 < capacity <= FREE && now > 0
      ensures Valid() && View() == Fresh(capacity, now)
      ensures Timely(View(), now) && NoLap(View()) && IndexExact(index, Flows(View())) && Flows(View()) == map[]
      ensures fresh(sessions) && fresh(freeStack) && fresh(slots)
    {
      sessions := new Session[capacity](_ => BLANK);
      freeStack := new nat[capacity](_ => 0);
      slots := new nat[WHEEL_SLOTS](_ => NIL);
      freeTop, pending, curTick, index := capacity, NIL, now, map[];
      new;
      var i := 0;
      while i < capacity
        invariant i <= capacity && freeTop == capacity && pending == NIL && curTick == now && index == map[]
        invariant forall j: nat :: j < i ==> freeStack[j] == capacity - 1 - j
        invariant forall j: nat :: j < capacity ==> sessions[j] == BLANK
        invariant forall j: nat :: j < WHEEL_SLOTS ==> slots[j] == NIL
      {
        freeStack[i] := capacity - 1 - i;
        i := i + 1;
      }
      FreshIsSound(capacity, now);
      assert View().ss == Fresh(capacity, now).ss;
      assert View().free == Fresh(capacity, now).free;
      assert View().slots == Fresh(capacity, now).slots;
    }

    /** active(): the number of live flows. */
    method Active() returns (n: nat)
      requires Valid() && FreeExact(View())
      ensures n == |Flows(View())|
    {
      ActiveIsFlowCount(View());
      n := sessions.Length - freeTop;
    }

    method Lookup(key: FiveTuple) returns (found: Option<nat>)
      requires Valid()
      ensures found == if key in index then Some(index[key]) else None
      ensures IndexExact(index, Flows(View())) ==>
        (found.Some? <==> exists i :: i in Flows(View()) && HasKey(Flows(View())[i], key))
        && (found.Some? ==> found.value in Flows(View()) && HasKey(Flows(View())[found.value], key))
    {
      found := if key in index then Some(index[key]) else None;
      ghost var flows := Flows(View());
      if IndexExact(index, flows) {
        forall i | i in flows && HasKey(flows[i], key) ensures key in index {
          assert Indexed(index, flows[i], i);
        }
      }
    }

    method WheelLink(idx: nat, tick: nat)
      requires Shape() && WellLinked(View()) && idx < sessions.Length
      modifies sessions, slots
      ensures View() == Link(old(View()), idx, tick)
    {
      ghost var t := View();
      var at := if tick < curTick then curTick else tick;
      var slot := at % WHEEL_SLOTS;
      assert HeadOk(t, slot);
      var h := slots[slot];
      sessions[idx] := sessions[idx].(slotTick := at, inPending := false, prev := NIL, next := h);
      if h != NIL {
        sessions[h] := sessions[h].(prev := idx);
      }
      slots[slot] := idx;
      assert View().ss == Link(t, idx, tick).ss;
      assert View().slots == Link(t, idx, tick).slots;
    }

    method WheelUnlink(idx: nat)
      requires Shape() && WellLinked(View()) && Live(View(), idx)
      modifies this`pending, sessions, slots
      ensures View() == Unlink(old(View()), idx)
    {
      ghost var t := View();
      assert PrevOk(t, idx) && NextOk(t, idx);
      var s := sessions[idx];
      if s.prev != NIL {
        sessions[s.prev] := sessions[s.prev].(next := s.next);
      } else if s.inPending {
        pending := s.next;
      } else {
        slots[s.slotTick % WHEEL_SLOTS] := s.next;
      }
      if s.next != NIL {
        sessions[s.next] := sessions[s.next].(prev := s.prev);
      }
      sessions[idx] := sessions[idx].(prev := NIL, next := NIL);
      assert View().ss == Unlink(t, idx).ss;
      assert View().slots == Unlink(t, idx).slots;
    }

    method PendingPush(idx: nat)
      requires Shape() && idx < sessions.Length && (pending == NIL || pending < sessions.Length)
      modifies this`pending, sessions
      ensures View() == Push(old(View()), idx)
    {
      ghost var t := View();
      sessions[idx] := sessions[idx].(inPending := true, prev := NIL, next := pending);
      if pending != NIL {
        sessions[pending] := sessions[pending].(prev := idx);
      }
      pending := idx;
      assert View().ss == Push(t, idx).ss;
    }

    method PendingPop() returns (idx: nat)
      requires Shape() && WellLinked(View()) && pending != NIL
      modifies this`pending, sessions, slots
      ensures idx == old(pending) && View() == Pop(old(View()))
      ensures idx < sessions.Length
    {
      ghost var t := View();
      assert HeadOk(t, PENDING_LIST);
      idx := pending;
      WheelUnlink(idx);
      sessions[idx] := sessions[idx].(inPending := false);
      assert View().ss == Pop(t).ss;
    }

    /** `clientAdded` and `serverAdded` are the hash's answers. */
    method Create(client: FiveTuple, server: Option<FiveTuple>, now: nat, timeout: nat,
                  clientAdded: bool, serverAdded: bool) returns (idx: Option<nat>)
      requires Valid()
      modifies this, sessions, freeStack, slots
      ensures Valid()
      ensures Created(View(), idx) == Wheel.Create(old(View()), client, server, now, timeout, clientAdded, serverAdded)
    {
      hide Acyclic;
      hide FreeExact;
      hide PendingExact;
      ghost var t := View();
      CreateFails(t, client, server, now, timeout, clientAdded, serverAdded);
      if freeTop == 0 {
        return None;
      }
      var i := freeStack[freeTop - 1];
      assert i == t.free[|t.free| - 1];
      if !clientAdded {
        return None;
      }
      index := index[client := i];
      if server.Some? && !serverAdded {
        index := index - {client};
        return None;
      }
      if server.Some? {
        index := index[server.value := i];
      }
      CreateAdds(t, client, server, now, timeout);
      CreateLinks(t, client, server, now, timeout);
      freeTop := freeTop - 1;
      sessions[i] := Session(client, if server.Some? then server.value else ZERO_TUPLE, server.Some?, FRESH_APP,
                             now, Deadline(now, timeout), 0, FREE, NIL, false);
      assert View().ss == Prepared(t, client, server, now, timeout).ss;
      assert View().free == t.free[..|t.free| - 1];
      assert View() == Prepared(t, client, server, now, timeout);
      WheelLink(i, Deadline(now, timeout));
      idx := Some(i);
    }

    method Remove(idx: nat)
      requires Shape() && WellLinked(View()) && Live(View(), idx) && FreeExact(View())
      modifies this, sessions, freeStack, slots
      ensures Shape() && View() == Wheel.Remove(old(View()), idx)
      ensures old(Valid()) ==> Valid()
    {
      ghost var t := View();
      FreeIsNotFull(t, idx);
      hide FreeExact;
      hide Acyclic;
      hide PendingExact;
      index := index - {sessions[idx].client};
      if sessions[idx].fullnat {
        index := index - {sessions[idx].server};
      }
      UnlinkIgnoresIndex(t, idx, index);
      assert View() == t.(index := index);
      WheelUnlink(idx);
      ghost var u := View();
      sessions[idx] := sessions[idx].(prev := FREE);
      freeStack[freeTop] := idx;
      freeTop := freeTop + 1;
      assert View().ss == Released(u, idx).ss;
      assert View().free == Released(u, idx).free;
      assert View() == Wheel.Remove(t, idx);
      if Sound(t) { RemoveSound(t, idx); }
    }

    method Touch(idx: nat, now: nat, timeout: nat)
      requires Shape() && WellLinked(View()) && Live(View(), idx)
      modifies this`pending, sessions, slots
      ensures View() == Wheel.Touch(old(View()), idx, now, timeout)
      ensures old(Valid()) ==> Valid()
    {
      ghost var t := View();
      if Sound(t) { TouchSound(t, idx, now, timeout); }
      var exp := Deadline(now, timeout);
      if exp < sessions[idx].slotTick && !sessions[idx].inPending {
        UnlinkShape(t, idx);
        WheelUnlink(idx);
        WheelLink(idx, exp);
      }
      sessions[idx] := sessions[idx].(expire := exp);
      assert View().ss == Wheel.Touch(t, idx, now, timeout).ss;
    }

    /** Write the part of a session that packet handlers own. */
    method SetApp(idx: nat, app: App)
      requires Valid() && Live(View(), idx)
      modifies sessions
      ensures Valid() && View() == WithApp(old(View()), idx, app)
    {
      WithAppSound(View(), idx, app);
      ghost var t := View();
      sessions[idx] := sessions[idx].(app := app);
      assert View().ss == WithApp(t, idx, app).ss;
    }

    /** Take the slot under the hand down and move the hand. */
    method Sweep()
      requires Shape() && WellLinked(View())
      modifies this`pending, this`curTick, sessions, slots
      ensures View() == Advance(old(View()))
    {
      ghost var t := View();
      AdvanceStart(t);
      var slot := curTick % WHEEL_SLOTS;
      var head := slots[slot];
      slots[slot] := NIL;
      ghost var start, first := View(), head;
      assert start == SweepStart(t);
      while head != NIL
        invariant Shape() && curTick == t.cur && freeTop == |t.free| && index == t.index
        invariant freeStack[..freeTop] == t.free
        invariant Draining(View(), head)
        invariant DrainFrom(View(), head) == DrainFrom(start, first)
        decreases NotPending(View())
      {
        PushSafe(View(), head);
        PushShape(View(), head);
        var next := sessions[head].next;
        PendingPush(head);
        head := next;
      }
      assert View() == DrainFrom(start, first);
      curTick := curTick + 1;
    }

    method Expire(now: nat) returns (removed: nat)
      requires Valid()
      modifies this, sessions, freeStack, slots
      ensures Valid() && View() == Wheel.Expire(old(View()), now, EXPIRE_BUDGET)
      ensures removed <= EXPIRE_BUDGET && freeTop == old(freeTop) + removed
    {
      hide WellLinked;
      hide Process;
      hide Advance;
      ghost var t0 := View();
      removed := 0;
      var budget: nat := EXPIRE_BUDGET;
      while budget > 0
        invariant budget <= EXPIRE_BUDGET
        invariant Valid() && Wheel.Expire(View(), now, budget) == Wheel.Expire(t0, now, EXPIRE_BUDGET)
        invariant freeTop == old(freeTop) + removed && removed + budget <= EXPIRE_BUDGET
        decreases budget, if curTick <= now then now + 1 - curTick else 0
      {
        if pending == NIL {
          if curTick > now {
            break;
          }
          AdvanceSound(View());
          AdvanceFrame(View());
          Sweep();
        } else {
          var due := ProcessPending(now);
          budget := budget - 1;
          if due {
            removed := removed + 1;
          }
        }
      }
    }

    /** One iteration of expiry: pop a pending session and remove it or put it back. */
    method ProcessPending(now: nat) returns (due: bool)
      requires Valid() && pending != NIL
      modifies this, sessions, freeStack, slots
      ensures Valid() && View() == Process(old(View()), now)
      ensures due == old(HeadIsDue(View(), now)) && freeTop == old(freeTop) + (if due then 1 else 0)
    {
      ghost var t := View();
      ProcessSound(t, now);
      ProcessFrame(t, now);
      PopShape(t);
      PopFrame(t);
      var idx := PendingPop();
      assert FreeExact(View());
      due := sessions[idx].expire <= now;
      if due {
        Remove(idx);
      } else {
        WheelLink(idx, sessions[idx].expire);
      }
    }
  }
}
