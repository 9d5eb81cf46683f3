/** Publication of snapshots under quiescent-state based reclamation, as interleaved steps of any number of reader
    threads (workers and master) and any number of publishers. Each step is one atomic access to shared state. */
module Rcu {
  import opened Types

  /** A reader: its counter is 0 while offline, else the token it last reported; it may hold a snapshot, or be on the
      way of reporting a token it has read. */
  datatype Reader = Reader(count: nat, holds: Option<nat>, seen: Option<nat>)

  const OFFLINE := Reader(0, None, None)

  /** A publisher that has taken `snap` out of the current pointer. After drawing token `since` it checks the
      readers one by one; before, `since` is 0. */
  datatype Retiring = Retiring(snap: nat, since: nat, checked: nat)

  datatype State = State(cur: nat, next: nat, token: nat, readers: seq<Reader>, retiring: seq<Retiring>, deleted: set<nat>)

  datatype Action =
    | ReadToken(i: nat)     // done with the snapshot of this round, or coming online: read the token
    | StoreToken(i: nat)    // and report it
    | Load(i: nat)          // read the current pointer
    | Offline(i: nat)
    | Exchange              // publish a new snapshot, take the old one out
    | Draw(p: nat)          // start waiting: draw a token
    | Check(p: nat)         // find the next reader past its quiescent state
    | Delete(p: nat)        // all readers checked

  /** The reader cannot hold anything it loaded before the token was drawn. */
  predicate Passed(r: Reader, since: nat) { r.count == 0 || r.count >= since }

  predicate Enabled(s: State, a: Action) {
    match a
    case ReadToken(i) => i < |s.readers| && s.readers[i].seen == None
    case StoreToken(i) => i < |s.readers| && s.readers[i].seen != None
    case Load(i) => i < |s.readers| && s.readers[i].count > 0 && s.readers[i].seen == None
    case Offline(i) => i < |s.readers| && s.readers[i].count > 0 && s.readers[i].seen == None
    case Exchange => true
    case Draw(p) => p < |s.retiring| && s.retiring[p].since == 0
    case Check(p) =>
      && p < |s.retiring| && s.retiring[p].since > 0 && s.retiring[p].checked < |s.readers|
      && Passed(s.readers[s.retiring[p].checked], s.retiring[p].since)
    case Delete(p) => p < |s.retiring| && s.retiring[p].since > 0 && s.retiring[p].checked == |s.readers|
  }

  function Next(s: State, a: Action): State
    requires Enabled(s, a)
  {
    match a
    case ReadToken(i) => s.(readers := s.readers[i := Reader(s.readers[i].count, None, Some(s.token))])
    case StoreToken(i) => s.(readers := s.readers[i := Reader(s.readers[i].seen.value, None, None)])
    case Load(i) => s.(readers := s.readers[i := s.readers[i].(holds := Some(s.cur))])
    case Offline(i) => s.(readers := s.readers[i := OFFLINE])
    case Exchange => s.(cur := s.next, next := s.next + 1, retiring := s.retiring + [Retiring(s.cur, 0, 0)])
    case Draw(p) => s.(token := s.token + 1, retiring := s.retiring[p := s.retiring[p].(since := s.token + 1)])
    case Check(p) => s.(retiring := s.retiring[p := s.retiring[p].(checked := s.retiring[p].checked + 1)])
    case Delete(p) =>
      s.(retiring := s.retiring[..p] + s.retiring[p + 1..], deleted := s.deleted + {s.retiring[p].snap})
  }

  predicate Initial(s: State) {
    && s.cur == 0 && s.next == 1 && s.token == 1 && s.retiring == [] && s.deleted == {}
    && forall i: nat :: i < |s.readers| ==> s.readers[i] == OFFLINE
  }

  /** No thread holds a deleted snapshot, and the current one is not deleted. */
  predicate Safe(s: State) {
    && s.cur !in s.deleted
    && forall i: nat :: i < |s.readers| && s.readers[i].holds.Some? ==> s.readers[i].holds.value !in s.deleted
  }

  // ---------------------------------------------------------------------------------------------
  // The invariant
  // ---------------------------------------------------------------------------------------------

  predicate ReaderOk(s: State, r: Reader) {
    && r.count <= s.token && (r.seen.Some? ==> 0 < r.seen.value <= s.token && r.holds == None)
    && (r.holds.Some? ==> r.count > 0 && r.holds.value < s.next && r.holds.value !in s.deleted)
  }

  /** What is being retired is out of reach, and a reader still holding it has not reported since. */
  predicate RetiringOk(s: State, q: Retiring) {
    && q.snap != s.cur && q.snap < s.next && q.snap !in s.deleted && q.since <= s.token && q.checked <= |s.readers|
    && (forall i: nat :: i < |s.readers| && s.readers[i].holds == Some(q.snap) && q.since > 0 ==>
          s.readers[i].count < q.since && q.checked <= i)
    && (q.since == 0 ==> q.checked == 0)
  }

  predicate Inv(s: State) {
    && s.token > 0 && s.cur < s.next && s.cur !in s.deleted && (forall x :: x in s.deleted ==> x < s.next)
    && (forall i: nat :: i < |s.readers| ==> ReaderOk(s, s.readers[i]))
    && (forall p: nat :: p < |s.retiring| ==> RetiringOk(s, s.retiring[p]))
    && (forall p: nat, q: nat :: p < q < |s.retiring| ==> s.retiring[p].snap != s.retiring[q].snap)
  }

  lemma StepInv(s: State, a: Action)
    requires Inv(s) && Enabled(s, a)
    ensures Inv(Next(s, a))
  {
    hide Inv;
    match a
    case Delete(p) => DeleteInv(s, p);
    case Draw(p) => DrawInv(s, p);
    case Exchange => ExchangeInv(s);
    case Check(p) => CheckInv(s, p);
    case Load(i) =>
      ReaderBounded(s, i);
      ReaderInv(s, i, s.readers[i].(holds := Some(s.cur)));
    case Offline(i) => ReaderInv(s, i, OFFLINE);
    case ReadToken(i) =>
      ReaderBounded(s, i);
      ReaderInv(s, i, Reader(s.readers[i].count, None, Some(s.token)));
    case StoreToken(i) =>
      ReaderBounded(s, i);
      ReaderInv(s, i, Reader(s.readers[i].seen.value, None, None));
  }

  lemma ReaderBounded(s: State, i: nat)
    requires Inv(s) && i < |s.readers|
    ensures s.token > 0 && s.readers[i].count <= s.token
    ensures s.readers[i].seen.Some? ==> 0 < s.readers[i].seen.value <= s.token
  {
    assert ReaderOk(s, s.readers[i]);
  }

  /** Any step of a reader: it keeps its counter or lets go, and what it holds is current. */
  lemma ReaderInv(s: State, i: nat, r: Reader)
    requires Inv(s) && i < |s.readers| && r.count <= s.token
    requires r.seen.Some? ==> 0 < r.seen.value <= s.token && r.holds == None
    requires r.holds == None || (r.holds == Some(s.cur) && r.count > 0)
    ensures Inv(s.(readers := s.readers[i := r]))
  {
  }

  lemma CheckInv(s: State, p: nat)
    requires Inv(s) && Enabled(s, Check(p))
    ensures Inv(Next(s, Check(p)))
  {
    assert RetiringOk(s, s.retiring[p]);
    var k := s.retiring[p].checked;
    assert ReaderOk(s, s.readers[k]);
  }

  lemma DrawInv(s: State, p: nat)
    requires Inv(s) && Enabled(s, Draw(p))
    ensures Inv(Next(s, Draw(p)))
  {
  }

  lemma ExchangeInv(s: State)
    requires Inv(s)
    ensures Inv(Next(s, Exchange))
  {
  }

  lemma DeleteInv(s: State, p: nat)
    requires Inv(s) && Enabled(s, Delete(p))
    ensures Inv(Next(s, Delete(p)))
  {
    var t, gone := Next(s, Delete(p)), s.retiring[p].snap;
    forall q: nat | q < |t.retiring| ensures RetiringOk(t, t.retiring[q]) && t.retiring[q].snap != gone {
      var k := if q < p then q else q + 1;
      assert t.retiring[q] == s.retiring[k];
    }
    forall q: nat, r: nat | q < r < |t.retiring| ensures t.retiring[q].snap != t.retiring[r].snap {
      var k, l := if q < p then q else q + 1, if r < p then r else r + 1;
      assert t.retiring[q] == s.retiring[k] && t.retiring[r] == s.retiring[l];
    }
    forall i: nat | i < |t.readers| ensures ReaderOk(t, t.readers[i]) {
      assert RetiringOk(s, s.retiring[p]) && ReaderOk(s, s.readers[i]);
    }
  }

  ghost predicate IsRun(states: seq<State>, actions: seq<Action>) {
    && |states| == |actions| + 1 && Initial(states[0])
    && forall k: nat :: k < |actions| ==> Enabled(states[k], actions[k]) && states[k + 1] == Next(states[k], actions[k])
  }

  /** On every interleaving, whatever a thread is using has not been deleted, and no snapshot leaks. */
  lemma {:induction false} EveryRunIsSafe(states: seq<State>, actions: seq<Action>, k: nat)
    requires IsRun(states, actions) && k < |states|
    ensures Inv(states[k]) && Safe(states[k]) && Accounted(states[k])
  {
    hide Inv;
    hide Accounted;
    if k == 0 {
      InitialInv(states[0]);
    } else {
      EveryRunIsSafe(states, actions, k - 1);
      assert states[k - 1 + 1] == Next(states[k - 1], actions[k - 1]);
      StepInv(states[k - 1], actions[k - 1]);
      StepAccounted(states[k - 1], actions[k - 1]);
    }
    InvIsSafe(states[k]);
  }

  lemma InitialInv(s: State)
    requires Initial(s)
    ensures Inv(s) && Accounted(s)
  {
  }

  lemma InvIsSafe(s: State)
    requires Inv(s)
    ensures Safe(s)
  {
    forall i: nat | i < |s.readers| && s.readers[i].holds.Some? ensures s.readers[i].holds.value !in s.deleted {
      assert ReaderOk(s, s.readers[i]);
    }
  }

  // ---------------------------------------------------------------------------------------------
  // Nothing leaks, and waiting ends
  // ---------------------------------------------------------------------------------------------

  /** Every snapshot ever published is current, being retired, or deleted. */
  ghost predicate Accounted(s: State) {
    forall x: nat :: x < s.next ==>
      x == s.cur || x in s.deleted || exists p: nat :: p < |s.retiring| && s.retiring[p].snap == x
  }

  lemma StepAccounted(s: State, a: Action)
    requires Accounted(s) && Enabled(s, a)
    ensures Accounted(Next(s, a))
  {
    var t := Next(s, a);
    forall x: nat | x < t.next
      ensures x == t.cur || x in t.deleted || exists p: nat :: p < |t.retiring| && t.retiring[p].snap == x
    {
      if x == s.cur {
        if a == Exchange { assert t.retiring[|s.retiring|].snap == x; }
      } else if p: nat :| p < |s.retiring| && s.retiring[p].snap == x {
        match a
        case Delete(q) => if p != q { assert t.retiring[if p < q then p else p - 1].snap == x; }
        case _ => assert t.retiring[p].snap == x;
      }
    }
  }

  /** What is left of a report already begun, and then a whole one. */
  function Reported(s: State, i: nat): State
    requires i < |s.readers|
  {
    var s1 := if s.readers[i].seen.Some? then Next(s, StoreToken(i)) else s;
    Next(Next(s1, ReadToken(i)), StoreToken(i))
  }

  /** A publisher waits only for a reader that began its round before the token was drawn; that reader's next whole
      report lets the publisher go on. */
  lemma ReportUnblocks(s: State, p: nat)
    requires Inv(s) && p < |s.retiring| && s.retiring[p].since > 0 && s.retiring[p].checked < |s.readers|
    ensures Enabled(s, Check(p)) || Enabled(Reported(s, s.retiring[p].checked), Check(p))
  {
    assert RetiringOk(s, s.retiring[p]);
  }

  /** Steps one after another, from `states[0]` on. */
  ghost predicate Leads(states: seq<State>, actions: seq<Action>) {
    && |states| == |actions| + 1
    && forall k: nat :: k < |actions| ==> Enabled(states[k], actions[k]) && states[k + 1] == Next(states[k], actions[k])
  }

  /** Once every reader has reported since the token was drawn, or is offline, the publisher deletes its snapshot by its
      own next steps, without waiting for anyone. */
  lemma {:induction false} WaitEnds(s: State, p: nat) returns (states: seq<State>, actions: seq<Action>)
    requires Inv(s) && p < |s.retiring| && s.retiring[p].since > 0
    requires forall i: nat :: i < |s.readers| ==> Passed(s.readers[i], s.retiring[p].since)
    ensures Leads(states, actions) && states[0] == s && s.retiring[p].snap in states[|actions|].deleted
    ensures |actions| == |s.readers| - s.retiring[p].checked + 1
    ensures forall k: nat :: k < |actions| ==> actions[k] in {Check(p), Delete(p)}
    decreases |s.readers| - s.retiring[p].checked
  {
    assert RetiringOk(s, s.retiring[p]);
    if s.retiring[p].checked == |s.readers| {
      states, actions := [s, Next(s, Delete(p))], [Delete(p)];
    } else {
      var t := Next(s, Check(p));
      StepInv(s, Check(p));
      var rest, more := WaitEnds(t, p);
      states, actions := [s] + rest, [Check(p)] + more;
      assert states[|actions|] == rest[|more|];
    }
  }
}
