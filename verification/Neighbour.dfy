/** The neighbour table: one writer, lock-free readers, and a generation counter that guards the MAC addresses
    cached in sessions. */
module Neighbour {
  import opened Types

  type Mac = seq<u8>

  // ---------------------------------------------------------------------------------------------
  // The cache protocol, interleaved
  // ---------------------------------------------------------------------------------------------

  /** The writer is between its two steps: the entry is written, the generation not yet advanced. */
  datatype Writer = Idle | Written(before: map<u32, Mac>)

  /** A cached next hop, and the generation read on a lookup that is under way. */
  datatype Cache = Cache(hop: u32, mac: Mac, gen: nat, reading: Option<nat>)

  datatype State = State(table: map<u32, Mac>, gen: nat, writer: Writer, caches: seq<Cache>)

  datatype Action =
    | Write(ip: u32, mac: Option<Mac>)   // store or erase, first step
    | Bump                               // second step
    | ReadGen(c: nat)                    // a worker reads the generation
    | Lookup(c: nat)                     // on a mismatch: read the entry and keep it
    | Recycle(c: nat, hop: u32)          // the session is gone, its cache starts over for another one

  /** The cached address is used without a lookup: the 32-bit generations agree. */
  predicate Hit(s: State, c: nat)
    requires c < |s.caches|
  {
    s.caches[c].gen % WRAP32 == s.gen % WRAP32
  }

  predicate Enabled(s: State, a: Action) {
    match a
    case Write(ip, mac) => s.writer == Idle
    case Bump => s.writer != Idle
    case ReadGen(c) => c < |s.caches| && s.caches[c].reading == None && !Hit(s, c)
    case Lookup(c) => c < |s.caches| && s.caches[c].reading != None
    case Recycle(c, hop) => c < |s.caches| && s.caches[c].reading == None
  }

  function Next(s: State, a: Action): State
    requires Enabled(s, a)
  {
    match a
    case Write(ip, mac) =>
      s.(table := if mac.Some? then s.table[ip := mac.value] else s.table - {ip}, writer := Written(s.table))
    case Bump => s.(gen := s.gen + 1, writer := Idle)
    case ReadGen(c) => s.(caches := s.caches[c := s.caches[c].(reading := Some(s.gen))])
    case Lookup(c) =>
      var k := s.caches[c];
      s.(caches := s.caches[c := if k.hop in s.table then Cache(k.hop, s.table[k.hop], k.reading.value, None)
                                 else k.(reading := None)])
    case Recycle(c, hop) => s.(caches := s.caches[c := Cache(hop, [], 0, None)])
  }

  predicate Initial(s: State) {
    && s.gen == 1 && s.writer == Idle
    && forall c: nat :: c < |s.caches| ==> s.caches[c].gen == 0 && s.caches[c].reading == None
  }

  predicate Entry(table: map<u32, Mac>, hop: u32, mac: Mac) {
    hop in table && table[hop] == mac
  }

  /** What a cache that would be hit holds: the current entry, or while a write is under way the one before it. */
  predicate Fresh(s: State, k: Cache) {
    && k.gen <= s.gen && (k.reading.Some? ==> k.reading.value <= s.gen)
    && (k.gen == s.gen ==> Entry(s.table, k.hop, k.mac) || (s.writer.Written? && Entry(s.writer.before, k.hop, k.mac)))
  }

  predicate Inv(s: State) {
    s.gen > 0 && forall c: nat :: c < |s.caches| ==> Fresh(s, s.caches[c])
  }

  lemma StepInv(s: State, a: Action)
    requires Inv(s) && Enabled(s, a)
    ensures Inv(Next(s, a))
  {
    var t := Next(s, a);
    forall c: nat | c < |t.caches| ensures Fresh(t, t.caches[c]) { assert Fresh(s, s.caches[c]); }
  }

  ghost predicate IsRun(states: seq<State>, actions: seq<Action>) {
    && |states| == |actions| + 1 && Initial(states[0])
    && forall k: nat :: k < |actions| ==> Enabled(states[k], actions[k]) && states[k + 1] == Next(states[k], actions[k])
  }

  /** A hit between writes yields the table's current entry for that next hop; a hit during a write yields the entry
      from before or after that one write, never an older one. */
  predicate HitIsFresh(s: State, c: nat)
    requires c < |s.caches|
  {
    var m := s.caches[c];
    Hit(s, c) ==>
      && (s.writer == Idle ==> Entry(s.table, m.hop, m.mac))
      && (s.writer.Written? ==> Entry(s.table, m.hop, m.mac) || Entry(s.writer.before, m.hop, m.mac))
  }

  /** On every interleaving hits are fresh, as long as the 32-bit generation has not wrapped. */
  lemma HitsAreFresh(states: seq<State>, actions: seq<Action>, k: nat, c: nat)
    requires IsRun(states, actions) && k < |states| && c < |states[k].caches| && states[k].gen < WRAP32
    ensures HitIsFresh(states[k], c)
  {
    RunInv(states, actions, k);
    assert Fresh(states[k], states[k].caches[c]);
  }

  /** A run that empties an empty entry n times and never uses its one cache. */
  function IdleState(k: nat): State {
    State(map[], 1 + k / 2, if k % 2 == 0 then Idle else Written(map[]), [Cache(0, [], 0, None)])
  }

  function IdleAction(k: nat): Action {
    if k % 2 == 0 then Write(0, None) else Bump
  }

  lemma IdleStep(k: nat)
    ensures Enabled(IdleState(k), IdleAction(k)) && IdleState(k + 1) == Next(IdleState(k), IdleAction(k))
  {
    var empty: map<u32, Mac> := map[];
    assert empty - {0} == empty;
    assert (k + 1) / 2 == if k % 2 == 0 then k / 2 else k / 2 + 1;
  }

  lemma IdleRun(n: nat) returns (states: seq<State>, actions: seq<Action>)
    ensures IsRun(states, actions) && |states| == n + 1 && states[n] == IdleState(n)
  {
    states, actions := seq(n + 1, k requires 0 <= k => IdleState(k)), seq(n, k requires 0 <= k => IdleAction(k));
    forall k: nat | k < n ensures Enabled(states[k], actions[k]) && states[k + 1] == Next(states[k], actions[k]) {
      IdleStep(k);
    }
  }

  /** Hits are fresh on every run up to generation `limit` if and only if `limit` is below 2^32: at the first wrap a
      cache that was never filled counts as a hit. */
  lemma HitsAreFreshIff(limit: nat)
    ensures (forall states: seq<State>, actions: seq<Action>, k: nat, c: nat
      {:trigger IsRun(states, actions), HitIsFresh(states[k], c)} ::
               IsRun(states, actions) && k < |states| && c < |states[k].caches| && states[k].gen <= limit ==>
               HitIsFresh(states[k], c))
            <==> limit < WRAP32
  {
    if limit < WRAP32 {
      forall states: seq<State>, actions: seq<Action>, k: nat, c: nat
        | IsRun(states, actions) && k < |states| && c < |states[k].caches| && states[k].gen <= limit
        ensures HitIsFresh(states[k], c)
      {
        HitsAreFresh(states, actions, k, c);
      }
    } else {
      var n := 2 * (WRAP32 - 1);
      var states, actions := IdleRun(n);
      assert states[n].gen == WRAP32 && !HitIsFresh(states[n], 0);
    }
  }

  lemma {:induction false} RunInv(states: seq<State>, actions: seq<Action>, k: nat)
    requires IsRun(states, actions) && k < |states|
    ensures Inv(states[k])
  {
    if k > 0 {
      RunInv(states, actions, k - 1);
      assert states[k - 1 + 1] == Next(states[k - 1], actions[k - 1]);
      StepInv(states[k - 1], actions[k - 1]);
    }
  }

  // ---------------------------------------------------------------------------------------------
  // The writer's side
  // ---------------------------------------------------------------------------------------------

  const CAPACITY := 65536
  const REACHABLE_SEC := 300
  const REFRESH_SEC := 240
  const REQUEST_GAP_SEC := 1

  datatype Meta = Meta(confirmed: nat, requested: nat, isStatic: bool, valid: bool)

  const BLANK := Meta(0, 0, false, false)

  /** Seconds between two readings of a 64-bit clock. */
  function Since(now: nat, earlier: nat): nat { (now as int - earlier) % WRAP64 }

  /** A record without an entry is forgotten 300 seconds after it was asked for. */
  predicate Lasts(m: Meta, now: nat) { m.valid || m.isStatic || Since(now, m.requested) <= 300 }

  /** A learned entry is worth asking about again from 240 seconds after it was confirmed, every 5 seconds. */
  predicate AsksAgain(m: Meta, now: nat) {
    m.valid && !m.isStatic && 240 <= Since(now, m.confirmed) < 300 && Since(now, m.requested) >= 5
  }

  /** What ageing leaves: learned entries go 300 seconds after they were confirmed, static ones never. */
  function Aged(m: map<u32, Meta>, now: nat): map<u32, Meta> {
    map ip | ip in m && Lasts(m[ip], now) && (m[ip].valid && !m[ip].isStatic ==> Since(now, m[ip].confirmed) < 300) ::
      if AsksAgain(m[ip], now) then m[ip].(requested := now) else m[ip]
  }

  /** An entry nobody has confirmed for too long. */
  predicate Stale(m: Meta, now: nat) {
    m.valid && !m.isStatic && Since(now, m.confirmed) >= REACHABLE_SEC
  }

  predicate Refreshable(m: Meta, now: nat) {
    && m.valid && !m.isStatic && !Stale(m, now) && Since(now, m.confirmed) >= REFRESH_SEC
    && Since(now, m.requested) >= REQUEST_GAP_SEC * 5
  }

  function Tidied(m: map<u32, Meta>, now: nat, refresh: set<u32>): map<u32, Meta> {
    map ip | ip in m && (Lasts(m[ip], now) || ip in refresh) ::
      if ip in refresh then m[ip].(requested := now) else m[ip]
  }

  lemma AgedInSteps(m: map<u32, Meta>, now: nat, dead: set<u32>, refresh: set<u32>)
    requires dead == set ip | ip in m && Stale(m[ip], now)
    requires refresh == set ip | ip in m && Refreshable(m[ip], now)
    ensures Tidied(Minus(m, dead), now, refresh) == Aged(m, now)
    ensures forall ip: u32 :: ip in refresh <==> ip in m && AsksAgain(m[ip], now)
  {
    hide Since;
  }

  class Table {
    var hash: map<u32, Mac>
    var meta: map<u32, Meta>
    var gen: nat
    var count: nat

    constructor ()
      ensures Valid() && hash == map[] && gen == 1
    {
      hash, meta, gen, count := map[], map[], 1, 0;
    }

    function MetaOf(ip: u32): Meta
      reads this
    {
      if ip in meta then meta[ip] else BLANK
    }

    predicate Known(ip: u32)
      reads this
    {
      ip in meta && meta[ip].valid
    }

    predicate Static(ip: u32)
      reads this
    {
      ip in meta && meta[ip].isStatic
    }

    /** The hash holds exactly the entries marked valid, and the counter counts them. */
    ghost predicate Valid()
      reads this
    {
      (forall ip: u32 :: ip in hash <==> Known(ip)) && count == |hash|
    }

    /** A change of any entry is followed by a new generation. */
    twostate predicate Announced()
      reads this
    {
      old(gen) <= gen && (hash != old(hash) ==> old(gen) < gen)
    }

    /** `room` is the hash's answer to whether a new key fits. */
    method Store(ip: u32, mac: Mac, room: bool) returns (ok: bool)
      requires Valid()
      modifies this
      ensures Valid() && Announced() && ok == (room || ip in old(hash))
      ensures ok ==> gen == old(gen) + 1 && hash == old(hash)[ip := mac]
      ensures ok ==> meta == old(meta)[ip := old(MetaOf(ip)).(valid := true)]
      ensures !ok ==> hash == old(hash) && meta == old(meta) && gen == old(gen)
    {
      if !room && ip !in hash {
        return false;
      }
      var m := MetaOf(ip);
      hash := hash[ip := mac];
      if !m.valid { count := count + 1; }
      meta := meta[ip := m.(valid := true)];
      gen := gen + 1;
      return true;
    }

    method Erase(ip: u32)
      requires Valid()
      modifies this
      ensures Valid() && Announced() && old(gen) < gen
      ensures hash == Minus(old(hash), {ip}) && meta == Minus(old(meta), {ip})
    {
      if Known(ip) { count := count - 1; }
      Shrunk(hash, ip);
      hash := hash - {ip};
      meta := meta - {ip};
      gen := gen + 1;
    }

    method AddStatic(ip: u32, mac: Mac, room: bool)
      requires Valid()
      modifies this
      ensures Valid() && Announced() && Static(ip)
      ensures room || ip in old(hash) ==> hash == old(hash)[ip := mac]
      ensures !room && ip !in old(hash) ==> hash == old(hash)
      ensures meta == old(meta)[ip := old(MetaOf(ip)).(isStatic := true, valid := ip in hash)]
    {
      var ok := Store(ip, mac, room);
      meta := meta[ip := MetaOf(ip).(isStatic := true)];
    }

    /** Learning never touches static entries, and addresses nobody asked for only fill half the table. */
    method Learn(ip: u32, mac: Mac, solicited: bool, now: nat, room: bool)
      requires Valid()
      modifies this
      ensures Valid() && Announced()
      ensures old(Static(ip)) ==> hash == old(hash) && meta == old(meta)
      ensures hash == old(hash) || hash == old(hash)[ip := mac]
      ensures ip !in old(hash) && !solicited && |old(hash)| >= CAPACITY / 2 ==> hash == old(hash)
      ensures !old(Static(ip)) && (room || ip in old(hash)) && (solicited || ip in old(hash) || |old(hash)| < CAPACITY / 2)
              ==> ip in hash && hash[ip] == mac
      ensures meta == if old(Static(ip)) || (!solicited && ip !in old(hash) && |old(hash)| >= CAPACITY / 2) then old(meta)
                      else old(meta)[ip := old(MetaOf(ip)).(valid := ip in hash, confirmed := now)]
    {
      if Static(ip) {
        return;
      }
      var known := Known(ip);
      if !solicited && !known && count >= CAPACITY / 2 {
        return;
      }
      if !known || ip !in hash || hash[ip] != mac {
        var ok := Store(ip, mac, room);
      }
      meta := meta[ip := MetaOf(ip).(confirmed := now)];
    }

    /** A hint never replaces an entry. */
    method Hint(ip: u32, mac: Mac, now: nat, room: bool)
      requires Valid()
      modifies this
      ensures Valid() && Announced()
      ensures ip in old(hash) || |old(hash)| >= CAPACITY / 2 || !room ==> hash == old(hash)
      ensures ip !in old(hash) && |old(hash)| < CAPACITY / 2 && room ==> hash == old(hash)[ip := mac]
      ensures meta == if ip in old(hash) || |old(hash)| >= CAPACITY / 2 then old(meta)
                      else old(meta)[ip := old(MetaOf(ip)).(valid := room, confirmed := now)]
    {
      if Known(ip) || count >= CAPACITY / 2 {
        return;
      }
      var ok := Store(ip, mac, room);
      meta := meta[ip := MetaOf(ip).(confirmed := now)];
    }

    /** Whether to ask for an address now: never for static entries, and at most once a second. */
    method WantRequest(ip: u32, now: nat) returns (ask: bool)
      requires Valid()
      modifies this`meta
      ensures Valid()
      ensures ask <==> !old(Static(ip)) && Since(now, old(MetaOf(ip)).requested) >= 1
      ensures meta == old(meta)[ip := if ask then old(MetaOf(ip)).(requested := now) else old(MetaOf(ip))]
    {
      var m := MetaOf(ip);
      ask := !m.isStatic && Since(now, m.requested) >= REQUEST_GAP_SEC;
      meta := meta[ip := if ask then m.(requested := now) else m];
    }

    /** Ageing removes exactly the stale entries, and names exactly the ones worth asking about again. */
    method Age(now: nat) returns (refresh: set<u32>)
      requires Valid()
      modifies this
      ensures Valid() && Announced()
      ensures forall ip: u32 :: ip in hash ==> ip in old(hash) && hash[ip] == old(hash)[ip]
      ensures meta == Aged(old(meta), now)
      ensures forall ip: u32 :: ip in refresh <==> ip in old(meta) && AsksAgain(old(meta)[ip], now)
    {
      hide Since;
      hide Valid;
      hide Aged;
      hide Tidied;
      var dead := set ip | ip in meta && Stale(meta[ip], now);
      refresh := set ip | ip in meta && Refreshable(meta[ip], now);
      AgedInSteps(meta, now, dead, refresh);
      EraseAll(dead);
      Tidy(now, refresh);
    }

    method EraseAll(ips: set<u32>)
      requires Valid()
      modifies this
      ensures Valid() && Announced() && hash == Minus(old(hash), ips) && meta == Minus(old(meta), ips)
    {
      hide Valid;
      hide Minus;
      MinusNone(hash);
      MinusNone(meta);
      var todo := ips;
      ghost var done: set<u32> := {};
      while todo != {}
        invariant Valid() && Announced() && done + todo == ips
        invariant hash == Minus(old(hash), done) && meta == Minus(old(meta), done)
        decreases |todo|
      {
        var ip :| ip in todo;
        Erase(ip);
        MinusMore(old(hash), done, ip);
        MinusMore(old(meta), done, ip);
        todo, done := todo - {ip}, done + {ip};
      }
    }

    /** Note the requests about to be made and forget addresses that were asked for long ago and never answered. */
    method Tidy(now: nat, refresh: set<u32>)
      requires Valid()
      modifies this`meta
      ensures Valid()
      ensures meta == Tidied(old(meta), now, refresh)
    {
      meta := map ip | ip in meta :: if ip in refresh then meta[ip].(requested := now) else meta[ip];
      meta := map ip | ip in meta && (meta[ip].valid || meta[ip].isStatic
                                      || Since(now, meta[ip].requested) <= REACHABLE_SEC) :: meta[ip];
    }
  }

  lemma MinusMore<T>(m: map<u32, T>, done: set<u32>, ip: u32)
    ensures Minus(Minus(m, done), {ip}) == Minus(m, done + {ip})
  {
  }

  function Minus<T>(m: map<u32, T>, s: set<u32>): map<u32, T> { m - s }

  lemma MinusNone<T>(m: map<u32, T>)
    ensures Minus(m, {}) == m
  {
  }

  lemma Shrunk(m: map<u32, Mac>, ip: u32)
    ensures |m - {ip}| == |m| - if ip in m then 1 else 0
  {
    assert (m - {ip}).Keys == m.Keys - {ip};
    assert |m.Keys| == |m| && |(m - {ip}).Keys| == |m - {ip}|;
  }
}
