/** The health checker: SYN probes from a small port range, matched to their answers by source port, and a
    verdict per server that only streaks of equal results can change. */
module Health {
  import opened Types
  import opened Finite

  const HC_PORTS := HC_PORT_MAX - HC_PORT_MIN + 1

  datatype Conf = Conf(rise: nat, fall: nat, intervalMs: nat, timeoutMs: nat) {
    /** The configured thresholds are between 1 and 100, the interval at least a second. */
    predicate Valid() { 1 <= rise <= 100 && 1 <= fall <= 100 && intervalMs > 0 }
  }

  // ---------------------------------------------------------------------------------------------
  // Verdicts
  // ---------------------------------------------------------------------------------------------

  /** The verdict on a server and its two 32-bit counters of consecutive results. */
  datatype Judge = Judge(healthy: bool, ok: u32, fail: u32)

  function Judged(c: Conf, j: Judge, good: bool): Judge {
    if good then
      var ok := (j.ok + 1) % WRAP32;
      Judge(j.healthy || ok >= c.rise, ok, 0)
    else
      var fail := (j.fail + 1) % WRAP32;
      Judge(j.healthy && fail < c.fall, 0, fail)
  }

  function After(c: Conf, start: bool, results: seq<bool>): Judge {
    if results == [] then Judge(start, 0, 0)
    else Judged(c, After(c, start, results[..|results| - 1]), results[|results| - 1])
  }

  /** How many results at the end of the history are equal to `good`. */
  function Streak(results: seq<bool>, good: bool): nat {
    if results == [] || results[|results| - 1] != good then 0 else Streak(results[..|results| - 1], good) + 1
  }

  /** The counters are the streaks (cut to 32 bits), and a long enough streak has settled the verdict. */
  lemma {:induction false} CountersAreStreaks(c: Conf, start: bool, results: seq<bool>)
    requires c.Valid()
    ensures var j := After(c, start, results);
            && j.ok == Streak(results, true) % WRAP32 && j.fail == Streak(results, false) % WRAP32
            && (Streak(results, true) >= c.rise ==> j.healthy)
            && (Streak(results, false) >= c.fall ==> !j.healthy)
  {
    if results != [] {
      var most, last := results[..|results| - 1], results[|results| - 1];
      CountersAreStreaks(c, start, most);
      Wrapped(Streak(most, last));
      Judgement(c, After(c, start, most), last, Streak(most, last));
      hide Judged;
    }
  }

  lemma Wrapped(n: nat)
    ensures (n % WRAP32 + 1) % WRAP32 == (n + 1) % WRAP32 && (n < WRAP32 ==> n % WRAP32 == n)
  {
  }

  lemma Judgement(c: Conf, j: Judge, good: bool, streak: nat)
    requires c.Valid() && (if good then j.ok else j.fail) == streak % WRAP32
    requires if good then streak >= c.rise ==> j.healthy else streak >= c.fall ==> !j.healthy
    ensures var k := Judged(c, j, good);
            && (if good then k.ok else k.fail) == (streak + 1) % WRAP32 && (if good then k.fail else k.ok) == 0
            && (good && streak + 1 >= c.rise ==> k.healthy) && (!good && streak + 1 >= c.fall ==> !k.healthy)
  {
    Wrapped(streak);
    Wrapped(streak + 1);
  }

  /** Over any history the verdict changes exactly when a streak of the other kind reaches its threshold. */
  lemma VerdictFlipsExactly(c: Conf, start: bool, results: seq<bool>, good: bool)
    requires c.Valid()
    ensures var before, now := After(c, start, results).healthy, After(c, start, results + [good]).healthy;
            var s := Streak(results + [good], good);
            && (before && !now <==> before && !good && s >= c.fall)
            && (!before && now <==> !before && good && s >= c.rise)
            && (before != now ==> s == if good then c.rise else c.fall)
    ensures var next := results + [good];
            After(c, start, results).healthy != After(c, start, next).healthy ==>
              forall i: nat :: |next| - (if good then c.rise else c.fall) <= i < |next| ==> next[i] == good
  {
    var next := results + [good];
    assert next[..|results|] == results;
    CountersAreStreaks(c, start, results);
    CountersAreStreaks(c, start, next);
    forall i: nat | |next| - Streak(next, good) <= i < |next| ensures next[i] == good { StreakIsTail(next, good, i); }
  }

  lemma {:induction false} StreakIsTail(results: seq<bool>, good: bool, i: nat)
    requires |results| - Streak(results, good) <= i < |results|
    ensures results[i] == good
  {
    if i < |results| - 1 { StreakIsTail(results[..|results| - 1], good, i); }
  }

  // ---------------------------------------------------------------------------------------------
  // Probes
  // ---------------------------------------------------------------------------------------------

  datatype Probe = Probe(ip: u32, port: u16, judge: Judge, inFlight: bool, srcPort: u16, isn: u32, sentMs: nat, nextMs: nat)

  /** A server of a TCP service, as the snapshot lists it. */
  datatype Server = Server(id: nat, ip: u32, port: u16, healthy: bool)

  /** An answer that reached a health-check port. */
  datatype Answer = Answer(port: u16, ip: u32, fromPort: u16, syn: bool, ack: bool, rst: bool, ackNum: u32) {
    predicate SynAck() { syn && ack }
  }

  predicate InRange(port: u16) { HC_PORT_MIN <= port <= HC_PORT_MAX }

  /** The port index is exactly the inverse of the source ports in flight. */
  ghost predicate Inverse(probes: map<nat, Probe>, byPort: map<u16, nat>) {
    && (forall port :: port in byPort ==>
          byPort[port] in probes && probes[byPort[port]].inFlight && probes[byPort[port]].srcPort == port)
    && (forall id :: id in probes && probes[id].inFlight ==>
          probes[id].srcPort in byPort && byPort[probes[id].srcPort] == id)
  }

  /** A port is taken safely if and only if no probe in flight has it. */
  lemma SentInverse(probes: map<nat, Probe>, byPort: map<u16, nat>, id: nat, p: Probe)
    requires Inverse(probes, byPort) && id in probes && !probes[id].inFlight && p.inFlight
    ensures Inverse(probes[id := p], byPort[p.srcPort := id]) <==> p.srcPort !in byPort
  {
    if p.srcPort in byPort {
      var other := byPort[p.srcPort];
      assert other != id && probes[id := p][other] == probes[other];
    }
  }

  lemma EndedInverse(probes: map<nat, Probe>, byPort: map<u16, nat>, id: nat, p: Probe)
    requires Inverse(probes, byPort) && id in probes && probes[id].inFlight && !p.inFlight
    ensures Inverse(probes[id := p], byPort - {probes[id].srcPort})
  {
  }

  lemma ForgottenInverse(probes: map<nat, Probe>, byPort: map<u16, nat>, id: nat)
    requires Inverse(probes, byPort) && id in probes
    ensures Inverse(probes - {id}, if probes[id].inFlight then byPort - {probes[id].srcPort} else byPort)
  {
  }

  lemma {:induction false} Injects(m: map<u16, nat>, b: set<nat>)
    requires forall x :: x in m ==> m[x] in b
    requires forall x, y :: x in m && y in m && m[x] == m[y] ==> x == y
    ensures |m| <= |b|
    decreases |m|
  {
    if m != map[] {
      var x :| x in m;
      var rest := m - {x};
      assert rest.Keys == m.Keys - {x};
      assert |m.Keys| == |m| && |rest.Keys| == |rest|;
      Injects(rest, b - {m[x]});
    }
  }

  /** As long as there are no more servers than ports, a probe about to be sent finds a free port. */
  lemma PortIsFree(probes: map<nat, Probe>, byPort: map<u16, nat>, id: nat) returns (port: u16)
    requires Inverse(probes, byPort) && id in probes && !probes[id].inFlight && |probes| <= HC_PORTS
    ensures InRange(port) && port !in byPort
  {
    var others := probes.Keys - {id};
    assert |others| == |probes| - 1;
    Injects(byPort, others);
    port := SomeFree(byPort, HC_PORTS);
  }

  lemma SomeFree(byPort: map<u16, nat>, n: nat) returns (port: u16)
    requires |byPort| < n <= HC_PORTS
    ensures HC_PORT_MIN <= port < HC_PORT_MIN + n && port !in byPort
  {
    var used := set x: u16 | x in byPort && x >= HC_PORT_MIN :: x as nat - HC_PORT_MIN;
    var slots := Slots(n);
    assert |byPort.Keys| == |byPort|;
    if forall k :: k in slots ==> k in used {
      SubsetSize(slots, used);
      ShiftSize(byPort.Keys, used);
      assert false;
    }
    var k :| k in slots && k !in used;
    assert forall x: u16 :: x in byPort && x >= HC_PORT_MIN ==> x as nat - HC_PORT_MIN in used;
    port := k + HC_PORT_MIN;
  }

  lemma {:induction false} ShiftSize(keys: set<u16>, used: set<nat>)
    requires forall k :: k in used ==> k + HC_PORT_MIN < 0x1_0000 && k + HC_PORT_MIN in keys
    ensures |used| <= |keys|
    decreases used
  {
    if used != {} {
      var k :| k in used;
      ShiftSize(keys - {k + HC_PORT_MIN}, used - {k});
    }
  }

  /** The probe this answer belongs to, found by looking at every probe. */
  predicate Answers(p: Probe, a: Answer) {
    && p.inFlight && p.srcPort == a.port && p.ip == a.ip && p.port == a.fromPort
    && (a.SynAck() ==> a.ackNum == (p.isn + 1) % WRAP32)
  }

  predicate TimedOut(c: Conf, p: Probe, now: nat) {
    p.inFlight && (now as int - p.sentMs) % WRAP64 >= c.timeoutMs
  }

  /** The same probe, at whatever address. */
  predicate SameProbe(p: Probe, q: Probe) {
    q == p.(ip := q.ip, port := q.port)
  }

  /** The probe is for the address the snapshot lists for its server. */
  ghost predicate Listed(p: Probe, id: nat, servers: seq<Server>) {
    exists i: nat :: i < |servers| && servers[i].id == id && p.ip == servers[i].ip && p.port == servers[i].port
  }

  /** A probe of a server that was not watched before: its first verdict is the snapshot's. */
  ghost predicate NewProbe(c: Conf, p: Probe, id: nat, servers: seq<Server>, now: nat)
    requires c.Valid()
  {
    && !p.inFlight && p.srcPort == 0 && p.nextMs == FirstMs(c, id, now)
    && exists i: nat :: i < |servers| && servers[i].id == id && p.judge == Judge(servers[i].healthy, 0, 0)
  }

  /** First probes are spread over an interval. */
  function FirstMs(c: Conf, id: nat, now: nat): (ms: nat)
    requires c.Valid()
    ensures now <= ms < now + c.intervalMs
  {
    now + id * 37 % WRAP32 % c.intervalMs
  }

  /** The probe of a listed server: kept or made, and at its listed address. */
  function Watched(c: Conf, probes: map<nat, Probe>, s: Server, now: nat): Probe
    requires c.Valid()
  {
    if s.id in probes then probes[s.id].(ip := s.ip, port := s.port)
    else Probe(s.ip, s.port, Judge(s.healthy, 0, 0), false, 0, 0, 0, FirstMs(c, s.id, now))
  }

  /** A probe before and after its turn: a probe still waiting stays as it is; any other is sent when it is due. */
  predicate TurnTaken(c: Conf, p: Probe, q: Probe, now: nat) {
    && q.judge == Ticked(c, p, now) && q.ip == p.ip && q.port == p.port
    && if p.inFlight && (now as int - p.sentMs) % WRAP64 < c.timeoutMs then q == p
       else if now >= p.nextMs then q.inFlight && q.sentMs == now && q.nextMs == now + c.intervalMs
       else !q.inFlight && q.nextMs == p.nextMs
  }

  function Ids(servers: seq<Server>): set<nat> {
    set i: nat | i < |servers| :: servers[i].id
  }

  /** The verdict after one tick: a probe that has waited too long is a failure, nothing else counts. */
  function Ticked(c: Conf, p: Probe, now: nat): Judge {
    if p.inFlight && (now as int - p.sentMs) % WRAP64 >= c.timeoutMs then Judged(c, p.judge, false) else p.judge
  }

  /** Sequence numbers alternate between even and odd, so no two probes in a row start with the same one. */
  lemma NextSeed(seed: u32)
    ensures (seed * 1103515245 + 12345) as int % WRAP32 % 2 != seed % 2
  {
    var x: int := seed * 1103515245 + 12345;
    assert x == 2 * (seed * 551757622 + 6172) + seed + 1;
    assert x % WRAP32 == x - x / WRAP32 * WRAP32;
  }

  class Checker {
    const conf: Conf
    var probes: map<nat, Probe>
    var byPort: map<u16, nat>
    var nextPort: u16
    var isnSeed: u32

    constructor (conf: Conf)
      requires conf.Valid()
      ensures Valid() && probes == map[] && byPort == map[] && this.conf == conf
    {
      this.conf, probes, byPort, nextPort, isnSeed := conf, map[], map[], HC_PORT_MIN, 0x5a5a1234;
    }

    ghost predicate Valid()
      reads this
    {
      conf.Valid() && InRange(nextPort)
    }

    /** The port search: a free port of the range if there is one, otherwise the port used last. */
    method ChoosePort(last: u16) returns (port: u16)
      requires Valid()
      modifies this`nextPort
      ensures Valid()
      ensures (exists x: u16 :: InRange(x) && x !in byPort) ==> InRange(port) && port !in byPort
      ensures !(exists x: u16 :: InRange(x) && x !in byPort) ==> port == last
    {
      port := last;
      ghost var start := nextPort;
      for i := 0 to HC_PORTS
        invariant Valid() && port == last
        invariant nextPort == if start + i <= HC_PORT_MAX then start + i else start + i - HC_PORTS
        invariant forall x: u16 :: InRange(x) && (start <= x < start + i || x < start + i - HC_PORTS) ==> x in byPort
      {
        var candidate := nextPort;
        nextPort := if candidate >= HC_PORT_MAX then HC_PORT_MIN else candidate + 1;
        if candidate !in byPort {
          port := candidate;
          return;
        }
      }
    }

    /** Sending keeps the index right if and only if the port range has room or the probe's last port is unused. */
    method SendProbe(id: nat, now: nat)
      requires Valid() && Inverse(probes, byPort) && id in probes && !probes[id].inFlight
      modifies this
      ensures Valid() && probes.Keys == old(probes).Keys && id in probes
      ensures forall x :: x in probes && x != id ==> probes[x] == old(probes)[x]
      ensures probes[id].inFlight && probes[id].judge == old(probes)[id].judge && probes[id].sentMs == now
              && probes[id].nextMs == old(probes)[id].nextMs
              && probes[id].ip == old(probes)[id].ip && probes[id].port == old(probes)[id].port
      ensures byPort == old(byPort)[probes[id].srcPort := id]
      ensures probes[id].isn == isnSeed != old(isnSeed)
      ensures if exists x: u16 :: InRange(x) && x !in old(byPort)
              then InRange(probes[id].srcPort) && probes[id].srcPort !in old(byPort)
              else probes[id].srcPort == old(probes)[id].srcPort
      ensures Inverse(probes, byPort) <==>
        (exists x: u16 :: InRange(x) && x !in old(byPort)) || old(probes)[id].srcPort !in old(byPort)
    {
      var port := ChoosePort(probes[id].srcPort);
      NextSeed(isnSeed);
      isnSeed := (isnSeed * 1103515245 + 12345) % WRAP32;
      var p := probes[id].(srcPort := port, isn := isnSeed, sentMs := now, inFlight := true);
      SentInverse(probes, byPort, id, p);
      probes := probes[id := p];
      byPort := byPort[port := id];
    }

    /** An answer ends exactly the probe it belongs to, and counts for it: a SYN-ACK that acknowledges its own
        SYN as a success, a reset as a failure, anything else not at all. */
    method OnResponse(a: Answer)
      requires Valid() && Inverse(probes, byPort)
      modifies this
      ensures Valid() && Inverse(probes, byPort) && probes.Keys == old(probes).Keys
      ensures forall id :: id in probes ==>
        var p := old(probes)[id];
        probes[id] == if !Answers(p, a) then p
                      else p.(inFlight := false,
                              judge := if a.SynAck() then Judged(conf, p.judge, true)
                                       else if a.rst then Judged(conf, p.judge, false) else p.judge)
    {
      if a.port !in byPort {
        return;
      }
      var id := byPort[a.port];
      var p := probes[id];
      if !p.inFlight || a.ip != p.ip || a.fromPort != p.port {
        return;
      }
      if a.SynAck() && a.ackNum != (p.isn + 1) % WRAP32 {
        return;
      }
      var j := if a.SynAck() then Judged(conf, p.judge, true)
               else if a.rst then Judged(conf, p.judge, false) else p.judge;
      var q := p.(inFlight := false, judge := j);
      EndedInverse(probes, byPort, id, q);
      byPort := byPort - {a.port};
      probes := probes[id := q];
    }

    /** Start watching new servers. */
    method Sync(servers: seq<Server>, now: nat)
      requires Valid() && Inverse(probes, byPort)
      modifies this`probes
      ensures Inverse(probes, byPort) && probes.Keys == old(probes).Keys + Ids(servers)
      ensures forall id :: id in old(probes) ==> SameProbe(old(probes)[id], probes[id])
      ensures forall id :: id in probes && id !in old(probes) ==> NewProbe(conf, probes[id], id, servers, now)
      ensures forall id :: id in Ids(servers) ==> Listed(probes[id], id, servers)
    {
      hide Inverse;
      hide NewProbe;
      hide Listed;
      hide Watched;
      hide SameProbe;
      forall p: Probe ensures SameProbe(p, p) { SameAgain(p); }
      for i := 0 to |servers|
        invariant Inverse(probes, byPort) && probes.Keys == old(probes).Keys + Ids(servers[..i])
        invariant forall id :: id in old(probes) ==> SameProbe(old(probes)[id], probes[id])
        invariant forall id :: id in probes && id !in old(probes) ==> NewProbe(conf, probes[id], id, servers[..i], now)
        invariant forall id :: id in Ids(servers[..i]) ==> Listed(probes[id], id, servers[..i])
      {
        var s := servers[i];
        var p := Watched(conf, probes, s, now);
        WatchedKeeps(conf, probes, byPort, s, now);
        SyncStep(conf, probes, old(probes), servers, i, now);
        probes := probes[s.id := p];
      }
      assert servers[..|servers|] == servers;
    }

    /** Stop watching servers the snapshot no longer lists. */
    method Forget(keep: set<nat>)
      requires Valid() && Inverse(probes, byPort)
      modifies this`probes, this`byPort
      ensures Inverse(probes, byPort) && probes.Keys == old(probes).Keys * keep
      ensures forall id :: id in probes ==> probes[id] == old(probes)[id]
    {
      hide Inverse;
      var todo := probes.Keys - keep;
      while todo != {}
        invariant Inverse(probes, byPort) && todo <= probes.Keys && todo !! keep
        invariant probes.Keys == (old(probes).Keys * keep) + todo
        invariant forall id :: id in probes ==> id in old(probes) && probes[id] == old(probes)[id]
        decreases |todo|
      {
        var id :| id in todo;
        ForgottenInverse(probes, byPort, id);
        ghost var keys := probes.Keys;
        if probes[id].inFlight { byPort := byPort - {probes[id].srcPort}; }
        probes := probes - {id};
        todo := todo - {id};
        assert probes.Keys == keys - {id};
      }
    }

    /** One probe's turn: give up on it when it has waited too long, and send it again when it is due. */
    method Turn(id: nat, now: nat)
      requires Valid() && Inverse(probes, byPort) && id in probes && |probes| <= HC_PORTS
      modifies this
      ensures Valid() && Inverse(probes, byPort) && probes.Keys == old(probes).Keys
      ensures forall x :: x in probes && x != id ==> probes[x] == old(probes)[x]
      ensures TurnTaken(conf, old(probes)[id], probes[id], now)
    {
      hide Inverse;
      var p := probes[id];
      if TimedOut(conf, p, now) {
        var q := p.(inFlight := false, judge := Judged(conf, p.judge, false));
        EndedInverse(probes, byPort, id, q);
        byPort := byPort - {p.srcPort};
        probes := probes[id := q];
      }
      assert probes.Keys == old(probes).Keys && |probes.Keys| == |probes|;
      if !probes[id].inFlight && now >= probes[id].nextMs {
        ghost var free := PortIsFree(probes, byPort, id);
        SendProbe(id, now);
        Readdressed(probes, byPort, id, probes[id].(nextMs := now + conf.intervalMs));
        probes := probes[id := probes[id].(nextMs := now + conf.intervalMs)];
      }
    }

    /** A whole tick, with no more TCP servers than ports: the index stays right, exactly the listed servers are
        watched at their listed addresses, the only results it counts are timeouts, and every probe not waiting for an
        answer is sent when it is due. */
    method Tick(servers: seq<Server>, now: nat)
      requires Valid() && Inverse(probes, byPort) && |Ids(servers)| <= HC_PORTS
      modifies this
      ensures Valid() && Inverse(probes, byPort) && probes.Keys == Ids(servers)
      ensures forall id :: id in probes ==> Listed(probes[id], id, servers)
      ensures forall id :: id in probes && id in old(probes) ==>
        exists p: Probe :: SameProbe(old(probes)[id], p) && TurnTaken(conf, p, probes[id], now)
      ensures forall id :: id in probes && id !in old(probes) ==>
        exists p: Probe :: NewProbe(conf, p, id, servers, now) && TurnTaken(conf, p, probes[id], now)
    {
      hide Inverse;
      hide Ids;
      hide TurnTaken;
      hide Listed;
      hide NewProbe;
      Sync(servers, now);
      Forget(Ids(servers));
      assert probes.Keys == Ids(servers) && |probes.Keys| == |probes|;
      ghost var start := probes;
      TurnAll(now);
      forall id | id in probes ensures Listed(probes[id], id, servers) {
        StaysListed(conf, start[id], probes[id], id, servers, now);
      }
    }

    method TurnAll(now: nat)
      requires Valid() && Inverse(probes, byPort) && |probes| <= HC_PORTS
      modifies this
      ensures Valid() && Inverse(probes, byPort) && probes.Keys == old(probes).Keys
      ensures forall id :: id in probes ==> TurnTaken(conf, old(probes)[id], probes[id], now)
    {
      hide Inverse;
      hide TurnTaken;
      var todo := probes.Keys;
      assert |probes.Keys| == |probes|;
      while todo != {}
        invariant Valid() && Inverse(probes, byPort) && probes.Keys == old(probes).Keys && |probes| == |old(probes)|
        invariant forall id :: id in todo ==> id in probes && probes[id] == old(probes)[id]
        invariant forall id :: id in probes && id !in todo ==> TurnTaken(conf, old(probes)[id], probes[id], now)
        decreases |todo|
      {
        var id :| id in todo;
        Turn(id, now);
        assert |probes.Keys| == |probes|;
        todo := todo - {id};
      }
    }
  }

  lemma StaysListed(c: Conf, p: Probe, q: Probe, id: nat, servers: seq<Server>, now: nat)
    requires TurnTaken(c, p, q, now) && Listed(p, id, servers)
    ensures Listed(q, id, servers)
  {
  }

  lemma SameAgain(p: Probe)
    ensures SameProbe(p, p)
  {
  }

  lemma WatchedKeeps(c: Conf, probes: map<nat, Probe>, byPort: map<u16, nat>, s: Server, now: nat)
    requires c.Valid() && Inverse(probes, byPort)
    ensures Inverse(probes[s.id := Watched(c, probes, s, now)], byPort)
  {
    hide Inverse;
    Readdressed(probes, byPort, s.id, Watched(c, probes, s, now));
  }

  /** One round of the list. */
  lemma SyncStep(c: Conf, before: map<nat, Probe>, start: map<nat, Probe>, servers: seq<Server>, i: nat, now: nat)
    requires c.Valid() && i < |servers| && before.Keys == start.Keys + Ids(servers[..i])
    requires forall id :: id in start ==> SameProbe(start[id], before[id])
    requires forall id :: id in before && id !in start ==> NewProbe(c, before[id], id, servers[..i], now)
    requires forall id :: id in Ids(servers[..i]) ==> Listed(before[id], id, servers[..i])
    ensures var probes := before[servers[i].id := Watched(c, before, servers[i], now)];
            && probes.Keys == start.Keys + Ids(servers[..i + 1])
            && (forall id :: id in start ==> SameProbe(start[id], probes[id]))
            && (forall id :: id in probes && id !in start ==> NewProbe(c, probes[id], id, servers[..i + 1], now))
            && (forall id :: id in Ids(servers[..i + 1]) ==> Listed(probes[id], id, servers[..i + 1]))
  {
    var s, few, more := servers[i], servers[..i], servers[..i + 1];
    var probes := before[s.id := Watched(c, before, s, now)];
    IdsStep(servers, i);
    assert probes.Keys == before.Keys + {s.id};
    assert more[i] == s && forall k: nat :: k < i ==> more[k] == few[k];
    hide Ids;
    forall id | id in probes && id !in start ensures NewProbe(c, probes[id], id, more, now) {
      if id in before {
        var k: nat :| k < i && few[k].id == id && before[id].judge == Judge(few[k].healthy, 0, 0);
        assert more[k].id == id;
      }
    }
    forall id | id in Ids(more) ensures Listed(probes[id], id, more) {
      if id != s.id {
        var k: nat :| k < i && few[k].id == id && before[id].ip == few[k].ip && before[id].port == few[k].port;
        assert more[k].id == id;
      }
    }
  }

  lemma IdsStep(servers: seq<Server>, i: nat)
    requires i < |servers|
    ensures Ids(servers[..i + 1]) == Ids(servers[..i]) + {servers[i].id}
  {
    forall id | id in Ids(servers[..i]) + {servers[i].id} ensures id in Ids(servers[..i + 1]) {
      if id == servers[i].id {
        assert servers[..i + 1][i].id == id;
      } else {
        var k: nat :| k < i && servers[..i][k].id == id;
        assert servers[..i + 1][k].id == id;
      }
    }
    forall id | id in Ids(servers[..i + 1]) ensures id in Ids(servers[..i]) + {servers[i].id} {
      var k: nat :| k < i + 1 && servers[..i + 1][k].id == id;
      if k < i { assert servers[..i][k].id == id; }
    }
  }

  /** Changes that leave source port and flight alone leave the index right. */
  lemma Readdressed(probes: map<nat, Probe>, byPort: map<u16, nat>, id: nat, p: Probe)
    requires Inverse(probes, byPort)
    requires if id in probes then p.inFlight == probes[id].inFlight && p.srcPort == probes[id].srcPort else !p.inFlight
    ensures Inverse(probes[id := p], byPort)
  {
  }

  // ---------------------------------------------------------------------------------------------
  // More servers than ports
  // ---------------------------------------------------------------------------------------------

  /** Servers 0 to n - 1. */
  function Farm(n: nat): (servers: seq<Server>)
    ensures |servers| == n && forall i: nat :: i < n ==> servers[i].id == i
  {
    seq(n, i requires 0 <= i => Server(i, 1, 80, true))
  }

  lemma FarmIds(n: nat)
    ensures forall i: nat :: i < n ==> i in Ids(Farm(n))
  {
    forall i: nat | i < n ensures i in Ids(Farm(n)) { assert Farm(n)[i].id == i; }
  }

  /** With as many probes in flight as ports, all on ports of the range, no port is free. */
  lemma NoPortFree(byPort: map<u16, nat>, x: u16)
    requires |byPort| == HC_PORTS && (forall port :: port in byPort ==> InRange(port)) && InRange(x)
    ensures x in byPort
  {
    if x !in byPort {
      var ports, all := byPort.Keys + {x}, Slots(HC_PORTS);
      assert |byPort.Keys| == |byPort|;
      ShiftBack(ports, all);
    }
  }

  lemma {:induction false} ShiftBack(ports: set<u16>, all: set<nat>)
    requires forall p :: p in ports ==> p >= HC_PORT_MIN && p - HC_PORT_MIN in all
    ensures |ports| <= |all|
    decreases ports
  {
    if ports != {} {
      var p :| p in ports;
      ShiftBack(ports - {p}, all - {p - HC_PORT_MIN});
    }
  }

  lemma Grown(m: map<u16, nat>, port: u16, id: nat)
    requires port !in m
    ensures |m[port := id]| == |m| + 1
  {
    var n := m[port := id];
    assert n.Keys == m.Keys + {port} && |n.Keys| == |n| && |m.Keys| == |m|;
  }

  lemma PortLeft(byPort: map<u16, nat>)
    requires |byPort| < HC_PORTS
    ensures exists x: u16 :: InRange(x) && x !in byPort
  {
    var x := SomeFree(byPort, HC_PORTS);
  }

  /** The condition on sending is not idle: a new checker that watches 1002 servers and sends to each of them ends up
      with two probes in flight on port 0, of which the index knows one. */
  method PortsRunOut(conf: Conf) returns (c: Checker)
    requires conf.Valid()
    ensures c.Valid() && !Inverse(c.probes, c.byPort)
  {
    hide Inverse;
    hide NewProbe;
    hide Listed;
    hide SameProbe;
    var n := HC_PORTS + 2;
    c := new Checker(conf);
    NothingInverse();
    c.Sync(Farm(n), 0);
    FarmIds(n);
    Unsent(c, n);
    for id := 0 to HC_PORTS
      invariant c.Valid() && Inverse(c.probes, c.byPort) && |c.byPort| == id
      invariant forall port :: port in c.byPort ==> InRange(port)
      invariant forall i: nat :: id <= i < n ==> i in c.probes && !c.probes[i].inFlight && c.probes[i].srcPort == 0
    {
      PortLeft(c.byPort);
      ghost var before := c.byPort;
      c.SendProbe(id, 0);
      Grown(before, c.probes[id].srcPort, id);
    }
    forall x: u16 | InRange(x) ensures x in c.byPort { NoPortFree(c.byPort, x); }
    c.SendProbe(HC_PORTS, 0);
    c.SendProbe(HC_PORTS + 1, 0);
  }

  lemma NothingInverse()
    ensures Inverse(map[], map[])
  {
  }

  lemma Unsent(c: Checker, n: nat)
    requires c.conf.Valid() && forall id :: id in c.probes ==> NewProbe(c.conf, c.probes[id], id, Farm(n), 0)
    ensures forall id :: id in c.probes ==> !c.probes[id].inFlight && c.probes[id].srcPort == 0
  {
  }
}
