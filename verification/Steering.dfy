/** Which worker owns a flow, and the SNAT ports a worker may lend so that replies come back to it. */
module Steering {
  import opened Types

  /** Hash functions of the NIC and of the software path; nothing is known about them. */
  datatype Hashes = Hashes(jhash: FiveTuple -> u32, toeplitz: (FiveTuple, bool) -> u32)

  const MAX_RETA := 512

  datatype Steering = Steering(hw: bool, tcpL4: bool, udpL4: bool, n: nat, retaSize: nat, retaOwner: seq<nat>, h: Hashes) {

    predicate Valid() {
      && 1 <= n < 0x1_0000 && retaSize <= |retaOwner|
      && forall i: nat :: i < |retaOwner| ==> retaOwner[i] < n
    }

    predicate L4Hashed(protocol: u8) {
      if protocol == PROTO_TCP then tcpL4 else udpL4
    }

    /** The NIC's hash over the ports decides where a reply arrives; otherwise its port modulo `n` does. */
    predicate RetByRss(protocol: u8) {
      hw && L4Hashed(protocol)
    }

    function PortStep(protocol: u8): nat {
      if RetByRss(protocol) then 1 else n
    }

    function QueueOwner(hash: u32): (w: nat)
      requires Valid()
      ensures w < n
    {
      if retaSize != 0 then retaOwner[hash % retaSize] else hash % n
    }

    /** Owner of a packet from a client to a service. */
    function FwdOwner(t: FiveTuple): (w: nat)
      requires Valid()
      ensures w < n
    {
      if n == 1 then 0
      else if !hw then h.jhash(t) % n
      else QueueOwner(h.toeplitz(t, L4Hashed(t.protocol)))
    }

    /** Owner of a reply from a real server to a local address. */
    function RetOwner(t: FiveTuple): (w: nat)
      requires Valid()
      ensures w < n
    {
      if n == 1 then 0
      else if !RetByRss(t.protocol) then t.dstPort % n
      else QueueOwner(h.toeplitz(t, true))
    }
  }

  method InitSw(workers: nat, h: Hashes) returns (s: Steering)
    requires workers < 0x1_0000
    ensures s.Valid() && s.n == (if workers == 0 then 1 else workers)
    ensures forall protocol: u8 :: s.PortStep(protocol) == s.n
    ensures forall t: FiveTuple :: s.FwdOwner(t) == h.jhash(t) % s.n && s.RetOwner(t) == t.dstPort % s.n
  {
    s := Steering(false, false, false, if workers == 0 then 1 else workers, 0, [], h);
  }

  function QueueWorker(queue: nat, workers: nat): (w: nat)
    requires workers > 0
    ensures w < workers && (queue < workers ==> w == queue)
  {
    queue % workers
  }

  lemma WorkerOfQueue(queue: nat, workers: nat)
    requires workers > 0
    ensures QueueWorker(queue, workers) == queue % workers
  {
  }

  /** Every queue number of the redirection table becomes a worker, so every hash has an owner. */
  method InitHw(workers: nat, reta: seq<nat>, tcpL4: bool, udpL4: bool, h: Hashes) returns (s: Steering)
    requires 1 <= workers < 0x1_0000 && |reta| <= MAX_RETA
    ensures s.Valid() && s.n == workers && s.hw && s.tcpL4 == tcpL4 && s.udpL4 == udpL4 && s.h == h
    ensures s.retaSize == |reta| && forall i: nat :: i < |reta| ==> s.retaOwner[i] == reta[i] % workers
  {
    hide QueueWorker;
    var owners: seq<nat> := seq(MAX_RETA, _ => 0);
    var i := 0;
    while i < |reta| && i < MAX_RETA
      invariant i <= |reta| && |owners| == MAX_RETA
      invariant forall j: nat :: j < |owners| ==> owners[j] < workers
      invariant forall j: nat :: j < i ==> owners[j] == QueueWorker(reta[j], workers)
    {
      var owner := QueueWorker(reta[i], workers);
      owners := owners[i := owner];
      i := i + 1;
    }
    s := Steering(true, tcpL4, udpL4, workers, |reta|, owners, h);
    forall j: nat | j < |reta| ensures owners[j] == reta[j] % workers { WorkerOfQueue(reta[j], workers); }
  }

  /** What the NIC does with a packet: its hash, over the ports as well where it can, picks the queue. */
  datatype Nic = Nic(reta: seq<nat>, tcpL4: bool, udpL4: bool, h: Hashes) {
    function Queue(t: FiveTuple): nat
      requires |reta| > 0
    {
      reta[h.toeplitz(t, if t.protocol == PROTO_TCP then tcpL4 else udpL4) % |reta|]
    }
  }

  /** The steering was set up from this NIC's own table, one queue a worker. */
  ghost predicate Mirrors(s: Steering, nic: Nic) {
    && s.Valid() && s.hw && s.tcpL4 == nic.tcpL4 && s.udpL4 == nic.udpL4 && s.h == nic.h
    && s.retaSize == |nic.reta| > 0
    && forall i: nat :: i < |nic.reta| ==> nic.reta[i] < s.n && s.retaOwner[i] == nic.reta[i]
  }

  lemma SetUpMirrors(s: Steering, nic: Nic)
    requires s.Valid() && s.hw && s.tcpL4 == nic.tcpL4 && s.udpL4 == nic.udpL4 && s.h == nic.h
    requires s.retaSize == |nic.reta| > 0 && forall i: nat :: i < |nic.reta| ==> s.retaOwner[i] == nic.reta[i] % s.n
    requires forall i: nat :: i < |nic.reta| ==> nic.reta[i] < s.n
    ensures Mirrors(s, nic)
  {
    forall i: nat | i < |nic.reta| ensures s.retaOwner[i] == nic.reta[i] {
      WorkerOfQueue(nic.reta[i], s.n);
    }
  }

  /** The NIC delivers every packet of a client to its owner, and every reply too where it hashes ports. */
  lemma NicAgrees(s: Steering, nic: Nic, t: FiveTuple)
    requires Mirrors(s, nic)
    ensures s.FwdOwner(t) == nic.Queue(t)
    ensures s.L4Hashed(t.protocol) ==> s.RetOwner(t) == nic.Queue(t)
  {
    var i := nic.h.toeplitz(t, s.L4Hashed(t.protocol)) % |nic.reta|;
    assert nic.reta[i] < s.n && s.retaOwner[i] == nic.reta[i];
  }

  // ---------------------------------------------------------------------------------------------
  // SNAT port candidates
  // ---------------------------------------------------------------------------------------------

  const NAT_RANGE: nat := NAT_PORT_MAX - NAT_PORT_MIN + 1

  /** Number of ports one worker may try on one local address. */
  function PortSlots(step: nat): nat
    requires step > 0
  {
    NAT_RANGE / step
  }

  /** The port tried for cursor value `cursor`, before it is cut to 16 bits. */
  function WidePort(step: nat, idx: nat, cursor: nat): nat
    requires 0 < step <= NAT_RANGE
  {
    NAT_PORT_MIN + cursor % PortSlots(step) * step
    + (if step > 1 then (idx + step - NAT_PORT_MIN % step) % step else 0)
  }

  function CandidatePort(step: nat, idx: nat, cursor: nat): (p: u16)
    requires 0 < step <= NAT_RANGE
  {
    WidePort(step, idx, cursor) % 0x1_0000
  }

  lemma MulMonotone(a: int, b: int, c: nat)
    requires a <= b
    ensures a * c <= b * c
  {
  }

  lemma CandidateOffset(step: nat, idx: nat)
    requires 0 < step && idx < step
    ensures var o := (idx + step - NAT_PORT_MIN % step) % step;
            o < step && (NAT_PORT_MIN + o) % step == idx
  {
    var m, q := NAT_PORT_MIN % step, NAT_PORT_MIN / step;
    var o := (idx + step - m) % step;
    assert NAT_PORT_MIN == q * step + m;
    if idx >= m {
      assert idx + step - m == step + (idx - m);
      ModShift(idx - m, 1, step);
      ModShift(idx, q, step);
      assert NAT_PORT_MIN + o == q * step + idx;
    } else {
      ModShift(idx + step - m, 0, step);
      ModShift(idx, q + 1, step);
      assert NAT_PORT_MIN + o == (q + 1) * step + idx;
    }
  }

  lemma ModShift(r: nat, k: nat, n: nat)
    requires r < n
    ensures (k * n + r) % n == r && (k * n + r) / n == k
  {
    var q, m := (k * n + r) / n, (k * n + r) % n;
    assert (q - k) * n == r - m;
    if q > k { MulMonotone(1, q - k, n); }
    if q < k { MulMonotone(1, k - q, n); }
  }

  lemma ModPlusMultiple(base: nat, k: nat, n: nat)
    requires n > 0
    ensures (base + k * n) % n == base % n
  {
    ModShift(base % n, base / n + k, n);
    assert (base / n + k) * n + base % n == base + k * n;
  }

  lemma LastSlotFits(range: nat, step: nat, k: nat)
    requires 0 < step && k < range / step
    ensures 0 <= k * step && k * step + step <= range
  {
    MulMonotone(k + 1, range / step, step);
  }

  lemma ResiduesDiffer(a: nat, b: nat, n: nat)
    requires a < b < a + n
    ensures a % n != b % n
  {
    if a % n == b % n {
      var qa, qb := a / n, b / n;
      assert (qb - qa) * n == b - a;
      if qb > qa { MulMonotone(1, qb - qa, n); }
      if qb < qa { MulMonotone(1, qa - qb, n); }
      assert false;
    }
  }

  /** A candidate is always in the SNAT range, so it survives the cut to 16 bits and the range test that
      follows never fires; when ports decide ownership it belongs to the worker that tries it. */
  lemma CandidateInRange(step: nat, idx: nat, cursor: nat)
    requires 0 < step <= NAT_RANGE && idx < step
    ensures NAT_PORT_MIN <= WidePort(step, idx, cursor) <= NAT_PORT_MAX
    ensures CandidatePort(step, idx, cursor) == WidePort(step, idx, cursor)
    ensures CandidatePort(step, idx, cursor) % step == idx
  {
    var slots := PortSlots(step);
    var k := cursor % slots;
    var o := if step > 1 then (idx + step - NAT_PORT_MIN % step) % step else 0;
    CandidateOffset(step, idx);
    LastSlotFits(NAT_RANGE, step, k);
    ModPlusMultiple(NAT_PORT_MIN + o, k, step);
  }

  /** As long as the 32-bit cursor does not wrap, a worker tries every one of its ports before it tries
      one again. */
  lemma CandidatesDistinct(step: nat, idx: nat, c1: nat, c2: nat)
    requires 0 < step <= NAT_RANGE && idx < step
    requires c1 < c2 < c1 + PortSlots(step) && c2 < WRAP32
    ensures CandidatePort(step, idx, c1) != CandidatePort(step, idx, c2)
  {
    var slots := PortSlots(step);
    CandidateInRange(step, idx, c1);
    CandidateInRange(step, idx, c2);
    var k1, k2 := c1 % slots, c2 % slots;
    ResiduesDiffer(c1, c2, slots);
    if k1 < k2 { MulMonotone(k1 + 1, k2, step); } else { MulMonotone(k2 + 1, k1, step); }
  }

  /** Workers that own replies by port never offer the same port. */
  lemma CandidatesDisjoint(n: nat, idx1: nat, idx2: nat, c1: nat, c2: nat)
    requires 0 < n <= NAT_RANGE && idx1 < n && idx2 < n && idx1 != idx2
    ensures CandidatePort(n, idx1, c1) != CandidatePort(n, idx2, c2)
  {
    CandidateInRange(n, idx1, c1);
    CandidateInRange(n, idx2, c2);
  }

  /** Where ports decide ownership, a reply to a candidate port comes back to the worker that lent it. */
  lemma CandidateComesBack(s: Steering, idx: nat, cursor: nat, t: FiveTuple)
    requires s.Valid() && s.n <= NAT_RANGE && idx < s.n && !s.RetByRss(t.protocol)
    requires t.dstPort == CandidatePort(s.PortStep(t.protocol), idx, cursor)
    ensures s.RetOwner(t) == idx
  {
    CandidateInRange(s.n, idx, cursor);
  }
}
