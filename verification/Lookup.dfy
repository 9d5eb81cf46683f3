/** The snapshot's lookup tables: open addressing over 512 slots, filled once and then only read. */
module Lookup {
  import opened Types
  import opened Handlers

  const SLOTS := 512
  const MAX_SERVICES := 64
  const MAX_LOCAL_IPS := 64

  function Slot(start: nat, d: nat): (i: nat)
    ensures i < SLOTS
  {
    (start + d) % SLOTS
  }

  /** How far slot i is from the start of a probe. */
  function Dist(start: nat, i: nat): (d: nat)
    requires start < SLOTS && i < SLOTS
    ensures d < SLOTS && Slot(start, d) == i
  {
    if start <= i then i - start else i + SLOTS - start
  }

  lemma DistUnique(start: nat, d: nat)
    requires start < SLOTS && d < SLOTS
    ensures Dist(start, Slot(start, d)) == d
  {
  }

  // ---------------------------------------------------------------------------------------------
  // Empty slots
  // ---------------------------------------------------------------------------------------------

  function Empties(s: seq<int>, e: int): nat {
    if s == [] then 0 else Empties(s[..|s| - 1], e) + if s[|s| - 1] == e then 1 else 0
  }

  lemma {:induction false} EmptyExists(s: seq<int>, e: int) returns (i: nat)
    requires Empties(s, e) > 0
    ensures i < |s| && s[i] == e
  {
    var n := |s| - 1;
    if s[n] == e { i := n; } else { i := EmptyExists(s[..n], e); }
  }

  lemma {:induction false} EmptiesTake(s: seq<int>, e: int, i: nat, x: int)
    requires i < |s| && s[i] == e && x != e
    ensures Empties(s[i := x], e) == Empties(s, e) - 1
  {
    var n := |s| - 1;
    if i == n {
      assert s[i := x][..n] == s[..n];
    } else {
      assert s[i := x][..n] == s[..n][i := x];
      EmptiesTake(s[..n], e, i, x);
    }
  }

  lemma {:induction false} EmptiesAll(s: seq<int>, e: int)
    requires forall i: nat :: i < |s| ==> s[i] == e
    ensures Empties(s, e) == |s|
  {
    if s != [] { EmptiesAll(s[..|s| - 1], e); }
  }

  // ---------------------------------------------------------------------------------------------
  // Address sets
  // ---------------------------------------------------------------------------------------------

  /** Every address can be reached from its hash without crossing an empty slot. */
  ghost predicate Reachable(s: seq<u32>, h: u32 -> nat) {
    && |s| == SLOTS
    && forall i: nat, d: nat :: i < SLOTS && s[i] != 0 && d < Dist(h(s[i]) % SLOTS, i) ==> s[Slot(h(s[i]) % SLOTS, d)] != 0
  }

  /** A probe that meets an empty slot has passed everything it could be looking for. */
  lemma NotThere(s: seq<u32>, h: u32 -> nat, ip: u32, d: nat)
    requires Reachable(s, h) && d < SLOTS && ip != 0 && s[Slot(h(ip) % SLOTS, d)] == 0
    requires forall k: nat :: k < d ==> s[Slot(h(ip) % SLOTS, k)] != ip
    ensures ip !in s
  {
    var start := h(ip) % SLOTS;
    forall j: nat | j < SLOTS ensures s[j] != ip {
      var k := Dist(start, j);
      assert s[Slot(start, k)] == s[j];
      if s[j] == ip && k > d { assert false; }
    }
  }

  /** Membership, by probing. Address 0 marks empty slots, so it is found as soon as a probe meets one. */
  method SetHas(a: array<u32>, h: u32 -> nat, ip: u32) returns (r: bool)
    requires Reachable(a[..], h) && Empties(a[..], 0) > 0
    ensures r == (ip in a[..]) && (ip == 0 ==> r)
  {
    var start := h(ip) % SLOTS;
    ghost var s := a[..];
    ghost var e := EmptyExists(s, 0);
    ghost var d := 0;
    var i := start;
    while true
      invariant i == Slot(start, d) && d <= Dist(start, e)
      invariant forall k: nat :: k < d ==> s[Slot(start, k)] != 0 && s[Slot(start, k)] != ip
      decreases Dist(start, e) - d
    {
      assert a[i] == s[i];
      if a[i] == ip {
        return true;
      }
      if a[i] == 0 {
        NotThere(s, h, ip, d);
        return false;
      }
      DistUnique(start, d);
      assert i != e;
      i := (i + 1) % SLOTS;
      d := d + 1;
    }
  }

  /** Insertion into the first empty slot of the probe. */
  method SetAdd(a: array<u32>, h: u32 -> nat, ip: u32)
    requires Reachable(a[..], h) && Empties(a[..], 0) > 1
    modifies a
    ensures Reachable(a[..], h) && Empties(a[..], 0) >= old(Empties(a[..], 0)) - 1
    ensures forall x: u32 :: x != 0 ==> (x in a[..] <==> x in old(a[..]) || x == ip)
  {
    if ip == 0 {
      return;
    }
    var has := SetHas(a, h, ip);
    if has {
      return;
    }
    var start := h(ip) % SLOTS;
    ghost var s := a[..];
    ghost var e := EmptyExists(s, 0);
    ghost var d := 0;
    var i := start;
    while a[i] != 0
      invariant i == Slot(start, d) && d <= Dist(start, e)
      invariant forall k: nat :: k < d ==> s[Slot(start, k)] != 0
      invariant a[..] == s
      decreases Dist(start, e) - d
    {
      DistUnique(start, d);
      i := (i + 1) % SLOTS;
      d := d + 1;
    }
    DistUnique(start, d);
    EmptiesTake(s, 0, i, ip);
    a[i] := ip;
    Added(s, h, i, ip);
    assert a[..] == s[i := ip];
  }

  lemma Added(s: seq<u32>, h: u32 -> nat, i: nat, ip: u32)
    requires Reachable(s, h) && i < SLOTS && s[i] == 0 && ip != 0
    requires forall d: nat :: d < Dist(h(ip) % SLOTS, i) ==> s[Slot(h(ip) % SLOTS, d)] != 0
    ensures Reachable(s[i := ip], h)
    ensures forall x: u32 :: x != 0 ==> (x in s[i := ip] <==> x in s || x == ip)
  {
    var t := s[i := ip];
    assert t[i] == ip;
    forall x: u32 | x != 0 && x in s ensures x in t {
      var j: nat :| j < |s| && s[j] == x;
      assert t[j] == x;
    }
  }

  // ---------------------------------------------------------------------------------------------
  // Services
  // ---------------------------------------------------------------------------------------------

  /** Slots name the first n services; on the way to a service only earlier ones are met. */
  ghost predicate Indexed(s: seq<int>, keys: seq<ServiceKey>, n: nat, h: ServiceKey -> nat) {
    && |s| == SLOTS && n <= |keys|
    && (forall i: nat :: i < SLOTS ==> -1 <= s[i] < n)
    && (forall j: nat :: j < n ==> j in s)
    && (forall i: nat, d: nat :: i < SLOTS && s[i] >= 0 && d < Dist(h(keys[s[i]]) % SLOTS, i) ==>
          0 <= s[Slot(h(keys[s[i]]) % SLOTS, d)] < s[i])
  }

  predicate IsFirst(keys: seq<ServiceKey>, k: ServiceKey, j: nat) {
    j < |keys| && keys[j] == k && forall i: nat :: i < j ==> keys[i] != k
  }

  /** A key that is listed is met before any empty slot, and its first listing is met first. */
  lemma ProbeMeets(s: seq<int>, keys: seq<ServiceKey>, h: ServiceKey -> nat, k: ServiceKey, d: nat)
    requires Indexed(s, keys, |keys|, h) && d < SLOTS
    requires forall c: nat :: c < d ==> var j := s[Slot(h(k) % SLOTS, c)]; j >= 0 && keys[j] != k
    ensures var j := s[Slot(h(k) % SLOTS, d)];
            && (j >= 0 && keys[j] == k ==> IsFirst(keys, k, j))
            && (j < 0 ==> k !in keys)
  {
    hide Slot;
    hide Dist;
    var start := h(k) % SLOTS;
    var j := s[Slot(start, d)];
    forall m: nat | m < |keys| && keys[m] == k ensures j >= 0 && (keys[j] == k ==> j <= m) {
      assert m in s;
      var i: nat :| i < SLOTS && s[i] == m;
      var c := Dist(start, i);
      assert s[Slot(start, c)] == m;
      if d < c {
        assert 0 <= s[Slot(start, d)] < s[i];
      }
    }
  }

  lemma ServiceAdded(s: seq<int>, keys: seq<ServiceKey>, n: nat, h: ServiceKey -> nat, i: nat)
    requires Indexed(s, keys, n, h) && n < |keys| && i < SLOTS && s[i] < 0
    requires forall d: nat :: d < Dist(h(keys[n]) % SLOTS, i) ==> s[Slot(h(keys[n]) % SLOTS, d)] >= 0
    ensures Indexed(s[i := n], keys, n + 1, h)
  {
    var t := s[i := n];
    assert t[i] == n;
    forall j: nat | j < n ensures j in t {
      assert j in s;
      var k: nat :| k < SLOTS && s[k] == j;
      assert t[k] == j;
    }
  }

  method AddService(a: array<int>, keys: seq<ServiceKey>, n: nat, h: ServiceKey -> nat)
    requires Indexed(a[..], keys, n, h) && n < |keys| && Empties(a[..], -1) > 1
    modifies a
    ensures Indexed(a[..], keys, n + 1, h) && Empties(a[..], -1) == old(Empties(a[..], -1)) - 1
  {
    var start := h(keys[n]) % SLOTS;
    ghost var s := a[..];
    ghost var e := EmptyExists(s, -1);
    ghost var d := 0;
    var i := start;
    while a[i] >= 0
      invariant i == Slot(start, d) && d <= Dist(start, e)
      invariant forall k: nat :: k < d ==> s[Slot(start, k)] >= 0
      invariant a[..] == s
      decreases Dist(start, e) - d
    {
      DistUnique(start, d);
      i := (i + 1) % SLOTS;
      d := d + 1;
    }
    DistUnique(start, d);
    EmptiesTake(s, -1, i, n);
    ServiceAdded(s, keys, n, h, i);
    a[i] := n;
    assert a[..] == s[i := n];
  }

  // ---------------------------------------------------------------------------------------------
  // The tables of one snapshot
  // ---------------------------------------------------------------------------------------------

  function VipsOf(keys: seq<ServiceKey>): (r: seq<u32>)
    ensures |r| == |keys|
  {
    seq(|keys|, i requires 0 <= i < |keys| => keys[i].vip)
  }

  lemma VipMembers(keys: seq<ServiceKey>, ip: u32)
    ensures ip in VipsOf(keys) <==> exists k :: k in keys && k.vip == ip
  {
    var r := VipsOf(keys);
    if ip in r {
      var i: nat :| i < |r| && r[i] == ip;
      assert keys[i] in keys;
    }
    if k :| k in keys && k.vip == ip {
      var i: nat :| i < |keys| && keys[i] == k;
      assert r[i] == ip;
    }
  }

  /** The table holds exactly these addresses (other than 0) and has room left. */
  ghost predicate Holds(s: seq<u32>, members: seq<u32>, h: u32 -> nat, room: int) {
    Reachable(s, h) && Empties(s, 0) >= room && forall x: u32 :: x != 0 ==> (x in s <==> x in members)
  }

  lemma HoldsNothing(s: seq<u32>, h: u32 -> nat)
    requires |s| == SLOTS && forall i: nat :: i < SLOTS ==> s[i] == 0
    ensures Holds(s, [], h, SLOTS)
  {
    EmptiesAll(s, 0);
  }

  lemma HoldsWithLess(s: seq<u32>, members: seq<u32>, h: u32 -> nat, room: int)
    requires Holds(s, members, h, room) && room >= 1
    ensures Holds(s, members, h, 1)
  {
  }

  method AddMember(a: array<u32>, h: u32 -> nat, ip: u32, ghost members: seq<u32>, ghost room: int)
    requires Holds(a[..], members, h, room) && room > 1
    modifies a
    ensures Holds(a[..], members + [ip], h, room - 1)
  {
    SetAdd(a, h, ip);
  }

  method IndexServices(keys: seq<ServiceKey>, h: ServiceKey -> nat) returns (svc: array<int>)
    requires |keys| <= MAX_SERVICES
    ensures fresh(svc) && Indexed(svc[..], keys, |keys|, h) && Empties(svc[..], -1) > 0
  {
    svc := new int[SLOTS](_ => -1);
    EmptiesAll(svc[..], -1);
    for j := 0 to |keys|
      invariant Indexed(svc[..], keys, j, h) && Empties(svc[..], -1) == SLOTS - j
    {
      AddService(svc, keys, j, h);
    }
  }

  method IndexAddresses(ips: seq<u32>, ls: seq<u32>, hcSrc: u32, h: u32 -> nat)
    returns (vips: array<u32>, lips: array<u32>, locals: array<u32>)
    requires |ips| <= MAX_SERVICES && |ls| <= MAX_LOCAL_IPS
    ensures fresh(vips) && fresh(lips) && fresh(locals)
    ensures Holds(vips[..], ips, h, 1) && Holds(lips[..], ls, h, 1) && Holds(locals[..], ips + ls + [hcSrc], h, 1)
  {
    vips, lips := new u32[SLOTS](_ => 0), new u32[SLOTS](_ => 0);
    locals := new u32[SLOTS](_ => 0);
    HoldsNothing(vips[..], h);
    HoldsNothing(lips[..], h);
    HoldsNothing(locals[..], h);
    hide Holds;
    AddBoth(vips, locals, h, ips, [], SLOTS);
    AddBoth(lips, locals, h, ls, ips, SLOTS - |ips|);
    AddMember(locals, h, hcSrc, ips + ls, SLOTS - |ips| - |ls|);
    HoldsWithLess(vips[..], ips, h, SLOTS - |ips|);
    HoldsWithLess(lips[..], ls, h, SLOTS - |ls|);
    HoldsWithLess(locals[..], ips + ls + [hcSrc], h, SLOTS - |ips| - |ls| - 1);
  }

  /** One loop of index(): every address goes into its own table and into the common one. */
  method AddBoth(own: array<u32>, common: array<u32>, h: u32 -> nat, xs: seq<u32>, ghost before: seq<u32>, ghost room: int)
    requires own != common && Holds(own[..], [], h, SLOTS) && Holds(common[..], before, h, room) && |xs| < room <= SLOTS
    modifies own, common
    ensures Holds(own[..], xs, h, SLOTS - |xs|) && Holds(common[..], before + xs, h, room - |xs|)
  {
    hide Holds;
    assert xs[..0] == [] && before + xs[..0] == before;
    for j := 0 to |xs|
      invariant Holds(own[..], xs[..j], h, SLOTS - j) && Holds(common[..], before + xs[..j], h, room - j)
    {
      assert xs[..j + 1] == xs[..j] + [xs[j]] && before + xs[..j + 1] == before + xs[..j] + [xs[j]];
      AddMember(own, h, xs[j], xs[..j], SLOTS - j);
      AddMember(common, h, xs[j], before + xs[..j], room - j);
    }
    assert xs[..|xs|] == xs;
  }

  class Tables {
    const keys: seq<ServiceKey>
    const svc: array<int>
    const vips: array<u32>
    const lips: array<u32>
    const locals: array<u32>
    const hKey: ServiceKey -> nat
    const hAddr: u32 -> nat

    /** index(): with at most 64 services and 64 local addresses no table ever fills up. */
    constructor (keys: seq<ServiceKey>, net: Net, hKey: ServiceKey -> nat, hAddr: u32 -> nat)
      requires |keys| <= MAX_SERVICES && |net.lips| <= MAX_LOCAL_IPS && net.services == (set k | k in keys)
      ensures Valid(net) && this.keys == keys && this.hKey == hKey && this.hAddr == hAddr
    {
      hide Holds;
      var svc := IndexServices(keys, hKey);
      var vips, lips, locals := IndexAddresses(VipsOf(keys), net.lips, net.hcSrc, hAddr);
      this.keys, this.hKey, this.hAddr := keys, hKey, hAddr;
      this.svc, this.vips, this.lips, this.locals := svc, vips, lips, locals;
    }

    /** The tables answer for this deployment. */
    ghost predicate Valid(net: Net)
      reads svc, vips, lips, locals
    {
      && net.services == (set k | k in keys)
      && Indexed(svc[..], keys, |keys|, hKey) && Empties(svc[..], -1) > 0
      && Holds(vips[..], VipsOf(keys), hAddr, 1)
      && Holds(lips[..], net.lips, hAddr, 1)
      && Holds(locals[..], VipsOf(keys) + net.lips + [net.hcSrc], hAddr, 1)
    }

    method FindService(k: ServiceKey, ghost net: Net) returns (r: Option<nat>)
      requires Valid(net)
      ensures r.None? <==> k !in net.services
      ensures r.Some? ==> IsFirst(keys, k, r.value)
    {
      var start := hKey(k) % SLOTS;
      ghost var s := svc[..];
      ghost var e := EmptyExists(s, -1);
      ghost var d := 0;
      var i := start;
      while true
        invariant i == Slot(start, d) && d <= Dist(start, e)
        invariant forall c: nat :: c < d ==> var j := s[Slot(start, c)]; j >= 0 && keys[j] != k
        decreases Dist(start, e) - d
      {
        var idx := svc[i];
        assert idx == s[i];
        ProbeMeets(s, keys, hKey, k, d);
        if idx < 0 {
          return None;
        }
        if keys[idx] == k {
          return Some(idx);
        }
        DistUnique(start, d);
        i := (i + 1) % SLOTS;
        d := d + 1;
      }
    }

    method IsVip(ip: u32, ghost net: Net) returns (r: bool)
      requires Valid(net)
      ensures r == net.IsVip(ip)
    {
      VipMembers(keys, ip);
      r := SetHas(vips, hAddr, ip);
    }

    method IsLip(ip: u32, ghost net: Net) returns (r: bool)
      requires Valid(net)
      ensures r == net.IsLip(ip)
    {
      r := SetHas(lips, hAddr, ip);
    }

    method IsLocal(ip: u32, ghost net: Net) returns (r: bool)
      requires Valid(net)
      ensures r == (net.IsVip(ip) || net.IsLip(ip) || ip == net.hcSrc)
    {
      VipMembers(keys, ip);
      r := SetHas(locals, hAddr, ip);
    }
  }
}
