/** The control plane's desired state: operations on real servers, and the snapshots built from it. */
module Control {
  import opened Types
  import opened Steering
  import opened Handlers

  const MAX_WEIGHT := 65535
  const MAX_RS_PER_SERVICE := 256
  const MAX_RS_ID := 16384

  datatype DesiredRs = DesiredRs(id: nat, addr: RsAddr, weight: nat, enabled: bool, healthy: bool) {
    predicate Schedulable() { enabled && healthy && weight > 0 }

    /** What a snapshot shows of it, under the service it belongs to. */
    function State(service: ServiceKey): RsState { RsState(addr, service, weight, enabled, healthy) }
  }

  datatype DesiredService = DesiredService(key: ServiceKey, rs: seq<DesiredRs>)

  /** The addresses and the mode of the deployment, which no operation touches. */
  datatype Site = Site(mode: ForwardMode, lips: seq<u32>, hcSrc: u32)

  datatype Desired = Desired(site: Site, services: seq<DesiredService>, nextId: nat) {
    /** The network part of every snapshot built from this state. */
    function NetOf(): Net {
      Net(site.mode, site.lips, set i: nat | i < |services| :: services[i].key, site.hcSrc)
    }

    /** Server j of service i. */
    predicate Has(i: nat, j: nat) { i < |services| && j < |services[i].rs| }

    function At(i: nat, j: nat): DesiredRs
      requires Has(i, j)
    {
      services[i].rs[j]
    }

    ghost predicate Present(id: nat) {
      exists i: nat, j: nat :: Has(i, j) && At(i, j).id == id
    }

    /** Every server has its own id, below the next one to be given out. */
    ghost predicate Valid() {
      && (forall i: nat, j: nat :: Has(i, j) ==> At(i, j).id < nextId)
      && (forall i: nat, j: nat, k: nat, l: nat :: Has(i, j) && Has(k, l) && At(i, j).id == At(k, l).id ==> i == k && j == l)
    }

    function Put(i: nat, j: nat, r: DesiredRs): Desired
      requires Has(i, j)
    {
      var svc := services[i];
      this.(services := services[i := svc.(rs := svc.rs[j := r])])
    }
  }

  /** Ids keep their address and service, deleted ids never come back, and services never change. */
  ghost predicate Evolves(a: Desired, b: Desired) {
    && b.site == a.site && |b.services| == |a.services| && a.nextId <= b.nextId
    && (forall i: nat :: i < |a.services| ==> b.services[i].key == a.services[i].key)
    && (forall i: nat, j: nat :: b.Has(i, j) && b.At(i, j).id < a.nextId ==>
          exists l: nat :: a.Has(i, l) && a.At(i, l).id == b.At(i, j).id && a.At(i, l).addr == b.At(i, j).addr)
  }

  lemma EvolvesTransitive(a: Desired, b: Desired, c: Desired)
    requires Evolves(a, b) && Evolves(b, c)
    ensures Evolves(a, c)
  {
    forall i: nat, j: nat | c.Has(i, j) && c.At(i, j).id < a.nextId
      ensures exists l: nat :: a.Has(i, l) && a.At(i, l).id == c.At(i, j).id && a.At(i, l).addr == c.At(i, j).addr
    {
      var l: nat :| b.Has(i, l) && b.At(i, l).id == c.At(i, j).id && b.At(i, l).addr == c.At(i, j).addr;
    }
  }

  /** No operation changes what decides where packets go. */
  lemma NetIsKept(a: Desired, b: Desired)
    requires Evolves(a, b)
    ensures b.NetOf() == a.NetOf()
  {
    var x, y := a.NetOf().services, b.NetOf().services;
    forall i: nat | i < |a.services| ensures a.services[i].key in x && b.services[i].key in y { }
    assert x == y;
  }

  lemma PutEvolves(a: Desired, i: nat, j: nat, r: DesiredRs)
    requires a.Valid() && a.Has(i, j) && r.id == a.At(i, j).id && r.addr == a.At(i, j).addr
    ensures var b := a.Put(i, j, r);
            && b.Valid() && Evolves(a, b) && b.nextId == a.nextId && b.Has(i, j) && b.At(i, j) == r
            && forall k: nat, l: nat ::
                 && (a.Has(k, l) <==> b.Has(k, l))
                 && (a.Has(k, l) && (k != i || l != j) ==> b.At(k, l) == a.At(k, l))
  {
    var b := a.Put(i, j, r);
    forall k: nat, l: nat | b.Has(k, l)
      ensures a.Has(k, l) && a.At(k, l).id == b.At(k, l).id && a.At(k, l).addr == b.At(k, l).addr
    {
    }
  }

  function Appended(a: Desired, i: nat, r: DesiredRs): Desired
    requires i < |a.services|
  {
    var svc := a.services[i];
    a.(services := a.services[i := svc.(rs := svc.rs + [r])], nextId := a.nextId + 1)
  }

  lemma AppendEvolves(a: Desired, i: nat, r: DesiredRs)
    requires a.Valid() && i < |a.services| && r.id == a.nextId
    ensures Appended(a, i, r).Valid() && Evolves(a, Appended(a, i, r))
    ensures forall id: nat :: Appended(a, i, r).Present(id) <==> a.Present(id) || id == r.id
  {
    var b, n := Appended(a, i, r), |a.services[i].rs|;
    assert b.Has(i, n) && b.At(i, n) == r;
    forall k: nat, l: nat | b.Has(k, l) && (k != i || l != n) ensures a.Has(k, l) && b.At(k, l) == a.At(k, l) { }
    forall k: nat, l: nat | a.Has(k, l) ensures b.Has(k, l) && b.At(k, l) == a.At(k, l) && (k != i || l != n) { }
  }

  function Without(a: Desired, i: nat, j: nat): Desired
    requires a.Has(i, j)
  {
    var svc := a.services[i];
    a.(services := a.services[i := svc.(rs := svc.rs[..j] + svc.rs[j + 1..])])
  }

  lemma WithoutEvolves(a: Desired, i: nat, j: nat)
    requires a.Valid() && a.Has(i, j)
    ensures Without(a, i, j).Valid() && Evolves(a, Without(a, i, j))
    ensures forall id: nat :: Without(a, i, j).Present(id) <==> a.Present(id) && id != a.At(i, j).id
  {
    var b := Without(a, i, j);
    forall k: nat, l: nat | b.Has(k, l)
      ensures var m := if k == i && l >= j then l + 1 else l;
              a.Has(k, m) && b.At(k, l) == a.At(k, m) && (k != i || m != j)
    {
    }
    forall k: nat, l: nat | a.Has(k, l) && (k != i || l != j)
      ensures var m := if k == i && l > j then l - 1 else l;
              b.Has(k, m) && b.At(k, m) == a.At(k, l)
    {
    }
  }

  /** A service's servers, in order and as they are, without the one with this id. */
  function AllBut(rs: seq<DesiredRs>, id: nat): seq<DesiredRs> {
    if rs == [] then []
    else
      var n := |rs| - 1;
      AllBut(rs[..n], id) + if rs[n].id == id then [] else [rs[n]]
  }

  lemma {:induction false} AllButNone(rs: seq<DesiredRs>, id: nat)
    requires forall j: nat :: j < |rs| ==> rs[j].id != id
    ensures AllBut(rs, id) == rs
  {
    if rs != [] { AllButNone(rs[..|rs| - 1], id); }
  }

  lemma {:induction false} AllButOne(rs: seq<DesiredRs>, j: nat)
    requires j < |rs| && forall l: nat :: l < |rs| && l != j ==> rs[l].id != rs[j].id
    ensures AllBut(rs, rs[j].id) == rs[..j] + rs[j + 1..]
  {
    var n := |rs| - 1;
    if j == n {
      AllButNone(rs[..n], rs[n].id);
    } else {
      AllButOne(rs[..n], j);
      assert rs[j + 1..] == rs[..n][j + 1..] + [rs[n]];
    }
  }

  lemma NotThere(a: Desired, k: nat, id: nat)
    requires k < |a.services| && !a.Present(id)
    ensures AllBut(a.services[k].rs, id) == a.services[k].rs
  {
    forall l: nat | l < |a.services[k].rs| ensures a.services[k].rs[l].id != id {
      assert a.Has(k, l) && a.At(k, l) == a.services[k].rs[l];
    }
    AllButNone(a.services[k].rs, id);
  }

  lemma OnlyThatOne(a: Desired, i: nat, j: nat)
    requires a.Valid() && a.Has(i, j)
    ensures forall k: nat :: k < |a.services| ==>
      Without(a, i, j).services[k].rs == AllBut(a.services[k].rs, a.At(i, j).id)
  {
    var id := a.At(i, j).id;
    forall k: nat | k < |a.services| ensures Without(a, i, j).services[k].rs == AllBut(a.services[k].rs, id) {
      forall l: nat | l < |a.services[k].rs| && (k != i || l != j) ensures a.services[k].rs[l].id != id {
        assert a.Has(k, l) && a.At(k, l) == a.services[k].rs[l];
      }
      if k == i { AllButOne(a.services[k].rs, j); } else { AllButNone(a.services[k].rs, id); }
    }
  }

  // ---------------------------------------------------------------------------------------------
  // Operations
  // ---------------------------------------------------------------------------------------------

  lemma NothingValid(site: Site)
    ensures Desired(site, [], 1).Valid()
  {
  }

  lemma EmptyServiceValid(a: Desired, key: ServiceKey)
    requires a.Valid()
    ensures a.(services := a.services + [DesiredService(key, [])]).Valid()
  {
    var b := a.(services := a.services + [DesiredService(key, [])]);
    forall i: nat, j: nat | b.Has(i, j) ensures a.Has(i, j) && b.At(i, j) == a.At(i, j) { }
  }

  datatype RsConf = RsConf(addr: RsAddr, weight: nat)

  datatype ServiceConf = ServiceConf(key: ServiceKey, rs: seq<RsConf>)

  predicate Configured(rs: seq<DesiredRs>, conf: seq<RsConf>) {
    && |rs| == |conf|
    && forall j: nat :: j < |rs| ==>
         rs[j].addr == conf[j].addr && rs[j].weight == conf[j].weight && rs[j].enabled && rs[j].healthy
  }

  class Manager {
    const site: Site
    var services: seq<DesiredService>
    var nextId: nat

    function State(): Desired
      reads this
    {
      Desired(site, services, nextId)
    }

    /** init(): ids count up from 1 over all configured servers; local addresses matter only in NAT mode. */
    constructor (conf: seq<ServiceConf>, mode: ForwardMode, lips: seq<u32>, hcSrc: u32)
      ensures State().Valid() && |services| == |conf|
      ensures site == Site(mode, if mode == Nat then lips else [], hcSrc)
      ensures forall i: nat :: i < |conf| ==> services[i].key == conf[i].key && Configured(services[i].rs, conf[i].rs)
    {
      site := Site(mode, if mode == Nat then lips else [], hcSrc);
      services, nextId := [], 1;
      new;
      hide Desired.Valid;
      NothingValid(site);
      for i := 0 to |conf|
        invariant State().Valid() && |services| == i
        invariant forall k: nat :: k < i ==> services[k].key == conf[k].key && Configured(services[k].rs, conf[k].rs)
      {
        EmptyServiceValid(State(), conf[i].key);
        services := services + [DesiredService(conf[i].key, [])];
        ghost var before := services;
        for j := 0 to |conf[i].rs|
          invariant State().Valid() && |services| == i + 1 && services[..i] == before[..i]
          invariant services[i].key == conf[i].key && Configured(services[i].rs, conf[i].rs[..j])
        {
          var r := DesiredRs(nextId, conf[i].rs[j].addr, conf[i].rs[j].weight, true, true);
          AppendEvolves(State(), i, r);
          nextId := nextId + 1;
          services := services[i := services[i].(rs := services[i].rs + [r])];
        }
        assert conf[i].rs[..|conf[i].rs|] == conf[i].rs;
        assert forall k: nat :: k < i ==> services[k] == services[..i][k] == before[..i][k];
      }
    }

    method FindRs(id: nat) returns (found: bool, i: nat, j: nat)
      ensures found <==> State().Present(id)
      ensures found ==> State().Has(i, j) && State().At(i, j).id == id
    {
      i := 0;
      while i < |services|
        invariant i <= |services|
        invariant forall k: nat, l: nat :: k < i && State().Has(k, l) ==> State().At(k, l).id != id
      {
        j := 0;
        while j < |services[i].rs|
          invariant j <= |services[i].rs|
          invariant forall l: nat :: l < j ==> services[i].rs[l].id != id
        {
          if services[i].rs[j].id == id {
            assert State().Has(i, j) && State().At(i, j).id == id;
            return true, i, j;
          }
          j := j + 1;
        }
        i := i + 1;
      }
      return false, 0, 0;
    }

    /** Nothing changes when the id is unknown or the weight too large; otherwise only that weight does. */
    method SetWeight(id: nat, weight: nat) returns (ok: bool)
      requires State().Valid()
      modifies this
      ensures State().Valid() && Evolves(old(State()), State())
      ensures ok <==> old(State()).Present(id) && weight <= MAX_WEIGHT
      ensures if ok then Changed(old(State()), State(), id, (r: DesiredRs) => r.(weight := weight))
              else State() == old(State())
    {
      var found, i, j := FindRs(id);
      if !found || weight > MAX_WEIGHT {
        return false;
      }
      PutEvolves(State(), i, j, State().At(i, j).(weight := weight));
      services := State().Put(i, j, services[i].rs[j].(weight := weight)).services;
      return true;
    }

    method SetEnabled(id: nat, enabled: bool) returns (ok: bool)
      requires State().Valid()
      modifies this
      ensures State().Valid() && Evolves(old(State()), State())
      ensures ok <==> old(State()).Present(id)
      ensures if ok then Changed(old(State()), State(), id, (r: DesiredRs) => r.(enabled := enabled))
              else State() == old(State())
    {
      var found, i, j := FindRs(id);
      if !found {
        return false;
      }
      PutEvolves(State(), i, j, State().At(i, j).(enabled := enabled));
      services := State().Put(i, j, services[i].rs[j].(enabled := enabled)).services;
      return true;
    }

    method SetHealth(id: nat, healthy: bool)
      requires State().Valid()
      modifies this
      ensures State().Valid() && Evolves(old(State()), State())
      ensures if old(State()).Present(id) then Changed(old(State()), State(), id, (r: DesiredRs) => r.(healthy := healthy))
              else State() == old(State())
    {
      var found, i, j := FindRs(id);
      if found {
        PutEvolves(State(), i, j, State().At(i, j).(healthy := healthy));
        services := State().Put(i, j, services[i].rs[j].(healthy := healthy)).services;
      }
    }

    /** A new server gets an id that was never used before. */
    method AddRs(svc: nat, addr: RsAddr, weight: nat) returns (newId: Option<nat>)
      requires State().Valid()
      modifies this
      ensures State().Valid() && Evolves(old(State()), State())
      ensures newId.None? <==> svc >= |old(services)| || |old(services)[svc].rs| >= MAX_RS_PER_SERVICE
                               || (exists j: nat :: j < |old(services)[svc].rs| && old(services)[svc].rs[j].addr == addr)
                               || old(nextId) >= MAX_RS_ID
      ensures newId.None? ==> State() == old(State())
      ensures newId.Some? ==>
        && newId.value == old(nextId) && !old(State()).Present(newId.value) && nextId == old(nextId) + 1
        && services == old(services)[svc := old(services)[svc].(rs :=
                         old(services)[svc].rs + [DesiredRs(newId.value, addr, weight, true, true)])]
    {
      if svc >= |services| || |services[svc].rs| >= MAX_RS_PER_SERVICE {
        return None;
      }
      for j := 0 to |services[svc].rs|
        invariant forall l: nat :: l < j ==> services[svc].rs[l].addr != addr
        invariant State() == old(State())
      {
        if services[svc].rs[j].addr == addr {
          return None;
        }
      }
      if nextId >= MAX_RS_ID {
        return None;
      }
      var r := DesiredRs(nextId, addr, weight, true, true);
      AppendEvolves(State(), svc, r);
      newId := Some(nextId);
      nextId := nextId + 1;
      services := services[svc := services[svc].(rs := services[svc].rs + [r])];
    }

    method DelRs(id: nat) returns (ok: bool)
      requires State().Valid()
      modifies this
      ensures State().Valid() && Evolves(old(State()), State())
      ensures ok <==> old(State()).Present(id)
      ensures !ok ==> State() == old(State())
      ensures ok ==> forall x: nat :: State().Present(x) <==> old(State()).Present(x) && x != id
      ensures nextId == old(nextId) && |services| == |old(services)|
      ensures forall k: nat :: k < |services| ==> services[k].rs == AllBut(old(services)[k].rs, id)
    {
      var found, i, j := FindRs(id);
      if !found {
        forall k: nat | k < |services| ensures AllBut(services[k].rs, id) == services[k].rs {
          NotThere(State(), k, id);
        }
        return false;
      }
      WithoutEvolves(State(), i, j);
      OnlyThatOne(State(), i, j);
      services := Without(State(), i, j).services;
      return true;
    }

    /** build(): every present server appears under its id with its current state; service i's scheduler weights
        are those of its servers that may take new flows, and zero for the rest. */
    method Build() returns (snap: Snapshot, weights: seq<seq<nat>>)
      requires State().Valid()
      ensures Shows(snap, State())
      ensures |weights| == |services|
      ensures forall i: nat :: i < |services| ==> |weights[i]| == |services[i].rs|
      ensures forall i: nat, j: nat :: State().Has(i, j) ==>
        weights[i][j] == var r := State().At(i, j); if r.enabled && r.healthy then r.weight else 0
    {
      var rs: map<nat, RsState> := map[];
      var keys: set<ServiceKey> := {};
      weights := [];
      for i := 0 to |services|
        invariant |weights| == i && forall k: nat :: k < i ==> weights[k] == SchedulerWeights(services[k].rs)
        invariant keys == set k: nat | k < i :: services[k].key
        invariant forall k: nat, l: nat :: k < i && State().Has(k, l) ==> Entry(rs, State().At(k, l), services[k].key)
        invariant forall id :: id in rs ==> State().Present(id)
      {
        var ws := [];
        for j := 0 to |services[i].rs|
          invariant ws == SchedulerWeights(services[i].rs[..j])
          invariant forall k: nat, l: nat :: k < i && State().Has(k, l) ==> Entry(rs, State().At(k, l), services[k].key)
          invariant forall l: nat :: l < j ==> Entry(rs, services[i].rs[l], services[i].key)
          invariant forall id :: id in rs ==> State().Present(id)
        {
          var r := services[i].rs[j];
          assert State().Has(i, j) && State().At(i, j) == r;
          forall l: nat | l < j ensures services[i].rs[l].id != r.id {
            assert State().Has(i, l) && State().At(i, l) == services[i].rs[l];
          }
          rs := rs[r.id := r.State(services[i].key)];
          ws := ws + [if r.Schedulable() then r.weight else 0];
          assert services[i].rs[..j + 1] == services[i].rs[..j] + [r];
        }
        assert services[i].rs[..|services[i].rs|] == services[i].rs;
        weights := weights + [ws];
        keys := keys + {services[i].key};
      }
      snap := Snapshot(Net(site.mode, site.lips, keys, site.hcSrc), rs);
    }
  }

  /** Exactly one server differs, and as told. */
  ghost predicate Changed(a: Desired, b: Desired, id: nat, f: DesiredRs -> DesiredRs) {
    && b.nextId == a.nextId
    && forall i: nat, j: nat :: (a.Has(i, j) <==> b.Has(i, j))
         && (a.Has(i, j) ==> b.At(i, j) == if a.At(i, j).id == id then f(a.At(i, j)) else a.At(i, j))
  }

  predicate Entry(rs: map<nat, RsState>, r: DesiredRs, service: ServiceKey) {
    r.id in rs && rs[r.id] == r.State(service)
  }

  /** The snapshot shows exactly the desired servers, under their services, and the network they serve. */
  ghost predicate Shows(snap: Snapshot, d: Desired) {
    && snap.net == d.NetOf()
    && (forall i: nat, j: nat :: d.Has(i, j) ==> Entry(snap.rs, d.At(i, j), d.services[i].key))
    && (forall id :: id in snap.rs ==> d.Present(id))
  }

  function SchedulerWeights(rs: seq<DesiredRs>): (w: seq<nat>)
    ensures |w| == |rs|
  {
    seq(|rs|, j requires 0 <= j < |rs| => if rs[j].Schedulable() then rs[j].weight else 0)
  }

  /** The entries the scheduler of a packet's service may pick, those of positive weight, are exactly the servers a new
      flow of that packet may use in the snapshot. */
  lemma PickedIsSchedulable(snap: Snapshot, d: Desired, i: nat, choice: nat, tuple: FiveTuple)
    requires Shows(snap, d) && i < |d.services| && choice < |d.services[i].rs| && d.services[i].key == KeyOf(tuple)
    ensures SchedulerWeights(d.services[i].rs)[choice] > 0 <==> snap.MayPick(tuple, d.services[i].rs[choice].id)
  {
    assert d.Has(i, choice) && d.At(i, choice) == d.services[i].rs[choice];
  }

  // ---------------------------------------------------------------------------------------------
  // Whole runs of the control plane
  // ---------------------------------------------------------------------------------------------

  ghost predicate IsHistory(states: seq<Desired>) {
    && (forall k: nat :: k < |states| ==> states[k].Valid())
    && (forall k: nat :: k + 1 < |states| ==> Evolves(states[k], states[k + 1]))
  }

  lemma EvolvesReflexive(a: Desired)
    ensures Evolves(a, a)
  {
  }

  lemma {:induction false} HistoryEvolves(states: seq<Desired>, i: nat, j: nat)
    requires IsHistory(states) && i <= j < |states|
    ensures Evolves(states[i], states[j])
    decreases j - i
  {
    hide Evolves;
    EvolvesReflexive(states[i]);
    if i < j {
      HistoryEvolves(states, i, j - 1);
      assert Evolves(states[j - 1], states[j - 1 + 1]);
      EvolvesTransitive(states[i], states[j - 1], states[j]);
    }
  }

  /** What an id stands for throughout a run: an address and a service. */
  ghost function IdentityOf(states: seq<Desired>, id: nat): (RsAddr, ServiceKey) {
    if k: nat, i: nat, j: nat :| k < |states| && states[k].Has(i, j) && states[k].At(i, j).id == id
    then (states[k].At(i, j).addr, states[k].services[i].key)
    else (RsAddr(0, 0), ServiceKey(0, 0, 0))
  }

  lemma IdentityIsFixed(states: seq<Desired>, k: nat, i: nat, j: nat)
    requires IsHistory(states) && k < |states| && states[k].Has(i, j)
    ensures (states[k].At(i, j).addr, states[k].services[i].key) == IdentityOf(states, states[k].At(i, j).id)
  {
    var id := states[k].At(i, j).id;
    forall m: nat, p: nat, q: nat | m < |states| && states[m].Has(p, q) && states[m].At(p, q).id == id
      ensures states[m].At(p, q).addr == states[k].At(i, j).addr && states[m].services[p].key == states[k].services[i].key
    {
      if m <= k { HistoryEvolves(states, m, k); } else { HistoryEvolves(states, k, m); }
    }
  }

  /** However long the control plane runs: mode, local addresses and service keys are those it started with, and one
      assignment of addresses and services to ids fits every snapshot it ever builds. This is what the workers rely
      on. */
  lemma EverySnapshotIsAdmitted(states: seq<Desired>, snaps: seq<Snapshot>, st: Steering, k: nat)
    requires IsHistory(states) && |snaps| == |states| && k < |snaps|
    requires forall n: nat :: n < |snaps| ==> Shows(snaps[n], states[n])
    ensures snaps[k].net == states[0].NetOf()
    ensures Fabric(st, states[0].NetOf(), (id: nat) => IdentityOf(states, id).0, (id: nat) => IdentityOf(states, id).1)
              .Admits(snaps[k])
  {
    HistoryEvolves(states, 0, k);
    NetIsKept(states[0], states[k]);
    forall id | id in snaps[k].rs
      ensures (snaps[k].rs[id].addr, snaps[k].rs[id].service) == IdentityOf(states, id)
    {
      var i: nat, j: nat :| states[k].Has(i, j) && states[k].At(i, j).id == id;
      IdentityIsFixed(states, k, i, j);
      assert Entry(snaps[k].rs, states[k].At(i, j), states[k].services[i].key);
    }
  }
}
