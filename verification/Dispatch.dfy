/** Pipeline mode: the receiver picks a worker from the bytes of a frame, before anything is parsed, and hands
    every burst out in groups. */
module Dispatch {
  import opened Types
  import opened Steering
  import opened Checksum
  import opened Packets
  import opened Handlers
  import Cluster

  /** The tuple the handlers see for an accepted frame; they compare ports in host order. */
  function TupleOf(m: Meta): FiveTuple {
    FiveTuple(m.srcIp, m.dstIp, Swap(m.srcPort), Swap(m.dstPort), m.protocol)
  }

  method IsLocal(lips: seq<u32>, ip: u32) returns (r: bool)
    ensures r == (ip in lips)
  {
    for i := 0 to |lips|
      invariant ip !in lips[..i]
    {
      if lips[i] == ip {
        return true;
      }
    }
    return false;
  }

  /** Has ports the receiver can use: TCP or UDP, not a fragment, and long enough. */
  predicate HasPorts(f: seq<u8>)
    requires |f| >= L3 + 20
  {
    f[23] in {PROTO_TCP, PROTO_UDP} && Be(f, 20) % 0x4000 == 0 && Ihl(f) >= 20 && |f| >= L3 + Ihl(f) + 4
  }

  /** Which worker a frame goes to; `spread` scatters frames without ports. */
  function TargetOf(st: Steering, mode: ForwardMode, lips: seq<u32>, spread: (u32, u32) -> u32, f: seq<u8>): (w: nat)
    requires st.Valid()
    ensures w < st.n
  {
    if st.n == 1 || |f| < L3 + 20 || Be(f, 12) != 0x0800 then 0
    else if !HasPorts(f) then spread(Addr(f, 26), Addr(f, 30)) % st.n
    else
      var l4 := L3 + Ihl(f);
      var t := FiveTuple(Addr(f, 26), Addr(f, 30), Be(f, l4), Be(f, l4 + 2), f[23]);
      if mode == Nat && InNatRange(t.dstPort) && t.dstIp in lips then st.RetOwner(t) else st.FwdOwner(t)
  }

  method Target(st: Steering, mode: ForwardMode, lips: seq<u32>, spread: (u32, u32) -> u32, f: seq<u8>) returns (w: nat)
    requires st.Valid()
    ensures w == TargetOf(st, mode, lips, spread, f) && w < st.n
  {
    if st.n == 1 || |f| < L3 + 20 {
      return 0;
    }
    if Be(f, 12) != 0x0800 {
      return 0;
    }
    if !HasPorts(f) {
      return spread(Addr(f, 26), Addr(f, 30)) % st.n;
    }
    var l4 := L3 + Ihl(f);
    var t := FiveTuple(Addr(f, 26), Addr(f, 30), Be(f, l4), Be(f, l4 + 2), f[23]);
    if mode == Nat && InNatRange(t.dstPort) {
      var lip := IsLocal(lips, t.dstIp);
      if lip {
        return st.RetOwner(t);
      }
    }
    return st.FwdOwner(t);
  }

  /** For a frame the parser accepts, the receiver reads the same tuple as the parser. */
  lemma AcceptedTarget(st: Steering, mode: ForwardMode, lips: seq<u32>, spread: (u32, u32) -> u32, f: seq<u8>, m: Meta)
    requires st.Valid() && Reads(f, m)
    ensures var t := TupleOf(m);
            TargetOf(st, mode, lips, spread, f)
            == if st.n == 1 then 0
               else if mode == Nat && InNatRange(t.dstPort) && t.dstIp in lips then st.RetOwner(t) else st.FwdOwner(t)
  {
    ReadsWithin(f, m);
    AcceptedShape(f, m);
    hide Reads;
    hide Addr;
    hide WordAt;
    hide Swap;
    hide HasPorts;
    hide Within;
    hide Steering.FwdOwner;
    hide Steering.RetOwner;
  }

  lemma AcceptedShape(f: seq<u8>, m: Meta)
    requires Reads(f, m)
    ensures |f| >= L3 + 20 && Be(f, 12) == 0x0800 && f[23] == m.protocol && m.l4 == L3 + Ihl(f) && HasPorts(f)
  {
    ReadsWithin(f, m);
    hide Addr;
    hide WordAt;
    hide Swap;
    hide Be;
    NoFragment(Be(f, 20));
  }

  /** Neither "more fragments" nor an offset: the low fourteen bits are zero. */
  lemma NoFragment(x: u16)
    ensures x / 0x2000 % 2 == 0 && x % 0x2000 == 0 <==> x % 0x4000 == 0
  {
  }

  /** The receiver and the handlers agree on the owner of every accepted frame that has one, except for replies
      addressed to 0.0.0.0, which only the handlers take for a local address. */
  lemma TargetIsOwner(fab: Fabric, spread: (u32, u32) -> u32, f: seq<u8>, m: Meta, id: nat, flags: TcpFlags)
    requires fab.Valid() && Reads(f, m)
    requires Cluster.PacketOwner(fab, Cluster.Transport(id, TupleOf(m), flags)).Some?
    ensures var t := TupleOf(m);
            TargetOf(fab.st, fab.net.mode, fab.net.lips, spread, f)
              == Cluster.PacketOwner(fab, Cluster.Transport(id, t, flags)).value
            <==> !(fab.net.mode == Nat && t.dstIp == 0 && 0 !in fab.net.lips && InNatRange(t.dstPort)
                   && fab.st.FwdOwner(t) != fab.st.RetOwner(t))
  {
    AcceptedTarget(fab.st, fab.net.mode, fab.net.lips, spread, f, m);
    hide TargetOf;
    hide Reads;
    hide Swap;
  }

  /** Frames without usable ports, fragments above all, go where their addresses say: all fragments of a packet meet at
      one worker. */
  lemma FragmentsMeet(st: Steering, mode: ForwardMode, lips: seq<u32>, spread: (u32, u32) -> u32, f: seq<u8>, g: seq<u8>)
    requires st.Valid() && |f| >= L3 + 20 && |g| >= L3 + 20 && f[26..34] == g[26..34] && f[12..14] == g[12..14]
    requires Be(f, 20) % 0x4000 != 0 && Be(g, 20) % 0x4000 != 0
    ensures TargetOf(st, mode, lips, spread, f) == TargetOf(st, mode, lips, spread, g)
  {
    hide Swap;
    assert forall i: nat :: i < 8 ==> f[26 + i] == f[26..34][i] == g[26..34][i] == g[26 + i];
    assert f[12] == f[12..14][0] && f[13] == f[12..14][1] && g[12] == g[12..14][0] && g[13] == g[12..14][1];
  }

  /** A datagram from address 1 to address 0, port 10000. */
  const FRAME_TO_ZERO: seq<u8> :=
    [0, 0, 0, 0, 0, 0, 0, 0, 0, 0, 0, 0, 8, 0,
     0x45, 0, 0, 28, 0, 0, 0, 0, 64, 17, 0, 0, 1, 0, 0, 0, 0, 0, 0, 0,
     0, 80, 0x27, 0x10, 0, 8, 0, 0]

  const META_TO_ZERO := Meta(1, 0, PROTO_UDP, 64, 0x5000, 0x1027, 0, 34, 42, 42)

  /** Two workers, one local address, and a hash that always answers 1. */
  const SMALL_FABRIC :=
    Fabric(Steering(false, false, false, 2, 0, [], Hashes(_ => 1, (_, _) => 1)), Net(Nat, [5], {}, 7),
           (_: nat) => RsAddr(0, 0), (_: nat) => ServiceKey(0, 0, 0))

  /** The bytes of such a datagram the parser looks at. */
  predicate BytesToZero(f: seq<u8>) {
    && |f| == 42 && f[12] == 8 && f[13] == 0 && f[14] == 0x45 && f[16] == 0 && f[17] == 28 && f[20] == 0 && f[21] == 0
    && f[22] == 64 && f[23] == PROTO_UDP && f[26] == 1 && f[27] == 0 && f[28] == 0 && f[29] == 0
    && f[30] == 0 && f[31] == 0 && f[32] == 0 && f[33] == 0
    && f[34] == 0 && f[35] == 80 && f[36] == 0x27 && f[37] == 0x10 && f[38] == 0 && f[39] == 8
  }

  lemma FieldsToZero(f: seq<u8>)
    requires BytesToZero(f)
    ensures Be(f, 12) == 0x0800 && Be(f, 16) == 28 && Be(f, 20) == 0 && Be(f, 38) == 8 && f[L3] / 16 == 4 && Ihl(f) == 20
    ensures Addr(f, 26) == 1 && Addr(f, 30) == 0 && WordAt(f, 34) == 0x5000 && WordAt(f, 36) == 0x1027
  {
    assert WordAt(f, 12) == 8 && WordAt(f, 16) == 28 * 256 && WordAt(f, 20) == 0 && WordAt(f, 38) == 8 * 256;
  }

  /** A datagram without IP options, padding or payload. */
  lemma BareDatagram(f: seq<u8>)
    requires |f| == 42 && Be(f, 12) == 0x0800 && f[L3] / 16 == 4 && Ihl(f) == 20 && Be(f, 16) == 28 && Be(f, 20) == 0
    requires f[23] == PROTO_UDP && Be(f, 38) == 8
    ensures Reads(f, Meta(Addr(f, 26), Addr(f, 30), PROTO_UDP, f[22], WordAt(f, 34), WordAt(f, 36), 0, 34, 42, 42))
  {
    hide Be;
    hide Addr;
    hide WordAt;
    hide Ihl;
    hide Doff;
  }

  lemma AcceptedToZero(f: seq<u8>)
    requires BytesToZero(f)
    ensures Reads(f, META_TO_ZERO)
  {
    FieldsToZero(f);
    hide Parse;
    hide Be;
    hide Addr;
    hide WordAt;
    hide Ihl;
    BareDatagram(f);
  }

  lemma FrameBytes()
    ensures BytesToZero(FRAME_TO_ZERO)
  {
  }

  /** The exception is real: the receiver hands this accepted frame to worker 1, the handlers say worker 0 owns it. */
  lemma ReceiverCanDisagree(id: nat, flags: TcpFlags)
    ensures SMALL_FABRIC.Valid() && Reads(FRAME_TO_ZERO, META_TO_ZERO)
    ensures Cluster.PacketOwner(SMALL_FABRIC, Cluster.Transport(id, TupleOf(META_TO_ZERO), flags)) == Some(0)
    ensures TargetOf(SMALL_FABRIC.st, Nat, SMALL_FABRIC.net.lips, (_, _) => 0, FRAME_TO_ZERO) == 1
  {
    hide TargetOf;
    hide Reads;
    hide BytesToZero;
    FrameBytes();
    AcceptedToZero(FRAME_TO_ZERO);
    AcceptedTarget(SMALL_FABRIC.st, Nat, SMALL_FABRIC.net.lips, (_, _) => 0, FRAME_TO_ZERO, META_TO_ZERO);
    assert TupleOf(META_TO_ZERO).dstPort == 10000;
  }

  // ---------------------------------------------------------------------------------------------
  // Handing out a burst
  // ---------------------------------------------------------------------------------------------

  datatype Buf = Buf(id: nat, frame: seq<u8>)

  /** The buffers of a burst that go to worker w, in the order they arrived. */
  function For(bufs: seq<Buf>, to: seq<nat>, w: nat): seq<Buf>
    requires |to| == |bufs|
  {
    if bufs == [] then []
    else
      var n := |bufs| - 1;
      For(bufs[..n], to[..n], w) + if to[n] == w then [bufs[n]] else []
  }

  lemma {:induction false} ForLength(bufs: seq<Buf>, to: seq<nat>, w: nat)
    requires |to| == |bufs|
    ensures |For(bufs, to, w)| <= |bufs|
  {
    if bufs != [] { ForLength(bufs[..|bufs| - 1], to[..|bufs| - 1], w); }
  }

  lemma ForStep(bufs: seq<Buf>, to: seq<nat>, b: Buf, w: nat, x: nat)
    requires |to| == |bufs|
    ensures For(bufs + [b], to + [w], x) == For(bufs, to, x) + if x == w then [b] else []
  {
    assert (bufs + [b])[..|bufs|] == bufs && (to + [w])[..|bufs|] == to;
  }

  ghost predicate Grouped(groups: array2<Buf>, counts: seq<nat>, bufs: seq<Buf>, to: seq<nat>)
    requires |to| == |bufs|
    reads groups
  {
    && groups.Length0 == |counts| && groups.Length1 == Cluster.BURST_SIZE
    && forall w: nat :: w < |counts| ==>
         && counts[w] == |For(bufs, to, w)| <= Cluster.BURST_SIZE
         && forall k: nat :: k < counts[w] ==> groups[w, k] == For(bufs, to, w)[k]
  }

  method Put(groups: array2<Buf>, counts: array<nat>, b: Buf, w: nat, ghost bufs: seq<Buf>, ghost to: seq<nat>)
    requires |to| == |bufs| < Cluster.BURST_SIZE && w < counts.Length && Grouped(groups, counts[..], bufs, to)
    modifies groups, counts
    ensures Grouped(groups, counts[..], bufs + [b], to + [w])
  {
    ForLength(bufs, to, w);
    forall x: nat ensures For(bufs + [b], to + [w], x) == For(bufs, to, x) + if x == w then [b] else [] {
      ForStep(bufs, to, b, w, x);
    }
    hide For;
    groups[w, counts[w]] := b;
    counts[w] := counts[w] + 1;
  }

  method Empty(n: nat) returns (groups: array2<Buf>, counts: array<nat>)
    ensures fresh(groups) && fresh(counts) && counts.Length == n
    ensures Grouped(groups, counts[..], [], [])
  {
    groups := new Buf[n, Cluster.BURST_SIZE]((_, _) => Buf(0, []));
    counts := new nat[n](_ => 0);
  }

  /** The grouping loop: every buffer lands in exactly the group of its target, and groups keep arrival order. */
  method Group(st: Steering, mode: ForwardMode, lips: seq<u32>, spread: (u32, u32) -> u32, bufs: seq<Buf>)
    returns (groups: array2<Buf>, counts: array<nat>, ghost to: seq<nat>)
    requires st.Valid() && |bufs| <= Cluster.BURST_SIZE
    ensures counts.Length == st.n && |to| == |bufs|
    ensures forall i: nat :: i < |bufs| ==> to[i] == TargetOf(st, mode, lips, spread, bufs[i].frame) < st.n
    ensures Grouped(groups, counts[..], bufs, to)
  {
    hide *;
    groups, counts := Empty(st.n);
    to := [];
    assert bufs[..0] == [];
    for i := 0 to |bufs|
      invariant |to| == i
      invariant forall k: nat :: k < i ==> to[k] == TargetOf(st, mode, lips, spread, bufs[k].frame) < st.n
      invariant Grouped(groups, counts[..], bufs[..i], to)
    {
      var w := Target(st, mode, lips, spread, bufs[i].frame);
      Put(groups, counts, bufs[i], w, bufs[..i], to);
      to := to + [w];
      assert bufs[..i + 1] == bufs[..i] + [bufs[i]];
    }
    assert bufs[..|bufs|] == bufs;
  }

  /** How often a buffer occurs. */
  function Occurs(s: seq<Buf>, x: Buf): nat {
    if s == [] then 0 else Occurs(s[..|s| - 1], x) + if s[|s| - 1] == x then 1 else 0
  }

  lemma {:induction false} OccursConcat(a: seq<Buf>, b: seq<Buf>, x: Buf)
    ensures Occurs(a + b, x) == Occurs(a, x) + Occurs(b, x)
  {
    if b == [] {
      assert a + b == a;
    } else {
      var m := |b| - 1;
      assert (a + b)[..|a| + m] == a + b[..m];
      OccursConcat(a, b[..m], x);
    }
  }

  function Together(groups: seq<seq<Buf>>, x: Buf): nat {
    if groups == [] then 0 else Together(groups[..|groups| - 1], x) + Occurs(groups[|groups| - 1], x)
  }

  function AllFor(bufs: seq<Buf>, to: seq<nat>, n: nat, x: Buf): nat
    requires |to| == |bufs|
  {
    if n == 0 then 0 else AllFor(bufs, to, n - 1, x) + Occurs(For(bufs, to, n - 1), x)
  }

  lemma {:induction false} AllForStep(bufs: seq<Buf>, to: seq<nat>, b: Buf, w: nat, n: nat, x: Buf)
    requires |to| == |bufs|
    ensures AllFor(bufs + [b], to + [w], n, x) == AllFor(bufs, to, n, x) + if w < n && b == x then 1 else 0
  {
    if n > 0 {
      AllForStep(bufs, to, b, w, n - 1, x);
      ForStep(bufs, to, b, w, n - 1);
      hide For;
      OccursConcat(For(bufs, to, n - 1), [b], x);
      assert [b][..0] == [] && For(bufs, to, n - 1) + [] == For(bufs, to, n - 1);
    }
  }

  /** Groups partition the burst: every buffer occurs in them as often as it arrived. */
  lemma {:induction false} GroupsPartition(bufs: seq<Buf>, to: seq<nat>, n: nat, x: Buf)
    requires |to| == |bufs| && forall i: nat :: i < |to| ==> to[i] < n
    ensures AllFor(bufs, to, n, x) == Occurs(bufs, x)
  {
    if bufs == [] {
      NothingFor(to, n, x);
    } else {
      var m := |bufs| - 1;
      GroupsPartition(bufs[..m], to[..m], n, x);
      assert bufs == bufs[..m] + [bufs[m]] && to == to[..m] + [to[m]];
      AllForStep(bufs[..m], to[..m], bufs[m], to[m], n, x);
    }
  }

  lemma {:induction false} NothingFor(to: seq<nat>, n: nat, x: Buf)
    requires to == []
    ensures AllFor([], to, n, x) == 0
  {
    if n > 0 { NothingFor(to, n - 1, x); }
  }

  /** The queues so far and the freed buffers hold exactly the groups so far. */
  ghost predicate HandedOut(queued: seq<seq<Buf>>, freed: seq<Buf>, bufs: seq<Buf>, to: seq<nat>)
    requires |to| == |bufs|
  {
    && (forall w: nat :: w < |queued| ==> queued[w] <= For(bufs, to, w))
    && (forall x: Buf :: Balanced(queued, freed, bufs, to, x))
  }

  /** Buffer `x` is queued or freed as often as it is in the groups so far. */
  predicate Balanced(queued: seq<seq<Buf>>, freed: seq<Buf>, bufs: seq<Buf>, to: seq<nat>, x: Buf)
    requires |to| == |bufs|
  {
    Together(queued, x) + Occurs(freed, x) == AllFor(bufs, to, |queued|, x)
  }

  lemma OneGroupMore(queued: seq<seq<Buf>>, more: seq<Buf>, bufs: seq<Buf>, to: seq<nat>, x: Buf)
    requires |to| == |bufs|
    ensures Together(queued + [more], x) == Together(queued, x) + Occurs(more, x)
    ensures AllFor(bufs, to, |queued| + 1, x) == AllFor(bufs, to, |queued|, x) + Occurs(For(bufs, to, |queued|), x)
  {
    hide Occurs;
    hide For;
    assert (queued + [more])[..|queued|] == queued;
  }

  lemma HandOutCount(queued: seq<seq<Buf>>, freed: seq<Buf>, bufs: seq<Buf>, to: seq<nat>, all: seq<Buf>, done: nat, x: Buf)
    requires |to| == |bufs| && all == For(bufs, to, |queued|) && done <= |all| && Balanced(queued, freed, bufs, to, x)
    ensures Balanced(queued + [all[..done]], freed + all[done..], bufs, to, x)
  {
    hide For;
    hide Occurs;
    hide Together;
    hide AllFor;
    OccursConcat(freed, all[done..], x);
    OccursConcat(all[..done], all[done..], x);
    assert all == all[..done] + all[done..];
    OneGroupMore(queued, all[..done], bufs, to, x);
  }

  lemma HandOutStep(queued: seq<seq<Buf>>, freed: seq<Buf>, bufs: seq<Buf>, to: seq<nat>, all: seq<Buf>, done: nat)
    requires |to| == |bufs| && HandedOut(queued, freed, bufs, to) && all == For(bufs, to, |queued|) && done <= |all|
    ensures HandedOut(queued + [all[..done]], freed + all[done..], bufs, to)
  {
    hide For;
    hide Balanced;
    var q := queued + [all[..done]];
    forall w: nat | w < |q| ensures q[w] <= For(bufs, to, w) {
      if w < |queued| { assert queued[w] <= For(bufs, to, w); }
    }
    forall x: Buf ensures Balanced(q, freed + all[done..], bufs, to, x) {
      HandOutCount(queued, freed, bufs, to, all, done, x);
    }
  }

  method Row(groups: array2<Buf>, counts: array<nat>, w: nat, ghost bufs: seq<Buf>, ghost to: seq<nat>)
    returns (row: seq<Buf>)
    requires |to| == |bufs| && w < counts.Length && Grouped(groups, counts[..], bufs, to)
    ensures row == For(bufs, to, w)
  {
    hide For;
    row := [];
    for k := 0 to counts[w]
      invariant row == For(bufs, to, w)[..k]
    {
      row := row + [groups[w, k]];
    }
  }

  /** One burst: what a ring has no room for is freed, so every buffer is queued at its target or freed, once. */
  method HandOut(st: Steering, mode: ForwardMode, lips: seq<u32>, spread: (u32, u32) -> u32, bufs: seq<Buf>, room: seq<nat>)
    returns (queued: seq<seq<Buf>>, freed: seq<Buf>, ghost to: seq<nat>)
    requires st.Valid() && |bufs| <= Cluster.BURST_SIZE && |room| == st.n
    ensures |to| == |bufs| && forall i: nat :: i < |bufs| ==> to[i] == TargetOf(st, mode, lips, spread, bufs[i].frame)
    ensures |queued| == st.n && forall w: nat :: w < st.n ==> queued[w] <= For(bufs, to, w)
    ensures forall x: Buf :: Together(queued, x) + Occurs(freed, x) == Occurs(bufs, x)
    ensures (forall w: nat :: w < st.n ==> room[w] >= Cluster.BURST_SIZE) ==> freed == []
  {
    var groups, counts;
    groups, counts, to := Group(st, mode, lips, spread, bufs);
    assert forall i: nat :: i < |to| ==> to[i] < st.n;
    queued, freed := [], [];
    hide TargetOf;
    hide Grouped;
    hide HandedOut;
    NothingHandedOut(bufs, to);
    for w := 0 to st.n
      invariant |queued| == w && HandedOut(queued, freed, bufs, to) && Grouped(groups, counts[..], bufs, to)
      invariant (forall x: nat :: x < w ==> room[x] >= Cluster.BURST_SIZE) ==> freed == []
    {
      var all := Row(groups, counts, w, bufs, to);
      ForLength(bufs, to, w);
      var done := if room[w] < |all| then room[w] else |all|;
      HandOutStep(queued, freed, bufs, to, all, done);
      queued, freed := queued + [all[..done]], freed + all[done..];
    }
    AllHandedOut(queued, freed, bufs, to, st.n);
  }

  lemma NothingHandedOut(bufs: seq<Buf>, to: seq<nat>)
    requires |to| == |bufs|
    ensures HandedOut([], [], bufs, to)
  {
  }

  lemma AllHandedOut(queued: seq<seq<Buf>>, freed: seq<Buf>, bufs: seq<Buf>, to: seq<nat>, n: nat)
    requires |to| == |bufs| && HandedOut(queued, freed, bufs, to) && |queued| == n
    requires forall i: nat :: i < |to| ==> to[i] < n
    ensures forall w: nat :: w < n ==> queued[w] <= For(bufs, to, w)
    ensures forall x: Buf :: Together(queued, x) + Occurs(freed, x) == Occurs(bufs, x)
  {
    forall x: Buf ensures Together(queued, x) + Occurs(freed, x) == Occurs(bufs, x) {
      assert Balanced(queued, freed, bufs, to, x);
      GroupsPartition(bufs, to, n, x);
    }
  }
}
