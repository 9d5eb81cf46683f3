/** Internet checksums as a little-endian host computes them: 16-bit words are read in memory order, sums
    are kept in 32 bits and folded at the end (sections 1 and 2 of RFC 1071), and a changed word is
    accounted for without a new sum (section 3 of RFC 1624, equation 3). */
module Checksum {
  import opened Types

  function WordAt(b: seq<u8>, i: nat): u16
    requires i + 1 < |b|
  {
    var lo: int, hi: int := b[i], b[i + 1];
    lo + 256 * hi
  }

  /** Sum of the 16-bit words; a last odd byte counts as a word of its own. */
  function WordSum(b: seq<u8>): nat {
    if |b| == 0 then 0
    else if |b| == 1 then b[0]
    else WordAt(b, 0) + WordSum(b[2..])
  }

  /** Add the carries back in until 16 bits are left. */
  function Fold(s: nat): u16
    decreases s
  {
    if s / 0x1_0000 == 0 then s
    else
      FoldStep(s);
      Fold(s % 0x1_0000 + s / 0x1_0000)
  }

  lemma FoldStep(s: nat)
    requires s >= 0x1_0000
    ensures var n := s % 0x1_0000 + s / 0x1_0000;
            0 < n < s && (n - 1) % 0xFFFF == (s - 1) % 0xFFFF
  {
    var q, r := s / 0x1_0000, s % 0x1_0000;
    assert s - 1 == (q + r - 1) + q * 0xFFFF;
  }

  /** Folding is reduction modulo 65535, with 65535 itself standing for every multiple but zero. */
  lemma {:induction false} FoldValue(s: nat)
    ensures Fold(s) == if s == 0 then 0 else 1 + (s - 1) % 0xFFFF
    decreases s
  {
    if s / 0x1_0000 != 0 {
      FoldStep(s);
      FoldValue(s % 0x1_0000 + s / 0x1_0000);
    }
  }

  function Complement(x: u16): u16 { 0xFFFF - x }

  /** The checksum of a sum of words. */
  function Sealed(sum: nat): u16 { Complement(Fold(sum)) }

  /** The fold loop of every checksum routine. */
  method FoldLoop(sum: nat) returns (r: u16)
    requires sum < WRAP32
    ensures r == Fold(sum)
  {
    var s: nat := sum;
    while s / 0x1_0000 != 0
      invariant s < WRAP32 && Fold(s) == Fold(sum)
      decreases s
    {
      FoldStep(s);
      s := s % 0x1_0000 + s / 0x1_0000;
    }
    r := s;
  }

  lemma WordSumBound(b: seq<u8>)
    ensures 2 * WordSum(b) <= 0xFFFF * (|b| + 1)
  {
  }

  lemma {:induction false} WordSumPrefix(b: seq<u8>, i: nat)
    requires 2 * i <= |b|
    ensures WordSum(b) == WordSum(b[..2 * i]) + WordSum(b[2 * i..])
  {
    if i > 0 {
      WordSumPrefix(b[2..], i - 1);
      assert b[2..][..2 * (i - 1)] == b[..2 * i][2..];
      assert b[2..][2 * (i - 1)..] == b[2 * i..];
    } else {
      assert b[0..] == b;
    }
  }

  lemma SumStep(b: seq<u8>, i: nat)
    requires 2 * i + 1 < |b|
    ensures WordSum(b[..2 * (i + 1)]) == WordSum(b[..2 * i]) + WordAt(b, 2 * i) <= WordSum(b)
  {
    WordSumPrefix(b, i);
    WordSumPrefix(b, i + 1);
    assert b[2 * i..][2..] == b[2 * (i + 1)..];
  }

  /** The accumulation loop, in 32-bit arithmetic, started from a partial sum: for up to 65535 bytes on top
      of a pseudo header nothing overflows. */
  method SumLoop(start: nat, b: seq<u8>) returns (sum: nat)
    requires start <= 6 * 0xFFFF && |b| <= 0xFFFF
    ensures sum == start + WordSum(b) < WRAP32
  {
    sum := start;
    var i := 0;
    assert b[..0] == [];
    WordSumBound(b);
    hide WordAt;
    while |b| - 2 * i > 1
      invariant 2 * i <= |b|
      invariant sum == start + WordSum(b[..2 * i])
    {
      SumStep(b, i);
      sum := (sum + WordAt(b, 2 * i)) % WRAP32;
      i := i + 1;
    }
    WordSumPrefix(b, i);
    if |b| - 2 * i == 1 {
      sum := (sum + b[2 * i]) % WRAP32;
    } else {
      assert b[2 * i..] == [];
    }
  }

  /** Full checksum of a header or message. */
  method Calculate(b: seq<u8>) returns (r: u16)
    requires |b| <= 0xFFFF
    ensures r == Sealed(WordSum(b))
  {
    var sum := SumLoop(0, b);
    var folded := FoldLoop(sum);
    r := Complement(folded);
  }

  // ---------------------------------------------------------------------------------------------
  // Stores into a header
  // ---------------------------------------------------------------------------------------------

  function SetWord(b: seq<u8>, i: nat, w: u16): (r: seq<u8>)
    requires i + 1 < |b|
    ensures |r| == |b| && WordAt(r, i) == w
    ensures forall j: nat :: j < |b| && j != i && j != i + 1 ==> r[j] == b[j]
  {
    b[i := w % 256][i + 1 := w / 256]
  }

  /** Replacing an aligned word changes the sum by the difference. */
  lemma {:induction false} WordSumSet(b: seq<u8>, k: nat, w: u16)
    requires 2 * k + 1 < |b|
    ensures WordSum(SetWord(b, 2 * k, w)) + WordAt(b, 2 * k) == WordSum(b) + w
  {
    var r := SetWord(b, 2 * k, w);
    if k == 0 {
      assert r[2..] == b[2..];
    } else {
      WordSumSet(b[2..], k - 1, w);
      assert r[2..] == SetWord(b[2..], 2 * (k - 1), w);
      assert WordAt(b[2..], 2 * (k - 1)) == WordAt(b, 2 * k);
      assert WordAt(r, 0) == WordAt(b, 0);
    }
  }

  // ---------------------------------------------------------------------------------------------
  // Incremental update
  // ---------------------------------------------------------------------------------------------

  function Updated(field: u16, oldVal: u16, newVal: u16): u16 {
    Complement(Fold(Complement(field) + Complement(oldVal) + newVal))
  }

  /** Congruent positive sums fold alike. */
  lemma FoldCongruent(a: nat, b: nat, k: int)
    requires a > 0 && b > 0 && a == b + k * 0xFFFF
    ensures Fold(a) == Fold(b)
  {
    hide Fold;
    ModCongruent(a - 1, b - 1, k);
    FoldValue(a);
    FoldValue(b);
  }

  lemma ModCongruent(x: nat, y: nat, k: int)
    requires x == y + k * 0xFFFF
    ensures x % 0xFFFF == y % 0xFFFF
  {
  }

  lemma FoldMultiple(s: nat) returns (k: nat)
    ensures s == Fold(s) + k * 0xFFFF && (s > 0 ==> Fold(s) > 0)
  {
    hide Fold;
    FoldValue(s);
    k := if s == 0 then 0 else (s - 1) / 0xFFFF;
  }

  /** The field represents the sum: it is the sum's checksum, or the other encoding of zero. */
  predicate Represents(field: u16, sum: nat) {
    field == Sealed(sum) || (Sealed(sum) == 0 && field == 0xFFFF)
  }

  lemma UpdateExact(sum: nat, oldVal: u16, newVal: u16, sum': nat)
    requires sum > 0 && sum' > 0 && sum' + oldVal == sum + newVal
    ensures Updated(Sealed(sum), oldVal, newVal) == Sealed(sum')
  {
    hide Fold;
    var k := FoldMultiple(sum);
    var f: int, o: int, n: int := Fold(sum), oldVal, newVal;
    var t: int := f + (0xFFFF - o) + n;
    assert Complement(Sealed(sum)) + Complement(oldVal) + newVal == t;
    FoldCongruent(t, sum', 1 - k as int);
  }

  lemma AllOnes(sum: nat, k: nat)
    requires sum == k * 0xFFFF && k > 0
    ensures Sealed(sum) == 0
  {
    FoldCongruent(sum, 0xFFFF, k as int - 1);
    FoldValue(0xFFFF);
  }

  lemma UpdateFromOnes(sum: nat, oldVal: u16, newVal: u16, sum': nat)
    requires sum > 0 && sum' > 0 && sum' + oldVal == sum + newVal && Sealed(sum) == 0
    ensures Represents(Updated(0xFFFF, oldVal, newVal), sum')
  {
    hide Fold;
    var k := FoldMultiple(sum);
    var o: int, n: int := oldVal, newVal;
    var t: int := (0xFFFF - o) + n;
    assert Complement(0xFFFF) + Complement(oldVal) + newVal == t;
    if t > 0 {
      FoldCongruent(t, sum', -(k as int));
    } else {
      FoldValue(0);
      AllOnes(sum', k);
    }
  }

  /** One step keeps the field right, as long as some word of the sum stays nonzero. */
  lemma UpdateRepresents(field: u16, sum: nat, oldVal: u16, newVal: u16, sum': nat)
    requires Represents(field, sum) && sum > 0 && sum' > 0 && sum' + oldVal == sum + newVal
    ensures Represents(Updated(field, oldVal, newVal), sum')
  {
    hide Fold;
    hide Updated;
    if field == Sealed(sum) { UpdateExact(sum, oldVal, newVal, sum'); } else { UpdateFromOnes(sum, oldVal, newVal, sum'); }
  }

  // ---------------------------------------------------------------------------------------------
  // TCP and UDP checksums under address translation
  // ---------------------------------------------------------------------------------------------

  const TCP_CHECKSUM := 16
  const UDP_CHECKSUM := 6

  function High(x: u32): u16 { x / 0x1_0000 }
  function Low(x: u32): u16 { x % 0x1_0000 }
  function Swap(x: u16): u16 { x % 256 * 256 + x / 256 }

  /** Addresses as stored; protocol and length are swapped into network order. */
  function PseudoSum(src: u32, dst: u32, protocol: u8, length: u16): nat {
    (High(src) + Low(src)) as int + (High(dst) + Low(dst)) + Swap(protocol) + Swap(length)
  }

  /** Everything the checksum of a TCP segment or UDP datagram covers, with its own field as zero. */
  function Covered(src: u32, dst: u32, protocol: u8, l4: seq<u8>, field: nat): nat
    requires field + 1 < |l4| <= 0xFFFF
  {
    PseudoSum(src, dst, protocol, |l4|) + WordSum(SetWord(l4, field, 0))
  }

  /** What full recalculation stores; a UDP zero is sent as all ones (RFC 768). */
  function FullTcp(src: u32, dst: u32, l4: seq<u8>): u16
    requires TCP_CHECKSUM + 1 < |l4| <= 0xFFFF
  {
    Sealed(Covered(src, dst, PROTO_TCP, l4, TCP_CHECKSUM))
  }

  function FullUdp(src: u32, dst: u32, l4: seq<u8>): u16
    requires UDP_CHECKSUM + 1 < |l4| <= 0xFFFF
  {
    var c := Sealed(Covered(src, dst, PROTO_UDP, l4, UDP_CHECKSUM));
    if c == 0 then 0xFFFF else c
  }

  method RecalculateTcp(src: u32, dst: u32, l4: seq<u8>) returns (r: u16)
    requires TCP_CHECKSUM + 1 < |l4| <= 0xFFFF
    ensures r == FullTcp(src, dst, l4)
  {
    var pseudo := PseudoSum(src, dst, PROTO_TCP, |l4|);
    var sum := SumLoop(pseudo, SetWord(l4, TCP_CHECKSUM, 0));
    var folded := FoldLoop(sum);
    r := Complement(folded);
  }

  method RecalculateUdp(src: u32, dst: u32, l4: seq<u8>) returns (r: u16)
    requires UDP_CHECKSUM + 1 < |l4| <= 0xFFFF
    ensures r == FullUdp(src, dst, l4) && r != 0
  {
    var pseudo := PseudoSum(src, dst, PROTO_UDP, |l4|);
    var sum := SumLoop(pseudo, SetWord(l4, UDP_CHECKSUM, 0));
    var folded := FoldLoop(sum);
    r := Complement(folded);
    if r == 0 { r := 0xFFFF; }
  }

  function UpdatedIp(field: u16, oldIp: u32, newIp: u32): u16 {
    Updated(Updated(field, High(oldIp), High(newIp)), Low(oldIp), Low(newIp))
  }

  /** The six steps for TCP: both addresses, then both ports. */
  function FastTcp(field: u16, src: u32, src': u32, dst: u32, dst': u32, sp: u16, sp': u16, dp: u16, dp': u16): u16 {
    Updated(Updated(UpdatedIp(UpdatedIp(field, src, src'), dst, dst'), sp, sp'), dp, dp')
  }

  /** Each UDP updater leaves a zero field alone and never produces one. */
  function NonZero(field: u16, updated: u16): u16 {
    if field == 0 then 0 else if updated == 0 then 0xFFFF else updated
  }

  function FastUdp(field: u16, src: u32, src': u32, dst: u32, dst': u32, sp: u16, sp': u16, dp: u16, dp': u16): u16 {
    var c1 := NonZero(field, UpdatedIp(field, src, src'));
    var c2 := NonZero(c1, UpdatedIp(c1, dst, dst'));
    var c3 := NonZero(c2, Updated(c2, sp, sp'));
    NonZero(c3, Updated(c3, dp, dp'))
  }

  /** The segment with new ports; ports are its first two words. */
  function WithPorts(l4: seq<u8>, sp: u16, dp: u16): (r: seq<u8>)
    requires |l4| >= 4
    ensures |r| == |l4|
  {
    SetWord(SetWord(l4, 0, sp), 2, dp)
  }

  lemma UpdateIpRepresents(field: u16, rest: nat, oldIp: u32, newIp: u32)
    requires Represents(field, rest + High(oldIp) + Low(oldIp)) && rest > 0
    ensures Represents(UpdatedIp(field, oldIp, newIp), rest + High(newIp) + Low(newIp))
    ensures field == Sealed(rest + High(oldIp) + Low(oldIp)) ==>
      UpdatedIp(field, oldIp, newIp) == Sealed(rest + High(newIp) + Low(newIp))
  {
    hide Represents;
    hide Updated;
    hide Sealed;
    hide High;
    hide Low;
    var s0, s1, s2 := rest + High(oldIp) + Low(oldIp), rest + High(newIp) + Low(oldIp), rest + High(newIp) + Low(newIp);
    UpdateRepresents(field, s0, High(oldIp), High(newIp), s1);
    UpdateRepresents(Updated(field, High(oldIp), High(newIp)), s1, Low(oldIp), Low(newIp), s2);
    UpdateExact(s0, High(oldIp), High(newIp), s1);
    UpdateExact(s1, Low(oldIp), Low(newIp), s2);
  }

  /** What translation leaves alone: protocol, length and every word but addresses, ports and the field. */
  function Untouched(protocol: u8, l4: seq<u8>, field: nat): nat
    requires 4 <= field && field + 1 < |l4| <= 0xFFFF
  {
    Swap(protocol) as int + Swap(|l4|) + WordSum(WithPorts(SetWord(l4, field, 0), 0, 0))
  }

  lemma UntouchedPositive(protocol: u8, l4: seq<u8>, field: nat)
    requires protocol > 0 && 4 <= field && field + 1 < |l4| <= 0xFFFF
    ensures Untouched(protocol, l4, field) > 0
  {
    hide WordSum;
  }

  lemma CoveredSplits(src: u32, dst: u32, protocol: u8, l4: seq<u8>, sp: u16, dp: u16, k: nat)
    requires 2 <= k && 2 * k + 1 < |l4| <= 0xFFFF
    ensures Covered(src, dst, protocol, WithPorts(l4, sp, dp), 2 * k)
            == Untouched(protocol, l4, 2 * k) + High(src) + Low(src) + High(dst) + Low(dst) + sp + dp
  {
    var z := SetWord(l4, 2 * k, 0);
    var blank := WithPorts(z, 0, 0);
    assert SetWord(WithPorts(l4, sp, dp), 2 * k, 0) == WithPorts(z, sp, dp);
    assert WithPorts(z, sp, dp) == SetWord(SetWord(blank, 0, sp), 2, dp);
    WordSumSet(blank, 0, sp);
    WordSumSet(SetWord(blank, 0, sp), 1, dp);
    hide WordSum;
    hide Swap;
    hide High;
    hide Low;
  }

  lemma OwnPorts(l4: seq<u8>)
    requires |l4| >= 4
    ensures WithPorts(l4, WordAt(l4, 0), WordAt(l4, 2)) == l4
  {
  }

  /** Fast equals slow, bit for bit: a TCP field that full recalculation would produce before the rewrite is,
      after the six incremental steps, what full recalculation produces after it. */
  lemma FastTcpIsExact(l4: seq<u8>, src: u32, src': u32, dst: u32, dst': u32, sp': u16, dp': u16)
    requires 20 <= |l4| <= 0xFFFF && WordAt(l4, TCP_CHECKSUM) == FullTcp(src, dst, l4)
    ensures FastTcp(WordAt(l4, TCP_CHECKSUM), src, src', dst, dst', WordAt(l4, 0), sp', WordAt(l4, 2), dp')
            == FullTcp(src', dst', WithPorts(l4, sp', dp'))
  {
    hide WordSum;
    hide Sealed;
    hide Swap;
    hide SetWord;
    var sp, dp := WordAt(l4, 0), WordAt(l4, 2);
    OwnPorts(l4);
    hide WordAt;
    CoveredSplits(src, dst, PROTO_TCP, l4, sp, dp, 8);
    CoveredSplits(src', dst', PROTO_TCP, l4, sp', dp', 8);
    var u := Untouched(PROTO_TCP, l4, TCP_CHECKSUM);
    UntouchedPositive(PROTO_TCP, l4, TCP_CHECKSUM);
    var f0 := WordAt(l4, TCP_CHECKSUM);
    hide *;
    TcpChain(f0, u, src, src', dst, dst', sp, sp', dp, dp');
  }

  lemma TcpChain(f0: u16, u: nat, src: u32, src': u32, dst: u32, dst': u32, sp: u16, sp': u16, dp: u16, dp': u16)
    requires u > 0 && f0 == Sealed(u + High(src) + Low(src) + High(dst) + Low(dst) + sp + dp)
    ensures FastTcp(f0, src, src', dst, dst', sp, sp', dp, dp')
            == Sealed(u + High(src') + Low(src') + High(dst') + Low(dst') + sp' + dp')
  {
    hide Updated;
    hide UpdatedIp;
    hide Sealed;
    hide High;
    hide Low;
    var s0 := u + High(dst) + Low(dst) + sp + dp;
    assert Represents(f0, s0 + High(src) + Low(src));
    UpdateIpRepresents(f0, s0, src, src');
    var s1 := u + High(src') + Low(src') + sp + dp;
    UpdateIpRepresents(UpdatedIp(f0, src, src'), s1, dst, dst');
    var s2 := s1 + High(dst') + Low(dst');
    UpdateExact(s2, sp, sp', s2 - sp + sp');
    UpdateExact(s2 - sp + sp', dp, dp', s2 - sp + sp' - dp + dp');
  }

  lemma NonZeroRepresents(field: u16, updated: u16, sum: nat)
    requires field != 0 && Represents(updated, sum)
    ensures Represents(NonZero(field, updated), sum) && NonZero(field, updated) != 0
  {
    hide Sealed;
  }

  /** The same for UDP, where an absent checksum stays absent and zero is never produced. */
  lemma FastUdpIsExact(l4: seq<u8>, src: u32, src': u32, dst: u32, dst': u32, sp': u16, dp': u16)
    requires 8 <= |l4| <= 0xFFFF
    requires WordAt(l4, UDP_CHECKSUM) == 0 || WordAt(l4, UDP_CHECKSUM) == FullUdp(src, dst, l4)
    ensures FastUdp(WordAt(l4, UDP_CHECKSUM), src, src', dst, dst', WordAt(l4, 0), sp', WordAt(l4, 2), dp')
            == if WordAt(l4, UDP_CHECKSUM) == 0 then 0 else FullUdp(src', dst', WithPorts(l4, sp', dp'))
  {
    hide WordSum;
    hide Sealed;
    hide Swap;
    hide SetWord;
    var sp, dp := WordAt(l4, 0), WordAt(l4, 2);
    OwnPorts(l4);
    hide WordAt;
    CoveredSplits(src, dst, PROTO_UDP, l4, sp, dp, 3);
    CoveredSplits(src', dst', PROTO_UDP, l4, sp', dp', 3);
    var u := Untouched(PROTO_UDP, l4, UDP_CHECKSUM);
    UntouchedPositive(PROTO_UDP, l4, UDP_CHECKSUM);
    var f0 := WordAt(l4, UDP_CHECKSUM);
    if f0 != 0 {
      assert Represents(f0, u + High(dst) + Low(dst) + sp + dp + High(src) + Low(src));
      hide WordSum;
      hide Updated;
      hide UpdatedIp;
      hide Sealed;
      hide High;
      hide Low;
      hide Swap;
      hide Untouched;
      hide Covered;
      UdpChain(f0, u, src, src', dst, dst', sp, sp', dp, dp');
    }
  }

  lemma UdpChain(f0: u16, u: nat, src: u32, src': u32, dst: u32, dst': u32, sp: u16, sp': u16, dp: u16, dp': u16)
    requires f0 != 0 && u > 0 && Represents(f0, u + High(dst) + Low(dst) + sp + dp + High(src) + Low(src))
    ensures var f := FastUdp(f0, src, src', dst, dst', sp, sp', dp, dp');
            f != 0 && Represents(f, u + High(src') + Low(src') + High(dst') + Low(dst') + sp' + dp')
  {
    hide Updated;
    hide UpdatedIp;
    hide Represents;
    hide High;
    hide Low;
    hide NonZero;
    UpdateIpRepresents(f0, u + High(dst) + Low(dst) + sp + dp, src, src');
    NonZeroRepresents(f0, UpdatedIp(f0, src, src'), u + High(dst) + Low(dst) + sp + dp + High(src') + Low(src'));
    var c1 := NonZero(f0, UpdatedIp(f0, src, src'));
    UpdateIpRepresents(c1, u + High(src') + Low(src') + sp + dp, dst, dst');
    var s2 := u + High(src') + Low(src') + sp + dp + High(dst') + Low(dst');
    NonZeroRepresents(c1, UpdatedIp(c1, dst, dst'), s2);
    var c2 := NonZero(c1, UpdatedIp(c1, dst, dst'));
    UpdateRepresents(c2, s2, sp, sp', s2 - sp + sp');
    NonZeroRepresents(c2, Updated(c2, sp, sp'), s2 - sp + sp');
    var c3 := NonZero(c2, Updated(c2, sp, sp'));
    UpdateRepresents(c3, s2 - sp + sp', dp, dp', s2 - sp + sp' - dp + dp');
    NonZeroRepresents(c3, Updated(c3, dp, dp'), s2 - sp + sp' - dp + dp');
  }

  // ---------------------------------------------------------------------------------------------
  // What a receiver checks
  // ---------------------------------------------------------------------------------------------

  /** A field is right exactly when it makes the sum fold to all ones. */
  lemma RightIff(field: u16, sum: nat)
    ensures Represents(field, sum) <==> Fold(sum + field) == 0xFFFF
  {
    hide Fold;
    FoldValue(sum);
    FoldValue(sum + field);
    if sum > 0 { ResidueOfSum(sum - 1, field); }
  }

  lemma ResidueOfSum(x: nat, field: u16)
    ensures (x + field) % 0xFFFF == 0xFFFE <==> x % 0xFFFF + field == 0xFFFE || x % 0xFFFF + field == 0xFFFE + 0xFFFF
  {
    var r, q := x % 0xFFFF, x / 0xFFFF;
    assert x + field == r + field + q * 0xFFFF;
    ModCongruent(x + field, r + field, q);
  }

  /** The four bytes of an address, as they lie in the packet. */
  function AddressBytes(a: u32): seq<u8> {
    [a % 0x100, a / 0x100 % 0x100, a / 0x1_0000 % 0x100, a / 0x100_0000]
  }

  /** The twelve bytes in front of a segment that only the checksum sees (RFC 9293, section 3.1, and RFC 768). */
  function PseudoHeader(src: u32, dst: u32, protocol: u8, length: u16): seq<u8> {
    AddressBytes(src) + AddressBytes(dst) + [0, protocol, length / 0x100, length % 0x100]
  }

  lemma TwoWords(b: seq<u8>)
    requires |b| == 4
    ensures WordSum(b) == WordAt(b, 0) as int + WordAt(b, 2)
  {
    var c := b[2..];
    assert WordSum(b) == WordAt(b, 0) + WordSum(c);
    assert WordSum(c) == WordAt(c, 0) + WordSum(c[2..]);
    assert WordAt(c, 0) == WordAt(b, 2);
  }

  lemma FourBytes(a: u32)
    ensures WordSum(AddressBytes(a)) == High(a) as int + Low(a)
  {
    TwoWords(AddressBytes(a));
    hide WordSum;
    Halves(a);
  }

  lemma Halves(a: u32)
    ensures a % 0x1_0000 == a % 0x100 + 0x100 * (a / 0x100 % 0x100)
    ensures a / 0x1_0000 == a / 0x1_0000 % 0x100 + 0x100 * (a / 0x100_0000)
  {
  }

  lemma LastWords(protocol: u8, length: u16)
    ensures WordSum([0, protocol, length / 0x100, length % 0x100]) == Swap(protocol) as int + Swap(length)
  {
    TwoWords([0, protocol, length / 0x100, length % 0x100]);
    hide WordSum;
  }

  lemma WordSumAppend(a: seq<u8>, b: seq<u8>, i: nat)
    requires |a| == 2 * i
    ensures WordSum(a + b) == WordSum(a) + WordSum(b)
  {
    WordSumPrefix(a + b, i);
    assert (a + b)[..2 * i] == a && (a + b)[2 * i..] == b;
  }

  lemma PseudoIsWordSum(src: u32, dst: u32, protocol: u8, length: u16)
    ensures PseudoSum(src, dst, protocol, length) == WordSum(PseudoHeader(src, dst, protocol, length))
  {
    var s, d, tail := AddressBytes(src), AddressBytes(dst), [0, protocol, length / 0x100, length % 0x100];
    WordSumAppend(s + d, tail, 4);
    WordSumAppend(s, d, 2);
    FourBytes(src);
    FourBytes(dst);
    LastWords(protocol, length);
    hide WordSum;
    hide AddressBytes;
    hide Swap;
    hide High;
    hide Low;
  }

  /** A receiver that sums up pseudo header and segment, field and all, gets all ones exactly when the field is right. */
  lemma ReceiverAccepts(src: u32, dst: u32, protocol: u8, l4: seq<u8>, k: nat)
    requires 2 * k + 1 < |l4| <= 0xFFFF
    ensures Represents(WordAt(l4, 2 * k), Covered(src, dst, protocol, l4, 2 * k))
            <==> Fold(WordSum(PseudoHeader(src, dst, protocol, |l4|) + l4)) == 0xFFFF
  {
    hide *;
    WithItsField(src, dst, protocol, l4, k);
    RightIff(WordAt(l4, 2 * k), Covered(src, dst, protocol, l4, 2 * k));
  }

  lemma WithItsField(src: u32, dst: u32, protocol: u8, l4: seq<u8>, k: nat)
    requires 2 * k + 1 < |l4| <= 0xFFFF
    ensures Covered(src, dst, protocol, l4, 2 * k) + WordAt(l4, 2 * k)
            == WordSum(PseudoHeader(src, dst, protocol, |l4|) + l4)
  {
    hide WordSum;
    hide PseudoSum;
    hide WordAt;
    hide SetWord;
    hide PseudoHeader;
    var p := PseudoHeader(src, dst, protocol, |l4|);
    TwelveBytes(src, dst, protocol, |l4|);
    PseudoIsWordSum(src, dst, protocol, |l4|);
    WordSumAppend(p, l4, 6);
    WordSumSet(l4, k, 0);
  }

  lemma TwelveBytes(src: u32, dst: u32, protocol: u8, length: u16)
    ensures |PseudoHeader(src, dst, protocol, length)| == 12
  {
  }
}
