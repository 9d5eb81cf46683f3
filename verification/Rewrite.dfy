/** Address translation of accepted TCP and UDP frames: option changes first, then addresses, ports,
    checksums and MACs. The theorems say what a receiver of the rewritten frame reads. */
module Rewrite {
  import opened Types
  import opened Checksum
  import opened Options
  import opened Packets

  const TOA_LEN := 8

  datatype NatOptions = NatOptions(stripTs: bool, addToa: bool, toaIp: u32, toaPort: u16, mtu: u16)

  datatype NatRewrite = NatRewrite(srcIp: u32, dstIp: u32, srcPort: u16, dstPort: u16, srcMac: seq<u8>, dstMac: seq<u8>) {
    predicate Valid() { |srcMac| == 6 && |dstMac| == 6 }
  }

  predicate SynSet(flags: u8) { flags / 2 % 2 == 1 }

  // ---------------------------------------------------------------------------------------------
  // Options
  // ---------------------------------------------------------------------------------------------

  function StripStep(f: seq<u8>, m: Meta): (g: seq<u8>)
    requires Within(f, m) && m.protocol == PROTO_TCP
    ensures |g| == |f| && (forall i: nat :: i < m.l4 + 20 ==> g[i] == f[i])
    ensures g[m.l4 + 20..m.payload] == Stripped(TcpOptions(f, m)) && g[m.payload..] == f[m.payload..]
  {
    f[..m.l4 + 20] + Stripped(TcpOptions(f, m)) + f[m.payload..]
  }

  /** Blanking timestamps changes nothing the parser looks at, and nothing a receiver reads but them. */
  lemma StripKeeps(f: seq<u8>, m: Meta)
    requires Reads(f, m) && m.protocol == PROTO_TCP
    ensures Within(f, m) && Reads(StripStep(f, m), m) && Payload(StripStep(f, m), m) == Payload(f, m)
    ensures Decode(TcpOptions(StripStep(f, m), m)) == WithoutTimestamps(Decode(TcpOptions(f, m)))
  {
    hide Parse;
    hide StripStep;
    hide Decode;
    hide Stripped;
    ReadsWithin(f, m);
    var g := StripStep(f, m);
    StrippedDecodes(TcpOptions(f, m));
    HeaderFacts(f, m);
    assert Payload(g, m) == g[m.payload..][..m.end - m.payload] == Payload(f, m);
    assert Be(g, 16) == Be(f, 16) && Doff(g, m.l4) == Doff(f, m.l4);
    CopiedFields(f, g, m.l4);
    hide WordAt;
    hide Addr;
    hide SameShape;
    ReadsAlike(f, m, g, m);
  }

  /** Header fields the description of a TCP frame comes from. */
  lemma HeaderFacts(f: seq<u8>, m: Meta)
    requires Reads(f, m)
    ensures Within(f, m) && Be(f, 16) == m.end - L3
    ensures m.protocol == PROTO_TCP ==> f[m.l4 + 13] == m.flags && Doff(f, m.l4) == m.payload - m.l4
    ensures m.protocol == PROTO_UDP ==> m.flags == 0 && m.payload == m.l4 + 8
    ensures f[22] == m.ttl && m.srcIp == Addr(f, 26) && m.dstIp == Addr(f, 30)
    ensures m.srcPort == WordAt(f, m.l4) && m.dstPort == WordAt(f, m.l4 + 2)
  {
    ReadsWithin(f, m);
    hide Addr;
    hide Swap;
    hide WordAt;
  }

  function ToaOption(ip: u32, port: u16): (r: seq<u8>)
    ensures |r| == TOA_LEN && r[0] == OPT_TOA && r[1] == TOA_LEN && WordAt(r, 2) == port && Addr(r, 4) == ip
  {
    SetAddr(SetWord([OPT_TOA, TOA_LEN, 0, 0, 0, 0, 0, 0], 2, port), 4, ip)
  }

  /** The option fits the TCP header, the packet fits the link, and the buffer has room once padding is cut. */
  predicate ToaFits(m: Meta, mtu: u16, capacity: nat)
    requires m.l4 <= m.payload <= m.end
  {
    m.payload - m.l4 + TOA_LEN <= 60 && m.end - L3 + TOA_LEN <= mtu && m.end + TOA_LEN <= capacity
  }

  /** The description of the frame once the option is in. */
  function Longer(m: Meta): Meta {
    m.(payload := m.payload + TOA_LEN, end := m.end + TOA_LEN)
  }

  /** Insert the option right after the fixed header and account for it in both length fields. */
  function InsertToa(f: seq<u8>, m: Meta, ip: u32, port: u16): (g: seq<u8>)
    requires Within(f, m) && m.protocol == PROTO_TCP && ToaFits(m, 0xFFFF, m.end + TOA_LEN)
    ensures |g| == m.end + TOA_LEN
  {
    var wider := f[..m.l4 + 20] + ToaOption(ip, port) + f[m.l4 + 20..m.end];
    SetWord(wider[m.l4 + 12 := (m.payload - m.l4 + TOA_LEN) / 4 * 16 + f[m.l4 + 12] % 16],
            16, Swap(m.end - L3 + TOA_LEN))
  }

  lemma SwapTwice(x: u16)
    ensures Swap(Swap(x)) == x
  {
    Bytes(x % 256, x / 256);
    assert Swap(x) == x % 256 * 256 + x / 256;
  }

  lemma Bytes(a: u8, b: u8)
    ensures (a * 256 + b) as int % 256 == b && (a * 256 + b) as int / 256 == a
  {
  }

  lemma NewOffset(len: nat, b: u8)
    requires len <= 60 && len % 4 == 0
    ensures 0 <= len / 4 * 16 + b % 16 < 256 && (len / 4 * 16 + b % 16) / 16 * 4 == len
  {
  }

  /** The bytes of the longer frame. */
  lemma InsertToaBytes(f: seq<u8>, m: Meta, ip: u32, port: u16)
    requires Within(f, m) && m.protocol == PROTO_TCP && ToaFits(m, 0xFFFF, m.end + TOA_LEN)
    ensures var g := InsertToa(f, m, ip, port);
            && (forall i: nat :: i < m.l4 + 20 && i != 16 && i != 17 && i != m.l4 + 12 ==> g[i] == f[i])
            && Be(g, 16) == m.end - L3 + TOA_LEN && Doff(g, m.l4) == m.payload - m.l4 + TOA_LEN
            && g[m.l4 + 20..m.l4 + 28] == ToaOption(ip, port)
            && g[m.l4 + 28..] == f[m.l4 + 20..m.end]
  {
    var len, total := m.payload - m.l4 + TOA_LEN, m.end - L3 + TOA_LEN;
    NewOffset(len, f[m.l4 + 12]);
    SwapTwice(total);
    hide Swap;
    hide ToaOption;
    var wider := f[..m.l4 + 20] + ToaOption(ip, port) + f[m.l4 + 20..m.end];
    var b := len / 4 * 16 + f[m.l4 + 12] % 16;
    var g := InsertToa(f, m, ip, port);
    assert g == SetWord(wider[m.l4 + 12 := b], 16, Swap(total));
    hide InsertToa;
    assert forall i: nat :: i < |g| && i != 16 && i != 17 && i != m.l4 + 12 ==> g[i] == wider[i];
    assert g[m.l4 + 12] == b;
  }

  /** After insertion the parser finds the same packet, eight bytes longer, with the option in front. */
  lemma InsertToaKeeps(f: seq<u8>, m: Meta, ip: u32, port: u16)
    requires Reads(f, m) && Within(f, m) && m.protocol == PROTO_TCP && ToaFits(m, 0xFFFF, m.end + TOA_LEN)
    ensures var g := InsertToa(f, m, ip, port);
            && Reads(g, Longer(m)) && Within(g, Longer(m)) && Payload(g, Longer(m)) == Payload(f, m)
            && Decode(TcpOptions(g, Longer(m)))
               == [TcpOption(OPT_TOA, ToaOption(ip, port)[2..])] + Decode(TcpOptions(f, m))
  {
    InsertToaBytes(f, m, ip, port);
    var g := InsertToa(f, m, ip, port);
    assert Longer(m).protocol == PROTO_TCP;
    hide *;
    InsertToaReads(f, m, g);
    ReadsWithin(g, Longer(m));
    InsertToaParts(f, m, g, ToaOption(ip, port));
    ToaDecodes(ip, port, TcpOptions(f, m));
  }

  lemma InsertToaReads(f: seq<u8>, m: Meta, g: seq<u8>)
    requires Reads(f, m) && Within(f, m) && m.protocol == PROTO_TCP && ToaFits(m, 0xFFFF, m.end + TOA_LEN)
    requires |g| == m.end + TOA_LEN
    requires forall i: nat :: i < m.l4 + 20 && i != 16 && i != 17 && i != m.l4 + 12 ==> g[i] == f[i]
    requires Be(g, 16) == m.end - L3 + TOA_LEN && Doff(g, m.l4) == m.payload - m.l4 + TOA_LEN
    ensures Reads(g, Longer(m))
  {
    HeaderFacts(f, m);
    CopiedFields(f, g, m.l4);
    hide Parse;
    hide Swap;
    hide Addr;
    hide WordAt;
    hide SameShape;
    LongerWithin(f, m, g);
    hide Within;
    hide Doff;
    ReadsAlike(f, m, g, Longer(m));
  }

  lemma LongerWithin(f: seq<u8>, m: Meta, g: seq<u8>)
    requires Within(f, m) && m.protocol == PROTO_TCP && ToaFits(m, 0xFFFF, m.end + TOA_LEN) && |g| == m.end + TOA_LEN
    ensures Within(g, Longer(m))
  {
  }

  /** A copy of the headers, but for the total length and the data offset, keeps what the parser reads there. */
  lemma CopiedFields(f: seq<u8>, g: seq<u8>, l4: nat)
    requires L3 + 20 <= l4 && l4 + 8 <= |f| && l4 + 8 <= |g|
    requires forall i: nat :: i < l4 + 8 && i != 16 && i != 17 ==> g[i] == f[i]
    ensures SameShape(f, g, l4) && Addr(g, 26) == Addr(f, 26) && Addr(g, 30) == Addr(f, 30)
    ensures WordAt(g, l4) == WordAt(f, l4) && WordAt(g, l4 + 2) == WordAt(f, l4 + 2) && g[22] == f[22]
  {
  }

  lemma InsertToaParts(f: seq<u8>, m: Meta, g: seq<u8>, option: seq<u8>)
    requires Within(f, m) && m.protocol == PROTO_TCP && ToaFits(m, 0xFFFF, m.end + TOA_LEN)
    requires |g| == m.end + TOA_LEN && Within(g, Longer(m))
    requires g[m.l4 + 20..m.l4 + 28] == option && g[m.l4 + 28..] == f[m.l4 + 20..m.end]
    ensures Payload(g, Longer(m)) == Payload(f, m) && TcpOptions(g, Longer(m)) == option + TcpOptions(f, m)
  {
    var a, n := m.l4 + 20, m.payload - m.l4 - 20;
    SliceParts(g, a + 8, m.payload + 8, |g|);
    SliceParts(f, a, m.payload, m.end);
    SliceParts(g, a, a + 8, m.payload + 8);
    assert g[a + 8..] == g[a + 8..|g|];
    assert g[a..m.payload + 8] == g[a..m.payload + 8][..8] + g[a..m.payload + 8][8..];
  }

  lemma SliceParts(s: seq<u8>, a: nat, b: nat, c: nat)
    requires a <= b <= c <= |s|
    ensures s[a..c][..b - a] == s[a..b] && s[a..c][b - a..] == s[b..c]
  {
  }

  lemma ToaDecodes(ip: u32, port: u16, rest: seq<u8>)
    ensures Decode(ToaOption(ip, port) + rest) == [TcpOption(OPT_TOA, ToaOption(ip, port)[2..])] + Decode(rest)
  {
    hide ToaOption;
    var o := ToaOption(ip, port) + rest;
    assert o[2..8] == ToaOption(ip, port)[2..] && o[8..] == rest;
  }

  // ---------------------------------------------------------------------------------------------
  // Addresses, ports, checksums, MACs
  // ---------------------------------------------------------------------------------------------

  function ChecksumField(protocol: u8): nat {
    if protocol == PROTO_TCP then TCP_CHECKSUM else UDP_CHECKSUM
  }

  /** New addresses, one hop less, and a header checksum computed afresh. */
  function SetIpHeader(f: seq<u8>, ihl: nat, src: u32, dst: u32): (g: seq<u8>)
    requires 20 <= ihl && L3 + ihl <= |f| && f[22] > 0
    ensures |g| == |f| && Addr(g, 26) == src && Addr(g, 30) == dst && g[22] == f[22] - 1
    ensures forall i: nat :: i < |f| && i != 22 && !(24 <= i < 34) ==> g[i] == f[i]
    ensures WordAt(g, 24) == Sealed(WordSum(SetWord(g, 24, 0)[L3..L3 + ihl]))
  {
    var h := SetWord(SetAddr(SetAddr(f, 26, src), 30, dst)[22 := f[22] - 1], 24, 0);
    var g := SetWord(h, 24, Sealed(WordSum(h[L3..L3 + ihl])));
    assert SetWord(g, 24, 0) == h;
    g
  }

  /** The new checksum field: a fresh sum when options changed, six incremental steps otherwise. */
  function NewField(f: seq<u8>, m: Meta, rw: NatRewrite, full: bool): u16
    requires Within(f, m)
  {
    var seg := Segment(f, m);
    if m.protocol == PROTO_UDP then
      FastUdp(WordAt(seg, UDP_CHECKSUM), m.srcIp, rw.srcIp, m.dstIp, rw.dstIp, WordAt(seg, 0), rw.srcPort,
              WordAt(seg, 2), rw.dstPort)
    else if full then FullTcp(rw.srcIp, rw.dstIp, WithPorts(seg, rw.srcPort, rw.dstPort))
    else
      FastTcp(WordAt(seg, TCP_CHECKSUM), m.srcIp, rw.srcIp, m.dstIp, rw.dstIp, WordAt(seg, 0), rw.srcPort,
              WordAt(seg, 2), rw.dstPort)
  }

  function SetMacs(f: seq<u8>, src: seq<u8>, dst: seq<u8>): (g: seq<u8>)
    requires |f| >= 12 && |src| == 6 && |dst| == 6
    ensures |g| == |f| && g[..6] == dst && g[6..12] == src && (forall i: nat :: 12 <= i < |f| ==> g[i] == f[i])
  {
    dst + src + f[12..]
  }

  function SetPorts(f: seq<u8>, l4: nat, sp: u16, dp: u16, field: nat, sum: u16): (g: seq<u8>)
    requires 4 <= field && l4 + field + 1 < |f|
    ensures |g| == |f| && WordAt(g, l4) == sp && WordAt(g, l4 + 2) == dp && WordAt(g, l4 + field) == sum
    ensures forall i: nat :: i < |f| && !(l4 <= i < l4 + 4) && i != l4 + field && i != l4 + field + 1 ==> g[i] == f[i]
  {
    SetWord(SetWord(SetWord(f, l4, sp), l4 + 2, dp), l4 + field, sum)
  }

  /** Translation of a frame whose options are already in place. */
  function Translate(f: seq<u8>, m: Meta, rw: NatRewrite, full: bool): (g: seq<u8>)
    requires Within(f, m) && f[22] > 0 && rw.Valid()
    ensures |g| == |f|
  {
    var h := SetIpHeader(f, m.l4 - L3, rw.srcIp, rw.dstIp);
    var p := SetPorts(h, m.l4, rw.srcPort, rw.dstPort, ChecksumField(m.protocol), NewField(f, m, rw, full));
    SetMacs(p, rw.srcMac, rw.dstMac)
  }

  /** What the receiver is told about the translated frame. */
  function Readdressed(m: Meta, rw: NatRewrite): Meta
    requires m.ttl > 0
  {
    m.(srcIp := rw.srcIp, dstIp := rw.dstIp, srcPort := rw.srcPort, dstPort := rw.dstPort, ttl := m.ttl - 1)
  }

  /** Translation writes MACs, TTL, header checksum, addresses, ports and the checksum field, nothing else. */
  ghost predicate SameOutside(f: seq<u8>, g: seq<u8>, l4: nat, field: nat) {
    && |g| == |f|
    && forall i: nat :: 12 <= i < |f| ==>
         g[i] == f[i] || i == 22 || 24 <= i < 34 || l4 <= i < l4 + 4 || i == l4 + field || i == l4 + field + 1
  }

  lemma TranslateBytes(f: seq<u8>, m: Meta, rw: NatRewrite, full: bool)
    requires Within(f, m) && f[22] > 0 && rw.Valid()
    ensures var g, field := Translate(f, m, rw, full), ChecksumField(m.protocol);
            && SameOutside(f, g, m.l4, field)
            && Addr(g, 26) == rw.srcIp && Addr(g, 30) == rw.dstIp && g[22] == f[22] - 1
            && WordAt(g, m.l4) == rw.srcPort && WordAt(g, m.l4 + 2) == rw.dstPort
            && WordAt(g, m.l4 + field) == NewField(f, m, rw, full)
            && g[..6] == rw.dstMac && g[6..12] == rw.srcMac
  {
    hide NewField;
    hide SetIpHeader;
    hide SetPorts;
    hide SetMacs;
  }

  lemma SameHeaders(g: seq<u8>, h: seq<u8>, l4: nat)
    requires 34 <= l4 <= |g| == |h| && forall i: nat :: L3 <= i < l4 ==> g[i] == h[i]
    ensures WordAt(g, 24) == WordAt(h, 24) && SetWord(g, 24, 0)[L3..l4] == SetWord(h, 24, 0)[L3..l4]
  {
  }

  /** The translated header sums to a valid checksum. */
  lemma TranslateIpChecksum(f: seq<u8>, m: Meta, rw: NatRewrite, full: bool)
    requires Within(f, m) && f[22] > 0 && rw.Valid()
    ensures var g := Translate(f, m, rw, full);
            WordAt(g, 24) == Sealed(WordSum(SetWord(g, 24, 0)[L3..m.l4]))
  {
    var h := SetIpHeader(f, m.l4 - L3, rw.srcIp, rw.dstIp);
    var g := Translate(f, m, rw, full);
    hide NewField;
    hide SetIpHeader;
    hide SetPorts;
    hide SetMacs;
    hide Sealed;
    hide Addr;
    hide WordAt;
    hide WordSum;
    hide SetWord;
    SameHeaders(g, h, m.l4);
  }

  /** The parser accepts the translated frame and reads the new addresses; nothing else has changed. */
  lemma TranslateKeeps(f: seq<u8>, m: Meta, rw: NatRewrite, full: bool)
    requires Reads(f, m) && Within(f, m) && m.ttl > 0 && f[22] == m.ttl && rw.Valid()
    ensures var g := Translate(f, m, rw, full);
            && Reads(g, Readdressed(m, rw)) && Within(g, m) && Payload(g, m) == Payload(f, m)
            && (m.protocol == PROTO_TCP ==> TcpOptions(g, m) == TcpOptions(f, m))
  {
    hide Reads;
    hide Translate;
    hide SameOutside;
    hide Addr;
    hide WordAt;
    TranslateBytes(f, m, rw, full);
    TranslateReads(f, m, Translate(f, m, rw, full), rw);
  }

  lemma TranslateReads(f: seq<u8>, m: Meta, g: seq<u8>, rw: NatRewrite)
    requires Reads(f, m) && Within(f, m) && m.ttl > 0 && f[22] == m.ttl && SameOutside(f, g, m.l4, ChecksumField(m.protocol))
    requires Addr(g, 26) == rw.srcIp && Addr(g, 30) == rw.dstIp && g[22] == f[22] - 1
    requires WordAt(g, m.l4) == rw.srcPort && WordAt(g, m.l4 + 2) == rw.dstPort
    ensures Reads(g, Readdressed(m, rw)) && Within(g, m) && Payload(g, m) == Payload(f, m)
    ensures m.protocol == PROTO_TCP ==> TcpOptions(g, m) == TcpOptions(f, m)
  {
    HeaderFacts(f, m);
    hide Parse;
    hide Addr;
    hide Swap;
    ReadsAlike(f, m, g, Readdressed(m, rw));
  }

  // ---------------------------------------------------------------------------------------------
  // The whole rewrite
  // ---------------------------------------------------------------------------------------------

  /** The buffer of a frame: whether it is a single segment, and how many bytes its first segment can take. */
  datatype Room = Room(single: bool, capacity: nat)

  datatype Rewritten =
    | TtlExceeded
    | Done(frame: seq<u8>, meta: Meta, tsStripped: bool, toaAdded: bool, toaNoRoom: bool)

  predicate Strips(m: Meta, o: NatOptions) {
    o.stripTs && m.protocol == PROTO_TCP && SynSet(m.flags)
  }

  /** The frame after the first option step. */
  function AfterStrip(f: seq<u8>, m: Meta, o: NatOptions): seq<u8>
    requires Within(f, m)
  {
    if Strips(m, o) then StripStep(f, m) else f
  }

  /** The options after both option steps, and the description that goes with them. */
  function OptionStep(f: seq<u8>, m: Meta, o: NatOptions, room: Room): (r: (seq<u8>, Meta))
    requires Within(f, m)
  {
    var g := AfterStrip(f, m, o);
    if m.protocol != PROTO_TCP || !o.addToa || !room.single || !ToaFits(m, o.mtu, m.end + TOA_LEN) then (g, m)
    else if !ToaFits(m, o.mtu, room.capacity) then (g[..m.end], m)
    else (InsertToa(g, m, o.toaIp, o.toaPort), Longer(m))
  }

  predicate AddsToa(m: Meta, o: NatOptions, room: Room)
    requires m.l4 <= m.payload <= m.end
  {
    m.protocol == PROTO_TCP && o.addToa && room.single && ToaFits(m, o.mtu, room.capacity)
  }

  /** nat_rewrite on a frame the parser accepted. */
  function NatRewritten(f: seq<u8>, m: Meta, rw: NatRewrite, o: NatOptions, room: Room): Rewritten
    requires Within(f, m) && f[22] == m.ttl && rw.Valid()
  {
    if m.ttl <= 1 then TtlExceeded
    else
      var strip := Strips(m, o) && HasTimestamp(TcpOptions(f, m));
      var toa := AddsToa(m, o, room);
      OptionStepWithin(f, m, o, room);
      var (g, m') := OptionStep(f, m, o, room);
      Done(Translate(g, m', rw, strip || toa), m', strip, toa, m.protocol == PROTO_TCP && o.addToa && !toa)
  }

  lemma OptionStepWithin(f: seq<u8>, m: Meta, o: NatOptions, room: Room)
    requires Within(f, m)
    ensures var (g, m') := OptionStep(f, m, o, room);
            Within(g, m') && g[22] == f[22] && m'.protocol == m.protocol
  {
    hide InsertToa;
    hide Stripped;
    hide StripStep;
    hide ToaOption;
    if AddsToa(m, o, room) {
      var g := AfterStrip(f, m, o);
      InsertToaBytes(g, m, o.toaIp, o.toaPort);
      hide Be;
      hide Doff;
    }
  }

  /** What the receiver reads out of the options after the rewrite: the old ones, less the timestamps of a segment with
      the SYN bit where those are to go, and the client's address in front where that is to be told, the TCP header
      stays within 60 bytes, the packet within the link's limit and the frame within a buffer of one segment. */
  function ExpectedOptions(f: seq<u8>, m: Meta, o: NatOptions, room: Room): seq<TcpOption>
    requires Within(f, m) && m.protocol == PROTO_TCP
  {
    var kept := Decode(TcpOptions(f, m));
    var kept := if o.stripTs && m.flags / 2 % 2 == 1 then WithoutTimestamps(kept) else kept;
    if o.addToa && room.single && m.payload - m.l4 <= 52 && m.end - L3 <= o.mtu - 8 && m.end <= room.capacity - 8
    then [TcpOption(254, ToaOption(o.toaIp, o.toaPort)[2..])] + kept
    else kept
  }

  lemma TrimKeeps(f: seq<u8>, m: Meta)
    requires Reads(f, m) && Within(f, m)
    ensures Reads(f[..m.end], m) && Within(f[..m.end], m) && Payload(f[..m.end], m) == Payload(f, m)
    ensures m.protocol == PROTO_TCP ==> TcpOptions(f[..m.end], m) == TcpOptions(f, m)
  {
    HeaderFacts(f, m);
    hide Parse;
    hide Addr;
    hide Swap;
    var g := f[..m.end];
    CopiedFields(f, g, m.l4);
    assert Be(g, 16) == Be(f, 16);
    hide WordAt;
    hide SameShape;
    ReadsAlike(f, m, g, m);
  }

  lemma AfterStripKeeps(f: seq<u8>, m: Meta, o: NatOptions)
    requires Reads(f, m) && Within(f, m)
    ensures var g := AfterStrip(f, m, o);
            && Reads(g, m) && Within(g, m) && Payload(g, m) == Payload(f, m)
            && (m.protocol == PROTO_TCP ==>
                  var was := Decode(TcpOptions(f, m));
                  Decode(TcpOptions(g, m)) == if o.stripTs && m.flags / 2 % 2 == 1 then WithoutTimestamps(was) else was)
  {
    hide Reads;
    hide StripStep;
    hide Decode;
    hide Payload;
    hide TcpOptions;
    if Strips(m, o) { StripKeeps(f, m); }
    ReadsWithin(AfterStrip(f, m, o), m);
  }

  lemma OptionStepKeeps(f: seq<u8>, m: Meta, o: NatOptions, room: Room)
    requires Reads(f, m) && Within(f, m)
    ensures var (g, m') := OptionStep(f, m, o, room);
            && Reads(g, m') && Within(g, m') && Payload(g, m') == Payload(f, m)
            && m' == (if AddsToa(m, o, room) then Longer(m) else m)
            && (m.protocol == PROTO_TCP ==> Decode(TcpOptions(g, m')) == ExpectedOptions(f, m, o, room))
  {
    hide Reads;
    hide AfterStrip;
    hide InsertToa;
    hide Decode;
    hide Payload;
    hide TcpOptions;
    hide ToaOption;
    AfterStripKeeps(f, m, o);
    var g := AfterStrip(f, m, o);
    if AddsToa(m, o, room) { InsertToaKeeps(g, m, o.toaIp, o.toaPort); }
    TrimKeeps(g, m);
  }

  /** The rewritten frame means the same packet for its new receiver: the parser accepts it with the new
      tuple and one hop less, the payload is untouched, and the options are the old ones, without timestamps
      where those are stripped and with the client address in front where that is added. */
  lemma RewriteKeepsMeaning(f: seq<u8>, m: Meta, rw: NatRewrite, o: NatOptions, room: Room)
    requires Reads(f, m) && m.ttl > 1 && rw.Valid()
    ensures Within(f, m) && f[22] == m.ttl
    ensures var r := NatRewritten(f, m, rw, o, room);
            && r.Done? && r.meta == (if AddsToa(m, o, room) then Longer(m) else m)
            && Reads(r.frame, Readdressed(r.meta, rw)) && Within(r.frame, r.meta)
            && Payload(r.frame, r.meta) == Payload(f, m)
            && (m.protocol == PROTO_TCP ==>
                  Decode(TcpOptions(r.frame, r.meta)) == ExpectedOptions(f, m, o, room))
  {
    hide Parse;
    hide Translate;
    hide OptionStep;
    hide Decode;
    hide ExpectedOptions;
    hide HasTimestamp;
    hide TcpOptions;
    hide Payload;
    hide Addr;
    hide WordAt;
    ReadsWithin(f, m);
    OptionStepKeeps(f, m, o, room);
    OptionStepWithin(f, m, o, room);
    var (g, m') := OptionStep(f, m, o, room);
    var full := (Strips(m, o) && HasTimestamp(TcpOptions(f, m))) || AddsToa(m, o, room);
    TranslateKeeps(g, m', rw, full);
    var r := NatRewritten(f, m, rw, o, room);
    assert r.frame == Translate(g, m', rw, full) && r.meta == m';
    ReadsWithin(r.frame, Readdressed(m', rw));
  }

  // ---------------------------------------------------------------------------------------------
  // Checksums of rewritten frames
  // ---------------------------------------------------------------------------------------------

  /** The TCP field holds what full recalculation would store. */
  predicate TcpSumOk(f: seq<u8>, m: Meta)
    requires Within(f, m) && m.protocol == PROTO_TCP
  {
    WordAt(Segment(f, m), TCP_CHECKSUM) == FullTcp(m.srcIp, m.dstIp, Segment(f, m))
  }

  /** The UDP field does, over the datagram its own length field delimits; zero means no checksum. */
  predicate UdpSumOk(f: seq<u8>, m: Meta, len: nat)
    requires Within(f, m) && 8 <= len && m.l4 + len <= m.end
  {
    var seg := f[m.l4..m.l4 + len];
    WordAt(seg, UDP_CHECKSUM) == 0 || WordAt(seg, UDP_CHECKSUM) == FullUdp(m.srcIp, m.dstIp, seg)
  }

  lemma TcpIgnoresField(src: u32, dst: u32, a: seq<u8>, b: seq<u8>)
    requires 20 <= |a| <= 0xFFFF && |b| == |a| && forall i: nat :: i < |a| && i != 16 && i != 17 ==> a[i] == b[i]
    ensures FullTcp(src, dst, a) == FullTcp(src, dst, b)
  {
    assert SetWord(a, TCP_CHECKSUM, 0) == SetWord(b, TCP_CHECKSUM, 0);
  }

  lemma UdpIgnoresField(src: u32, dst: u32, a: seq<u8>, b: seq<u8>)
    requires 8 <= |a| <= 0xFFFF && |b| == |a| && forall i: nat :: i < |a| && i != 6 && i != 7 ==> a[i] == b[i]
    ensures FullUdp(src, dst, a) == FullUdp(src, dst, b)
  {
    assert SetWord(a, UDP_CHECKSUM, 0) == SetWord(b, UDP_CHECKSUM, 0);
  }

  lemma NewTcpField(f: seq<u8>, m: Meta, rw: NatRewrite, full: bool)
    requires Within(f, m) && m.protocol == PROTO_TCP && (full || TcpSumOk(f, m))
    ensures NewField(f, m, rw, full) == FullTcp(rw.srcIp, rw.dstIp, WithPorts(Segment(f, m), rw.srcPort, rw.dstPort))
  {
    hide FullTcp;
    hide FastTcp;
    if !full { FastTcpIsExact(Segment(f, m), m.srcIp, rw.srcIp, m.dstIp, rw.dstIp, rw.srcPort, rw.dstPort); }
  }

  lemma NewUdpField(f: seq<u8>, m: Meta, rw: NatRewrite, len: nat)
    requires Within(f, m) && m.protocol == PROTO_UDP && 8 <= len && m.l4 + len <= m.end && UdpSumOk(f, m, len)
    ensures var seg := f[m.l4..m.l4 + len];
            NewField(f, m, rw, false) == if WordAt(seg, UDP_CHECKSUM) == 0 then 0
                                         else FullUdp(rw.srcIp, rw.dstIp, WithPorts(seg, rw.srcPort, rw.dstPort))
  {
    hide FullUdp;
    hide FastUdp;
    FastUdpIsExact(f[m.l4..m.l4 + len], m.srcIp, rw.srcIp, m.dstIp, rw.dstIp, rw.srcPort, rw.dstPort);
  }

  /** Translation of a right TCP field is right, and recalculation repairs any field. */
  lemma TranslateTcpSum(f: seq<u8>, m: Meta, rw: NatRewrite, full: bool)
    requires Within(f, m) && m.protocol == PROTO_TCP && m.ttl > 0 && f[22] == m.ttl && rw.Valid()
    requires full || TcpSumOk(f, m)
    ensures Within(Translate(f, m, rw, full), Readdressed(m, rw))
    ensures TcpSumOk(Translate(f, m, rw, full), Readdressed(m, rw))
  {
    hide NewField;
    hide Translate;
    hide FullTcp;
    hide Addr;
    hide WordAt;
    TranslateBytes(f, m, rw, full);
    NewTcpField(f, m, rw, full);
    var g, seg := Translate(f, m, rw, full), Segment(f, m);
    SegmentAfter(f, m, g, rw, TCP_CHECKSUM, m.end - m.l4);
    TcpIgnoresField(rw.srcIp, rw.dstIp, Segment(g, m), WithPorts(seg, rw.srcPort, rw.dstPort));
  }

  /** The translated segment is the old one with new ports, but for its checksum field. */
  lemma SegmentAfter(f: seq<u8>, m: Meta, g: seq<u8>, rw: NatRewrite, field: nat, len: nat)
    requires Within(f, m) && SameOutside(f, g, m.l4, field) && 4 <= field && field + 2 <= len && m.l4 + len <= m.end
    requires WordAt(g, m.l4) == rw.srcPort && WordAt(g, m.l4 + 2) == rw.dstPort
    ensures var a, b := g[m.l4..m.l4 + len], WithPorts(f[m.l4..m.l4 + len], rw.srcPort, rw.dstPort);
            && (forall i: nat :: i < len && i != field && i != field + 1 ==> a[i] == b[i])
            && WordAt(a, field) == WordAt(g, m.l4 + field)
  {
    SameWord(g, m.l4, rw.srcPort);
    SameWord(g, m.l4 + 2, rw.dstPort);
  }

  lemma SameWord(g: seq<u8>, i: nat, w: u16)
    requires i + 1 < |g| && WordAt(g, i) == w
    ensures g[i] == w % 256 && g[i + 1] == w / 256
  {
  }

  lemma TranslateUdpSum(f: seq<u8>, m: Meta, rw: NatRewrite, len: nat)
    requires Within(f, m) && m.protocol == PROTO_UDP && m.ttl > 0 && f[22] == m.ttl && rw.Valid()
    requires 8 <= len && m.l4 + len <= m.end && UdpSumOk(f, m, len)
    ensures Within(Translate(f, m, rw, false), Readdressed(m, rw))
    ensures UdpSumOk(Translate(f, m, rw, false), Readdressed(m, rw), len)
  {
    hide NewField;
    hide Translate;
    hide FullUdp;
    hide Addr;
    hide WordAt;
    TranslateBytes(f, m, rw, false);
    NewUdpField(f, m, rw, len);
    var g, seg := Translate(f, m, rw, false), f[m.l4..m.l4 + len];
    SegmentAfter(f, m, g, rw, UDP_CHECKSUM, len);
    UdpIgnoresField(rw.srcIp, rw.dstIp, g[m.l4..m.l4 + len], WithPorts(seg, rw.srcPort, rw.dstPort));
  }

  /** Every rewritten TCP frame carries a right checksum if it came in with one, or if its options changed;
      its IP header checksum is always right. */
  lemma RewriteKeepsChecksums(f: seq<u8>, m: Meta, rw: NatRewrite, o: NatOptions, room: Room)
    requires Reads(f, m) && m.protocol == PROTO_TCP && m.ttl > 1 && rw.Valid()
    ensures Within(f, m) && f[22] == m.ttl
    ensures var r := NatRewritten(f, m, rw, o, room);
            && r.Done? && Within(r.frame, Readdressed(r.meta, rw))
            && (TcpSumOk(f, m) || r.tsStripped || r.toaAdded ==> TcpSumOk(r.frame, Readdressed(r.meta, rw)))
            && WordAt(r.frame, 24) == Sealed(WordSum(SetWord(r.frame, 24, 0)[L3..m.l4]))
  {
    hide Parse;
    hide Translate;
    hide Addr;
    hide Decode;
    hide Sealed;
    RewriteKeepsMeaning(f, m, rw, o, room);
    OptionStepWithin(f, m, o, room);
    OptionStepKeeps(f, m, o, room);
    var (g, m') := OptionStep(f, m, o, room);
    var full := (Strips(m, o) && HasTimestamp(TcpOptions(f, m))) || AddsToa(m, o, room);
    if !full { NoOptionChange(f, m, o, room); }
    hide OptionStep;
    hide HasTimestamp;
    if full || TcpSumOk(f, m) { TranslateTcpSum(g, m', rw, full); }
    TranslateIpChecksum(g, m', rw, full);
  }

  /** When neither option step applies, at most padding is gone. */
  lemma NoOptionChange(f: seq<u8>, m: Meta, o: NatOptions, room: Room)
    requires Within(f, m) && m.protocol == PROTO_TCP
    requires !(Strips(m, o) && HasTimestamp(TcpOptions(f, m))) && !AddsToa(m, o, room)
    ensures var (g, m') := OptionStep(f, m, o, room);
            m' == m && Within(g, m) && Segment(g, m) == Segment(f, m)
  {
    if Strips(m, o) {
      StrippedUnchanged(TcpOptions(f, m));
      assert StripStep(f, m) == f;
    }
  }

  /** Neither option step touches a datagram. */
  lemma NoOptions(f: seq<u8>, m: Meta, o: NatOptions, room: Room)
    requires Within(f, m) && m.protocol == PROTO_UDP
    ensures OptionStep(f, m, o, room) == (f, m)
  {
  }

  /** Every rewritten UDP frame delimits the same datagram, whose checksum is right or absent if it came in so; its IP
      header checksum is always right. */
  lemma RewriteKeepsUdpChecksums(f: seq<u8>, m: Meta, rw: NatRewrite, o: NatOptions, room: Room)
    requires Reads(f, m) && m.protocol == PROTO_UDP && m.ttl > 1 && rw.Valid()
    ensures Within(f, m) && f[22] == m.ttl && 8 <= Be(f, m.l4 + 4) && m.l4 + Be(f, m.l4 + 4) <= m.end
    ensures var r, len := NatRewritten(f, m, rw, o, room), Be(f, m.l4 + 4);
            && r.Done? && r.meta == m && Within(r.frame, Readdressed(m, rw)) && Be(r.frame, m.l4 + 4) == len
            && (UdpSumOk(f, m, len) ==> UdpSumOk(r.frame, Readdressed(m, rw), len))
            && WordAt(r.frame, 24) == Sealed(WordSum(SetWord(r.frame, 24, 0)[L3..m.l4]))
  {
    hide Parse;
    hide Translate;
    hide Addr;
    hide WordAt;
    hide Be;
    hide UdpSumOk;
    DatagramFits(f, m);
    ReadsWithin(f, m);
    RewrittenDatagram(f, m, rw, o, room);
    hide NatRewritten;
    var g, len := Translate(f, m, rw, false), Be(f, m.l4 + 4);
    TranslatedWithin(f, m, rw);
    hide *;
    if UdpSumOk(f, m, len) { TranslateUdpSum(f, m, rw, len); }
    TranslateIpChecksum(f, m, rw, false);
  }

  lemma RewrittenDatagram(f: seq<u8>, m: Meta, rw: NatRewrite, o: NatOptions, room: Room)
    requires Within(f, m) && m.protocol == PROTO_UDP && f[22] == m.ttl > 1 && rw.Valid()
    ensures NatRewritten(f, m, rw, o, room) == Done(Translate(f, m, rw, false), m, false, false, false)
  {
    hide Translate;
    NoOptions(f, m, o, room);
    hide OptionStep;
  }

  lemma TranslatedWithin(f: seq<u8>, m: Meta, rw: NatRewrite)
    requires Within(f, m) && m.protocol == PROTO_UDP && f[22] == m.ttl > 0 && rw.Valid()
    ensures var g := Translate(f, m, rw, false); Within(g, Readdressed(m, rw)) && Be(g, m.l4 + 4) == Be(f, m.l4 + 4)
  {
    hide Translate;
    hide Addr;
    hide NewField;
    TranslateBytes(f, m, rw, false);
    SameLength(f, Translate(f, m, rw, false), m.l4 + 4);
    hide Be;
    hide WordAt;
  }

  lemma DatagramFits(f: seq<u8>, m: Meta)
    requires Reads(f, m) && m.protocol == PROTO_UDP
    ensures Within(f, m) && 8 <= Be(f, m.l4 + 4) && m.l4 + Be(f, m.l4 + 4) <= m.end
  {
    ReadsWithin(f, m);
    hide Addr;
    hide Be;
    hide WordAt;
  }

  lemma SameLength(f: seq<u8>, g: seq<u8>, i: nat)
    requires i + 1 < |f| && i + 1 < |g| && f[i] == g[i] && f[i + 1] == g[i + 1]
    ensures Be(f, i) == Be(g, i)
  {
  }

  // ---------------------------------------------------------------------------------------------
  // What stays as it was
  // ---------------------------------------------------------------------------------------------

  /** Header bytes a rewrite is there to change: TTL, header checksum, addresses, ports and the checksum field; with the
      client's address added, the total length and the data offset too. */
  predicate Changes(m: Meta, toa: bool, i: nat) {
    || i == 22 || 24 <= i < 34 || m.l4 <= i < m.l4 + 4
    || (m.protocol == PROTO_TCP && m.l4 + 16 <= i < m.l4 + 18) || (m.protocol == PROTO_UDP && m.l4 + 6 <= i < m.l4 + 8)
    || (toa && (i == 16 || i == 17 || i == m.l4 + 12))
  }

  lemma OptionStepBytes(f: seq<u8>, m: Meta, o: NatOptions, room: Room, i: nat)
    requires Within(f, m) && i < m.l4 + L4Header(m.protocol)
    ensures var (g, m') := OptionStep(f, m, o, room);
            && Within(g, m') && m'.l4 == m.l4 && m'.protocol == m.protocol
            && (g[i] == f[i] || (AddsToa(m, o, room) && (i == 16 || i == 17 || i == m.l4 + 12)))
  {
    hide InsertToa;
    hide Stripped;
    hide StripStep;
    hide ToaOption;
    OptionStepWithin(f, m, o, room);
    if AddsToa(m, o, room) {
      var g := AfterStrip(f, m, o);
      InsertToaBytes(g, m, o.toaIp, o.toaPort);
      hide Be;
      hide Doff;
    }
  }

  /** The frame leaves with the MACs ordered, and no other header byte is touched: sequence numbers, flags, window, type
      of service and identification arrive as they were sent. */
  lemma RewriteChangesOnly(f: seq<u8>, m: Meta, rw: NatRewrite, o: NatOptions, room: Room, i: nat)
    requires Within(f, m) && f[22] == m.ttl && m.ttl > 1 && rw.Valid()
    requires 12 <= i < m.l4 + L4Header(m.protocol)
    ensures var r := NatRewritten(f, m, rw, o, room);
            && r.Done? && |r.frame| > i && r.frame[..6] == rw.dstMac && r.frame[6..12] == rw.srcMac
            && (!Changes(m, r.toaAdded, i) ==> r.frame[i] == f[i])
  {
    hide Translate;
    hide OptionStep;
    hide AddsToa;
    hide HasTimestamp;
    OptionStepWithin(f, m, o, room);
    OptionStepBytes(f, m, o, room, i);
    var (g, m') := OptionStep(f, m, o, room);
    var full := (Strips(m, o) && HasTimestamp(TcpOptions(f, m))) || AddsToa(m, o, room);
    TranslateBytes(g, m', rw, full);
    hide WordAt;
    hide Addr;
  }

  /** A packet is refused exactly when it has no hop left to take. */
  lemma HopLimit(f: seq<u8>, m: Meta, rw: NatRewrite, o: NatOptions, room: Room)
    requires Within(f, m) && f[22] == m.ttl && rw.Valid()
    ensures NatRewritten(f, m, rw, o, room).TtlExceeded? <==> f[22] <= 1
  {
    hide Translate;
    hide OptionStep;
  }

  /** dr_rewrite: only the MACs change, so the packet is read as it was. */
  function DrRewritten(f: seq<u8>, srcMac: seq<u8>, dstMac: seq<u8>): seq<u8>
    requires |f| >= 12 && |srcMac| == 6 && |dstMac| == 6
  {
    SetMacs(f, srcMac, dstMac)
  }

  lemma DrKeepsPacket(f: seq<u8>, m: Meta, srcMac: seq<u8>, dstMac: seq<u8>)
    requires Reads(f, m) && |srcMac| == 6 && |dstMac| == 6
    ensures |f| >= 12
    ensures var g := DrRewritten(f, srcMac, dstMac);
            && Reads(g, m) && g[12..] == f[12..] && g[..6] == dstMac && g[6..12] == srcMac
  {
    HeaderFacts(f, m);
    hide Parse;
    hide Swap;
    var g := DrRewritten(f, srcMac, dstMac);
    assert Be(g, 16) == Be(f, 16) && Addr(g, 26) == Addr(f, 26) && Addr(g, 30) == Addr(f, 30);
    ReadsAlike(f, m, g, m);
  }

  // ---------------------------------------------------------------------------------------------
  // What the next hop checks
  // ---------------------------------------------------------------------------------------------

  /** The words of the IP header, checksum and all, fold to all ones. */
  ghost predicate HeaderChecks(f: seq<u8>, l4: nat)
    requires L3 + 20 <= l4 <= |f|
  {
    Fold(WordSum(f[L3..l4])) == 0xFFFF
  }

  /** So do pseudo header and segment, for a segment of `len` bytes. */
  ghost predicate SegmentChecks(f: seq<u8>, m: Meta, len: nat)
    requires m.l4 + len <= |f| && len <= 0xFFFF
  {
    Fold(WordSum(PseudoHeader(m.srcIp, m.dstIp, m.protocol, len) + f[m.l4..m.l4 + len])) == 0xFFFF
  }

  lemma SealedHeaderChecks(f: seq<u8>, l4: nat)
    requires L3 + 20 <= l4 <= |f| && WordAt(f, 24) == Sealed(WordSum(SetWord(f, 24, 0)[L3..l4]))
    ensures HeaderChecks(f, l4)
  {
    var h := f[L3..l4];
    assert WordAt(h, 10) == WordAt(f, 24);
    assert SetWord(f, 24, 0)[L3..l4] == SetWord(h, 10, 0);
    WordSumSet(h, 5, 0);
    hide WordSum;
    hide Fold;
    hide SetWord;
    RightIff(WordAt(h, 10), WordSum(SetWord(h, 10, 0)));
  }

  lemma RightTcpChecks(f: seq<u8>, m: Meta)
    requires Within(f, m) && m.protocol == PROTO_TCP && TcpSumOk(f, m)
    ensures SegmentChecks(f, m, m.end - m.l4)
  {
    hide WordSum;
    hide Fold;
    hide SetWord;
    hide PseudoHeader;
    assert f[m.l4..m.l4 + (m.end - m.l4)] == Segment(f, m);
    ReceiverAccepts(m.srcIp, m.dstIp, PROTO_TCP, Segment(f, m), 8);
  }

  lemma RightUdpChecks(f: seq<u8>, m: Meta, len: nat)
    requires Within(f, m) && m.protocol == PROTO_UDP && 8 <= len && m.l4 + len <= m.end && UdpSumOk(f, m, len)
    ensures SegmentChecks(f, m, len) || WordAt(f, m.l4 + UDP_CHECKSUM) == 0
  {
    hide WordSum;
    hide Fold;
    hide SetWord;
    hide PseudoHeader;
    var seg := f[m.l4..m.l4 + len];
    assert WordAt(seg, UDP_CHECKSUM) == WordAt(f, m.l4 + UDP_CHECKSUM);
    ReceiverAccepts(m.srcIp, m.dstIp, PROTO_UDP, seg, 3);
  }

  /** A receiver that adds up what it gets accepts every rewritten frame: the IP header always, the segment if it came in
      right or its options changed. */
  lemma NextHopAccepts(f: seq<u8>, m: Meta, rw: NatRewrite, o: NatOptions, room: Room)
    requires Reads(f, m) && m.protocol == PROTO_TCP && m.ttl > 1 && rw.Valid()
    ensures Within(f, m) && f[22] == m.ttl
    ensures var r := NatRewritten(f, m, rw, o, room);
            && r.Done? && r.meta.l4 == m.l4 && Within(r.frame, Readdressed(r.meta, rw)) && HeaderChecks(r.frame, m.l4)
            && (TcpSumOk(f, m) || r.tsStripped || r.toaAdded ==>
                  SegmentChecks(r.frame, Readdressed(r.meta, rw), r.meta.end - r.meta.l4))
  {
    hide Parse;
    hide NatRewritten;
    hide TcpSumOk;
    hide WordAt;
    hide SegmentChecks;
    hide HeaderChecks;
    hide AddsToa;
    RewriteKeepsMeaning(f, m, rw, o, room);
    RewriteKeepsChecksums(f, m, rw, o, room);
    var r := NatRewritten(f, m, rw, o, room);
    SealedHeaderChecks(r.frame, m.l4);
    if TcpSumOk(f, m) || r.tsStripped || r.toaAdded { RightTcpChecks(r.frame, Readdressed(r.meta, rw)); }
  }

  /** The same for datagrams, unless they came in without a checksum. */
  lemma NextHopAcceptsUdp(f: seq<u8>, m: Meta, rw: NatRewrite, o: NatOptions, room: Room)
    requires Reads(f, m) && m.protocol == PROTO_UDP && m.ttl > 1 && rw.Valid()
    ensures Within(f, m) && f[22] == m.ttl && 8 <= Be(f, m.l4 + 4) && m.l4 + Be(f, m.l4 + 4) <= m.end
    ensures var r, len := NatRewritten(f, m, rw, o, room), Be(f, m.l4 + 4);
            && r.Done? && Within(r.frame, Readdressed(m, rw)) && HeaderChecks(r.frame, m.l4)
            && (UdpSumOk(f, m, len) ==>
                  SegmentChecks(r.frame, Readdressed(m, rw), len) || WordAt(r.frame, m.l4 + UDP_CHECKSUM) == 0)
  {
    hide Parse;
    hide NatRewritten;
    hide UdpSumOk;
    hide WordAt;
    hide Be;
    hide SegmentChecks;
    hide HeaderChecks;
    RewriteKeepsUdpChecksums(f, m, rw, o, room);
    var r, len := NatRewritten(f, m, rw, o, room), Be(f, m.l4 + 4);
    SealedHeaderChecks(r.frame, m.l4);
    if UdpSumOk(f, m, len) { RightUdpChecks(r.frame, Readdressed(m, rw), len); }
  }
}
