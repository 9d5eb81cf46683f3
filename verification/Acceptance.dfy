/** Which frames the parsers accept and what they read out of them, said byte by byte (RFC 791, RFC 9293, RFC 768
    and RFC 792) and not through the parsers. */
module Acceptance {
  import opened Types
  import opened Checksum
  import opened Packets
  import opened Icmp

  /** Two bytes in network order. */
  function Net16(f: seq<u8>, i: nat): nat
    requires i + 1 < |f|
  {
    var high: int, low: int := f[i], f[i + 1];
    high * 256 + low
  }

  /** Bytes as the host reads them, lowest first. */
  function Host16(f: seq<u8>, i: nat): nat
    requires i + 1 < |f|
  {
    var low: int, high: int := f[i], f[i + 1];
    low + 256 * high
  }

  function Host32(f: seq<u8>, i: nat): nat
    requires i + 3 < |f|
  {
    Host16(f, i) + 0x1_0000 * Host16(f, i + 2)
  }

  lemma BigEndian(f: seq<u8>, i: nat)
    requires i + 1 < |f|
    ensures Be(f, i) == Net16(f, i)
  {
    LowByte(f[i], f[i + 1]);
  }

  lemma LowByte(a: u8, b: u8)
    ensures (a + 256 * b) as int % 256 == a && (a + 256 * b) as int / 256 == b
  {
  }

  predicate IsIpv4(f: seq<u8>) {
    |f| >= 14 && f[12] == 0x08 && f[13] == 0x00
  }

  /** Version 4, at least five header words, and a total length that covers the header and lies within the frame. */
  predicate IpFits(f: seq<u8>) {
    && |f| >= 34 && IsIpv4(f)
    && 0x45 <= f[14] <= 0x4F
    && f[14] % 16 * 4 <= Net16(f, 16) <= |f| - 14
  }

  /** More fragments follow, or this one does not start at offset 0. Neither Don't Fragment nor the reserved bit
      matters. */
  predicate IsFragment(f: seq<u8>)
    requires |f| >= 34
  {
    f[20] / 0x20 % 2 == 1 || f[20] % 0x20 != 0 || f[21] != 0
  }

  /** Where the transport header starts, and how many bytes the datagram has from there on. */
  function TransportAt(f: seq<u8>): nat
    requires IpFits(f)
  {
    14 + f[14] % 16 * 4
  }

  function TransportBytes(f: seq<u8>): nat
    requires IpFits(f)
  {
    Net16(f, 16) - f[14] % 16 * 4
  }

  /** The transport header is complete: a TCP header with its options, a UDP datagram of the length it claims, the
      eight bytes of an ICMP header. Other protocols are not looked into. */
  predicate TransportFits(f: seq<u8>)
    requires IpFits(f)
  {
    var at, n := TransportAt(f), TransportBytes(f);
    match f[23]
    case 6 => n >= 20 && 20 <= f[at + 12] / 16 * 4 <= n
    case 17 => n >= 8 && 8 <= Net16(f, at + 4) <= n
    case 1 => n >= 8
    case _ => true
  }

  /** Every frame gets exactly the answer its bytes call for. */
  lemma AcceptedIff(f: seq<u8>)
    ensures Parse(f).NotIp? <==> |f| >= 14 && !IsIpv4(f)
    ensures Parse(f).Fragment? <==> IpFits(f) && IsFragment(f)
    ensures Parse(f).Ok? <==> IpFits(f) && !IsFragment(f) && TransportFits(f)
    ensures Parse(f).Malformed? <==>
      if |f| < 14 then true
      else IsIpv4(f) && (IpFits(f) ==> !IsFragment(f) && !TransportFits(f))
  {
    if |f| >= 14 { BigEndian(f, 12); }
    if |f| >= 34 {
      BigEndian(f, 16);
      BigEndian(f, 20);
      FlagBits(f[20], f[21]);
      Version(f[14]);
      if IpFits(f) && f[23] == PROTO_UDP && TransportBytes(f) >= 8 { BigEndian(f, TransportAt(f) + 4); }
    }
    hide Be;
    hide Addr;
    hide WordAt;
  }

  lemma Version(b: u8)
    ensures b / 16 == 4 && b % 16 * 4 >= 20 <==> 0x45 <= b <= 0x4F
  {
  }

  lemma FlagBits(a: u8, b: u8)
    ensures (a * 256 + b) as int / 0x2000 % 2 == a / 0x20 % 2
    ensures (a * 256 + b) as int % 0x2000 == a % 0x20 * 256 + b
  {
  }

  /** Setting or clearing Don't Fragment changes no answer and nothing that is read. */
  lemma DontFragmentIsIgnored(f: seq<u8>)
    requires |f| >= 34 && f[20] / 0x40 % 2 == 0
    ensures Parse(f[20 := f[20] + 0x40]) == Parse(f)
  {
    SameBits(f[20]);
    var g := f[20 := f[20] + 0x40];
    SameAnswers(f, g);
    AcceptedIff(f);
    AcceptedIff(g);
    if Parse(f).Ok? { SameFields(f, g); }
    hide *;
  }

  lemma SameAnswers(f: seq<u8>, g: seq<u8>)
    requires |f| >= 34 && f[20] / 0x40 % 2 == 0 && g == f[20 := f[20] + 0x40]
    ensures IsIpv4(g) == IsIpv4(f) && IpFits(g) == IpFits(f) && IsFragment(g) == IsFragment(f)
    ensures IpFits(f) ==> TransportFits(g) == TransportFits(f)
  {
    SameBits(f[20]);
  }

  lemma SameBits(b: u8)
    requires b / 0x40 % 2 == 0
    ensures b + 0x40 < 0x100 && (b + 0x40) as int / 0x20 % 2 == b / 0x20 % 2 && (b + 0x40) as int % 0x20 == b % 0x20
  {
  }

  lemma SameFields(f: seq<u8>, g: seq<u8>)
    requires |f| >= 34 && IpFits(f) && !IsFragment(f) && TransportFits(f) && Parse(f).Ok?
    requires |g| == |f| && IpFits(g) && !IsFragment(g) && TransportFits(g) && Parse(g).Ok?
    requires forall i: nat :: i < |f| && i != 20 ==> g[i] == f[i]
    ensures Parse(g) == Parse(f)
  {
    AcceptedFields(f);
    AcceptedFields(g);
    hide Parse;
  }

  /** What is read out of an accepted frame: addresses and ports are the words that lie there, lowest byte first. */
  lemma AcceptedFields(f: seq<u8>)
    requires IpFits(f) && !IsFragment(f) && TransportFits(f)
    ensures Parse(f).Ok?
    ensures var m, at := Parse(f).meta, TransportAt(f);
            && m.protocol == f[23] && m.ttl == f[22] && m.l4 == at && m.end == 14 + Net16(f, 16)
            && m.srcIp == Host32(f, 26) && m.dstIp == Host32(f, 30)
            && (f[23] in {6, 17} ==> m.srcPort == Host16(f, at) && m.dstPort == Host16(f, at + 2))
            && (f[23] !in {6, 17} ==> m.srcPort == m.dstPort == 0)
            && m.flags == (if f[23] == 6 then f[at + 13] else 0)
            && m.payload == at + (match f[23] case 6 => f[at + 12] / 16 * 4 case 17 => 8 case _ => 0)
  {
    AcceptedIff(f);
    BigEndian(f, 16);
    hide Be;
  }

  // ---------------------------------------------------------------------------------------------
  // Quoted packets
  // ---------------------------------------------------------------------------------------------

  /** An ICMP error (destination unreachable, time exceeded, parameter problem) that quotes the first fragment of a
      TCP or UDP packet up to the eighth byte of its transport header. */
  predicate QuotesPacket(f: seq<u8>, m: Meta)
    requires IcmpWithin(f, m)
  {
    var l3 := m.l4 + 8;
    && f[m.l4] in {3, 11, 12}
    && l3 + 20 <= m.end && 0x45 <= f[l3] <= 0x4F
    && f[l3 + 9] in {6, 17} && f[l3 + 6] % 0x20 == 0 && f[l3 + 7] == 0
    && l3 + f[l3] % 16 * 4 + 8 <= m.end
  }

  lemma QuoteIff(f: seq<u8>, m: Meta)
    requires IcmpWithin(f, m)
    ensures ParseError(f, m).Some? <==> QuotesPacket(f, m)
    ensures QuotesPacket(f, m) ==>
      var l3 := m.l4 + 8;
      var l4 := l3 + f[l3] % 16 * 4;
      && ParseError(f, m).value.l3 == l3 && ParseError(f, m).value.l4 == l4
      && ParseError(f, m).value.inner ==
           FiveTuple(Addr(f, l3 + 12), Addr(f, l3 + 16), Net16(f, l4), Net16(f, l4 + 2), f[l3 + 9])
  {
    var l3 := m.l4 + 8;
    if l3 + 20 <= m.end {
      BigEndian(f, l3 + 6);
      FlagBits(f[l3 + 6], f[l3 + 7]);
      Version(f[l3]);
      var l4 := l3 + f[l3] % 16 * 4;
      if l4 + 8 <= m.end {
        BigEndian(f, l4);
        BigEndian(f, l4 + 2);
      }
    }
    hide Be;
    hide Addr;
  }
}
