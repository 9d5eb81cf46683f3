/** Parsing of frames and the address translation of TCP and UDP packets, as functions on bytes. Addresses,
    ports and checksums are native words, in the order they have in memory. */
module Packets {
  import opened Types
  import opened Checksum

  const L3 := 14

  /** A big-endian field. */
  function Be(f: seq<u8>, i: nat): u16
    requires i + 1 < |f|
  {
    Swap(WordAt(f, i))
  }

  /** An address as the host reads it. */
  function Addr(f: seq<u8>, i: nat): u32
    requires i + 3 < |f|
  {
    var lo: int, hi: int := WordAt(f, i), WordAt(f, i + 2);
    lo + 0x1_0000 * hi
  }

  function SetAddr(f: seq<u8>, i: nat, a: u32): (r: seq<u8>)
    requires i + 3 < |f|
    ensures |r| == |f| && Addr(r, i) == a
    ensures forall j: nat :: j < |f| && !(i <= j < i + 4) ==> r[j] == f[j]
  {
    SetWord(SetWord(f, i, Low(a)), i + 2, High(a))
  }

  // ---------------------------------------------------------------------------------------------
  // Parser
  // ---------------------------------------------------------------------------------------------

  datatype Meta = Meta(srcIp: u32, dstIp: u32, protocol: u8, ttl: u8, srcPort: u16, dstPort: u16, flags: u8,
                       l4: nat, payload: nat, end: nat)

  datatype Parsed = NotIp | Malformed | Fragment | Ok(meta: Meta)

  function Ihl(f: seq<u8>): nat
    requires |f| > L3
  {
    f[L3] % 16 * 4
  }

  function Doff(f: seq<u8>, l4: nat): nat
    requires l4 + 12 < |f|
  {
    f[l4 + 12] / 16 * 4
  }

  function Parse(f: seq<u8>): Parsed {
    if |f| < L3 then Malformed
    else if Be(f, 12) != 0x0800 then NotIp
    else if |f| < L3 + 20 then Malformed
    else
      var ihl, total := Ihl(f), Be(f, 16);
      if f[L3] / 16 != 4 || ihl < 20 || total < ihl || L3 + total > |f| then Malformed
      else if Be(f, 20) / 0x2000 % 2 != 0 || Be(f, 20) % 0x2000 != 0 then Fragment
      else
        var l4, end := L3 + ihl, L3 + total;
        var m := Meta(Addr(f, 26), Addr(f, 30), f[23], f[22], 0, 0, 0, l4, l4, end);
        if f[23] == PROTO_TCP then
          if l4 + 20 > end || Doff(f, l4) < 20 || l4 + Doff(f, l4) > end then Malformed
          else Ok(m.(srcPort := WordAt(f, l4), dstPort := WordAt(f, l4 + 2), flags := f[l4 + 13],
                     payload := l4 + Doff(f, l4)))
        else if f[23] == PROTO_UDP then
          if l4 + 8 > end || Be(f, l4 + 4) < 8 || l4 + Be(f, l4 + 4) > end then Malformed
          else Ok(m.(srcPort := WordAt(f, l4), dstPort := WordAt(f, l4 + 2), payload := l4 + 8))
        else if f[23] == PROTO_ICMP && l4 + 8 > end then Malformed
        else Ok(m)
  }

  /** The fixed part of a TCP or UDP header. */
  function L4Header(protocol: u8): nat {
    if protocol == PROTO_TCP then 20 else 8
  }

  /** Where the parts of an accepted TCP or UDP frame lie. */
  predicate Within(f: seq<u8>, m: Meta) {
    && m.protocol in {PROTO_TCP, PROTO_UDP}
    && L3 + 20 <= m.l4 && m.l4 + L4Header(m.protocol) <= m.payload <= m.end <= |f| && m.end - L3 <= 0xFFFF
    && (m.protocol == PROTO_TCP ==> m.payload - m.l4 <= 60 && (m.payload - m.l4) % 4 == 0)
  }

  /** Accepted as TCP or UDP with this description. */
  predicate Reads(f: seq<u8>, m: Meta) {
    Parse(f) == Ok(m) && m.protocol in {PROTO_TCP, PROTO_UDP}
  }

  lemma ReadsWithin(f: seq<u8>, m: Meta)
    requires Reads(f, m)
    ensures Within(f, m) && f[22] == m.ttl && m.srcIp == Addr(f, 26) && m.dstIp == Addr(f, 30)
    ensures m.srcPort == WordAt(f, m.l4) && m.dstPort == WordAt(f, m.l4 + 2)
  {
    hide Addr;
    hide WordAt;
  }

  /** What the parser looks at besides addresses, ports and TTL. */
  predicate SameShape(f: seq<u8>, g: seq<u8>, l4: nat)
    requires L3 + 20 <= l4 && l4 + 8 <= |f| && l4 + 8 <= |g|
  {
    && f[12..16] == g[12..16] && f[20..22] == g[20..22] && f[23] == g[23]
    && f[l4 + 4..l4 + 6] == g[l4 + 4..l4 + 6]
  }

  /** A frame of the same shape is read the same way, with its own addresses, ports and lengths. */
  lemma ReadsAlike(f: seq<u8>, m: Meta, g: seq<u8>, m': Meta)
    requires Reads(f, m) && Within(g, m') && m'.l4 == m.l4 && SameShape(f, g, m.l4)
    requires m'.protocol == m.protocol && m'.ttl == g[22] && m'.srcIp == Addr(g, 26) && m'.dstIp == Addr(g, 30)
    requires m'.srcPort == WordAt(g, m.l4) && m'.dstPort == WordAt(g, m.l4 + 2)
    requires Be(g, 16) == m'.end - L3
    requires m.protocol == PROTO_TCP ==> g[m.l4 + 13] == m'.flags && Doff(g, m.l4) == m'.payload - m.l4
    requires m.protocol == PROTO_UDP ==> m'.flags == 0 && m'.payload == m.l4 + 8 && m'.end == m.end
    ensures Reads(g, m')
  {
    hide Addr;
    hide WordAt;
    hide SameShape;
    hide Within;
    FitsAgain(g, m');
    ReadsWithin(f, m);
    FitsAgain(f, m);
    SameFields(f, g, m.l4);
  }

  /** Frames of the same shape agree on everything that decides between answers but the lengths. */
  lemma SameFields(f: seq<u8>, g: seq<u8>, l4: nat)
    requires L3 + 20 <= l4 && l4 + 8 <= |f| && l4 + 8 <= |g| && SameShape(f, g, l4)
    ensures Be(g, 12) == Be(f, 12) && g[L3] == f[L3] && Be(g, 20) == Be(f, 20) && g[23] == f[23]
    ensures Be(g, l4 + 4) == Be(f, l4 + 4)
  {
    hide Swap;
    assert f[12..16][0] == f[12] && f[12..16][1] == f[13] && f[12..16][2] == f[14];
    assert g[12..16][0] == g[12] && g[12..16][1] == g[13] && g[12..16][2] == g[14];
    assert f[20..22][0] == f[20] && f[20..22][1] == f[21] && g[20..22][0] == g[20] && g[20..22][1] == g[21];
    assert f[l4 + 4..l4 + 6][0] == f[l4 + 4] && f[l4 + 4..l4 + 6][1] == f[l4 + 5];
    assert g[l4 + 4..l4 + 6][0] == g[l4 + 4] && g[l4 + 4..l4 + 6][1] == g[l4 + 5];
  }

  lemma FitsAgain(g: seq<u8>, m: Meta)
    requires Within(g, m)
    ensures m.protocol in {PROTO_TCP, PROTO_UDP} && |g| >= L3 + 20 && L3 + 20 <= m.l4
    ensures m.l4 + L4Header(m.protocol) <= m.payload <= m.end <= |g|
  {
  }

  function TcpOptions(f: seq<u8>, m: Meta): seq<u8>
    requires Within(f, m) && m.protocol == PROTO_TCP
  {
    f[m.l4 + 20..m.payload]
  }

  function Payload(f: seq<u8>, m: Meta): seq<u8>
    requires Within(f, m)
  {
    f[m.payload..m.end]
  }

  /** The part the TCP or UDP checksum covers. */
  function Segment(f: seq<u8>, m: Meta): seq<u8>
    requires Within(f, m)
  {
    f[m.l4..m.end]
  }
}
