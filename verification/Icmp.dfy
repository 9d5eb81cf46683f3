/** ICMP errors (RFC 792) quote the packet that caused them. Translating one means translating the quoted header
    too, so that its receiver recognises its own packet. */
module Icmp {
  import opened Types
  import opened Checksum
  import opened Packets
  import opened Rewrite

  predicate IsError(kind: u8) { kind == 3 || kind == 11 || kind == 12 }

  /** Where the quoted headers lie, and the tuple of the quoted packet. */
  datatype Quote = Quote(l3: nat, l4: nat, inner: FiveTuple)

  /** Where the parts of an accepted ICMP frame lie. */
  predicate IcmpWithin(f: seq<u8>, m: Meta) {
    m.protocol == PROTO_ICMP && L3 + 20 <= m.l4 && m.l4 + 8 <= m.end <= |f| && m.end - L3 <= 0xFFFF
  }

  function InnerTuple(f: seq<u8>, l3: nat, l4: nat): FiveTuple
    requires l3 + 20 <= l4 && l4 + 4 <= |f|
  {
    FiveTuple(Addr(f, l3 + 12), Addr(f, l3 + 16), Be(f, l4), Be(f, l4 + 2), f[l3 + 9])
  }

  function ParseError(f: seq<u8>, m: Meta): Option<Quote>
    requires IcmpWithin(f, m)
  {
    var l3 := m.l4 + 8;
    if !IsError(f[m.l4]) || l3 + 20 > m.end then None
    else
      var ihl := f[l3] % 16 * 4;
      if f[l3] / 16 != 4 || ihl < 20 || f[l3 + 9] !in {PROTO_TCP, PROTO_UDP} || Be(f, l3 + 6) % 0x2000 != 0 then None
      else if l3 + ihl + 8 > m.end then None
      else Some(Quote(l3, l3 + ihl, InnerTuple(f, l3, l3 + ihl)))
  }

  lemma IcmpReads(f: seq<u8>, m: Meta)
    requires Parse(f) == Ok(m) && m.protocol == PROTO_ICMP
    ensures IcmpWithin(f, m) && f[22] == m.ttl
  {
    hide Addr;
    hide WordAt;
  }

  /** The quoted headers lie inside the frame, behind everything the outer headers need. */
  predicate QuoteWithin(f: seq<u8>, m: Meta, q: Quote) {
    IcmpWithin(f, m) && q.l3 == m.l4 + 8 && q.l3 + 20 <= q.l4 && q.l4 + 8 <= m.end
  }

  // ---------------------------------------------------------------------------------------------
  // Rewriting
  // ---------------------------------------------------------------------------------------------

  /** A one's-complement checksum over a range is right. */
  predicate Right(f: seq<u8>, at: nat, lo: nat, hi: nat)
    requires lo <= at && at + 2 <= hi <= |f|
  {
    WordAt(f, at) == Sealed(WordSum(SetWord(f, at, 0)[lo..hi]))
  }

  function Resealed(f: seq<u8>, at: nat, lo: nat, hi: nat): (g: seq<u8>)
    requires lo <= at && at + 2 <= hi <= |f|
    ensures |g| == |f| && Right(g, at, lo, hi) && forall i: nat :: i < |f| && i != at && i != at + 1 ==> g[i] == f[i]
  {
    var z := SetWord(f, at, 0);
    var g := SetWord(z, at, Sealed(WordSum(z[lo..hi])));
    assert SetWord(g, at, 0) == z;
    g
  }

  function SetQuote(f: seq<u8>, q: Quote, inner: FiveTuple): (g: seq<u8>)
    requires q.l3 + 20 <= q.l4 && q.l4 + 8 <= |f|
    ensures |g| == |f|
  {
    var h := Resealed(SetAddr(SetAddr(f, q.l3 + 12, inner.srcIp), q.l3 + 16, inner.dstIp), q.l3 + 10, q.l3, q.l4);
    SetWord(SetWord(h, q.l4, Swap(inner.srcPort)), q.l4 + 2, Swap(inner.dstPort))
  }

  /** nat_rewrite_icmp_error once the hop limit allows it. */
  function ErrorRewritten(f: seq<u8>, m: Meta, q: Quote, outerSrc: u32, outerDst: u32, inner: FiveTuple,
                          srcMac: seq<u8>, dstMac: seq<u8>): (g: seq<u8>)
    requires QuoteWithin(f, m, q) && f[22] > 0 && |srcMac| == 6 && |dstMac| == 6
    ensures |g| == |f|
  {
    var h := SetQuote(f, q, inner);
    QuoteBytes(f, q, inner);
    SetMacs(Resealed(SetIpHeader(h, m.l4 - L3, outerSrc, outerDst), m.l4 + 2, m.l4, m.end), srcMac, dstMac)
  }

  /** What the quote step changes, and what it makes true. */
  lemma QuoteBytes(f: seq<u8>, q: Quote, inner: FiveTuple)
    requires q.l3 + 20 <= q.l4 && q.l4 + 8 <= |f|
    ensures var g := SetQuote(f, q, inner);
            && (forall i: nat :: i < |f| && !(q.l3 + 10 <= i < q.l3 + 20) && !(q.l4 <= i < q.l4 + 4) ==> g[i] == f[i])
            && Addr(g, q.l3 + 12) == inner.srcIp && Addr(g, q.l3 + 16) == inner.dstIp
            && Be(g, q.l4) == inner.srcPort && Be(g, q.l4 + 2) == inner.dstPort
            && Right(g, q.l3 + 10, q.l3, q.l4)
  {
    SwapTwice(inner.srcPort);
    SwapTwice(inner.dstPort);
    hide Swap;
    hide Resealed;
    hide SetWord;
    hide SetAddr;
    hide WordAt;
    hide Addr;
    hide Right;
    var a := SetAddr(SetAddr(f, q.l3 + 12, inner.srcIp), q.l3 + 16, inner.dstIp);
    var h := Resealed(a, q.l3 + 10, q.l3, q.l4);
    var g := SetQuote(f, q, inner);
    SameWords(SetWord(h, q.l4, Swap(inner.srcPort)), g, q.l4);
    SameRange(h, g, q.l3 + 10, q.l3, q.l4);
    SameAddr(h, g, q.l3 + 12);
    SameAddr(h, g, q.l3 + 16);
    SameAddr(a, h, q.l3 + 12);
    SameAddr(a, h, q.l3 + 16);
    SameAddr(SetAddr(f, q.l3 + 12, inner.srcIp), a, q.l3 + 12);
  }

  lemma SameWords(f: seq<u8>, g: seq<u8>, i: nat)
    requires i + 1 < |f| && |g| == |f| && g[i] == f[i] && g[i + 1] == f[i + 1]
    ensures WordAt(g, i) == WordAt(f, i)
  {
  }

  lemma SameAddr(f: seq<u8>, g: seq<u8>, i: nat)
    requires i + 3 < |f| && |g| == |f| && forall j: nat :: i <= j < i + 4 ==> g[j] == f[j]
    ensures Addr(g, i) == Addr(f, i)
  {
  }

  /** Equal bytes have equal checksums. */
  lemma SameRange(f: seq<u8>, g: seq<u8>, at: nat, lo: nat, hi: nat)
    requires lo <= at && at + 2 <= hi <= |f| == |g| && forall i: nat :: lo <= i < hi ==> g[i] == f[i]
    ensures Right(f, at, lo, hi) <==> Right(g, at, lo, hi)
  {
    assert SetWord(g, at, 0)[lo..hi] == SetWord(f, at, 0)[lo..hi];
  }

  /** The bytes a rewritten error differs in: MACs, hop limit, outer addresses and checksum, ICMP checksum, and of
      the quoted headers the addresses, checksum and ports. */
  ghost predicate SameButTuple(f: seq<u8>, g: seq<u8>, m: Meta, q: Quote) {
    && |g| == |f|
    && forall i: nat :: 12 <= i < |f| ==>
         || g[i] == f[i] || i == 22 || 24 <= i < 34 || m.l4 + 2 <= i < m.l4 + 4
         || q.l3 + 10 <= i < q.l3 + 20 || q.l4 <= i < q.l4 + 4
  }

  /** Every checksum of the rewritten error is right, and every address and port is the new one. */
  lemma ErrorBytes(f: seq<u8>, m: Meta, q: Quote, outerSrc: u32, outerDst: u32, inner: FiveTuple,
                   srcMac: seq<u8>, dstMac: seq<u8>)
    requires QuoteWithin(f, m, q) && f[22] > 0 && |srcMac| == 6 && |dstMac| == 6
    ensures var g := ErrorRewritten(f, m, q, outerSrc, outerDst, inner, srcMac, dstMac);
            && SameButTuple(f, g, m, q) && g[22] == f[22] - 1
            && Addr(g, 26) == outerSrc && Addr(g, 30) == outerDst
            && Addr(g, q.l3 + 12) == inner.srcIp && Addr(g, q.l3 + 16) == inner.dstIp
            && Be(g, q.l4) == inner.srcPort && Be(g, q.l4 + 2) == inner.dstPort
            && Right(g, 24, L3, m.l4) && Right(g, m.l4 + 2, m.l4, m.end) && Right(g, q.l3 + 10, q.l3, q.l4)
  {
    hide SetQuote;
    hide SetIpHeader;
    hide Resealed;
    hide SetMacs;
    hide SetWord;
    hide WordAt;
    hide Addr;
    hide Sealed;
    hide WordSum;
    hide Swap;
    QuoteBytes(f, q, inner);
    var h := SetQuote(f, q, inner);
    var o := SetIpHeader(h, m.l4 - L3, outerSrc, outerDst);
    assert Right(o, 24, L3, m.l4);
    hide Right;
    var r := Resealed(o, m.l4 + 2, m.l4, m.end);
    var g := ErrorRewritten(f, m, q, outerSrc, outerDst, inner, srcMac, dstMac);
    assert g == SetMacs(r, srcMac, dstMac);
    SameAddr(o, g, 26);
    SameAddr(o, g, 30);
    SameAddr(h, g, q.l3 + 12);
    SameAddr(h, g, q.l3 + 16);
    SameWords(h, g, q.l4);
    SameWords(h, g, q.l4 + 2);
    SameRange(o, g, 24, L3, m.l4);
    SameRange(r, g, m.l4 + 2, m.l4, m.end);
    SameRange(h, g, q.l3 + 10, q.l3, q.l4);
  }

  lemma ParseErrorWithin(f: seq<u8>, m: Meta)
    requires IcmpWithin(f, m) && ParseError(f, m).Some?
    ensures var q := ParseError(f, m).value; QuoteWithin(f, m, q) && q.inner.protocol == f[q.l3 + 9]
  {
    hide Addr;
    hide Be;
  }

  lemma ParseErrorAgrees(g: seq<u8>, m: Meta, m': Meta)
    requires IcmpWithin(g, m) && m'.protocol == m.protocol && m'.l4 == m.l4 && m'.end == m.end
    ensures IcmpWithin(g, m') && ParseError(g, m') == ParseError(g, m)
  {
  }

  /** The parser reads the rewritten frame as the same ICMP packet between the new hosts. */
  lemma OuterReads(f: seq<u8>, m: Meta, g: seq<u8>, q: Quote)
    requires Parse(f) == Ok(m) && QuoteWithin(f, m, q) && SameButTuple(f, g, m, q)
    ensures Parse(g) == Ok(m.(srcIp := Addr(g, 26), dstIp := Addr(g, 30), ttl := g[22]))
  {
    hide Addr;
    hide Swap;
    SameWords(f, g, 12);
    SameWords(f, g, 16);
    SameWords(f, g, 20);
    hide WordAt;
  }

  /** And the quoted headers as the same kind of packet with the new tuple. */
  lemma InnerReads(f: seq<u8>, m: Meta, g: seq<u8>, q: Quote)
    requires IcmpWithin(f, m) && ParseError(f, m) == Some(q) && SameButTuple(f, g, m, q)
    ensures QuoteWithin(f, m, q) && IcmpWithin(g, m) && ParseError(g, m) == Some(q.(inner := InnerTuple(g, q.l3, q.l4)))
  {
    ParseErrorWithin(f, m);
    hide Addr;
    hide Swap;
    SameWords(f, g, q.l3 + 6);
    hide WordAt;
  }

  /** A translated error means the same error for its new receiver: the parser accepts it between the new hosts,
      the quoted packet is the receiver's own, every checksum is right, and error kind, code and the rest of the
      quote are untouched. */
  lemma ErrorKeepsMeaning(f: seq<u8>, m: Meta, q: Quote, outerSrc: u32, outerDst: u32, inner: FiveTuple,
                          srcMac: seq<u8>, dstMac: seq<u8>)
    requires Parse(f) == Ok(m) && m.protocol == PROTO_ICMP && IcmpWithin(f, m) && ParseError(f, m) == Some(q)
    requires m.ttl > 1 && inner.protocol == q.inner.protocol && |srcMac| == 6 && |dstMac| == 6
    ensures QuoteWithin(f, m, q) && f[22] > 0
    ensures var g := ErrorRewritten(f, m, q, outerSrc, outerDst, inner, srcMac, dstMac);
            var m' := m.(srcIp := outerSrc, dstIp := outerDst, ttl := m.ttl - 1);
            && Parse(g) == Ok(m') && IcmpWithin(g, m') && ParseError(g, m') == Some(q.(inner := inner))
            && Right(g, 24, L3, m.l4) && Right(g, m.l4 + 2, m.l4, m.end) && Right(g, q.l3 + 10, q.l3, q.l4)
            && g[m.l4] == f[m.l4] && g[m.l4 + 1] == f[m.l4 + 1] && g[q.l4 + 4..] == f[q.l4 + 4..]
  {
    hide Parse;
    hide ParseError;
    hide ErrorRewritten;
    hide Right;
    hide Addr;
    hide Be;
    hide SameButTuple;
    hide InnerTuple;
    IcmpReads(f, m);
    ParseErrorWithin(f, m);
    var g := ErrorRewritten(f, m, q, outerSrc, outerDst, inner, srcMac, dstMac);
    ErrorBytes(f, m, q, outerSrc, outerDst, inner, srcMac, dstMac);
    OuterReads(f, m, g, q);
    InnerReads(f, m, g, q);
    RestKept(f, m, g, q);
    InnerIs(g, q.l3, q.l4, inner);
    ParseErrorAgrees(g, m, m.(srcIp := outerSrc, dstIp := outerDst, ttl := m.ttl - 1));
  }

  lemma RestKept(f: seq<u8>, m: Meta, g: seq<u8>, q: Quote)
    requires QuoteWithin(f, m, q) && SameButTuple(f, g, m, q)
    ensures g[m.l4] == f[m.l4] && g[m.l4 + 1] == f[m.l4 + 1] && g[q.l3 + 9] == f[q.l3 + 9] && g[q.l4 + 4..] == f[q.l4 + 4..]
  {
  }

  lemma InnerIs(g: seq<u8>, l3: nat, l4: nat, inner: FiveTuple)
    requires l3 + 20 <= l4 && l4 + 4 <= |g|
    requires Addr(g, l3 + 12) == inner.srcIp && Addr(g, l3 + 16) == inner.dstIp
    requires Be(g, l4) == inner.srcPort && Be(g, l4 + 2) == inner.dstPort && g[l3 + 9] == inner.protocol
    ensures InnerTuple(g, l3, l4) == inner
  {
  }
}
