/** The rewrite as the code does it: in place on one contiguous buffer with room behind the frame. */
module Mbuf {
  import opened Types
  import opened Checksum
  import opened Options
  import opened Packets
  import opened Rewrite
  import opened Icmp

  class Mbuf {
    /** The first segment; the frame lies in it. */
    const buf: array<u8>
    /** There is no other segment. */
    const single: bool
    var len: nat

    constructor (capacity: nat, single: bool, frame: seq<u8>)
      requires |frame| <= capacity
      ensures Valid() && Frame() == frame && fresh(buf) && Space() == Room(single, capacity)
    {
      this.single := single;
      var b := new u8[capacity](i => if 0 <= i < |frame| then frame[i] else 0);
      buf := b;
      len := |frame|;
    }

    ghost predicate Valid()
      reads this
    {
      len <= buf.Length
    }

    function Space(): Room { Room(single, buf.Length) }

    function Frame(): (f: seq<u8>)
      requires Valid()
      reads this, buf
      ensures |f| == len
    {
      buf[..len]
    }

    method PutWord(i: nat, w: u16)
      requires Valid() && i + 1 < len
      modifies buf
      ensures Valid() && Frame() == SetWord(old(Frame()), i, w)
    {
      buf[i], buf[i + 1] := w % 256, w / 256;
    }

    method PutAddr(i: nat, a: u32)
      requires Valid() && i + 3 < len
      modifies buf
      ensures Valid() && Frame() == SetAddr(old(Frame()), i, a)
    {
      PutWord(i, Low(a));
      PutWord(i + 2, High(a));
    }

    method Strip(m: Meta) returns (changed: bool)
      requires Valid() && Within(Frame(), m) && m.protocol == PROTO_TCP
      modifies buf
      ensures Valid() && Frame() == StripStep(old(Frame()), m)
      ensures changed == HasTimestamp(TcpOptions(old(Frame()), m))
    {
      hide Stripped;
      hide HasTimestamp;
      hide StripStep;
      ghost var f := Frame();
      Window(buf[..], len, m.l4 + 20, m.payload);
      changed := StripTimestamp(buf, m.l4 + 20, m.payload);
      Window(buf[..], len, m.l4 + 20, m.payload);
      StripSplices(f, m, Frame());
    }

    /** Trim padding, open a gap behind the fixed header, fill it, and correct both length fields. */
    method InsertToaOption(m: Meta, ip: u32, port: u16, mtu: u16) returns (ok: bool)
      requires Valid() && Within(Frame(), m) && m.protocol == PROTO_TCP
      requires Be(Frame(), 16) == m.end - L3 && Doff(Frame(), m.l4) == m.payload - m.l4
      modifies this, buf
      ensures Valid() && ok == (single && ToaFits(m, mtu, buf.Length))
      ensures Frame() == if ok then InsertToa(old(Frame()), m, ip, port)
                         else if single && ToaFits(m, mtu, m.end + TOA_LEN) then old(Frame())[..m.end]
                         else old(Frame())
    {
      hide InsertToa;
      hide Be;
      hide Doff;
      ghost var f := Frame();
      var doff, ipLen := Doff(buf[..len], m.l4), Be(buf[..len], 16);
      if doff + TOA_LEN > 60 || ipLen as int + TOA_LEN > mtu || !single {
        return false;
      }
      var frameLen := L3 + ipLen;
      if len > frameLen { len := frameLen; }
      if len + TOA_LEN > buf.Length {
        return false;
      }
      assert Frame() == f[..m.end];
      TrimmedInsert(f, m, ip, port);
      Widen(m, ip, port, doff, ipLen);
      return true;
    }

    method Widen(m: Meta, ip: u32, port: u16, doff: nat, ipLen: u16)
      requires Valid() && len == m.end && Within(Frame(), m) && m.protocol == PROTO_TCP
      requires doff == m.payload - m.l4 && ipLen == m.end - L3
      requires ToaFits(m, 0xFFFF, m.end + TOA_LEN) && m.end + TOA_LEN <= buf.Length
      modifies this, buf
      ensures Valid() && Frame() == InsertToa(old(Frame()), m, ip, port)
    {
      hide ToaOption;
      hide SetWord;
      hide Swap;
      ghost var f := Frame();
      Splice(m.l4 + 20, ip, port);
      assert f[m.l4 + 20..] == f[m.l4 + 20..m.end];
      SetLengths(m.l4, doff + TOA_LEN, ipLen + TOA_LEN);
    }

    method SetLengths(l4: nat, doff: nat, total: u16)
      requires Valid() && L3 + 20 <= l4 && l4 + 12 < len && doff <= 60 && doff % 4 == 0
      modifies buf
      ensures Valid() && 0 <= doff / 4 * 16 + old(Frame())[l4 + 12] % 16 < 256
      ensures Frame() == SetWord(old(Frame())[l4 + 12 := doff / 4 * 16 + old(Frame())[l4 + 12] % 16], 16, Swap(total))
    {
      ghost var f := Frame();
      NewOffset(doff, buf[l4 + 12]);
      var b := doff / 4 * 16 + buf[l4 + 12] % 16;
      buf[l4 + 12] := b;
      assert Frame() == f[l4 + 12 := b];
      PutWord(16, Swap(total));
    }

    method Splice(p: nat, ip: u32, port: u16)
      requires Valid() && p <= len && len + TOA_LEN <= buf.Length
      modifies this, buf
      ensures Valid() && Frame() == old(Frame())[..p] + ToaOption(ip, port) + old(Frame())[p..]
    {
      hide ToaOption;
      ghost var f := Frame();
      len := len + TOA_LEN;
      ghost var g := Frame();
      assert g[..len - TOA_LEN] == f;
      OpenGap(p, len - TOA_LEN);
      assert Frame()[..p] == f[..p] && Frame()[p + TOA_LEN..] == f[p..];
      FillGap(p, ip, port);
    }

    method OpenGap(p: nat, end: nat)
      requires Valid() && p <= end && len == end + TOA_LEN
      modifies buf
      ensures Valid() && Frame()[..p] == old(Frame())[..p] && Frame()[p + TOA_LEN..] == old(Frame())[p..end]
    {
      forall i | p + TOA_LEN <= i < end + TOA_LEN { buf[i] := buf[i - TOA_LEN]; }
    }

    method FillGap(p: nat, ip: u32, port: u16)
      requires Valid() && p + TOA_LEN <= len
      modifies buf
      ensures Valid() && Frame() == old(Frame())[..p] + ToaOption(ip, port) + old(Frame())[p + TOA_LEN..]
    {
      ghost var f := Frame();
      buf[p], buf[p + 1] := OPT_TOA, TOA_LEN;
      PutWord(p + 2, port);
      PutAddr(p + 4, ip);
      ToaBytes(f, p, ip, port, Frame());
    }

    method SetIp(l4: nat, src: u32, dst: u32)
      requires Valid() && L3 + 20 <= l4 <= len && l4 - L3 <= 0xFFFF && Frame()[22] > 0
      modifies buf
      ensures Valid() && Frame() == SetIpHeader(old(Frame()), l4 - L3, src, dst)
    {
      hide SetWord;
      hide SetAddr;
      hide Addr;
      hide WordAt;
      hide Sealed;
      hide WordSum;
      PutAddr(26, src);
      PutAddr(30, dst);
      ghost var f := Frame();
      buf[22] := buf[22] - 1;
      assert Frame() == f[22 := f[22] - 1];
      PutWord(24, 0);
      var c := Calculate(buf[..len][L3..l4]);
      PutWord(24, c);
    }

    /** The new TCP field once the ports are in: recomputed over the new segment, or updated step by step. `f` is the
        frame before. */
    method TcpField(ghost f: seq<u8>, m: Meta, oldSrc: u32, oldDst: u32, oldSp: u16, oldDp: u16, rw: NatRewrite,
                    full: bool) returns (c: u16)
      requires Valid() && Within(f, m) && m.protocol == PROTO_TCP && oldSrc == m.srcIp && oldDst == m.dstIp
      requires oldSp == WordAt(f, m.l4) && oldDp == WordAt(f, m.l4 + 2)
      requires Frame() == SetWord(SetWord(f, m.l4, rw.srcPort), m.l4 + 2, rw.dstPort)
      ensures c == NewField(f, m, rw, full)
    {
      hide SetWord;
      hide FullTcp;
      hide Updated;
      hide WordAt;
      SegmentWords(f, m);
      SegmentPorts(f, m, rw.srcPort, rw.dstPort);
      if full {
        c := RecalculateTcp(rw.srcIp, rw.dstIp, buf[..len][m.l4..m.end]);
      } else {
        c := WordAt(buf[..len], m.l4 + TCP_CHECKSUM);
        c := UpdatedIp(c, oldSrc, rw.srcIp);
        c := UpdatedIp(c, oldDst, rw.dstIp);
        c := Updated(c, oldSp, rw.srcPort);
        c := Updated(c, oldDp, rw.dstPort);
      }
    }

    /** The new UDP field: an absent checksum stays absent. */
    method UdpField(ghost f: seq<u8>, m: Meta, oldSrc: u32, oldDst: u32, oldSp: u16, oldDp: u16, rw: NatRewrite,
                    ghost full: bool) returns (c: u16)
      requires Valid() && Within(f, m) && m.protocol == PROTO_UDP && oldSrc == m.srcIp && oldDst == m.dstIp
      requires oldSp == WordAt(f, m.l4) && oldDp == WordAt(f, m.l4 + 2)
      requires Frame() == SetWord(SetWord(f, m.l4, rw.srcPort), m.l4 + 2, rw.dstPort)
      ensures c == NewField(f, m, rw, full)
      ensures c == 0 ==> WordAt(Frame(), m.l4 + UDP_CHECKSUM) == 0
    {
      hide SetWord;
      hide Updated;
      hide UpdatedIp;
      hide WordAt;
      SegmentWords(f, m);
      SegmentPorts(f, m, rw.srcPort, rw.dstPort);
      c := WordAt(buf[..len], m.l4 + UDP_CHECKSUM);
      if c != 0 {
        c := NonZero(c, UpdatedIp(c, oldSrc, rw.srcIp));
        c := NonZero(c, UpdatedIp(c, oldDst, rw.dstIp));
        c := NonZero(c, Updated(c, oldSp, rw.srcPort));
        c := NonZero(c, Updated(c, oldDp, rw.dstPort));
      }
    }

    /** Ports first, then the field. */
    method SetTransport(m: Meta, oldSrc: u32, oldDst: u32, rw: NatRewrite, full: bool)
      requires Valid() && Within(Frame(), m) && oldSrc == m.srcIp && oldDst == m.dstIp
      modifies buf
      ensures Valid() && Frame() == SetPorts(old(Frame()), m.l4, rw.srcPort, rw.dstPort, ChecksumField(m.protocol),
                                             NewField(old(Frame()), m, rw, full))
    {
      hide SetWord;
      hide NewField;
      hide WordAt;
      ghost var f := Frame();
      var oldSp, oldDp := WordAt(buf[..len], m.l4), WordAt(buf[..len], m.l4 + 2);
      PutWord(m.l4, rw.srcPort);
      PutWord(m.l4 + 2, rw.dstPort);
      var c;
      if m.protocol == PROTO_TCP {
        c := TcpField(f, m, oldSrc, oldDst, oldSp, oldDp, rw, full);
      } else {
        c := UdpField(f, m, oldSrc, oldDst, oldSp, oldDp, rw, full);
        if c == 0 { OwnWord(Frame(), m.l4 + UDP_CHECKSUM); }
      }
      if m.protocol == PROTO_TCP || c != 0 {
        PutWord(m.l4 + ChecksumField(m.protocol), c);
      }
    }

    method PutMacs(src: seq<u8>, dst: seq<u8>)
      requires Valid() && len >= 12 && |src| == 6 && |dst| == 6
      modifies buf
      ensures Valid() && Frame() == SetMacs(old(Frame()), src, dst)
    {
      forall i | 0 <= i < 12 { buf[i] := if i < 6 then dst[i] else src[i - 6]; }
    }

    method ChangeOptions(m: Meta, o: NatOptions) returns (m': Meta, tsStripped: bool, toaAdded: bool, toaNoRoom: bool)
      requires Valid() && Reads(Frame(), m) && Within(Frame(), m) && m.protocol == PROTO_TCP
      modifies this, buf
      ensures Valid() && (Frame(), m') == OptionStep(old(Frame()), m, o, Space())
      ensures tsStripped == (Strips(m, o) && HasTimestamp(TcpOptions(old(Frame()), m)))
      ensures toaAdded == AddsToa(m, o, Space()) && toaNoRoom == (o.addToa && !toaAdded)
    {
      hide StripStep;
      hide InsertToa;
      hide HasTimestamp;
      hide Parse;
      hide Addr;
      hide WordAt;
      m', tsStripped, toaAdded, toaNoRoom := m, false, false, false;
      ghost var f := Frame();
      HeaderFacts(f, m);
      if o.stripTs && SynSet(buf[m.l4 + 13]) {
        StripKeeps(f, m);
        tsStripped := Strip(m);
      }
      if o.addToa {
        HeaderFacts(Frame(), m);
        toaAdded := InsertToaOption(m, o.toaIp, o.toaPort, o.mtu);
        if toaAdded { m' := Longer(m); } else { toaNoRoom := true; }
      }
    }

    /** Addresses and TTL, ports and transport checksum, MACs. */
    method TranslateFrame(m: Meta, rw: NatRewrite, full: bool)
      requires Valid() && Within(Frame(), m) && Frame()[22] > 0 && rw.Valid()
      requires m.srcIp == Addr(Frame(), 26) && m.dstIp == Addr(Frame(), 30)
      modifies buf
      ensures Valid() && Frame() == Translate(old(Frame()), m, rw, full)
    {
      hide SetIpHeader;
      hide SetPorts;
      hide SetMacs;
      hide Addr;
      hide WordAt;
      ghost var f := Frame();
      var oldSrc, oldDst := Addr(buf[..len], 26), Addr(buf[..len], 30);
      SetIp(m.l4, rw.srcIp, rw.dstIp);
      assert Segment(Frame(), m) == Segment(f, m);
      SetTransport(m, oldSrc, oldDst, rw, full);
      PutMacs(rw.srcMac, rw.dstMac);
    }

    /** nat_rewrite: the buffer ends up with exactly the bytes of the specification, or is left alone when the
        packet may not take another hop. */
    method Rewrite(m: Meta, rw: NatRewrite, o: NatOptions)
      returns (ok: bool, m': Meta, tsStripped: bool, toaAdded: bool, toaNoRoom: bool)
      requires Valid() && Reads(Frame(), m) && Within(Frame(), m) && Frame()[22] == m.ttl && rw.Valid()
      modifies this, buf
      ensures Valid()
      ensures match NatRewritten(old(Frame()), m, rw, o, Space())
              case TtlExceeded => !ok && Frame() == old(Frame()) && m' == m
              case Done(g, gm, ts, toa, noRoom) =>
                ok && Frame() == g && m' == gm && tsStripped == ts && toaAdded == toa && toaNoRoom == noRoom
    {
      hide OptionStep;
      hide Parse;
      hide Translate;
      hide HasTimestamp;
      hide TcpOptions;
      hide Addr;
      hide WordAt;
      m', tsStripped, toaAdded, toaNoRoom := m, false, false, false;
      if buf[22] <= 1 {
        return false, m, false, false, false;
      }
      ghost var f := Frame();
      OptionStepKeeps(f, m, o, Space());
      OptionStepWithin(f, m, o, Space());
      if m.protocol == PROTO_TCP {
        m', tsStripped, toaAdded, toaNoRoom := ChangeOptions(m, o);
      } else {
        NoOptions(f, m, o, Space());
      }
      HeaderFacts(Frame(), m');
      TranslateFrame(m', rw, tsStripped || toaAdded);
      return true, m', tsStripped, toaAdded, toaNoRoom;
    }

    /** Store a fresh checksum over a range. */
    method Reseal(at: nat, lo: nat, hi: nat)
      requires Valid() && lo <= at && at + 2 <= hi <= len && hi - lo <= 0xFFFF
      modifies buf
      ensures Valid() && Frame() == Resealed(old(Frame()), at, lo, hi)
    {
      hide SetWord;
      hide WordAt;
      hide Sealed;
      hide WordSum;
      PutWord(at, 0);
      var c := Calculate(buf[lo..hi]);
      assert buf[lo..hi] == Frame()[lo..hi];
      PutWord(at, c);
    }

    /** nat_rewrite_icmp_error: quoted headers first, then the outer ones. */
    method RewriteError(m: Meta, q: Quote, outerSrc: u32, outerDst: u32, inner: FiveTuple, srcMac: seq<u8>, dstMac: seq<u8>)
      returns (ok: bool)
      requires Valid() && QuoteWithin(Frame(), m, q) && |srcMac| == 6 && |dstMac| == 6
      modifies buf
      ensures Valid() && ok == (old(Frame())[22] > 1)
      ensures Frame() == if ok then ErrorRewritten(old(Frame()), m, q, outerSrc, outerDst, inner, srcMac, dstMac)
                         else old(Frame())
    {
      hide SetWord;
      hide SetAddr;
      hide WordAt;
      hide Addr;
      hide Swap;
      hide SetIpHeader;
      hide Resealed;
      hide SetMacs;
      if buf[22] <= 1 {
        return false;
      }
      QuoteBytes(Frame(), q, inner);
      PutAddr(q.l3 + 12, inner.srcIp);
      PutAddr(q.l3 + 16, inner.dstIp);
      Reseal(q.l3 + 10, q.l3, q.l4);
      PutWord(q.l4, Swap(inner.srcPort));
      PutWord(q.l4 + 2, Swap(inner.dstPort));
      SetIp(m.l4, outerSrc, outerDst);
      Reseal(m.l4 + 2, m.l4, m.end);
      PutMacs(srcMac, dstMac);
      return true;
    }
  }

  /** Padding behind the packet plays no part. */
  lemma TrimmedInsert(f: seq<u8>, m: Meta, ip: u32, port: u16)
    requires Within(f, m) && m.protocol == PROTO_TCP && ToaFits(m, 0xFFFF, m.end + TOA_LEN)
    ensures Within(f[..m.end], m) && InsertToa(f[..m.end], m, ip, port) == InsertToa(f, m, ip, port)
  {
    hide ToaOption;
    hide SetWord;
    hide Swap;
    var g := f[..m.end];
    assert g[..m.l4 + 20] == f[..m.l4 + 20] && g[m.l4 + 20..m.end] == f[m.l4 + 20..m.end];
  }

  lemma Window(s: seq<u8>, n: nat, lo: nat, hi: nat)
    requires lo <= hi <= n <= |s|
    ensures s[..n][lo..hi] == s[lo..hi]
  {
  }

  lemma OwnWord(f: seq<u8>, i: nat)
    requires i + 1 < |f|
    ensures SetWord(f, i, WordAt(f, i)) == f
  {
  }

  lemma SegmentWords(f: seq<u8>, m: Meta)
    requires Within(f, m)
    ensures var seg, field := Segment(f, m), ChecksumField(m.protocol);
            && WordAt(seg, 0) == WordAt(f, m.l4) && WordAt(seg, 2) == WordAt(f, m.l4 + 2)
            && WordAt(seg, field) == WordAt(f, m.l4 + field)
  {
  }

  lemma SegmentPorts(f: seq<u8>, m: Meta, sp: u16, dp: u16)
    requires Within(f, m)
    ensures var g, field := SetWord(SetWord(f, m.l4, sp), m.l4 + 2, dp), ChecksumField(m.protocol);
            Segment(g, m) == WithPorts(Segment(f, m), sp, dp) && WordAt(g, m.l4 + field) == WordAt(f, m.l4 + field)
  {
  }

  lemma StripSplices(f: seq<u8>, m: Meta, g: seq<u8>)
    requires Within(f, m) && m.protocol == PROTO_TCP && |g| == |f|
    requires g[m.l4 + 20..m.payload] == Stripped(TcpOptions(f, m))
    requires forall i: nat :: i < |f| && !(m.l4 + 20 <= i < m.payload) ==> g[i] == f[i]
    ensures g == StripStep(f, m)
  {
    hide Stripped;
    assert g == g[..m.l4 + 20] + g[m.l4 + 20..m.payload] + g[m.payload..];
  }

  lemma ToaBytes(f: seq<u8>, p: nat, ip: u32, port: u16, g: seq<u8>)
    requires p + TOA_LEN <= |f|
    requires g == SetAddr(SetWord(f[p := OPT_TOA][p + 1 := TOA_LEN], p + 2, port), p + 4, ip)
    ensures g == f[..p] + ToaOption(ip, port) + f[p + TOA_LEN..]
  {
  }
}
