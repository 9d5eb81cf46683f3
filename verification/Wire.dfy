/** Tuples and bytes together: what the handlers decide is what the next hop reads on the wire. */
module Wire {
  import opened Types
  import opened Checksum
  import opened Options
  import opened Packets
  import opened Rewrite
  import opened TableOps
  import opened Handlers
  import opened Ownership
  import Cluster
  import Dispatch

  /** The rewrite a handler orders for an outgoing tuple; fields are words as they lie in memory. */
  function RewriteFor(out: FiveTuple, srcMac: seq<u8>, dstMac: seq<u8>): NatRewrite {
    NatRewrite(out.srcIp, out.dstIp, Swap(out.srcPort), Swap(out.dstPort), srcMac, dstMac)
  }

  /** The frame leaves rewritten: accepted, carrying exactly the tuple `out`, with the payload it came with. */
  ghost predicate LeavesAs(f: seq<u8>, m: Meta, out: FiveTuple, srcMac: seq<u8>, dstMac: seq<u8>, o: NatOptions, room: Room) {
    && Within(f, m) && f[22] == m.ttl && |srcMac| == 6 && |dstMac| == 6
    && var rw := RewriteFor(out, srcMac, dstMac);
       var r := NatRewritten(f, m, rw, o, room);
       && r.Done? && r.meta.ttl > 0 && Reads(r.frame, Readdressed(r.meta, rw))
       && Dispatch.TupleOf(Readdressed(r.meta, rw)) == out
       && Within(r.frame, r.meta) && Payload(r.frame, r.meta) == Payload(f, m)
  }

  /** Every accepted frame that may take another hop leaves as whatever tuple is ordered. */
  lemma FrameCarriesTuple(f: seq<u8>, m: Meta, out: FiveTuple, srcMac: seq<u8>, dstMac: seq<u8>, o: NatOptions, room: Room)
    requires Reads(f, m) && m.ttl > 1 && out.protocol == m.protocol && |srcMac| == 6 && |dstMac| == 6
    ensures LeavesAs(f, m, out, srcMac, dstMac, o, room)
  {
    hide Parse;
    hide NatRewritten;
    hide Addr;
    hide Decode;
    RewriteKeepsMeaning(f, m, RewriteFor(out, srcMac, dstMac), o, room);
    SwapTwice(out.srcPort);
    SwapTwice(out.dstPort);
    hide Swap;
  }

  /** A request and its reply on the wire. The request frame of a flow leaves as an accepted frame between a local
      address and the real server; any frame that answers it, handled by the worker that holds the flow, leaves as an
      accepted frame that answers the client, with the payload the server sent. */
  lemma RequestAndReply(fab: Fabric, snap: Snapshot, to: Timeouts, c: Cluster.Cluster, w: nat, i: nat, out: FiveTuple,
                        f: seq<u8>, m: Meta, reply: seq<u8>, rm: Meta, srcMac: seq<u8>, dstMac: seq<u8>,
                        o: NatOptions, ro: NatOptions, room: Room, flags: TcpFlags, redirected: bool, env: Env)
    requires Cluster.Inv(fab, c) && fab.Admits(snap) && fab.net.mode == Nat && w < |c.ws| && i in Flows(c.ws[w].t)
    requires CarriedBy(snap, Flows(c.ws[w].t)[i], Flows(c.ws[w].t)[i].client, out)
    requires Reads(f, m) && m.ttl > 1 && Dispatch.TupleOf(m) == Flows(c.ws[w].t)[i].client
    requires Reads(reply, rm) && rm.ttl > 1 && Dispatch.TupleOf(rm) == out.Reverse()
    requires |srcMac| == 6 && |dstMac| == 6 && env.neighbour && env.ttlOk
    ensures LeavesAs(f, m, out, srcMac, dstMac, o, room)
    ensures Cluster.WorkerInv(fab, w, c.ws[w])
    ensures HandleTransport(fab, snap, w, c.ws[w].t, c.ws[w].now, to, Dispatch.TupleOf(rm), flags, redirected, env).verdict
              == Send(Flows(c.ws[w].t)[i].client.Reverse())
    ensures LeavesAs(reply, rm, Flows(c.ws[w].t)[i].client.Reverse(), srcMac, dstMac, ro, room)
  {
    var fl := Flows(c.ws[w].t)[i];
    Cluster.ReplyReachesClient(fab, snap, to, c, w, i, out, w, flags, redirected, env);
    SameProtocol(fab, w, c, i, out);
    assert Dispatch.TupleOf(m).protocol == m.protocol && Dispatch.TupleOf(rm).protocol == rm.protocol;
    hide *;
    FrameCarriesTuple(f, m, out, srcMac, dstMac, o, room);
    FrameCarriesTuple(reply, rm, fl.client.Reverse(), srcMac, dstMac, ro, room);
  }

  lemma SameProtocol(fab: Fabric, w: nat, c: Cluster.Cluster, i: nat, out: FiveTuple)
    requires Cluster.Inv(fab, c) && w < |c.ws| && i in Flows(c.ws[w].t) && Flows(c.ws[w].t)[i].server == Some(out.Reverse())
    ensures out.protocol == Flows(c.ws[w].t)[i].client.protocol
  {
    assert Cluster.WorkerInv(fab, w, c.ws[w]);
    assert FlowOk(fab, w, Flows(c.ws[w].t)[i]);
  }

  // ---------------------------------------------------------------------------------------------
  // Telling the server who the client is
  // ---------------------------------------------------------------------------------------------

  /** The flags of a TCP header (RFC 9293, section 3.1). */
  function FlagsOf(flags: u8): TcpFlags {
    TcpFlags(flags % 2 == 1, flags / 2 % 2 == 1, flags / 4 % 2 == 1, flags / 16 % 2 == 1)
  }

  datatype WireConf = WireConf(stripTimestamps: bool, mtu: u16)

  /** The option changes ordered for a client's packet: its address is told in every segment without SYN and RST for as
      long as the flow says so. */
  function OptionsToServer(conf: WireConf, fl: Flow, m: Meta): NatOptions {
    var f := FlagsOf(m.flags);
    NatOptions(m.protocol == PROTO_TCP && conf.stripTimestamps, fl.app.toaPending && !f.syn && !f.rst,
               fl.client.srcIp, Swap(fl.client.srcPort), conf.mtu)
  }

  /** The server of a flow whose client is still to be told reads the client's address and port in the first option of
      every segment without SYN and RST, as far as headers, link and buffer leave room for it. */
  lemma ServerLearnsClient(conf: WireConf, fl: Flow, f: seq<u8>, m: Meta, out: FiveTuple, srcMac: seq<u8>, dstMac: seq<u8>,
                           room: Room)
    requires Reads(f, m) && m.ttl > 1 && m.protocol == PROTO_TCP && |srcMac| == 6 && |dstMac| == 6
    requires fl.app.toaPending && m.flags / 2 % 2 == 0 && m.flags / 4 % 2 == 0
    requires room.single && m.payload - m.l4 <= 52 && m.end - L3 + 8 <= conf.mtu && m.end + 8 <= room.capacity
    ensures Within(f, m) && f[22] == m.ttl
    ensures var r := NatRewritten(f, m, RewriteFor(out, srcMac, dstMac), OptionsToServer(conf, fl, m), room);
            && r.Done? && Within(r.frame, r.meta) && r.meta.protocol == PROTO_TCP
            && var options := Decode(TcpOptions(r.frame, r.meta));
               && |options| > 0 && options[0].kind == 254 && |options[0].body| == 6
               && Be(options[0].body, 0) == fl.client.srcPort && Addr(options[0].body, 2) == fl.client.srcIp
               && options[1..] == Decode(TcpOptions(f, m))
  {
    hide Parse;
    hide NatRewritten;
    hide Decode;
    hide Be;
    hide Addr;
    hide WordAt;
    hide ToaOption;
    hide AddsToa;
    var o := OptionsToServer(conf, fl, m);
    RewriteKeepsMeaning(f, m, RewriteFor(out, srcMac, dstMac), o, room);
    ToaBody(o.toaIp, fl.client.srcPort);
  }

  lemma ToaBody(ip: u32, port: u16)
    ensures var b := ToaOption(ip, Swap(port))[2..]; |b| == 6 && Be(b, 0) == port && Addr(b, 2) == ip
  {
    SwapTwice(port);
    var t := ToaOption(ip, Swap(port));
    hide ToaOption;
    hide Swap;
    assert WordAt(t[2..], 0) == WordAt(t, 2) && Addr(t[2..], 2) == Addr(t, 4);
  }
}
