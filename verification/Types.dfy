/** Value types shared by the whole model: machine words, flow keys and port ranges. */
module Types {

  type u8 = x: int | 0 <= x < 0x100
  type u16 = x: int | 0 <= x < 0x1_0000
  type u32 = x: int | 0 <= x < 0x1_0000_0000

  /** Where 32-bit and 64-bit counters wrap. */
  const WRAP32 := 0x1_0000_0000
  const WRAP64 := 0x1_0000_0000_0000_0000

  datatype Option<+T> = None | Some(value: T)

  /** Connection key. Ports are in host order, addresses as the host reads them from a packet. */
  datatype FiveTuple = FiveTuple(srcIp: u32, dstIp: u32, srcPort: u16, dstPort: u16, protocol: u8) {
    /** The key of a packet travelling the other way. */
    function Reverse(): FiveTuple {
      FiveTuple(dstIp, srcIp, dstPort, srcPort, protocol)
    }
  }

  const ZERO_TUPLE := FiveTuple(0, 0, 0, 0, 0)

  const PROTO_ICMP: u8 := 1
  const PROTO_TCP: u8 := 6
  const PROTO_UDP: u8 := 17

  /** Source ports a local address lends to translated flows. */
  const NAT_PORT_MIN := 10000
  const NAT_PORT_MAX := 60000

  /** Source ports the health checker probes from. */
  const HC_PORT_MIN := 61000
  const HC_PORT_MAX := 61999

  datatype ForwardMode = Nat | Dr

  datatype TcpState = StNone | SynRecv | Established | FinWait | TimeWait | Closed | UdpFlow
}
