/** The layers put together: what one host's TCP or UDP hands down comes up unchanged at the other host. */
module Stack {
  import opened Words
  import opened ExpiringMap
  import opened TcpTrace
  import opened IpPackets
  import opened IpDelivery
  import Ethernet
  import TcpSegment
  import Udp

  /** The frame that carries `packet` from `src` to `dst` when it fits one fragment. */
  function FrameOf(dstMac: Mac, srcMac: Mac, id: U16, protocol: Byte, src: Ip, dst: Ip, packet: seq<Byte>): seq<Byte>
  {
    Ethernet.Frame(dstMac, srcMac, Ethernet.PROTOCOL_IP, PacketOf(Fragment(0, false, packet), id, protocol, src, dst))
  }

  /** What reaches the transport protocol of the host `local` from a frame: protocol, source and bytes. */
  function Arriving(frame: seq<Byte>, local: Ip): Verdict
  {
    match Ethernet.Split(frame)
    case None => Dropped
    case Some(r) => if r.protocol == Ethernet.PROTOCOL_IP then IpAccept(r.payload, local) else Dropped
  }

  lemma FrameArrives(dstMac: Mac, srcMac: Mac, id: U16, protocol: Byte, src: Ip, dst: Ip, packet: seq<Byte>)
    requires |packet| <= FRAG_LEN && protocol in {ICMP, UDP, TCP}
    ensures Arriving(FrameOf(dstMac, srcMac, id, protocol, src, dst, packet), dst) == Up(protocol, src, packet)
  {
    hide Ethernet.Frame, PacketOf, IpAccept, Ethernet.Split;
    IpOverEthernet(dstMac, srcMac, id, protocol, src, dst, packet);
  }

  /** A TCP segment of up to 1460 bytes, from `tcp_out` through IP and Ethernet to `tcp_in` of the peer: the same
  ports, numbers, flags and payload. */
  lemma SegmentArrives(dstMac: Mac, srcMac: Mac, id: U16, src: Ip, dst: Ip, srcPort: U16, dstPort: U16, x: Segment)
    requires |x.data| <= FRAG_LEN - TcpSegment.HDR_LEN
    ensures var frame := FrameOf(dstMac, srcMac, id, TCP, src, dst, TcpSegment.Encode(src, dst, srcPort, dstPort, x));
      var v := Arriving(frame, dst);
      v.Up? && v.protocol == TCP && v.src == src
      && TcpSegment.Decode(v.payload, v.src, dst) == Some(TcpSegment.Parsed(srcPort, dstPort, x))
  {
    hide TcpSegment.Decode, FrameOf, Arriving;
    FrameArrives(dstMac, srcMac, id, TCP, src, dst, TcpSegment.Encode(src, dst, srcPort, dstPort, x));
    TcpSegment.RoundTrip(src, dst, srcPort, dstPort, x);
  }

  /** A UDP datagram of up to 1472 bytes of payload, from `udp_out` to the handler of its port. */
  lemma DatagramArrives(dstMac: Mac, srcMac: Mac, id: U16, src: Ip, dst: Ip, srcPort: U16, dstPort: U16,
                        payload: seq<Byte>, handlers: ExpMap<U16, Udp.Handler>, now: nat)
    requires |payload| <= FRAG_LEN - Udp.HDR_LEN
    ensures var frame := FrameOf(dstMac, srcMac, id, UDP, src, dst, Udp.Datagram(src, dst, srcPort, dstPort, payload));
      var v := Arriving(frame, dst);
      v.Up? && v.protocol == UDP && v.src == src
      && Udp.UdpAccept(v.payload, v.src, dst, handlers, now)
         == match Lookup(handlers, dstPort, now)
            case None => Udp.PortUnreachable(dstPort)
            case Some(h) => Udp.Deliver(h, dstPort, payload)
  {
    hide Udp.UdpAccept, FrameOf, Arriving;
    FrameArrives(dstMac, srcMac, id, UDP, src, dst, Udp.Datagram(src, dst, srcPort, dstPort, payload));
    Udp.DatagramAccepted(src, dst, srcPort, dstPort, payload, handlers, now);
  }
}
