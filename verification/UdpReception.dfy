/** Which bytes `udp_in` takes for a datagram and what it does with them, as RFC 768 lays them out. */
module UdpReception {
  import opened Words
  import opened Checksum
  import opened ExpiringMap
  import opened Udp
  import opened UdpZero

  /** The complement of the sum over pseudo header and datagram, the checksum field blanked. */
  function Expected(b: seq<Byte>, src: Ip, dst: Ip): U16
    requires |b| >= HDR_LEN
  {
    Complement(Canon(SumBe(src + dst + [0, 17] + Be16(|b| % 0x1_0000)) + SumBe(b[..6] + [0, 0] + b[8..])))
  }

  /** The verdict on every datagram: too short, or with a checksum that is there and wrong, it is dropped; else its
  port decides. The length field is not looked at. */
  lemma VerdictExact(b: seq<Byte>, src: Ip, local: Ip, handlers: ExpMap<U16, Handler>, now: nat)
    ensures UdpAccept(b, src, local, handlers, now) ==
      if |b| < 8 || (WordAt(b, 3) != 0 && WordAt(b, 3) != Expected(b, src, local)) then Dropped
      else match Lookup(handlers, WordAt(b, 1), now)
        case None => PortUnreachable(WordAt(b, 1))
        case Some(h) => Deliver(h, WordAt(b, 1), b[8..])
  {
    hide Canon, SumBe, Swap16, Complement, UdpCheck;
    if |b| >= 8 {
      SwapDigits(Load16(b, 2), b[3], b[2]);
      CheckRead(b, src, local);
    }
  }

  lemma CheckRead(b: seq<Byte>, src: Ip, dst: Ip)
    requires |b| >= HDR_LEN
    ensures Load16(b, 6) == 0 <==> WordAt(b, 3) == 0
    ensures Load16(b, 6) == UdpCheck(Splice(b, 6, [0, 0]), src, dst) <==> WordAt(b, 3) == Expected(b, src, dst)
  {
    hide Canon, SumBe, Swap16, UdpCheck;
    var blank := b[..6] + [0, 0] + b[8..];
    assert Splice(b, 6, [0, 0]) == blank;
    assert Pseudo(src, dst, |b|) == src + dst + [0, 17] + Be16(|b| % 0x1_0000);
    CheckFolds(blank, src, dst);
    SwapDigits(Load16(b, 6), b[7], b[6]);
    StoreSwapped16(Load16(b, 6));
    StoreSwapped16(UdpCheck(blank, src, dst));
  }

  /** The datagram that `udp_out` builds, field by field. */
  lemma DatagramFields(src: Ip, dst: Ip, srcPort: U16, dstPort: U16, payload: seq<Byte>)
    ensures var d := Datagram(src, dst, srcPort, dstPort, payload);
      && |d| == 8 + |payload| && d[8..] == payload
      && WordAt(d, 0) == srcPort && WordAt(d, 1) == dstPort && WordAt(d, 2) == |d| % 0x1_0000
      && WordAt(d, 3) == Expected(d, src, dst)
  {
    hide Canon, SumBe, Complement, UdpCheck, Swap16;
    var len := HDR_LEN + |payload|;
    var check := UdpCheck(UdpHeader(srcPort, dstPort, len, 0) + payload, src, dst);
    var d := Datagram(src, dst, srcPort, dstPort, payload);
    assert d == UdpHeader(srcPort, dstPort, len, check) + payload;
    CheckField(srcPort, dstPort, len, check, payload);
    CheckRead(d, src, dst);
  }
}
