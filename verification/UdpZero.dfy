/** The zero checksum of UDP. RFC 768 sends a computed zero as all ones, because zero stands for no checksum;
src/udp.c sends it as zero. These are the datagrams concerned and what it means for them. */
module UdpZero {
  import opened Words
  import opened Checksum
  import opened ExpiringMap
  import opened Udp

  function FullSum(b: seq<Byte>, src: Ip, dst: Ip): nat { SumBe(Pseudo(src, dst, |b|)) + SumBe(b) }

  lemma CheckFolds(b: seq<Byte>, src: Ip, dst: Ip)
    ensures Swap16(UdpCheck(b, src, dst)) == Complement(Canon(FullSum(b, src, dst)))
  {
    hide UdpCheck, SumBe, Pseudo, Canon;
    UdpCheckOnWire(b, src, dst);
    var w := Complement(Canon(FullSum(b, src, dst)));
    StoreSwapped16(UdpCheck(b, src, dst));
    StoreSwapped16(w);
  }

  /** The checksum computed for a datagram is zero exactly when its sum folds to 65535. */
  lemma ZeroIffFullSum(b: seq<Byte>, src: Ip, dst: Ip)
    ensures UdpCheck(b, src, dst) == 0 <==> Canon(FullSum(b, src, dst)) == 65535
  {
    hide UdpCheck, FullSum, Canon;
    CheckFolds(b, src, dst);
  }

  function Blank(srcPort: U16, dstPort: U16, payload: seq<Byte>): seq<Byte>
  {
    UdpHeader(srcPort, dstPort, HDR_LEN + |payload|, 0) + payload
  }

  lemma SumOfWord(w: U16)
    ensures SumBe(Be16(w)) == w
  {
  }

  /** It happens for all addresses and ports: some payload of two bytes completes the sum. */
  lemma ZeroHappens(src: Ip, dst: Ip, srcPort: U16, dstPort: U16) returns (payload: seq<Byte>)
    ensures |payload| == 2 && UdpCheck(Blank(srcPort, dstPort, payload), src, dst) == 0
  {
    hide UdpCheck, Pseudo, Canon, UdpHeader, SumBe, Be16;
    var h := UdpHeader(srcPort, dstPort, HDR_LEN + 2, 0);
    var n := SumBe(Pseudo(src, dst, HDR_LEN + 2)) + SumBe(h);
    payload := Be16(Complement(Canon(n)));
    SumBeAppend(h, payload);
    SumOfWord(Complement(Canon(n)));
    Verifies(n);
    ZeroIffFullSum(h + payload, src, dst);
  }

  /** The datagram with its payload damaged on the way. */
  function Damaged(src: Ip, dst: Ip, srcPort: U16, dstPort: U16, payload: seq<Byte>, other: seq<Byte>): seq<Byte>
  {
    Datagram(src, dst, srcPort, dstPort, payload)[..HDR_LEN] + other
  }

  /** A datagram whose checksum came out as zero is not protected: any damage to its payload is accepted. Any
  other datagram is protected against some damage at least, of its first byte. */
  lemma UnprotectedIffZero(src: Ip, dst: Ip, srcPort: U16, dstPort: U16, payload: seq<Byte>,
      handlers: ExpMap<U16, Handler>, now: nat)
    requires |payload| > 0
    ensures (forall other: seq<Byte> :: |other| == |payload| ==>
        UdpAccept(Damaged(src, dst, srcPort, dstPort, payload, other), src, dst, handlers, now) != Dropped)
      <==> UdpCheck(Blank(srcPort, dstPort, payload), src, dst) == 0
  {
    hide UdpCheck;
    var check := UdpCheck(Blank(srcPort, dstPort, payload), src, dst);
    forall other: seq<Byte> | |other| == |payload|
      ensures UdpAccept(Damaged(src, dst, srcPort, dstPort, payload, other), src, dst, handlers, now) != Dropped
          <==> (check == 0 || check == UdpCheck(Blank(srcPort, dstPort, other), src, dst))
    {
      DamageAccepted(src, dst, srcPort, dstPort, payload, other, handlers, now);
    }
    if check != 0 {
      var other := payload[0 := if payload[0] == 0 then 1 else 0];
      FirstByteMatters(src, dst, srcPort, dstPort, payload, other);
      assert UdpAccept(Damaged(src, dst, srcPort, dstPort, payload, other), src, dst, handlers, now) == Dropped;
    }
  }

  lemma CheckField(srcPort: U16, dstPort: U16, len: nat, check: U16, rest: seq<Byte>)
    ensures var d := UdpHeader(srcPort, dstPort, len, check) + rest;
      Load16(d, 6) == check && Splice(d, 6, [0, 0]) == UdpHeader(srcPort, dstPort, len, 0) + rest
  {
    hide Be16;
    var d := UdpHeader(srcPort, dstPort, len, check) + rest;
    assert d[6] == Store16(check)[0] && d[7] == Store16(check)[1];
    assert Load16(d, 6) == Load16(Store16(check), 0);
    StoreSwapped16(check);
  }

  lemma DamageAccepted(src: Ip, dst: Ip, srcPort: U16, dstPort: U16, payload: seq<Byte>, other: seq<Byte>,
      handlers: ExpMap<U16, Handler>, now: nat)
    requires |other| == |payload|
    ensures var check := UdpCheck(Blank(srcPort, dstPort, payload), src, dst);
      var accepted := check == 0 || check == UdpCheck(Blank(srcPort, dstPort, other), src, dst);
      UdpAccept(Damaged(src, dst, srcPort, dstPort, payload, other), src, dst, handlers, now) != Dropped <==> accepted
  {
    hide UdpCheck, Swap16, Load16, UdpHeader, Splice;
    var len := HDR_LEN + |payload|;
    var check := UdpCheck(Blank(srcPort, dstPort, payload), src, dst);
    var d := Damaged(src, dst, srcPort, dstPort, payload, other);
    var h := UdpHeader(srcPort, dstPort, len, check);
    assert Datagram(src, dst, srcPort, dstPort, payload) == h + payload;
    assert (h + payload)[..HDR_LEN] == h;
    CheckField(srcPort, dstPort, len, check, other);
  }

  /** Two payloads that differ in the first byte only have different checksums. */
  lemma FirstByteMatters(src: Ip, dst: Ip, srcPort: U16, dstPort: U16, payload: seq<Byte>, other: seq<Byte>)
    requires |payload| > 0 && |other| == |payload| && other[1..] == payload[1..] && other[0] != payload[0]
    ensures UdpCheck(Blank(srcPort, dstPort, payload), src, dst) != UdpCheck(Blank(srcPort, dstPort, other), src, dst)
  {
    hide UdpCheck, Pseudo, UdpHeader, Canon, SumBe, Swap16;
    var h := UdpHeader(srcPort, dstPort, HDR_LEN + |payload|, 0);
    SumBeAppend(h, payload);
    SumBeAppend(h, other);
    FirstByteSums(payload, other);
    SumsDiffer(FullSum(h + payload, src, dst), FullSum(h + other, src, dst), other[0] as int - payload[0] as int);
    CheckFolds(h + payload, src, dst);
    CheckFolds(h + other, src, dst);
  }

  lemma FirstByteSums(payload: seq<Byte>, other: seq<Byte>)
    requires |payload| > 0 && |other| == |payload| && other[1..] == payload[1..]
    ensures SumBe(other) - SumBe(payload) == 256 * (other[0] as int - payload[0] as int)
  {
    if |payload| > 1 {
      assert payload[2..] == payload[1..][1..] && other[2..] == other[1..][1..];
      assert payload[1] == payload[1..][0] && other[1] == other[1..][0];
    }
  }

  lemma SumsDiffer(n: nat, m: nat, d: int)
    requires m - n == 256 * d && 0 != d && -256 < d < 256
    ensures Canon(n) != Canon(m)
  {
    CanonIsResidue(n);
    CanonIsResidue(m);
  }
}
