/** What `ip_in` refuses and what it makes of the rest, read off the received bytes: the reference is section 3.1 of
RFC 791 and says nothing of how the tests are computed. */
module IpReception {
  import opened Words
  import opened Checksum
  import opened IpPackets

  /** The header with its checksum field blanked. */
  function Blanked(b: seq<Byte>): seq<Byte>
    requires |b| >= HDR_LEN
  {
    b[..10] + [0, 0] + b[12..20]
  }

  /** The received bytes are a header for `local`: version 4 without options, no longer than the packet, with the
  checksum of its big-endian words, and addressed to us. */
  predicate ForUs(b: seq<Byte>, local: Ip)
  {
    && |b| >= HDR_LEN && b[0] == 0x45 && WordAt(b, 1) <= |b|
    && WordAt(b, 5) == Complement(Canon(SumBe(Blanked(b))))
    && b[16..20] == local
  }

  /** What is left when the padding and the header are gone. */
  function Body(b: seq<Byte>): seq<Byte>
    requires |b| >= HDR_LEN && WordAt(b, 1) <= |b|
  {
    if WordAt(b, 1) < HDR_LEN then b[..WordAt(b, 1)] else b[HDR_LEN..WordAt(b, 1)]
  }

  /** The verdict on every packet, field by field. */
  lemma VerdictExact(b: seq<Byte>, local: Ip)
    ensures IpAccept(b, local) ==
      if !ForUs(b, local) then Dropped
      else if b[9] != 1 && b[9] != 6 && b[9] != 17 then Unreachable(b[12..16])
      else
        var fragment := WordAt(b, 3);
        if fragment % 0x4000 == 0 then Up(b[9], b[12..16], Body(b))
        else Piece(b[12..16], b[9], WordAt(b, 2), fragment % 0x2000, fragment / 0x2000 % 2 == 1, Body(b))
  {
    hide Canon, SumBe, SumLe, HeaderCheck;
    if |b| >= HDR_LEN {
      FieldsRead(b);
      CheckRead(b);
    }
  }

  /** A packet is dropped exactly when one of the tests fails. */
  lemma DroppedIff(b: seq<Byte>, local: Ip)
    ensures IpAccept(b, local) == Dropped <==> !ForUs(b, local)
  {
    VerdictExact(b, local);
  }

  lemma FieldsRead(b: seq<Byte>)
    requires |b| >= HDR_LEN
    ensures Swap16(Load16(b, 2)) == WordAt(b, 1) && Swap16(Load16(b, 4)) == WordAt(b, 2)
    ensures Swap16(Load16(b, 6)) == WordAt(b, 3) && Swap16(Load16(b, 10)) == WordAt(b, 5)
    ensures b[0] / 16 == 4 && b[0] % 16 == 5 <==> b[0] == 0x45
  {
    hide Swap16;
    SwapDigits(Load16(b, 2), b[3], b[2]);
    SwapDigits(Load16(b, 4), b[5], b[4]);
    SwapDigits(Load16(b, 6), b[7], b[6]);
    SwapDigits(Load16(b, 10), b[11], b[10]);
  }

  lemma CheckRead(b: seq<Byte>)
    requires |b| >= HDR_LEN
    ensures Load16(b, 10) == HeaderCheck(Splice(b[..HDR_LEN], 10, [0, 0]))
      <==> WordAt(b, 5) == Complement(Canon(SumBe(Blanked(b))))
  {
    hide Canon, SumBe, SumLe, HeaderCheck, WordAt;
    assert Splice(b[..HDR_LEN], 10, [0, 0]) == Blanked(b);
    var stored, check := Load16(b, 10), HeaderCheck(Blanked(b));
    HeaderCheckOnWire(Blanked(b));
    StoreSwapped16(stored);
    StoreSwapped16(check);
    StoreSwapped16(Complement(Canon(SumBe(Blanked(b)))));
    FieldsRead(b);
  }

  /** A packet for one host is dropped by every other. */
  lemma OtherHostsDrop(id: U16, flags: U16, protocol: Byte, src: Ip, dst: Ip, payload: seq<Byte>, pad: seq<Byte>,
      local: Ip)
    requires local != dst
    ensures IpAccept(IpPacket(id, flags, protocol, src, dst, payload) + pad, local) == Dropped
  {
    hide HeaderCheck, ForUs, IpAccept;
    var b := IpPacket(id, flags, protocol, src, dst, payload) + pad;
    assert b[16..20] == dst;
    NotAddressed(b, local);
  }

  lemma NotAddressed(b: seq<Byte>, local: Ip)
    requires |b| >= HDR_LEN && b[16..20] != local
    ensures IpAccept(b, local) == Dropped
  {
    DroppedIff(b, local);
  }

  /** One header word changed on the way to a packet that would have been taken: it is dropped, except when the
  change is 0x0000 against 0xffff outside the checksum field and the other tests still pass. */
  lemma DamageNoticed(b: seq<Byte>, local: Ip, i: nat, w: U16)
    requires IpAccept(b, local) != Dropped && i < 10
    ensures |b| >= HDR_LEN
    ensures var v, c := WordAt(b, i), Splice(b, 2 * i, Be16(w));
      IpAccept(c, local) != Dropped <==>
        w == v
        || (i != 5 && ((v == 0 && w == 0xffff) || (v == 0xffff && w == 0))
            && c[0] == 0x45 && WordAt(c, 1) <= |c| && c[16..20] == local)
  {
    hide IpAccept, Canon, SumBe;
    DroppedIff(b, local);
    var v, c := WordAt(b, i), Splice(b, 2 * i, Be16(w));
    DroppedIff(c, local);
    if w == v {
      assert c == b;
    } else if i == 5 {
      assert Blanked(c) == Blanked(b);
      assert WordAt(c, 5) == w;
    } else {
      assert WordAt(c, 5) == WordAt(b, 5);
      WordInBlanked(b, i, w);
      SumsEqualIff(SumBe(Blanked(b)) - v, v, w);
      FirstWord(b, i);
    }
  }

  lemma WordInBlanked(b: seq<Byte>, i: nat, w: U16)
    requires |b| >= HDR_LEN && i < 10 && i != 5
    ensures SumBe(Blanked(b)) >= WordAt(b, i)
    ensures SumBe(Blanked(Splice(b, 2 * i, Be16(w)))) == SumBe(Blanked(b)) - WordAt(b, i) + w
  {
    hide SumBe;
    var h := Blanked(b);
    assert WordAt(h, i) == WordAt(b, i);
    SumWithWord(h, i, w);
    SumAroundWord(h, i);
    assert Splice(h, 2 * i, Be16(w)) == Blanked(Splice(b, 2 * i, Be16(w)));
  }

  /** If the first word is not the one changed, it is in the rest of the sum. */
  lemma FirstWord(b: seq<Byte>, i: nat)
    requires |b| >= HDR_LEN && b[0] == 0x45 && i < 10 && i != 5
    ensures i > 0 ==> SumBe(Blanked(b)) > WordAt(b, i)
    ensures i == 0 ==> 0 < WordAt(b, i) < 65535
  {
    hide SumBe;
    if i > 0 {
      var z := Splice(b, 2 * i, Be16(0));
      WordInBlanked(b, i, 0);
      WordInBlanked(z, 0, 0);
      assert WordAt(z, 0) == WordAt(b, 0) > 0;
    }
  }

  lemma SumsEqualIff(rest: nat, v: U16, w: U16)
    ensures Canon(rest + v) == Canon(rest + w) ==> v == w || (v == 0 && w == 65535) || (v == 65535 && w == 0)
    ensures rest > 0 && ((v == 0 && w == 65535) || (v == 65535 && w == 0)) ==> Canon(rest + v) == Canon(rest + w)
  {
    hide Canon;
    CanonIsResidue(rest + v);
    CanonIsResidue(rest + w);
    if Canon(rest + v) == Canon(rest + w) {
      var k := (rest + v) / 65535 - (rest + w) / 65535;
      assert (v as int) - w == 65535 * k;
    }
    if rest > 0 {
      CanonAbsorbs(rest, 1);
    }
  }

  /** The packet that `ip_fragment_out` builds, field by field. */
  lemma PacketFields(id: U16, flags: U16, protocol: Byte, src: Ip, dst: Ip, payload: seq<Byte>)
    ensures var p := IpPacket(id, flags, protocol, src, dst, payload);
      && |p| == 20 + |payload| && p[20..] == payload
      && p[0] == 0x45 && p[1] == 0 && WordAt(p, 1) == |p| % 0x1_0000 && WordAt(p, 2) == id && WordAt(p, 3) == flags
      && p[8] == 64 && p[9] == protocol && p[12..16] == src && p[16..20] == dst
      && WordAt(p, 5) == Complement(Canon(SumBe(Blanked(p))))
  {
    hide SumBe, SumLe, Canon, Complement, HeaderCheck, WordAt, Load16, Swap16, Be16, Store16;
    var len := (HDR_LEN + |payload|) % 0x1_0000;
    var check := HeaderCheck(IpHeader(len, id, flags, protocol, src, dst, 0));
    var h := IpHeader(len, id, flags, protocol, src, dst, check);
    var p := h + payload;
    assert p == IpPacket(id, flags, protocol, src, dst, payload) && p[..HDR_LEN] == h && p[HDR_LEN..] == payload;
    HeaderReads(p, len, id, flags, protocol, src, dst, check);
    FieldsRead(p);
    BlankCheck(len, id, flags, protocol, src, dst, check);
    CheckRead(p);
    assert p[1] == h[1] == 0 && p[8] == h[8] == 64;
  }
}
