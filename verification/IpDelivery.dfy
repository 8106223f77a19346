/** End-to-end results for src/ip.c: fragments rebuild the payload in any order, and packets survive the
trip over Ethernet. */
module IpDelivery {
  import opened Words
  import opened IpPackets
  import Ethernet

  // ---------- the shape of a cut

  /** All fragments but the last are full and say that more follow; the last one is what remains, and is not
  empty unless the payload is. */
  lemma {:induction false} CutShape(p: seq<Byte>, base: nat)
    ensures var fs := Cut(p, base);
      && 0 < |fs|
      && (forall j :: 0 <= j < |fs| ==> fs[j].offset == base + 185 * j && (fs[j].more <==> j < |fs| - 1))
      && (forall j :: 0 <= j < |fs| - 1 ==> |fs[j].data| == FRAG_LEN)
      && |fs[|fs| - 1].data| == |p| - FRAG_LEN * (|fs| - 1) <= FRAG_LEN
      && (|p| > 0 ==> |fs[|fs| - 1].data| > 0)
  {
    if |p| > FRAG_LEN {
      CutShape(p[FRAG_LEN..], base + 185);
    }
  }

  /** Offsets fit the 13 bits of the header exactly up to 66600 bytes of payload, more than IP can carry. */
  lemma OffsetsFit(p: seq<Byte>)
    ensures (forall f :: f in Cut(p, 0) ==> f.offset < 0x2000) <==> |p| <= 66600
  {
    hide Cut;
    CutShape(p, 0);
    var fs := Cut(p, 0);
    var n := |fs| - 1;
    assert |p| == FRAG_LEN * n + |fs[n].data|;
    if |p| > 66600 {
      assert n >= 45;
      assert fs[45] in fs && fs[45].offset == 8325;
    } else {
      assert n <= 44;
      forall f | f in fs
        ensures f.offset < 0x2000
      {
        var j :| 0 <= j < |fs| && fs[j] == f;
      }
    }
  }

  /** Each fragment carries the bytes of the payload that its offset names. */
  lemma {:induction false} PieceAgrees(p: seq<Byte>, base: nat, f: Fragment)
    requires f in Cut(p, base)
    ensures base <= f.offset && 8 * (f.offset - base) + |f.data| <= |p|
    ensures f.data == p[8 * (f.offset - base)..8 * (f.offset - base) + |f.data|]
  {
    if |p| > FRAG_LEN && f != Cut(p, base)[0] {
      var rest := p[FRAG_LEN..];
      assert Cut(p, base) == [Fragment(base, true, p[..FRAG_LEN])] + Cut(rest, base + 185);
      PieceAgrees(rest, base + 185, f);
      var o := 8 * (f.offset - base);
      assert p[o..o + |f.data|] == rest[o - FRAG_LEN..o - FRAG_LEN + |f.data|];
    }
  }

  /** And every byte is in some fragment. */
  lemma {:induction false} ByteInPiece(p: seq<Byte>, base: nat, i: nat) returns (f: Fragment)
    requires i < |p|
    ensures f in Cut(p, base) && base <= f.offset && 8 * (f.offset - base) <= i < 8 * (f.offset - base) + |f.data|
  {
    f := Cut(p, base)[0];
    if i >= FRAG_LEN {
      f := ByteInPiece(p[FRAG_LEN..], base + 185, i - FRAG_LEN);
    }
  }

  // ---------- reassembly, section 3.2 of RFC 791

  predicate Spans(f: Fragment, i: nat) { 8 * f.offset <= i < 8 * f.offset + |f.data| }

  /** The bytes of one fragment at their places. */
  function Image(f: Fragment): map<nat, Byte>
  {
    map i: nat | 8 * f.offset <= i < 8 * f.offset + |f.data| && Spans(f, i) :: f.data[i - 8 * f.offset]
  }

  /** Placing each arriving fragment at eight times its offset, later ones over earlier ones. */
  function Placed(arrived: seq<Fragment>): map<nat, Byte>
  {
    if |arrived| == 0 then map[]
    else
      var f := arrived[|arrived| - 1];
      Placed(arrived[..|arrived| - 1]) + Image(f)
  }

  function Whole(p: seq<Byte>): map<nat, Byte> { map i: nat | i < |p| :: p[i] }

  /** While only fragments of `p` arrive, everything placed is right, and what has arrived is in place. */
  lemma {:induction false} PlacedAgrees(p: seq<Byte>, arrived: seq<Fragment>, i: nat)
    requires forall f :: f in arrived ==> f in Cut(p, 0)
    ensures i in Placed(arrived) ==> i < |p| && Placed(arrived)[i] == p[i]
    ensures (exists f :: f in arrived && Spans(f, i)) ==> i in Placed(arrived)
  {
    hide Cut;
    if |arrived| > 0 {
      var init, last := arrived[..|arrived| - 1], arrived[|arrived| - 1];
      assert arrived == init + [last];
      PlacedAgrees(p, init, i);
      PieceAgrees(p, 0, last);
    }
  }

  /** Whatever the order of arrival, and even with duplicates, the fragments rebuild the payload exactly. */
  lemma Reassembles(p: seq<Byte>, arrived: seq<Fragment>)
    requires forall f :: f in arrived <==> f in Cut(p, 0)
    ensures Placed(arrived) == Whole(p)
  {
    forall i: nat
      ensures i in Placed(arrived) <==> i < |p|
      ensures i < |p| ==> Placed(arrived)[i] == p[i]
    {
      PlacedAgrees(p, arrived, i);
      if i < |p| {
        var f := ByteInPiece(p, 0, i);
        assert f in arrived && Spans(f, i);
      }
    }
  }

  // ---------- fragments on the wire

  lemma FlagsRead(more: bool, offset: nat)
    requires offset < 0x2000
    ensures var flags := FragFlags(more, offset);
      && flags % 0x2000 == offset && (flags / 0x2000 % 2 == 1 <==> more)
      && (flags % 0x4000 != 0 <==> more || offset > 0)
  {
  }

  function PieceOf(f: Fragment, id: U16, protocol: Byte, src: Ip): Verdict
  {
    Piece(src, protocol, id, f.offset, f.more, f.data)
  }

  /** Every packet that `ip_out` makes of a long payload passes the tests of `ip_in` at the destination and is
  recognised as the fragment it is, all with the same identification. */
  lemma FragmentsAccepted(p: seq<Byte>, id: U16, protocol: Byte, src: Ip, dst: Ip, j: nat)
    requires FRAG_LEN < |p| <= 66600 && protocol in {ICMP, UDP, TCP} && j < |Cut(p, 0)|
    ensures IpAccept(Packets(Cut(p, 0), id, protocol, src, dst)[j].1, dst) == PieceOf(Cut(p, 0)[j], id, protocol, src)
  {
    var f := Cut(p, 0)[j];
    CutShape(p, 0);
    OffsetsFit(p);
    assert f in Cut(p, 0);
    FlagsRead(f.more, f.offset);
    var b := PacketOf(f, id, protocol, src, dst);
    PacketAccepted(id, FragFlags(f.more, f.offset), protocol, src, dst, f.data, []);
    assert b + [] == b;
  }

  /** The fragment in a verdict of `ip_in`. */
  function FragmentOf(v: Verdict): Fragment
    requires v.Piece?
  {
    Fragment(v.offset, v.more, v.payload)
  }

  function FragmentsOf(packets: seq<seq<Byte>>, dst: Ip): seq<Fragment>
  {
    if |packets| == 0 then []
    else
      var v := IpAccept(packets[|packets| - 1], dst);
      FragmentsOf(packets[..|packets| - 1], dst) + if v.Piece? then [FragmentOf(v)] else []
  }

  lemma {:induction false} FragmentsOfSent(p: seq<Byte>, id: U16, protocol: Byte, src: Ip, dst: Ip,
      packets: seq<seq<Byte>>, at: seq<nat>)
    requires FRAG_LEN < |p| <= 66600 && protocol in {ICMP, UDP, TCP}
    requires |at| == |packets|
    requires forall i :: 0 <= i < |at| ==>
        at[i] < |Cut(p, 0)| && packets[i] == Packets(Cut(p, 0), id, protocol, src, dst)[at[i]].1
    ensures |FragmentsOf(packets, dst)| == |at| && forall i :: 0 <= i < |at| ==>
        FragmentsOf(packets, dst)[i] == Cut(p, 0)[at[i]]
  {
    hide IpAccept, Cut, Packets, PacketOf;
    if |packets| > 0 {
      var n := |packets| - 1;
      FragmentsOfSent(p, id, protocol, src, dst, packets[..n], at[..n]);
      FragmentsAccepted(p, id, protocol, src, dst, at[n]);
    }
  }

  /** Fragmentation preserves the payload: take the packets of one `ip_out` call in any order, with duplicates;
  `at[i]` says which packet arrived as the `i`-th. Once each has arrived, the pieces that `ip_in` recognises
  rebuild the payload. */
  lemma FragmentationPreserves(p: seq<Byte>, id: U16, protocol: Byte, src: Ip, dst: Ip, packets: seq<seq<Byte>>,
      at: seq<nat>)
    requires FRAG_LEN < |p| <= 66600 && protocol in {ICMP, UDP, TCP}
    requires |at| == |packets|
    requires forall i :: 0 <= i < |at| ==>
        at[i] < |Cut(p, 0)| && packets[i] == Packets(Cut(p, 0), id, protocol, src, dst)[at[i]].1
    requires forall j :: 0 <= j < |Cut(p, 0)| ==> j in at
    ensures Placed(FragmentsOf(packets, dst)) == Whole(p)
  {
    hide Cut, Packets, FragmentsOf, Placed;
    FragmentsOfSent(p, id, protocol, src, dst, packets, at);
    var fs, cut := FragmentsOf(packets, dst), Cut(p, 0);
    forall f
      ensures f in fs <==> f in cut
    {
      if f in fs {
        var i :| 0 <= i < |fs| && fs[i] == f;
        assert cut[at[i]] == f;
      }
      if f in cut {
        var j :| 0 <= j < |cut| && cut[j] == f;
        assert j in at;
        var i :| 0 <= i < |at| && at[i] == j;
        assert fs[i] == f;
      }
    }
    Reassembles(p, fs);
  }

  /** Cutting needs a buffer of its own: from the transmit buffer itself, no payload at all is rebuilt, whatever
  `arp_out` left in that buffer. */
  lemma OwnBufferLosesPayload(p: seq<Byte>, left: seq<Byte>)
    requires |p| > FRAG_LEN
    ensures 0 !in Placed(OwnFragments(left)) && Placed(OwnFragments(left)) != Whole(p)
  {
    var fs := OwnFragments(left);
    assert fs[..1][..0] == [] && Placed(fs[..1][..0]) == map[];
    assert Placed(fs) == Placed(fs[..1]) + Image(fs[1]);
    assert Placed(fs[..1]) == map[] + Image(fs[0]);
    assert 0 !in Placed(fs);
    assert 0 in Whole(p);
  }

  // ---------- over Ethernet

  /** IP over Ethernet: for any payload that needs no fragmentation, the frame built by `ip_fragment_out` and
  `ethernet_out` is accepted by `ethernet_in` and `ip_in` of the destination, which hands up exactly that
  payload, protocol and source; the minimum-frame padding is gone. */
  lemma IpOverEthernet(dstMac: Mac, srcMac: Mac, id: U16, protocol: Byte, src: Ip, dst: Ip, payload: seq<Byte>)
    requires |payload| <= FRAG_LEN && protocol in {ICMP, UDP, TCP}
    ensures var frame := Ethernet.Frame(dstMac, srcMac, Ethernet.PROTOCOL_IP,
        PacketOf(Fragment(0, false, payload), id, protocol, src, dst));
      var r := Ethernet.Split(frame);
      r.Some? && r.value.protocol == Ethernet.PROTOCOL_IP && r.value.src == srcMac
      && IpAccept(r.value.payload, dst) == Up(protocol, src, payload)
  {
    var packet := PacketOf(Fragment(0, false, payload), id, protocol, src, dst);
    Ethernet.FrameRoundTrip(dstMac, srcMac, Ethernet.PROTOCOL_IP, packet);
    var padded := Ethernet.Padded(packet);
    assert padded == packet + padded[|packet|..];
    FlagsRead(false, 0);
    PacketAccepted(id, FragFlags(false, 0), protocol, src, dst, payload, padded[|packet|..]);
  }
}
