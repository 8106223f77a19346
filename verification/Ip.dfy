/** src/ip.c: building packets, cutting long ones into fragments, and the checks of `ip_in`. */
module IpPackets {
  import opened Words
  import opened Checksum
  import opened Buf
  import Ethernet

  const HDR_LEN := 20
  const FRAG_LEN := 1480            // (1500 - 20) rounded down to a multiple of 8
  const MORE_FRAGMENTS := 0x2000
  const TTL: Byte := 64
  const ICMP: Byte := 1
  const UDP: Byte := 17
  const TCP: Byte := 6

  /** The header; `check` is the checksum as the host stores it. */
  function IpHeader(len: U16, id: U16, flags: U16, protocol: Byte, src: Ip, dst: Ip, check: U16): (h: seq<Byte>)
    ensures |h| == HDR_LEN
  {
    [0x45, 0] + Be16(len) + Be16(id) + Be16(flags) + [TTL, protocol] + Store16(check) + src + dst
  }

  /** `checksum16` over a header whose checksum field is zero. */
  function HeaderCheck(h: seq<Byte>): U16 { Complement(Canon(SumLe(h))) }

  function IpPacket(id: U16, flags: U16, protocol: Byte, src: Ip, dst: Ip, payload: seq<Byte>): (p: seq<Byte>)
    ensures |p| == HDR_LEN + |payload|
  {
    var len := (HDR_LEN + |payload|) % 0x1_0000;
    var check := HeaderCheck(IpHeader(len, id, flags, protocol, src, dst, 0));
    IpHeader(len, id, flags, protocol, src, dst, check) + payload
  }

  /** The flags-and-offset field that `ip_fragment_out` writes; `offset` counts units of eight bytes. */
  function FragFlags(more: bool, offset: nat): U16
  {
    ((if more then MORE_FRAGMENTS else 0) + offset) % 0x1_0000
  }

  // ---------- receiving

  /** What `ip_in` does with a packet. */
  datatype Verdict =
    | Dropped
    | Unreachable(src: Ip)                                       // ICMP protocol unreachable
    | Piece(src: Ip, protocol: Byte, id: U16, offset: nat, more: bool, payload: seq<Byte>)
    | Up(protocol: Byte, src: Ip, payload: seq<Byte>)            // handed to net_in

  /** `buf_remove_header`, which does nothing when the header is not there. */
  function Popped(p: seq<Byte>): seq<Byte> { if |p| < HDR_LEN then p else p[HDR_LEN..] }

  /** The header tests; the total length if they are passed. */
  function Tested(b: seq<Byte>, local: Ip): (total: Option<nat>)
    ensures total.Some? ==> HDR_LEN <= |b| && total.value <= |b|
  {
    if |b| < HDR_LEN || b[0] / 16 != 4 || b[0] % 16 != 5 then None
    else
      var total := Swap16(Load16(b, 2));
      if total > |b| || Load16(b, 10) != HeaderCheck(Splice(b[..HDR_LEN], 10, [0, 0])) || b[16..20] != local then None
      else Some(total)
  }

  function IpAccept(b: seq<Byte>, local: Ip): Verdict
  {
    match Tested(b, local)
    case None => Dropped
    case Some(total) =>
      if b[9] !in {TCP, ICMP, UDP} then Unreachable(b[12..16])
      else
        var flags := Swap16(Load16(b, 6));
        if flags % 0x4000 != 0 then
          Piece(b[12..16], b[9], Swap16(Load16(b, 4)), flags % 0x2000, flags / 0x2000 % 2 == 1, Popped(b[..total]))
        else Up(b[9], b[12..16], Popped(b[..total]))
  }

  lemma HeaderReads(b: seq<Byte>, len: U16, id: U16, flags: U16, protocol: Byte, src: Ip, dst: Ip, check: U16)
    requires |b| >= HDR_LEN && b[..HDR_LEN] == IpHeader(len, id, flags, protocol, src, dst, check)
    ensures b[0] == 0x45 && b[9] == protocol && b[12..16] == src && b[16..20] == dst
    ensures Swap16(Load16(b, 2)) == len && Swap16(Load16(b, 4)) == id && Swap16(Load16(b, 6)) == flags
    ensures Load16(b, 10) == check
  {
    var h := b[..HDR_LEN];
    assert b[2..4] == h[2..4] == Be16(len);
    Loaded16(b, 2, len);
    assert b[4..6] == h[4..6] == Be16(id);
    Loaded16(b, 4, id);
    assert b[6..8] == h[6..8] == Be16(flags);
    Loaded16(b, 6, flags);
    StoreSwapped16(check);
    assert b[10] == h[10] && b[11] == h[11];
    assert b[0] == h[0] && b[9] == h[9];
    assert b[12..16] == h[12..16] == src && b[16..20] == h[16..20] == dst;
  }

  lemma BlankCheck(len: U16, id: U16, flags: U16, protocol: Byte, src: Ip, dst: Ip, check: U16)
    ensures Splice(IpHeader(len, id, flags, protocol, src, dst, check), 10, [0, 0])
         == IpHeader(len, id, flags, protocol, src, dst, 0)
  {
  }

  /** A packet of this stack, with any padding behind it, passes every test of `ip_in` at its destination; the
  padding is cut off and the payload, protocol and source come out as they went in. */
  lemma PacketAccepted(id: U16, flags: U16, protocol: Byte, src: Ip, dst: Ip, payload: seq<Byte>, pad: seq<Byte>)
    requires |payload| <= 65535 - HDR_LEN && protocol in {ICMP, UDP, TCP}
    ensures IpAccept(IpPacket(id, flags, protocol, src, dst, payload) + pad, dst)
      == if flags % 0x4000 != 0 then Piece(src, protocol, id, flags % 0x2000, flags / 0x2000 % 2 == 1, payload)
         else Up(protocol, src, payload)
  {
    hide Load16, Swap16, Splice, Be16, HeaderCheck, IpHeader;
    var len := HDR_LEN + |payload|;
    var check := HeaderCheck(IpHeader(len, id, flags, protocol, src, dst, 0));
    var b := IpPacket(id, flags, protocol, src, dst, payload) + pad;
    assert b[..HDR_LEN] == IpHeader(len, id, flags, protocol, src, dst, check);
    HeaderReads(b, len, id, flags, protocol, src, dst, check);
    BlankCheck(len, id, flags, protocol, src, dst, check);
    assert b[..len] == IpPacket(id, flags, protocol, src, dst, payload);
    assert Popped(b[..len]) == payload;
  }

  /** The header checksum on the wire is the one RFC 791 asks for, computed over big-endian words. */
  lemma HeaderCheckOnWire(h: seq<Byte>)
    ensures Store16(HeaderCheck(h)) == Be16(Complement(Canon(SumBe(h))))
  {
    OnTheWire(h);
  }

  // ---------- sending

  datatype Fragment = Fragment(offset: nat, more: bool, data: seq<Byte>)

  /** How `ip_out` cuts a payload; `offset` counts units of eight bytes. */
  function Cut(p: seq<Byte>, offset: nat): seq<Fragment>
  {
    if |p| <= FRAG_LEN then [Fragment(offset, false, p)]
    else [Fragment(offset, true, p[..FRAG_LEN])] + Cut(p[FRAG_LEN..], offset + FRAG_LEN / 8)
  }

  function PacketOf(f: Fragment, id: U16, protocol: Byte, src: Ip, dst: Ip): seq<Byte>
  {
    IpPacket(id, FragFlags(f.more, f.offset), protocol, src, dst, f.data)
  }

  function Packets(fs: seq<Fragment>, id: U16, protocol: Byte, src: Ip, dst: Ip): (ps: seq<(Ip, seq<Byte>)>)
    ensures |ps| == |fs| && forall i :: 0 <= i < |fs| ==> ps[i] == (dst, PacketOf(fs[i], id, protocol, src, dst))
  {
    seq(|fs|, i requires 0 <= i < |fs| => (dst, PacketOf(fs[i], id, protocol, src, dst)))
  }

  /** What goes out instead when the packet to cut is in the transmit buffer: an empty first fragment, and a last
  one with what `arp_out` left of it. */
  function OwnFragments(left: seq<Byte>): seq<Fragment>
  {
    [Fragment(0, true, []), Fragment(FRAG_LEN / 8, false, left)]
  }

  /** How much that can be: the header, or a frame of minimum size. */
  predicate LeftOver(left: seq<Byte>) { |left| == HDR_LEN || |left| == Ethernet.HDR_LEN + Ethernet.MIN_UNIT }

  /** The IP module: our address, the shared transmit buffer, the identification counter, and the packets
  given to `arp_out`. */
  class IpLayer {
    const localIp: Ip
    const txbuf: Packet
    var externId: U16
    var sent: seq<(Ip, seq<Byte>)>

    ghost predicate Valid()
      reads this, txbuf
    {
      txbuf.Valid()
    }

    constructor (ip: Ip)
      ensures Valid() && fresh(txbuf) && fresh(txbuf.payload) && sent == [] && externId == 0 && localIp == ip
    {
      localIp := ip;
      txbuf := new Packet();
      externId := 0;
      sent := [];
    }

    /** The header fields in front of the window (src/ip.c:187-201). */
    method WriteHeader(buf: Packet, len: U16, id: U16, flags: U16, protocol: Byte, dst: Ip)
      requires buf.Valid() && buf.len >= HDR_LEN
      modifies buf.payload
      ensures buf.Window() == IpHeader(len, id, flags, protocol, localIp, dst,
        HeaderCheck(IpHeader(len, id, flags, protocol, localIp, dst, 0))) + old(buf.Window()[HDR_LEN..])
    {
      hide Splice, Swap16, Store16, Be16, Canon, SumLe;
      ghost var rest := buf.Window()[HDR_LEN..];
      WriteFixed(buf, len, id, flags, protocol, dst);
      var hdr := buf.Window()[..HDR_LEN];
      assert hdr == IpHeader(len, id, flags, protocol, localIp, dst, 0);
      var check := Checksum16(hdr, HDR_LEN / 2);
      assert hdr[..HDR_LEN] == hdr;
      buf.Store(10, Store16(check));
      CheckStored(len, id, flags, protocol, dst, check, rest);
    }

    lemma CheckStored(len: U16, id: U16, flags: U16, protocol: Byte, dst: Ip, check: U16, rest: seq<Byte>)
      ensures Splice(IpHeader(len, id, flags, protocol, localIp, dst, 0) + rest, 10, Store16(check))
           == IpHeader(len, id, flags, protocol, localIp, dst, check) + rest
    {
    }

    /** All fields, the checksum still zero. */
    method WriteFixed(buf: Packet, len: U16, id: U16, flags: U16, protocol: Byte, dst: Ip)
      requires buf.Valid() && buf.len >= HDR_LEN
      modifies buf.payload
      ensures buf.Window() == IpHeader(len, id, flags, protocol, localIp, dst, 0) + old(buf.Window()[HDR_LEN..])
    {
      hide Splice, Swap16, Store16, Be16, IpHeader;
      StoreSwapped16(len);
      StoreSwapped16(id);
      StoreSwapped16(flags);
      ghost var rest, room := buf.Window()[HDR_LEN..], buf.Window()[..HDR_LEN];
      ghost var done: seq<Byte> := [];
      assert buf.Window() == done + room + rest;
      FieldStored(buf.Window(), done, room, rest, [0x45, 0]);
      buf.Store(0, [0x45, 0]);
      done, room := done + [0x45, 0], room[2..];
      FieldStored(buf.Window(), done, room, rest, Be16(len));
      buf.Store(2, Store16(Swap16(len)));
      done, room := done + Be16(len), room[2..];
      FieldStored(buf.Window(), done, room, rest, Be16(id));
      buf.Store(4, Store16(Swap16(id)));
      done, room := done + Be16(id), room[2..];
      FieldStored(buf.Window(), done, room, rest, Be16(flags));
      buf.Store(6, Store16(Swap16(flags)));
      done, room := done + Be16(flags), room[2..];
      FieldStored(buf.Window(), done, room, rest, [TTL, protocol]);
      buf.Store(8, [TTL, protocol]);
      done, room := done + [TTL, protocol], room[2..];
      FieldStored(buf.Window(), done, room, rest, Store16(0));
      buf.Store(10, Store16(0));
      done, room := done + Store16(0), room[2..];
      FieldStored(buf.Window(), done, room, rest, localIp);
      buf.Store(12, localIp);
      done, room := done + localIp, room[4..];
      FieldStored(buf.Window(), done, room, rest, dst);
      buf.Store(16, dst);
      done, room := done + dst, room[4..];
      assert room == [];
      HeaderIs(len, id, flags, protocol, dst);
      assert done == IpHeader(len, id, flags, protocol, localIp, dst, 0);
    }

    lemma HeaderIs(len: U16, id: U16, flags: U16, protocol: Byte, dst: Ip)
      ensures [] + [0x45, 0] + Be16(len) + Be16(id) + Be16(flags) + [TTL, protocol] + Store16(0) + localIp + dst
           == IpHeader(len, id, flags, protocol, localIp, dst, 0)
    {
    }

    /** Lines 185-201 of `ip_fragment_out`. There must be room for the header. */
    method MakePacket(buf: Packet, dst: Ip, protocol: Byte, id: U16, offset: nat, more: bool)
      requires buf.Valid() && buf.data >= HDR_LEN
      modifies buf, buf.payload
      ensures buf.Valid() && buf.data == old(buf.data) - HDR_LEN && buf.len == old(buf.len) + HDR_LEN
      ensures buf.Window() == PacketOf(Fragment(offset, more, old(buf.Window())), id, protocol, localIp, dst)
    {
      hide IpHeader, HeaderCheck, FragFlags;
      ghost var payload := buf.Window();
      var _ := buf.AddHeader(HDR_LEN);
      assert buf.Window()[HDR_LEN..] == payload;
      var flags := FragFlags(more, offset);
      WriteHeader(buf, buf.len % 0x1_0000, id, flags, protocol, dst);
    }

    /** The call of `arp_out`, with the packets it is given as an output log. What it does to the buffers is left
    open within the bounds that `Arp.ArpLayer.ArpOut` keeps; a request may overwrite the transmit buffer. */
    method HandToArp(buf: Packet, dst: Ip)
      requires Valid() && buf.Valid()
      modifies this`sent, buf, buf.payload, txbuf, txbuf.payload
      ensures Valid() && buf.Valid()
      ensures old(buf.data) >= Ethernet.HDR_LEN && old(buf.data) + Ethernet.MIN_UNIT < BUF_MAX_LEN ==>
        Ethernet.LeftBehind(old(buf.data), old(buf.len), buf.data, buf.len)
      ensures sent == old(sent) + [(dst, old(buf.Window()))]
    {
      sent := sent + [(dst, buf.Window())];
    }

    /** `ip_fragment_out` */
    method IpFragmentOut(buf: Packet, dst: Ip, protocol: Byte, id: U16, offset: nat, more: bool)
      requires Valid() && buf.Valid() && buf.data >= HDR_LEN
      modifies this`sent, buf, buf.payload, txbuf, txbuf.payload
      ensures Valid() && buf.Valid()
      ensures old(buf.data) >= HDR_LEN + Ethernet.HDR_LEN && old(buf.data) + Ethernet.MIN_UNIT < BUF_MAX_LEN ==>
        Ethernet.LeftBehind(old(buf.data) - HDR_LEN, old(buf.len) + HDR_LEN, buf.data, buf.len)
      ensures sent == old(sent) +
          [(dst, PacketOf(Fragment(offset, more, old(buf.Window())), id, protocol, localIp, dst))]
    {
      hide PacketOf;
      MakePacket(buf, dst, protocol, id, offset, more);
      HandToArp(buf, dst);
    }

    /** One turn of the loop of `ip_out` (src/ip.c:228-234). If the packet is in the transmit buffer itself, that
    buffer is reset, copied onto itself and emptied before the header goes in front. */
    method SendPiece(buf: Packet, dst: Ip, protocol: Byte, id: U16, offset: nat)
      requires Valid() && buf.Valid() && buf.len > FRAG_LEN
      requires buf == txbuf || buf.payload != txbuf.payload
      modifies this`sent, txbuf, txbuf.payload, buf
      ensures Valid() && buf.Valid()
      ensures buf != txbuf ==> buf.data >= FRAG_LEN && buf.Window() == old(buf.Window())[FRAG_LEN..]
      ensures buf == txbuf ==> buf.data >= HDR_LEN && LeftOver(buf.Window())
      ensures sent == old(sent) + [(dst, PacketOf(
          Fragment(offset, true, if buf == txbuf then [] else old(buf.Window())[..FRAG_LEN]),
          id, protocol, localIp, dst))]
    {
      hide PacketOf, Splice;
      var _ := txbuf.Init(FRAG_LEN);
      var piece := buf.Window()[..FRAG_LEN];
      Covered(txbuf.Window(), piece);
      txbuf.Store(0, piece);
      var _ := buf.RemoveHeader(FRAG_LEN);
      assert buf == txbuf ==> txbuf.Window() == [];
      IpFragmentOut(txbuf, dst, protocol, id, offset, true);
    }

    /** `ip_out`. The last header is written over bytes that were already sent. A packet that is in the transmit
    buffer itself, as `tcp_out` and `udp_send` pass it, goes out as it should only if it need not be cut. */
    method IpOut(buf: Packet, dst: Ip, protocol: Byte)
      requires Valid() && buf.Valid() && (buf.data >= HDR_LEN || buf.len > FRAG_LEN)
      requires buf == txbuf || buf.payload != txbuf.payload
      modifies this`sent, this`externId, txbuf, txbuf.payload, buf, buf.payload
      ensures Valid() && buf.Valid()
      ensures buf != txbuf || old(buf.len) <= FRAG_LEN ==>
        sent == old(sent) + Packets(Cut(old(buf.Window()), 0), old(externId), protocol, localIp, dst)
      ensures buf == txbuf && old(buf.len) > FRAG_LEN ==>
        exists left :: LeftOver(left)
          && sent == old(sent) + Packets(OwnFragments(left), old(externId), protocol, localIp, dst)
      ensures externId == (old(externId) + 1) % 0x1_0000
    {
      hide PacketOf, Packets;
      var id := externId;
      if buf.len <= FRAG_LEN {
        PacketsOne(Fragment(0, false, buf.Window()), id, protocol, localIp, dst);
        IpFragmentOut(buf, dst, protocol, id, 0, false);
      } else {
        ghost var left := SendAll(buf, dst, protocol, id);
      }
      externId := (externId + 1) % 0x1_0000;
    }

    /** Lines 225-239 of `ip_out`. */
    method SendAll(buf: Packet, dst: Ip, protocol: Byte, id: U16) returns (ghost left: seq<Byte>)
      requires Valid() && buf.Valid() && buf.len > FRAG_LEN
      requires buf == txbuf || buf.payload != txbuf.payload
      modifies this`sent, txbuf, txbuf.payload, buf, buf.payload
      ensures Valid() && buf.Valid()
      ensures buf != txbuf ==> sent == old(sent) + Packets(Cut(old(buf.Window()), 0), id, protocol, localIp, dst)
      ensures buf == txbuf ==>
        LeftOver(left) && sent == old(sent) + Packets(OwnFragments(left), id, protocol, localIp, dst)
    {
      hide PacketOf, Packets, Cut;
      ghost var payload := buf.Window();
      var fragOffset := 0;
      ghost var offset := 0;     // the same in units of eight bytes
      ghost var done: seq<Fragment> := [];
      PacketsNone(id, protocol, localIp, dst);
      while buf.len > FRAG_LEN
        invariant Valid() && buf.Valid() && (buf.len > FRAG_LEN || buf.data >= HDR_LEN)
        invariant fragOffset == 8 * offset && offset >= 0
        invariant buf != txbuf ==> Cut(payload, 0) == done + Cut(buf.Window(), offset)
        invariant buf == txbuf && offset == 0 ==> done == [] && buf.len > FRAG_LEN
        invariant buf == txbuf && offset != 0 ==>
          offset == FRAG_LEN / 8 && done == [Fragment(0, true, [])] && LeftOver(buf.Window())
        invariant sent == old(sent) + Packets(done, id, protocol, localIp, dst)
        decreases buf.len
      {
        ghost var f := Fragment(offset, true, if buf == txbuf then [] else buf.Window()[..FRAG_LEN]);
        if buf != txbuf {
          CutOnce(payload, done, buf.Window(), offset);
        }
        SendPiece(buf, dst, protocol, id, fragOffset / 8);
        PacketsSnoc(done, f, id, protocol, localIp, dst);
        done := done + [f];
        fragOffset, offset := fragOffset + FRAG_LEN, offset + FRAG_LEN / 8;
      }
      left := buf.Window();
      CutLast(left, offset);
      PacketsSnoc(done, Fragment(offset, false, left), id, protocol, localIp, dst);
      assert buf == txbuf ==> done + [Fragment(offset, false, left)] == OwnFragments(left);
      IpFragmentOut(buf, dst, protocol, id, fragOffset / 8, false);
    }

    lemma CutLast(rest: seq<Byte>, offset: nat)
      requires |rest| <= FRAG_LEN
      ensures Cut(rest, offset) == [Fragment(offset, false, rest)]
    {
    }

    lemma CutOnce(p: seq<Byte>, done: seq<Fragment>, rest: seq<Byte>, offset: nat)
      requires |rest| > FRAG_LEN && Cut(p, 0) == done + Cut(rest, offset)
      ensures Cut(p, 0) == done + [Fragment(offset, true, rest[..FRAG_LEN])]
                         + Cut(rest[FRAG_LEN..], offset + FRAG_LEN / 8)
    {
      hide Cut;
      CutFirst(rest, offset);
      ghost var f, tail := [Fragment(offset, true, rest[..FRAG_LEN])], Cut(rest[FRAG_LEN..], offset + FRAG_LEN / 8);
      assert done + (f + tail) == done + f + tail;
    }

    lemma CutFirst(rest: seq<Byte>, offset: nat)
      requires |rest| > FRAG_LEN
      ensures Cut(rest, offset) == [Fragment(offset, true, rest[..FRAG_LEN])] +
          Cut(rest[FRAG_LEN..], offset + FRAG_LEN / 8)
    {
    }

    lemma PacketsNone(id: U16, protocol: Byte, src: Ip, dst: Ip)
      ensures Packets([], id, protocol, src, dst) == []
    {
    }

    lemma PacketsOne(f: Fragment, id: U16, protocol: Byte, src: Ip, dst: Ip)
      ensures Packets([f], id, protocol, src, dst) == [(dst, PacketOf(f, id, protocol, src, dst))]
    {
    }

    lemma PacketsSnoc(fs: seq<Fragment>, f: Fragment, id: U16, protocol: Byte, src: Ip, dst: Ip)
      ensures Packets(fs + [f], id, protocol, src, dst) ==
          Packets(fs, id, protocol, src, dst) + [(dst, PacketOf(f, id, protocol, src, dst))]
    {
    }
  }

  /** The header tests of `ip_in` (src/ip.c:108-133): the total length if all are passed. The checksum field
  is blanked for the test and put back. */
  method TestHeader(buf: Packet, local: Ip) returns (total: Option<nat>)
    requires buf.Valid()
    modifies buf.payload
    ensures buf.payload[..] == old(buf.payload[..])
    ensures total == Tested(old(buf.Window()), local)
  {
    hide Splice, Swap16, Load16, Canon, SumLe;
    var b := buf.Window();
    if buf.len < HDR_LEN {
      return None;
    }
    if b[0] / 16 != 4 || b[0] % 16 != 5 {
      return None;
    }
    if Swap16(Load16(b, 2)) > buf.len {
      return None;
    }
    ghost var was := buf.payload[..];
    buf.Store(10, [0, 0]);
    var blank := buf.Window()[..HDR_LEN];
    BlankPrefix(b);
    var computed := Checksum16(blank, HDR_LEN / 2);
    assert blank[..HDR_LEN] == blank;
    buf.Store(10, b[10..12]);
    SliceOfSlice(was, buf.data, buf.data + buf.len, 10, 12);
    PutBack(was, buf.data + 10, [0, 0], b[10..12]);
    if Load16(b, 10) != computed || b[16..20] != local {
      return None;
    }
    return Some(Swap16(Load16(b, 2)));
  }

  lemma BlankPrefix(b: seq<Byte>)
    requires |b| >= HDR_LEN
    ensures Splice(b, 10, [0, 0])[..HDR_LEN] == Splice(b[..HDR_LEN], 10, [0, 0])
  {
  }

  lemma PutBack(p: seq<Byte>, at: nat, x: seq<Byte>, was: seq<Byte>)
    requires at + |x| <= |p| && |x| == |was| && p[at..at + |x|] == was
    ensures Splice(Splice(p, at, x), at, was) == p
  {
  }

  /** `ip_in` on a packet buffer: padding is cut and the header popped in place. */
  method IpIn(buf: Packet, local: Ip) returns (v: Verdict)
    requires buf.Valid()
    modifies buf, buf.payload
    ensures buf.Valid() && buf.payload[..] == old(buf.payload[..])
    ensures v == IpAccept(old(buf.Window()), local)
    ensures v.Up? ==> buf.Window() == v.payload
  {
    hide Splice, Swap16, Load16, HeaderCheck;
    var b := buf.Window();
    var total := TestHeader(buf, local);
    if total.None? {
      return Dropped;
    }
    if total.value < buf.len {
      var _ := buf.RemovePadding(buf.len - total.value);
    }
    assert buf.Window() == b[..total.value];
    var protocol, src := b[9], b[12..16];
    if protocol !in {TCP, ICMP, UDP} {
      return Unreachable(src);
    }
    var flags := Swap16(Load16(b, 6));
    if flags % 0x4000 != 0 {
      return Piece(src, protocol, Swap16(Load16(b, 4)), flags % 0x2000, flags / 0x2000 % 2 == 1, Popped(buf.Window()));
    }
    var _ := buf.RemoveHeader(HDR_LEN);
    return Up(protocol, src, buf.Window());
  }
}
