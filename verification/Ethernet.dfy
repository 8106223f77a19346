/** src/ethernet.c: minimum-frame padding and the 14-byte header, pushed and popped in the packet's own buffer. */
module Ethernet {
  import opened Words
  import opened Buf

  const MIN_UNIT := 46
  const HDR_LEN := 14
  const PROTOCOL_IP: U16 := 0x0800
  const PROTOCOL_ARP: U16 := 0x0806

  function EthHeader(dst: Mac, src: Mac, protocol: U16): (h: seq<Byte>)
    ensures |h| == HDR_LEN
  {
    dst + src + Be16(protocol)
  }

  function Padded(b: seq<Byte>): (p: seq<Byte>)
    ensures |p| >= MIN_UNIT && |p| >= |b| && p[..|b|] == b
  {
    if |b| < MIN_UNIT then b + Zeros(MIN_UNIT - |b|) else b
  }

  function Frame(dst: Mac, src: Mac, protocol: U16, payload: seq<Byte>): (f: seq<Byte>)
    ensures |f| == HDR_LEN + |Padded(payload)|
  {
    EthHeader(dst, src, protocol) + Padded(payload)
  }

  /** What `ethernet_in` passes to `net_in`. */
  datatype Received = Received(protocol: U16, src: Mac, payload: seq<Byte>)

  function Split(f: seq<Byte>): Option<Received>
  {
    if |f| < MIN_UNIT - 4 then None
    else Some(Received(Swap16(Load16(f, 12)), f[6..12], f[HDR_LEN..]))
  }

  /** What goes on the wire: destination, source and protocol, the payload, and zeros up to the minimum. */
  lemma FrameFields(dst: Mac, src: Mac, protocol: U16, payload: seq<Byte>)
    ensures var f := Frame(dst, src, protocol, payload);
      && |f| == 14 + (if |payload| < 46 then 46 else |payload|)
      && f[..6] == dst && f[6..12] == src && 256 * (f[12] as int) + f[13] == protocol
      && f[14..14 + |payload|] == payload && forall i :: 14 + |payload| <= i < |f| ==> f[i] == 0
  {
    var f, p := Frame(dst, src, protocol, payload), Padded(payload);
    assert f[14..] == p && f[14..14 + |payload|] == p[..|payload|];
    assert forall i :: 14 + |payload| <= i < |f| ==> f[i] == p[i - 14];
  }

  /** Every frame of at least 42 bytes is taken apart by its fields, and shorter ones are dropped. */
  lemma SplitExact(f: seq<Byte>)
    ensures Split(f) == if |f| < 42 then None
      else Some(Received(256 * (f[12] as int) + f[13], f[6..12], f[14..]))
  {
  }

  /** Every frame sent names its receiver, is accepted there and taken apart again; only the padding stays behind
  the payload. */
  lemma FrameRoundTrip(dst: Mac, src: Mac, protocol: U16, payload: seq<Byte>)
    ensures Frame(dst, src, protocol, payload)[..6] == dst
    ensures Split(Frame(dst, src, protocol, payload)) == Some(Received(protocol, src, Padded(payload)))
  {
    var f := Frame(dst, src, protocol, payload);
    assert f[12..14] == Be16(protocol);
    Loaded16(f, 12, protocol);
    assert f[6..12] == src && f[HDR_LEN..] == Padded(payload);
  }

  /** Where `arp_out` may leave the window of the buffer it is given: as it was, if the packet is parked or dropped;
  padded and with the header in front, if it is sent; or around the frame of a request, if the buffer is the
  transmit buffer. */
  predicate LeftBehind(data: nat, len: nat, data': nat, len': nat)
  {
    || (data' == data && len' == len)
    || (data' == data - HDR_LEN && len' == HDR_LEN + if len < MIN_UNIT then MIN_UNIT else len)
    || (data' == BUF_MAX_LEN / 2 - MIN_UNIT - HDR_LEN && len' == HDR_LEN + MIN_UNIT)
  }

  /** The network card: its address and the frames given to `driver_send`. */
  class Nic {
    const mac: Mac
    var sent: seq<seq<Byte>>

    constructor (mac: Mac)
      ensures sent == [] && this.mac == mac
    {
      this.mac := mac;
      sent := [];
    }

    /** Lines 41-49 of `ethernet_out`: the header is pushed in front of the window. */
    method PushHeader(buf: Packet, dst: Mac, protocol: U16)
      requires buf.Valid() && buf.data >= HDR_LEN
      modifies buf, buf.payload
      ensures buf.Valid() && buf.Window() == EthHeader(dst, mac, protocol) + old(buf.Window())
      ensures buf.data == old(buf.data) - HDR_LEN
    {
      hide Splice, Swap16, Store16, Be16, Zeros;
      ghost var rest := buf.Window();
      var _ := buf.AddHeader(HDR_LEN);
      ghost var room := buf.Window()[..HDR_LEN];
      assert buf.Window() == [] + room + rest;
      FieldStored(buf.Window(), [], room, rest, dst);
      buf.Store(0, dst);
      FieldStored(buf.Window(), [] + dst, room[6..], rest, mac);
      buf.Store(6, mac);
      StoreSwapped16(protocol);
      FieldStored(buf.Window(), [] + dst + mac, room[6..][6..], rest, Be16(protocol));
      buf.Store(12, Store16(Swap16(protocol)));
      assert [] + dst + mac + Be16(protocol) + room[6..][6..][2..] + rest == EthHeader(dst, mac, protocol) + rest;
    }

    /** `ethernet_out`. There must be room for the header in front and for the padding behind. */
    method EthernetOut(buf: Packet, dst: Mac, protocol: U16)
      requires buf.Valid() && buf.data >= HDR_LEN && buf.data + MIN_UNIT < BUF_MAX_LEN
      modifies this`sent, buf, buf.payload
      ensures buf.Valid()
      ensures buf.Window() == Frame(dst, mac, protocol, old(buf.Window()))
      ensures buf.data == old(buf.data) - HDR_LEN
      ensures buf.len == HDR_LEN + if old(buf.len) < MIN_UNIT then MIN_UNIT else old(buf.len)
      ensures sent == old(sent) + [Frame(dst, mac, protocol, old(buf.Window()))]
    {
      hide EthHeader, Splice;
      if buf.len < MIN_UNIT {
        var _ := buf.AddPadding(MIN_UNIT - buf.len);
      }
      PushHeader(buf, dst, protocol);
      sent := sent + [buf.Window()];
    }
  }

  /** `ethernet_in`: the header is popped in place. */
  method EthernetIn(buf: Packet) returns (r: Option<Received>)
    requires buf.Valid()
    modifies buf
    ensures buf.Valid() && r == Split(old(buf.Window()))
    ensures r.Some? ==> buf.Window() == r.value.payload
    ensures r.None? ==> buf.data == old(buf.data) && buf.len == old(buf.len)
  {
    if buf.len < MIN_UNIT - 4 {
      return None;
    }
    var hdr := buf.Window();
    var _ := buf.RemoveHeader(HDR_LEN);
    return Some(Received(Swap16(Load16(hdr, 12)), hdr[6..12], buf.Window()));
  }
}
