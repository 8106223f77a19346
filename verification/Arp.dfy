/** src/arp.c in place: address table, packet queue, transmit buffer and network card. The ghost field `state` is
the machine of `ArpMachine` that the object runs. */
module Arp {
  import opened Words
  import opened ExpiringMap
  import opened SlotTable
  import opened Buf
  import opened Ethernet
  import opened Machine = ArpMachine
  import SlotMap

  const ARP_TIMEOUT_SEC := 300
  const REQUEST: U16 := 1
  const REPLY: U16 := 2
  const PACKET_LEN := 28
  const BUF_SIZE := 131344   // sizeof(buf_t)

  const HEAD: seq<Byte> := [0, 1, 8, 0, 6, 4]
  const BROADCAST: Mac := [0xff, 0xff, 0xff, 0xff, 0xff, 0xff]
  const NO_MAC: Mac := [0, 0, 0, 0, 0, 0]

  function ArpPacket(op: U16, senderMac: Mac, senderIp: Ip, targetMac: Mac, targetIp: Ip): (p: seq<Byte>)
    ensures |p| == PACKET_LEN
  {
    HEAD + Be16(op) + senderMac + senderIp + targetMac + targetIp
  }

  /** The packet in its zeroed buffer of minimum size. */
  function ArpPayload(op: U16, senderMac: Mac, senderIp: Ip, targetMac: Mac, targetIp: Ip): (p: seq<Byte>)
    ensures |p| == MIN_UNIT
  {
    ArpPacket(op, senderMac, senderIp, targetMac, targetIp) + Zeros(MIN_UNIT - PACKET_LEN)
  }

  /** The tests and field reads at the head of `arp_in`. */
  function ReadMessage(s: Snapshot): Option<ArpMessage>
  {
    var b := View(s);
    if |b| < PACKET_LEN || b[..6] != HEAD then None
    else
      var op := Swap16(Load16(b, 6));
      if op != REQUEST && op != REPLY then None
      else Some(ArpMessage(op == REQUEST, b[14..18], b[8..14], b[24..28], s))
  }

  /** Which bytes are taken for an ARP packet, and its fields as RFC 826 lays them out. */
  lemma ReadExact(s: Snapshot)
    ensures ReadMessage(s) ==
      var b := View(s);
      if |b| < 28 || b[..6] != [0, 1, 8, 0, 6, 4] || b[6] != 0 || b[7] !in {1, 2} then None
      else Some(ArpMessage(b[7] == 1, b[14..18], b[8..14], b[24..28], s))
  {
    var b := View(s);
    if |b| >= PACKET_LEN {
      PairBytes(b[6], b[7]);
      assert b[6..8] == [b[6], b[7]];
      hide Swap16, Load16, Be16;
      Loaded16(b, 6, Pair(b[6], b[7]));
    }
  }

  lemma PairBytes(hi: Byte, lo: Byte)
    ensures Be16(Pair(hi, lo)) == [hi, lo]
  {
  }

  /** Every ARP packet this stack sends is read back by `arp_in` as what it was meant to be. */
  lemma MessageRoundTrip(op: U16, senderMac: Mac, senderIp: Ip, targetMac: Mac, targetIp: Ip, s: Snapshot)
    requires (op == REQUEST || op == REPLY) && View(s) == ArpPayload(op, senderMac, senderIp, targetMac, targetIp)
    ensures ReadMessage(s) == Some(ArpMessage(op == REQUEST, senderIp, senderMac, targetIp, s))
  {
    hide Be16, Swap16, Load16, Zeros, View;
    PayloadFields(op, senderMac, senderIp, targetMac, targetIp);
    Loaded16(View(s), 6, op);
  }

  lemma PayloadFields(op: U16, senderMac: Mac, senderIp: Ip, targetMac: Mac, targetIp: Ip)
    ensures var p := ArpPayload(op, senderMac, senderIp, targetMac, targetIp);
      && p[..6] == HEAD && p[6..8] == Be16(op)
      && p[8..14] == senderMac && p[14..18] == senderIp && p[18..24] == targetMac && p[24..28] == targetIp
  {
    hide Be16, Zeros;
    var p, z := ArpPayload(op, senderMac, senderIp, targetMac, targetIp), Zeros(MIN_UNIT - PACKET_LEN);
    var r4 := targetIp + z;
    var r3 := targetMac + r4;
    var r2 := senderIp + r3;
    var r1 := senderMac + r2;
    Assoc(HEAD + Be16(op) + senderMac + senderIp + targetMac, targetIp, z);
    Assoc(HEAD + Be16(op) + senderMac + senderIp, targetMac, r4);
    Assoc(HEAD + Be16(op) + senderMac, senderIp, r3);
    Assoc(HEAD + Be16(op), senderMac, r2);
    Assoc(HEAD, Be16(op), r1);
    FieldAt(p, 0, HEAD, Be16(op) + r1);
    FieldAt(p, 6, Be16(op), r1);
    FieldAt(p, 8, senderMac, r2);
    FieldAt(p, 14, senderIp, r3);
    FieldAt(p, 18, targetMac, r4);
    FieldAt(p, 24, targetIp, z);
  }

  lemma Assoc(a: seq<Byte>, b: seq<Byte>, c: seq<Byte>)
    ensures a + b + c == a + (b + c)
  {
  }

  lemma FieldAt(p: seq<Byte>, k: nat, b: seq<Byte>, rest: seq<Byte>)
    requires k <= |p| && p[k..] == b + rest
    ensures k + |b| <= |p| && p[k..k + |b|] == b && p[k + |b|..] == rest
  {
    assert p[k..k + |b|] == p[k..][..|b|] && p[k + |b|..] == p[k..][|b|..];
  }

  /** There is room in front for the Ethernet header and behind for the padding. */
  predicate RoomFor(s: Snapshot)
  {
    && |s.payload| == BUF_MAX_LEN && s.data + s.len <= BUF_MAX_LEN
    && s.data >= Ethernet.HDR_LEN && s.data + MIN_UNIT < BUF_MAX_LEN
  }

  function Capture(buf: Packet): (s: Snapshot)
    requires buf.Valid()
    reads buf, buf.payload
    ensures View(s) == buf.Window()
  {
    Snapshot(buf.data, buf.len, buf.payload[..])
  }

  class ArpLayer {
    const table: SlotMap.Map<Ip, Mac>
    const queue: SlotMap.Map<Ip, Snapshot>
    const txbuf: Packet
    const slotBuf: Packet    // stands for the buffer inside the queue slot while it is sent
    const nic: Nic
    const localIp: Ip
    const ownIp: Ip          // the address in the packet template
    const ownMac: Mac
    ghost var state: Arp

    ghost predicate Apart()
    {
      && table as object !in {queue as object, txbuf, slotBuf, nic, this}
      && queue as object !in {txbuf as object, slotBuf, nic, this}
      && txbuf as object !in {slotBuf as object, nic, this} && slotBuf as object !in {nic as object, this}
      && table.slots as object !in {queue.slots as object, txbuf.payload, slotBuf.payload}
      && queue.slots as object !in {txbuf.payload as object, slotBuf.payload}
      && txbuf.payload != slotBuf.payload && nic as object != this
    }

    ghost function Repr(): set<object>
    {
      {this, table, table.slots, queue, queue.slots, txbuf, txbuf.payload, slotBuf, slotBuf.payload, nic}
    }

    /** The frames that the entries of a trace stand for. */
    ghost function Frames(t: seq<Effect>): seq<seq<Byte>>
    {
      if |t| == 0 then []
      else
        Frames(t[..|t| - 1]) + match t[|t| - 1]
          case Sent(_, p, m) => [Frame(m, nic.mac, PROTOCOL_IP, p)]
          case Flushed(_, p, m) => [Frame(m, nic.mac, PROTOCOL_IP, p)]
          case Asked(ip, _, _, _) =>
              [Frame(BROADCAST, nic.mac, PROTOCOL_ARP, ArpPayload(REQUEST, ownMac, ownIp, NO_MAC, ip))]
          case Replied(ip, m) => [Frame(m, nic.mac, PROTOCOL_ARP, ArpPayload(REPLY, ownMac, ownIp, m, ip))]
          case _ => []
    }

    lemma FramesSnoc(t: seq<Effect>, e: Effect)
      ensures Frames(t + [e]) == Frames(t) + match e
        case Sent(_, p, m) => [Frame(m, nic.mac, PROTOCOL_IP, p)]
        case Flushed(_, p, m) => [Frame(m, nic.mac, PROTOCOL_IP, p)]
        case Asked(ip, _, _, _) =>
            [Frame(BROADCAST, nic.mac, PROTOCOL_ARP, ArpPayload(REQUEST, ownMac, ownIp, NO_MAC, ip))]
        case Replied(ip, m) => [Frame(m, nic.mac, PROTOCOL_ARP, ArpPayload(REPLY, ownMac, ownIp, m, ip))]
        case _ => []
    {
      assert (t + [e])[..|t|] == t;
    }

    /** The entries that put a frame on the wire. */
    function Sending(t: seq<Effect>): seq<Effect>
    {
      if |t| == 0 then []
      else
        var e := t[|t| - 1];
        Sending(t[..|t| - 1]) + if e.Sent? || e.Flushed? || e.Asked? || e.Replied? then [e] else []
    }

    /** The bytes of the frame of an entry: its receiver, our address, the protocol, and the packet or ARP message. */
    ghost predicate OnWire(f: seq<Byte>, e: Effect)
    {
      && |f| >= 60 && f[6..12] == nic.mac
      && match e
         case Sent(_, p, mac) => f[..6] == mac && f[12..14] == [8, 0] && |f| >= 14 + |p| && f[14..14 + |p|] == p
         case Flushed(_, p, mac) => f[..6] == mac && f[12..14] == [8, 0] && |f| >= 14 + |p| && f[14..14 + |p|] == p
         case Asked(ip, _, _, _) =>
           f[..6] == [0xff, 0xff, 0xff, 0xff, 0xff, 0xff] && f[12..14] == [8, 6]
           && f[14..22] == [0, 1, 8, 0, 6, 4, 0, 1] && f[22..28] == ownMac && f[28..32] == ownIp && f[38..42] == ip
         case Replied(ip, mac) =>
           f[..6] == mac && f[12..14] == [8, 6]
           && f[14..22] == [0, 1, 8, 0, 6, 4, 0, 2] && f[22..28] == ownMac && f[28..32] == ownIp
           && f[32..38] == mac && f[38..42] == ip
         case _ => false
    }

    /** The frames on the wire are those of the entries that send, one for each and in that order, each addressed to
    the receiver that its entry names. */
    lemma {:induction false} FramesOnWire(t: seq<Effect>)
      ensures |Frames(t)| == |Sending(t)|
      ensures forall i :: 0 <= i < |Frames(t)| ==> OnWire(Frames(t)[i], Sending(t)[i])
    {
      hide OnWire, Frame, ArpPayload;
      if |t| > 0 {
        FramesOnWire(t[..|t| - 1]);
        match t[|t| - 1]
        case Sent(ip, p, m) => PacketOnWire(m, p, t[|t| - 1]);
        case Flushed(ip, p, m) => PacketOnWire(m, p, t[|t| - 1]);
        case Asked(ip, _, _, _) => MessageOnWire(BROADCAST, REQUEST, NO_MAC, ip, t[|t| - 1]);
        case Replied(ip, m) => MessageOnWire(m, REPLY, m, ip, t[|t| - 1]);
        case _ =>
      }
    }

    lemma PacketOnWire(mac: Mac, p: seq<Byte>, e: Effect)
      requires (e.Sent? || e.Flushed?) && e.packet == p && e.mac == mac
      ensures OnWire(Frame(mac, nic.mac, PROTOCOL_IP, p), e)
    {
      hide Frame;
      FrameFields(mac, nic.mac, PROTOCOL_IP, p);
    }

    lemma MessageOnWire(to: Mac, op: U16, targetMac: Mac, targetIp: Ip, e: Effect)
      requires (e.Asked? && to == BROADCAST && op == REQUEST && e.ip == targetIp)
        || (e.Replied? && to == targetMac == e.mac && op == REPLY && e.ip == targetIp)
      ensures OnWire(Frame(to, nic.mac, PROTOCOL_ARP, ArpPayload(op, ownMac, ownIp, targetMac, targetIp)), e)
    {
      hide Frame, ArpPayload, Zeros;
      PayloadFields(op, ownMac, ownIp, targetMac, targetIp);
      var p := ArpPayload(op, ownMac, ownIp, targetMac, targetIp);
      FrameFields(to, nic.mac, PROTOCOL_ARP, p);
      var f := Frame(to, nic.mac, PROTOCOL_ARP, p);
      assert f[14..14 + |p|] == p;
      assert p[0..8] == p[..6] + p[6..8];
      SliceOfSlice(f, 14, 14 + |p|, 0, 8);
      SliceOfSlice(f, 14, 14 + |p|, 8, 14);
      SliceOfSlice(f, 14, 14 + |p|, 14, 18);
      SliceOfSlice(f, 14, 14 + |p|, 18, 24);
      SliceOfSlice(f, 14, 14 + |p|, 24, 28);
    }

    ghost predicate QueueRoom()
      reads queue
    {
      forall ip :: ip in queue.model.entries ==> RoomFor(queue.model.entries[ip].value)
    }

    ghost predicate Valid()
      reads Repr()
    {
      && Apart()
      && table.Valid() && queue.Valid() && txbuf.Valid() && slotBuf.Valid()
      && state.table == table.model && state.queue == queue.model
      && nic.sent == Frames(state.trace)
      && QueueRoom()
    }

    ghost predicate ClockBy(now: nat)
      reads table, queue
    {
      0 < now && table.clock <= now && queue.clock <= now
    }

    /** `arp_init`, without the gratuitous request. */
    constructor (nic: Nic, ip: Ip, ownIp: Ip, ownMac: Mac)
      requires nic.sent == []
      ensures Valid() && Initial(state) && ClockBy(1) && fresh(Repr() - {nic}) && this.nic == nic
    {
      hide Refines, Frame, ArpPayload, Hist, RoomFor, Live, Fresh, Usable;
      table := new SlotMap.Map<Ip, Mac>(4, 6, 0, ARP_TIMEOUT_SEC);
      queue := new SlotMap.Map<Ip, Snapshot>(4, BUF_SIZE, 0, ARP_MIN_INTERVAL);
      txbuf := new Packet();
      slotBuf := new Packet();
      this.nic := nic;
      localIp, this.ownIp, this.ownMac := ip, ownIp, ownMac;
      new;
      state := Machine.Arp(table.model, queue.model, []);
      assert Apart();
    }

    /** The packet template with operation and target filled in (`arp_req` and `arp_resp` up to the sending). */
    method Compose(op: U16, targetMac: Mac, targetIp: Ip)
      requires txbuf.Valid()
      modifies txbuf, txbuf.payload
      ensures txbuf.Valid() && txbuf.data == BUF_MAX_LEN / 2 - MIN_UNIT
      ensures txbuf.Window() == ArpPayload(op, ownMac, ownIp, targetMac, targetIp)
    {
      hide Splice, Swap16, Store16, Be16;
      var _ := txbuf.Init(MIN_UNIT);
      Covered(txbuf.Window(), Zeros(MIN_UNIT));
      txbuf.Store(0, Zeros(MIN_UNIT));
      var template := HEAD + [0, 0] + ownMac + ownIp + NO_MAC + [0, 0, 0, 0];
      StoreSwapped16(op);
      txbuf.Store(0, template);
      txbuf.Store(6, Store16(Swap16(op)));
      txbuf.Store(24, targetIp);
      txbuf.Store(18, targetMac);
      Composed(template, op, targetMac, targetIp);
    }

    lemma Composed(template: seq<Byte>, op: U16, targetMac: Mac, targetIp: Ip)
      requires template == HEAD + [0, 0] + ownMac + ownIp + NO_MAC + [0, 0, 0, 0]
      ensures Splice(Splice(Splice(Splice(Zeros(MIN_UNIT), 0, template), 6, Be16(op)), 24, targetIp), 18, targetMac)
           == ArpPayload(op, ownMac, ownIp, targetMac, targetIp)
    {
    }

    /** Line 150 of `arp_out`: the packet goes to the cached address at position `p` of the table. */
    method SendCached(buf: Packet, p: nat, ip: Ip, now: nat)
      requires Valid() && buf.Valid() && RoomFor(Capture(buf))
      requires buf == txbuf || (buf !in Repr() && buf.payload !in Repr())
      requires p < table.slots.Length && Live(table.model, ip, now)
          && table.slots[p].value == table.model.entries[ip].value
      modifies this`state, buf, buf.payload, nic`sent
      ensures Valid() && buf.Valid()
      ensures Ethernet.LeftBehind(old(buf.data), old(buf.len), buf.data, buf.len)
      ensures state == Log(old(state), Sent(ip, old(View(Capture(buf))), old(state).table.entries[ip].value))
    {
      hide Frame, ArpPayload, Refines, Frames;
      ghost var packet := View(Capture(buf));
      var mac := table.slots[p].value;
      FramesSnoc(state.trace, Sent(ip, packet, mac));
      nic.EthernetOut(buf, mac, PROTOCOL_IP);
      state := Log(state, Sent(ip, packet, mac));
    }

    /** Lines 154-155 of `arp_out`. */
    method ParkAndAsk(s: Snapshot, ip: Ip, now: nat)
      requires Valid() && ClockBy(now) && RoomFor(s)
      modifies this`state, txbuf, txbuf.payload, queue, queue.slots, nic`sent
      ensures Valid() && ClockBy(now)
      ensures txbuf.data == BUF_MAX_LEN / 2 - MIN_UNIT - Ethernet.HDR_LEN && txbuf.len == Ethernet.HDR_LEN + MIN_UNIT
      ensures state == Log(old(state).(queue := Put(old(state).queue, ip, s, now)),
          Asked(ip, View(s), now, Accepts(old(state).queue, ip, now)))
    {
      hide Frame, ArpPayload, Refines, Frames;
      ghost var e := Asked(ip, View(s), now, Accepts(state.queue, ip, now));
      var r := queue.Set(ip, s, now);
      ArpReq(ip);
      FramesSnoc(state.trace, e);
      state := Log(state.(queue := queue.model), e);
    }

    /** `arp_out`. The packet may be in the transmit buffer, which a request overwrites after parking it. */
    method ArpOut(buf: Packet, ip: Ip, now: nat)
      requires Valid() && ClockBy(now) && buf.Valid() && RoomFor(Capture(buf))
      requires buf == txbuf || (buf !in Repr() && buf.payload !in Repr())
      modifies this`state, buf, buf.payload, txbuf, txbuf.payload, queue, queue.slots, nic`sent
      ensures Valid() && ClockBy(now) && buf.Valid()
      ensures Ethernet.LeftBehind(old(buf.data), old(buf.len), buf.data, buf.len)
      ensures state == Out(old(state), ip, old(Capture(buf)), now)
    {
      hide Frame, ArpPayload, Refines, Frames, Find, View, Hist, Live, Put, Accepts;
      var targetMac := table.Get(ip, now);
      if targetMac.Some? {
        SendCached(buf, targetMac.value, ip, now);
        return;
      }
      var waiting := queue.Get(ip, now);
      if waiting.Some? {
        FramesSnoc(state.trace, Dropped(ip, View(Capture(buf))));
        state := Log(state, Dropped(ip, View(Capture(buf))));
        return;
      }
      ParkAndAsk(Capture(buf), ip, now);
    }

    /** `arp_req` */
    method ArpReq(ip: Ip)
      requires Apart() && txbuf.Valid()
      modifies txbuf, txbuf.payload, nic`sent
      ensures txbuf.Valid()
      ensures txbuf.data == BUF_MAX_LEN / 2 - MIN_UNIT - Ethernet.HDR_LEN && txbuf.len == Ethernet.HDR_LEN + MIN_UNIT
      ensures nic.sent == old(nic.sent) +
          [Frame(BROADCAST, nic.mac, PROTOCOL_ARP, ArpPayload(REQUEST, ownMac, ownIp, NO_MAC, ip))]
    {
      Compose(REQUEST, NO_MAC, ip);
      nic.EthernetOut(txbuf, BROADCAST, PROTOCOL_ARP);
    }

    /** `arp_resp` */
    method ArpResp(ip: Ip, mac: Mac)
      requires Apart() && txbuf.Valid()
      modifies txbuf, txbuf.payload, nic`sent
      ensures txbuf.Valid()
      ensures nic.sent == old(nic.sent) + [Frame(mac, nic.mac, PROTOCOL_ARP, ArpPayload(REPLY, ownMac, ownIp, mac, ip))]
    {
      Compose(REPLY, mac, ip);
      nic.EthernetOut(txbuf, mac, PROTOCOL_ARP);
    }

    /** Line 118 of `arp_in`. */
    method LearnAddress(ip: Ip, mac: Mac, now: nat)
      requires Valid() && ClockBy(now)
      modifies this`state, table, table.slots
      ensures Valid() && ClockBy(now) && state == Learn(old(state), ip, mac, now)
    {
      hide Frame, ArpPayload, Refines, Find, Frames;
      var r := table.Set(ip, mac, now);
      ghost var e := if r == 0 then Learned(ip, mac) else NotLearned(ip, mac);
      FramesSnoc(state.trace, e);
      state := Log(state.(table := table.model), e);
    }

    /** Lines 126-130 of `arp_in`: the packet at position `p` of the queue is sent and deleted. */
    method FlushQueue(p: nat, ip: Ip, now: nat)
      requires Valid() && ClockBy(now) && p < queue.slots.Length && Holds(queue.slots[p], ip, queue.timeout, now)
      requires Live(queue.model, ip, now) && queue.slots[p].value == queue.model.entries[ip].value
      modifies this`state, slotBuf, slotBuf.payload, queue, queue.slots, nic`sent
      ensures Valid() && ClockBy(now) && state == Flush(old(state), ip, now)
    {
      hide Frame, ArpPayload, Refines, Find, Frames;
      var packet := queue.slots[p].value;
      Restore(packet);
      var targetMac := table.Get(ip, now);
      ghost var e := GivenUp(ip, View(packet));
      if targetMac.Some? {
        var mac := table.slots[targetMac.value].value;
        e := Flushed(ip, View(packet), mac);
        nic.EthernetOut(slotBuf, mac, PROTOCOL_IP);
      }
      FramesSnoc(state.trace, e);
      queue.Delete(ip, now);
      state := Log(state.(queue := queue.model), e);
    }

    method Restore(s: Snapshot)
      requires slotBuf.Valid() && RoomFor(s)
      modifies slotBuf, slotBuf.payload
      ensures slotBuf.Valid() && slotBuf.data == s.data && slotBuf.len == s.len && slotBuf.Window() == View(s)
    {
      slotBuf.data, slotBuf.len := s.data, s.len;
      forall i | 0 <= i < BUF_MAX_LEN {
        slotBuf.payload[i] := s.payload[i];
      }
      assert slotBuf.payload[..] == s.payload;
    }

    /** `arp_in`: a packet that fails the tests changes nothing. */
    method ArpIn(buf: Packet, srcMac: Mac, now: nat)
      requires Valid() && ClockBy(now) && buf.Valid() && RoomFor(Capture(buf))
      requires buf !in Repr() && buf.payload !in Repr()
      modifies this`state, buf, buf.payload, table, table.slots, queue, queue.slots,
          txbuf, txbuf.payload, slotBuf, slotBuf.payload, nic`sent
      ensures Valid() && ClockBy(now)
      ensures state == match ReadMessage(old(Capture(buf)))
        case None => old(state)
        case Some(m) => In(old(state), m, srcMac, localIp, now)
    {
      hide Frames, Frame, ArpPayload, Load16, Swap16, Refines, Live, Fresh, Put, Accepts, Learn, Out, Flush, Update;
      var b := buf.Window();
      if buf.len < PACKET_LEN || b[..6] != HEAD {
        return;
      }
      var op := Swap16(Load16(b, 6));
      if op != REQUEST && op != REPLY {
        return;
      }
      var senderIp, senderMac, targetIp := b[14..18], b[8..14], b[24..28];
      LearnAddress(senderIp, srcMac, now);
      if targetIp == localIp && op == REQUEST {
        ArpResp(senderIp, senderMac);
        FramesSnoc(state.trace, Replied(senderIp, senderMac));
        state := Log(state, Replied(senderIp, senderMac));
      }
      var waiting := queue.Get(senderIp, now);
      if waiting.Some? {
        FlushQueue(waiting.value, senderIp, now);
      } else if targetIp != localIp {
        ArpOut(buf, targetIp, now);
      }
    }
  }
}
