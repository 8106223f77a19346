/** Address resolution between two hosts of this stack, over the bytes of the frames: the asking host parks a packet
and broadcasts, the asked host answers, and the answer sends the packet to the right card. */
module ArpResolution {
  import opened Words
  import opened ExpiringMap
  import opened Ethernet
  import opened ArpMachine
  import opened Arp

  /** A host with its tables, its card and its address. */
  datatype Host = Host(arp: ArpMachine.Arp, mac: Mac, ip: Ip)

  function RequestFrame(h: Host, ip: Ip): seq<Byte>
  {
    Frame(BROADCAST, h.mac, PROTOCOL_ARP, ArpPayload(REQUEST, h.mac, h.ip, NO_MAC, ip))
  }

  function ReplyFrame(h: Host, ip: Ip, mac: Mac): seq<Byte>
  {
    Frame(mac, h.mac, PROTOCOL_ARP, ArpPayload(REPLY, h.mac, h.ip, mac, ip))
  }

  /** The payload of a frame in a buffer of its own. */
  function Buffered(p: seq<Byte>): Snapshot { Snapshot(0, |p|, p) }

  /** A frame arrives at a host: nothing happens unless it carries a well-formed ARP packet. */
  function Arrives(h: Host, frame: seq<Byte>, now: nat): ArpMachine.Arp
  {
    match Split(frame)
    case None => h.arp
    case Some(r) =>
      match ReadMessage(Buffered(r.payload))
      case None => h.arp
      case Some(m) => if r.protocol == PROTOCOL_ARP then In(h.arp, m, r.src, h.ip, now) else h.arp
  }

  lemma MessageArrives(h: Host, to: Mac, from: Mac, op: U16, sMac: Mac, sIp: Ip, tMac: Mac, tIp: Ip, now: nat)
    requires op == REQUEST || op == REPLY
    ensures var p := ArpPayload(op, sMac, sIp, tMac, tIp);
      Arrives(h, Frame(to, from, PROTOCOL_ARP, p), now)
        == In(h.arp, ArpMessage(op == REQUEST, sIp, sMac, tIp, Buffered(p)), from, h.ip, now)
  {
    hide In, ArpPayload, Frame;
    var p := ArpPayload(op, sMac, sIp, tMac, tIp);
    FrameRoundTrip(to, from, PROTOCOL_ARP, p);
    assert Padded(p) == p;
    assert View(Buffered(p)) == p;
    MessageRoundTrip(op, sMac, sIp, tMac, tIp, Buffered(p));
  }

  /** The asked host answers the request with its own address and has learned the asker's. */
  lemma RequestAnswered(asker: Host, asked: Host, now: nat)
    requires now > 0 && asker.ip != asked.ip
    ensures var s' := Arrives(asked, RequestFrame(asker, asked.ip), now);
      && Replies(s'.trace) == Replies(asked.arp.trace) + [(asker.ip, asker.mac)]
      && (asked.arp.table.size != asked.arp.table.max ==> Lookup(s'.table, asker.ip, now) == Some(asker.mac))
  {
    hide In, ArpPayload, Frame;
    var p := ArpPayload(REQUEST, asker.mac, asker.ip, NO_MAC, asked.ip);
    MessageArrives(asked, BROADCAST, asker.mac, REQUEST, asker.mac, asker.ip, NO_MAC, asked.ip, now);
    var m := ArpMessage(true, asker.ip, asker.mac, asked.ip, Buffered(p));
    StepReplies(asked.arp, InEvent(m, asker.mac, asked.ip, now), asked.ip);
    assert RequestsForUs([InEvent(m, asker.mac, asked.ip, now)], asked.ip) == [(asker.ip, asker.mac)] by {
      assert [InEvent(m, asker.mac, asked.ip, now)][..0] == [];
    }
    InLearns(asked.arp, m, asker.mac, asked.ip, now, now, asked.ip);
  }

  /** The answer flushes the packet that was parked with the request, to the card of the asked host: the packet for an
  unknown address arrives there if the answer comes within the interval and the tables have room. */
  lemma PacketResolved(asker: Host, asked: Host, buf: Snapshot, now: nat, later: nat)
    requires 0 < now <= later <= now + asker.arp.queue.timeout && asker.ip != asked.ip
    requires !Live(asker.arp.table, asked.ip, now) && !Live(asker.arp.queue, asked.ip, now)
    requires asker.arp.queue.size != asker.arp.queue.max && asker.arp.table.size != asker.arp.table.max
    ensures var s1 := Out(asker.arp, asked.ip, buf, now);
      var s2 := Arrives(asker.(arp := s1), ReplyFrame(asked, asker.ip, asker.mac), later);
      && s1.trace == asker.arp.trace + [Asked(asked.ip, View(buf), now, true)]
      && s2.trace == s1.trace + [Learned(asked.ip, asked.mac), Flushed(asked.ip, View(buf), asked.mac)]
      && Lookup(s2.table, asked.ip, later) == Some(asked.mac)
  {
    hide In, ArpPayload, Frame;
    var s1 := Out(asker.arp, asked.ip, buf, now);
    var p := ArpPayload(REPLY, asked.mac, asked.ip, asker.mac, asker.ip);
    MessageArrives(asker.(arp := s1), asker.mac, asked.mac, REPLY, asked.mac, asked.ip, asker.mac, asker.ip, later);
    var m := ArpMessage(false, asked.ip, asked.mac, asker.ip, Buffered(p));
    FoundAfterPut(asker.arp.queue, asked.ip, buf, now, asked.ip, later);
    var last := InOutcome(s1, m, asked.mac, asker.ip, later);
    InLearns(s1, m, asked.mac, asker.ip, later, later, asker.ip);
  }
}
