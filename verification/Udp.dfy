/** src/udp.c: the checksum computed in place by borrowing the twelve bytes in front of the datagram, and the
datagrams built and accepted with it. */
module Udp {
  import opened Words
  import opened Checksum
  import opened ExpiringMap
  import opened Buf
  import opened SlotTable
  import opened TcpPorts
  import SlotMap

  const HDR_LEN := 8
  const PSEUDO_LEN := 12
  const IP_HDR_LEN := 20
  const PROTOCOL_UDP: Byte := 17

  type Handler = nat

  function Pseudo(src: Ip, dst: Ip, len: nat): (p: seq<Byte>)
    ensures |p| == PSEUDO_LEN
  {
    src + dst + [0, PROTOCOL_UDP] + Be16(len % 0x1_0000)
  }

  function Even(b: seq<Byte>): (e: seq<Byte>)
    ensures |e| % 2 == 0 && |e| == |b| + |b| % 2
  {
    if |b| % 2 == 1 then b + [0] else b
  }

  /** The value `udp_checksum` returns, as the host holds it. */
  function UdpCheck(b: seq<Byte>, src: Ip, dst: Ip): U16
  {
    Complement(Canon(SumLe(Pseudo(src, dst, |b|) + Even(b))))
  }

  lemma EvenSum(b: seq<Byte>)
    ensures SumBe(Even(b)) == SumBe(b)
  {
    if |b| % 2 == 1 {
      var n := |b| - 1;
      assert b == b[..n] + [b[n]] && Even(b) == b[..n] + [b[n], 0];
      SumBeAppend(b[..n], [b[n]]);
      SumBeAppend(b[..n], [b[n], 0]);
    }
  }

  /** On the wire it is the checksum of RFC 768: the one's complement of the sum, over big-endian words, of the
  pseudo header and the datagram, the latter padded with zero if odd. */
  lemma UdpCheckOnWire(b: seq<Byte>, src: Ip, dst: Ip)
    ensures Store16(UdpCheck(b, src, dst)) == Be16(Complement(Canon(SumBe(Pseudo(src, dst, |b|)) + SumBe(b))))
  {
    hide Canon, SumLe, SumBe, Pseudo, Even, Complement, Store16, Be16, UdpCheck;
    var pseudo, even := Pseudo(src, dst, |b|), Even(b);
    OnTheWire(pseudo + even);
    SumBeAppend(pseudo, even);
    EvenSum(b);
    CheckIs(b, src, dst);
  }

  lemma CheckIs(b: seq<Byte>, src: Ip, dst: Ip)
    ensures UdpCheck(b, src, dst) == Complement(Canon(SumLe(Pseudo(src, dst, |b|) + Even(b))))
  {
    hide Canon, SumLe, Pseudo, Even, Complement;
  }

  /** The payload bytes after a computation in place: the byte behind a datagram of odd length is zeroed. */
  function Touched(all: seq<Byte>, end: nat, len: nat): (r: seq<Byte>)
    requires len % 2 == 1 ==> end < |all|
    ensures |r| == |all|
  {
    if len % 2 == 1 then all[end := 0] else all
  }

  /** The pseudo header over the borrowed bytes (src/udp.c:30-34). */
  method WritePseudo(buf: Packet, src: Ip, dst: Ip, len: nat)
    requires buf.Valid() && buf.len >= PSEUDO_LEN
    modifies buf.payload
    ensures buf.Window() == Pseudo(src, dst, len) + old(buf.Window())[PSEUDO_LEN..]
    ensures buf.payload[..] == Splice(old(buf.payload[..]), buf.data, Pseudo(src, dst, len))
  {
    hide Splice, Swap16, Store16, Be16;
    ghost var all, checkLen := buf.payload[..], len % 0x1_0000;
    buf.Store(0, src);
    buf.Store(4, dst);
    buf.Store(8, [0, PROTOCOL_UDP]);
    StoreSwapped16(len % 0x1_0000);
    buf.Store(10, Store16(Swap16(len % 0x1_0000)));
    SplicedTogether(all, buf.data, src, dst, [0, PROTOCOL_UDP], Be16(checkLen));
    SplicedWindow(all, buf.data, buf.len, Pseudo(src, dst, len));
  }

  lemma SplicedWindow(p: seq<Byte>, at: nat, len: nat, b: seq<Byte>)
    requires at + len <= |p| && |b| <= len
    ensures Splice(p, at, b)[at..at + len] == b + p[at..at + len][|b|..]
  {
    var q := Splice(p, at, b);
    SliceOfSlice(q, at, at + len, 0, |b|);
    SliceOfSlice(q, at, at + len, |b|, len);
    SliceOfSlice(p, at, at + len, |b|, len);
    assert q[at..at + |b|] == b && q[at + |b|..at + len] == p[at + |b|..at + len];
    assert q[at..at + len] == q[at..at + len][0..|b|] + q[at..at + len][|b|..len];
  }

  lemma SplicedTogether(p: seq<Byte>, at: nat, a: seq<Byte>, b: seq<Byte>, c: seq<Byte>, d: seq<Byte>)
    requires |a| == |b| == 4 && |c| == |d| == 2 && at + 12 <= |p|
    ensures Splice(Splice(Splice(Splice(p, at, a), at + 4, b), at + 8, c), at + 10, d) == Splice(p, at, a + b + c + d)
  {
  }

  /** Padding an odd window with one zero and summing it up (src/udp.c:36-39). */
  method PadAndSum(buf: Packet) returns (check: U16)
    requires buf.Valid() && (buf.len % 2 == 1 ==> buf.data + buf.len + 1 < BUF_MAX_LEN)
    modifies buf, buf.payload
    ensures buf.Valid() && buf.data == old(buf.data) && buf.len == old(buf.len) + old(buf.len) % 2
    ensures buf.payload[..] == Touched(old(buf.payload[..]), old(buf.data + buf.len), old(buf.len))
    ensures check == Complement(Canon(SumLe(Even(old(buf.Window())))))
  {
    hide Canon, SumLe, Splice, Zeros;
    ghost var all, end := buf.payload[..], buf.data + buf.len;
    var padding := buf.len % 2;
    if padding != 0 {
      OneZero(all, end);
      var _ := buf.AddPadding(padding);
    }
    var w := buf.Window();
    check := Checksum16(w, buf.len / 2);
    assert w[..2 * (buf.len / 2)] == w;
  }

  lemma OneZero(all: seq<Byte>, end: nat)
    requires end < |all|
    ensures Zeros(1) == [0] && Splice(all, end, Zeros(1)) == all[end := 0]
  {
  }

  /** Lines 23-39 of `udp_checksum`: the pseudo header is laid over the bytes in front and all is summed up. */
  method SumWithPseudo(buf: Packet, src: Ip, dst: Ip) returns (check: U16)
    requires buf.Valid() && buf.len <= 65535 && buf.data >= PSEUDO_LEN
    requires buf.len % 2 == 1 ==> buf.data + buf.len + 1 < BUF_MAX_LEN
    modifies buf, buf.payload
    ensures buf.Valid() && buf.data == old(buf.data) - PSEUDO_LEN
    ensures buf.len == PSEUDO_LEN + old(buf.len) + old(buf.len) % 2
    ensures buf.payload[..] == Touched(Splice(old(buf.payload[..]), buf.data, Pseudo(src, dst, old(buf.len))),
      old(buf.data + buf.len), old(buf.len))
    ensures check == UdpCheck(old(buf.Window()), src, dst)
  {
    hide Splice, Canon, SumLe, Pseudo, Even, Touched, UdpCheck, Complement;
    var totalLen := buf.len;
    ghost var datagram, all, end := buf.Window(), buf.payload[..], buf.data + buf.len;
    ghost var pseudo := Pseudo(src, dst, totalLen);
    var _ := buf.AddHeader(PSEUDO_LEN);
    WritePseudo(buf, src, dst, totalLen);
    assert buf.Window() == pseudo + datagram;
    CheckIs(datagram, src, dst);
    EvenPart(pseudo, datagram);
    SameParity(buf.payload[..], end, totalLen);
    check := PadAndSum(buf);
  }

  /** `udp_checksum`. It needs the twelve bytes in front and, for odd lengths, one behind. Afterwards the window
  is where it was and nothing in the buffer has changed but that one byte behind an odd datagram. */
  method UdpChecksum(buf: Packet, src: Ip, dst: Ip) returns (check: U16)
    requires buf.Valid() && buf.len <= 65535 && buf.data >= PSEUDO_LEN
    requires buf.len % 2 == 1 ==> buf.data + buf.len + 1 < BUF_MAX_LEN
    modifies buf, buf.payload
    ensures buf.Valid() && buf.data == old(buf.data) && buf.len == old(buf.len)
    ensures buf.Window() == old(buf.Window())
    ensures buf.payload[..] == Touched(old(buf.payload[..]), old(buf.data + buf.len), old(buf.len))
    ensures check == UdpCheck(old(buf.Window()), src, dst)
  {
    hide Splice, Pseudo, Touched, UdpCheck;
    var totalLen := buf.len;
    ghost var all, at, end := buf.payload[..], buf.data - PSEUDO_LEN, buf.data + buf.len;
    var saved := buf.payload[buf.data - PSEUDO_LEN..buf.data];
    check := SumWithPseudo(buf, src, dst);
    GiveBack(buf, saved, totalLen % 2);
    Restored(all, at, Pseudo(src, dst, totalLen), saved, end, totalLen);
    TouchedOutside(all, buf.data, end, totalLen);
  }

  /** Lines 41-44 of `udp_checksum`. */
  method GiveBack(buf: Packet, saved: seq<Byte>, padding: nat)
    requires buf.Valid() && |saved| == PSEUDO_LEN && buf.len >= PSEUDO_LEN + padding
    modifies buf, buf.payload
    ensures buf.Valid() && buf.data == old(buf.data) + PSEUDO_LEN && buf.len == old(buf.len) - PSEUDO_LEN - padding
    ensures buf.payload[..] == Splice(old(buf.payload[..]), old(buf.data), saved)
  {
    buf.Store(0, saved);
    var _ := buf.RemoveHeader(PSEUDO_LEN);
    if padding != 0 {
      var _ := buf.RemovePadding(padding);
    }
  }

  lemma SameParity(all: seq<Byte>, end: nat, len: nat)
    requires len % 2 == 1 ==> end < |all|
    ensures Touched(all, end, len + PSEUDO_LEN) == Touched(all, end, len)
  {
  }

  lemma TouchedOutside(all: seq<Byte>, from: nat, end: nat, len: nat)
    requires from <= end <= |all| && (len % 2 == 1 ==> end < |all|)
    ensures Touched(all, end, len)[from..end] == all[from..end]
  {
  }

  lemma EvenPart(a: seq<Byte>, b: seq<Byte>)
    requires |a| % 2 == 0
    ensures Even(a + b) == a + Even(b)
  {
  }

  /** Putting the borrowed bytes back undoes everything but the padding byte. */
  lemma Restored(p: seq<Byte>, at: nat, pseudo: seq<Byte>, saved: seq<Byte>, end: nat, len: nat)
    requires |pseudo| == |saved| == PSEUDO_LEN && at + PSEUDO_LEN <= end <= |p| && (len % 2 == 1 ==> end < |p|)
    requires saved == p[at..at + PSEUDO_LEN]
    ensures Splice(Touched(Splice(p, at, pseudo), end, len), at, saved) == Touched(p, end, len)
  {
  }

  // ---------- datagrams

  function UdpHeader(srcPort: U16, dstPort: U16, len: nat, check: U16): (h: seq<Byte>)
    ensures |h| == HDR_LEN
  {
    Be16(srcPort) + Be16(dstPort) + Be16(len % 0x1_0000) + Store16(check)
  }

  function Datagram(src: Ip, dst: Ip, srcPort: U16, dstPort: U16, payload: seq<Byte>): (d: seq<Byte>)
    ensures |d| == HDR_LEN + |payload|
  {
    var len := HDR_LEN + |payload|;
    UdpHeader(srcPort, dstPort, len, UdpCheck(UdpHeader(srcPort, dstPort, len, 0) + payload, src, dst)) + payload
  }

  datatype Verdict =
    | Dropped
    | PortUnreachable(port: U16)
    | Deliver(handler: Handler, port: U16, payload: seq<Byte>)

  /** A zero checksum field means that there is none. */
  predicate CheckOk(b: seq<Byte>, src: Ip, dst: Ip)
    requires |b| >= HDR_LEN
  {
    Load16(b, 6) == 0 || Load16(b, 6) == UdpCheck(Splice(b, 6, [0, 0]), src, dst)
  }

  function UdpAccept(b: seq<Byte>, src: Ip, local: Ip, handlers: ExpMap<U16, Handler>, now: nat): Verdict
  {
    if |b| < HDR_LEN || !CheckOk(b, src, local) then Dropped
    else
      var port := Swap16(Load16(b, 2));
      match Lookup(handlers, port, now)
      case None => PortUnreachable(port)
      case Some(h) => Deliver(h, port, b[HDR_LEN..])
  }

  /** A datagram from `udp_out` always passes the check of `udp_in` and arrives at its port as it was sent. */
  lemma DatagramAccepted(src: Ip, dst: Ip, srcPort: U16, dstPort: U16, payload: seq<Byte>,
      handlers: ExpMap<U16, Handler>, now: nat)
    ensures UdpAccept(Datagram(src, dst, srcPort, dstPort, payload), src, dst, handlers, now)
         == match Lookup(handlers, dstPort, now)
            case None => PortUnreachable(dstPort)
            case Some(h) => Deliver(h, dstPort, payload)
  {
    hide UdpCheck, Be16, Swap16;
    var len := HDR_LEN + |payload|;
    var blank := UdpHeader(srcPort, dstPort, len, 0) + payload;
    var check := UdpCheck(blank, src, dst);
    var d := Datagram(src, dst, srcPort, dstPort, payload);
    assert d[2..4] == Be16(dstPort);
    Loaded16(d, 2, dstPort);
    assert d[6] == Store16(check)[0] && d[7] == Store16(check)[1];
    StoreSwapped16(check);
    assert Load16(d, 6) == Load16(Store16(check), 0);
    assert Splice(d, 6, [0, 0]) == blank;
    assert d[HDR_LEN..] == payload;
  }

  /** The UDP module: its address, its port table, and what it gives to `ip_out`. */
  class UdpLayer {
    const localIp: Ip
    const table: SlotMap.Map<U16, Handler>
    var sent: seq<(Ip, seq<Byte>)>

    /** The port table has no timeout and more slots than there are ports. */
    ghost predicate Valid()
      reads this, table, table.slots
    {
      table.Valid() && table.timeout == 0 && table.slots.Length > 0x1_0000
    }

    constructor (ip: Ip)
      ensures localIp == ip && sent == [] && Valid() && fresh(table) && fresh(table.slots)
      ensures table.model.entries == map[] && table.clock == 0
    {
      ListenerSlots();
      localIp := ip;
      table := new SlotMap.Map<U16, Handler>(2, 8, 0, 0);
      sent := [];
    }

    /** `udp_open` always opens the port: from now on it is found with this handler, and every other port as before. */
    method UdpOpen(port: U16, handler: Handler, now: nat) returns (r: int)
      requires Valid() && 0 < now && table.clock <= now
      modifies table, table.slots
      ensures Valid() && table.clock == now && r == 0
      ensures forall p, later ::
        Lookup(table.model, p, later) == if p == port then Some(handler) else Lookup(old(table.model), p, later)
    {
      hide Refines;
      TimePasses(table.Contents(), table.model, table.clock, now);
      PortsFit(table.Contents(), table.model, port, now);
      r := table.Set(port, handler, now);
    }

    /** `udp_close` */
    method UdpClose(port: U16, now: nat)
      requires Valid() && 0 < now && table.clock <= now
      modifies table, table.slots
      ensures Valid() && table.clock == now
      ensures forall p, later ::
        Lookup(table.model, p, later) == if p == port then None else Lookup(old(table.model), p, later)
    {
      table.Delete(port, now);
    }

    /** Lines 91-99 of `udp_out`. The datagram must fit its 16-bit length, with room in front for both headers. */
    method MakeDatagram(buf: Packet, srcPort: U16, dst: Ip, dstPort: U16)
      requires buf.Valid() && buf.len <= 65535 - HDR_LEN && buf.data >= HDR_LEN + PSEUDO_LEN
      requires buf.data + buf.len + 1 < BUF_MAX_LEN
      modifies buf, buf.payload
      ensures buf.Valid()
      ensures buf.Window() == Datagram(localIp, dst, srcPort, dstPort, old(buf.Window()))
    {
      hide Splice, Swap16, Store16, Be16, UdpCheck;
      ghost var payload := buf.Window();
      var _ := buf.AddHeader(HDR_LEN);
      assert buf.Window()[HDR_LEN..] == payload;
      var len := buf.len;
      WriteHeader(buf, srcPort, dstPort, len);
      var check := UdpChecksum(buf, localIp, dst);
      buf.Store(6, Store16(check));
      CheckStored(srcPort, dstPort, len, check, payload);
    }

    /** `udp_out`, with what `ip_out` is given as an output log; what `ip_out` does to the buffer is left open. */
    method UdpOut(buf: Packet, srcPort: U16, dst: Ip, dstPort: U16)
      requires buf.Valid() && buf.len <= 65535 - HDR_LEN && buf.data >= HDR_LEN + PSEUDO_LEN
      requires buf.data + buf.len + 1 < BUF_MAX_LEN
      modifies this`sent, buf, buf.payload
      ensures buf.Valid()
      ensures sent == old(sent) + [(dst, Datagram(localIp, dst, srcPort, dstPort, old(buf.Window())))]
    {
      hide Datagram;
      MakeDatagram(buf, srcPort, dst, dstPort);
      sent := sent + [(dst, buf.Window())];
    }

    lemma CheckStored(srcPort: U16, dstPort: U16, len: nat, check: U16, payload: seq<Byte>)
      ensures Splice(UdpHeader(srcPort, dstPort, len, 0) + payload, 6, Store16(check)) ==
          UdpHeader(srcPort, dstPort, len, check) + payload
    {
    }

    method WriteHeader(buf: Packet, srcPort: U16, dstPort: U16, len: nat)
      requires buf.Valid() && buf.len >= HDR_LEN
      modifies buf.payload
      ensures buf.Window() == UdpHeader(srcPort, dstPort, len, 0) + old(buf.Window())[HDR_LEN..]
    {
      hide Splice, Swap16, Store16, Be16;
      ghost var w := buf.Window();
      ghost var rest, room := w[HDR_LEN..], w[..HDR_LEN];
      StoreSwapped16(srcPort);
      StoreSwapped16(dstPort);
      StoreSwapped16(len % 0x1_0000);
      assert w == [] + room + rest;
      FieldStored(w, [], room, rest, Be16(srcPort));
      buf.Store(0, Store16(Swap16(srcPort)));
      FieldStored(buf.Window(), [] + Be16(srcPort), room[2..], rest, Be16(dstPort));
      buf.Store(2, Store16(Swap16(dstPort)));
      FieldStored(buf.Window(), [] + Be16(srcPort) + Be16(dstPort), room[2..][2..], rest, Be16(len % 0x1_0000));
      buf.Store(4, Store16(Swap16(len % 0x1_0000)));
      FieldStored(buf.Window(), [] + Be16(srcPort) + Be16(dstPort) + Be16(len % 0x1_0000),
          room[2..][2..][2..], rest, Store16(0));
      buf.Store(6, Store16(0));
      assert room[2..][2..][2..][2..] == [];
      assert [] + Be16(srcPort) + Be16(dstPort) + Be16(len % 0x1_0000) + Store16(0) + [] + rest ==
          UdpHeader(srcPort, dstPort, len, 0) + rest;
    }

    /** The checksum test of `udp_in` (src/udp.c:62-66); the field is blanked for it and put back if it passes. */
    method CheckIn(buf: Packet, src: Ip) returns (ok: bool)
      requires buf.Valid() && HDR_LEN <= buf.len <= 65535 && buf.data >= PSEUDO_LEN
      requires buf.data + buf.len + 1 < BUF_MAX_LEN
      modifies buf, buf.payload
      ensures buf.Valid() && buf.data == old(buf.data) && buf.len == old(buf.len)
      ensures ok == CheckOk(old(buf.Window()), src, localIp)
      ensures ok ==> buf.Window() == old(buf.Window())
    {
      hide Splice, Swap16, UdpCheck, Load16, Touched, Store16;
      var b := buf.Window();
      var stored := Load16(b, 6);
      buf.Store(6, [0, 0]);
      if stored != 0 {
        var computed := UdpChecksum(buf, src, localIp);
        if stored != computed {
          return false;
        }
      }
      StoreSwapped16(stored);
      buf.Store(6, b[6..8]);
      FieldBack(b);
      return true;
    }

    lemma FieldBack(b: seq<Byte>)
      requires |b| >= HDR_LEN
      ensures Splice(Splice(b, 6, [0, 0]), 6, b[6..8]) == b
    {
    }

    /** `udp_in`: the destination port is swapped in place before it is looked up; for a port without a handler
    the window is moved back over the IP header for the ICMP answer. */
    method UdpIn(buf: Packet, src: Ip, now: nat) returns (v: Verdict)
      requires table.Valid() && table.clock <= now
      requires buf.Valid() && buf.len <= 65535 && buf.data >= IP_HDR_LEN && buf.data + buf.len + 1 < BUF_MAX_LEN
      modifies buf, buf.payload
      ensures buf.Valid()
      ensures v == UdpAccept(old(buf.Window()), src, localIp, table.model, now)
      ensures v.Deliver? ==> buf.Window() == v.payload
      ensures v.PortUnreachable? ==> buf.data == old(buf.data) - IP_HDR_LEN && buf.len == old(buf.len) + IP_HDR_LEN
    {
      hide Splice, Swap16, Load16, UdpCheck, CheckOk;
      if buf.len < HDR_LEN {
        return Dropped;
      }
      ghost var was := buf.Window();
      var ok := CheckIn(buf, src);
      if !ok {
        return Dropped;
      }
      var port := Swap16(Load16(buf.Window(), 2));
      buf.Store(2, Store16(port));
      PortStored(was, port);
      var entry := table.Get(port, now);
      if entry.None? {
        var _ := buf.AddHeader(IP_HDR_LEN);
        return PortUnreachable(port);
      }
      var h := table.slots[entry.value].value;
      var _ := buf.RemoveHeader(HDR_LEN);
      return Deliver(h, port, buf.Window());
    }

    lemma PortStored(b: seq<Byte>, port: U16)
      requires |b| >= HDR_LEN
      ensures Splice(b, 2, Store16(port))[HDR_LEN..] == b[HDR_LEN..]
    {
    }
  }
}
