/** src/tcp.c in place: connection and listener tables, transmit buffer and the log of `ip_out`. The ghost
field `state` is the machine of `TcpMachine` that the object runs. */
module TcpEngine {
  import opened Words
  import opened ExpiringMap
  import opened SlotTable
  import opened TcpTrace
  import opened TcpMachine
  import opened TcpSegment
  import opened TcpPorts
  import opened Buf
  import SlotMap

  const CONNECTIONS := 64
  const TCP_TIMEOUT_SEC := 300
  const KEY_LEN := 8
  const CONN_LEN := 24
  const PORT_LEN := 2
  const HANDLER_LEN := 8

  /** What `ip_out` was given: destination and bytes. */
  type Sent = (Ip, seq<Byte>)

  function Wire(t: seq<Effect>, ip: Ip): seq<Sent>
  {
    if |t| == 0 then []
    else
      Wire(t[..|t| - 1], ip) + match t[|t| - 1]
        case Tx(k, x) => [(k.remoteIp, Encode(ip, k.remoteIp, k.localPort, k.remotePort, x))]
        case _ => []
  }

  lemma WireSnoc(t: seq<Effect>, e: Effect, ip: Ip)
    ensures Wire(t + [e], ip) == if e.Tx?
      then Wire(t, ip) + [(e.key.remoteIp, Encode(ip, e.key.remoteIp, e.key.localPort, e.key.remotePort, e.seg))]
      else Wire(t, ip)
  {
    assert (t + [e])[..|t|] == t;
  }

  /** The segments sent, in order. */
  function Sendings(t: seq<Effect>): seq<(Key, Segment)>
  {
    if |t| == 0 then []
    else Sendings(t[..|t| - 1]) + match t[|t| - 1]
      case Tx(k, x) => [(k, x)]
      case _ => []
  }

  /** Every segment of the trace goes to its peer, which decodes it to the ports and the segment that were sent. */
  lemma {:induction false} WireDecodes(t: seq<Effect>, ip: Ip)
    requires forall e :: e in t && e.Tx? ==> |e.seg.data| <= 65535
    ensures |Wire(t, ip)| == |Sendings(t)|
    ensures forall i :: 0 <= i < |Sendings(t)| ==>
      var (k, x) := Sendings(t)[i];
      var (to, bytes) := Wire(t, ip)[i];
      to == k.remoteIp && Decode(bytes, ip, to) == Some(Parsed(k.localPort, k.remotePort, x))
  {
    hide Encode, Decode;
    if |t| > 0 {
      var init, e := t[..|t| - 1], t[|t| - 1];
      assert forall a :: a in init ==> a in t;
      WireDecodes(init, ip);
      if e.Tx? {
        RoundTrip(ip, e.key.remoteIp, e.key.localPort, e.key.remotePort, e.seg);
      }
    }
  }

  /** The handler's clock readings are in order and not before `from`. */
  predicate InOrder(script: seq<Action>, from: nat)
  {
    |script| > 0 ==>
      InOrder(script[..|script| - 1], from) && LastClock(script[..|script| - 1], from) <= script[|script| - 1].now
  }

  function LastClock(script: seq<Action>, from: nat): nat
  {
    if |script| == 0 then from else script[|script| - 1].now
  }

  class Engine {
    const connections: SlotMap.Map<Key, Conn>
    const listeners: SlotMap.Map<U16, Handler>
    const txbuf: Packet
    const localIp: Ip
    var nextIsn: U32
    var out: seq<Sent>
    ghost var state: Tcp

    ghost function Repr(): set<object>
    {
      {this, connections, connections.slots, listeners, listeners.slots, txbuf, txbuf.payload}
    }

    ghost predicate Apart()
    {
      && connections as object !in {listeners as object, txbuf, this}
      && listeners as object !in {txbuf as object, this}
      && connections.slots as object !in {listeners.slots as object, txbuf.payload}
      && listeners.slots as object != txbuf.payload as object
    }

    ghost predicate Valid()
      reads Repr()
    {
      && Apart()
      && connections.Valid() && listeners.Valid() && txbuf.Valid()
      && listeners.timeout == 0 && listeners.slots.Length > 0x1_0000
      && state.conns == connections.model && state.listeners == listeners.model
      && state.isn == nextIsn
      && out == Wire(state.trace, localIp)
    }

    /** The clock has not gone back behind `now`. */
    ghost predicate ClockBy(now: nat)
      reads connections, listeners
    {
      0 < now && connections.clock <= now && listeners.clock <= now
    }

    /** `tcp_init` */
    constructor (time: nat, ip: Ip)
      ensures Valid() && fresh(Repr())
      ensures Initial(state) && ClockBy(time + 1)
      ensures connections.slots.Length == 64 && connections.timeout == TCP_TIMEOUT_SEC
      ensures localIp == ip && state.isn == Wrap(1000 * time)
    {
      hide Refines, Encode, Wrap, Live, Fresh;
      connections := new SlotMap.Map<Key, Conn>(KEY_LEN, CONN_LEN, CONNECTIONS, TCP_TIMEOUT_SEC);
      listeners := new SlotMap.Map<U16, Handler>(PORT_LEN, HANDLER_LEN, 0, 0);
      txbuf := new Packet();
      localIp := ip;
      ListenerSlots();
      nextIsn := Wrap(Wrap(time) * 1000);
      ClockScaled(time);
      out := [];
      new;
      state := Tcp(connections.model, listeners.model, nextIsn, []);
    }

    static lemma ClockScaled(time: nat)
      ensures Wrap(Wrap(time) * 1000) == Wrap(1000 * time)
    {
      var a := Wrap(time) * 1000;
      WrapUnique(1000 * time, 1000 * (time / 0x1_0000_0000) + a / 0x1_0000_0000, Wrap(a));
    }

    /** Nothing but the ghost trace moves. */
    ghost method Note(e: Effect)
      requires Valid() && !e.Tx?
      modifies this`state
      ensures Valid() && state == Log(old(state), e)
    {
      WireSnoc(state.trace, e, localIp);
      state := Log(state, e);
    }

    /** `tcp_out` with `ip_out` as an output log. */
    method Emit(k: Key, x: Segment) returns (r: int)
      requires Valid()
      modifies this`out, this`state, txbuf, txbuf.payload
      ensures Valid()
      ensures |x.data| <= BUF_MAX_LEN / 2 - HDR_LEN ==> r == 0 && state == Log(old(state), Tx(k, x))
      ensures |x.data| > BUF_MAX_LEN / 2 - HDR_LEN ==> r == -1 && state == old(state)
    {
      hide Encode, Wire, Wrap, Refines;
      r := Build(txbuf, localIp, k.remoteIp, k.localPort, k.remotePort, x);
      if r < 0 {
        return -1;
      }
      WireSnoc(state.trace, Tx(k, x), localIp);
      out := out + [(k.remoteIp, txbuf.Window())];
      state := Log(state, Tx(k, x));
    }

    /** The slots keep their keys and stamps, so pointers into the table stay good. */
    twostate predicate PointersKept()
      reads connections, connections.slots
    {
      && connections.clock == old(connections.clock)
      && forall i :: 0 <= i < connections.slots.Length ==>
           connections.slots[i].key == old(connections.slots[i].key)
               && connections.slots[i].stamp == old(connections.slots[i].stamp)
    }

    /** `p` points to the record of `k`. */
    ghost predicate PointsTo(p: nat, k: Key)
      reads connections, connections.slots
    {
      && p < connections.slots.Length
      && Holds(connections.slots[p], k, connections.timeout, connections.clock)
    }

    lemma Deref(p: nat, k: Key)
      requires Valid() && PointsTo(p, k)
      ensures k in state.conns.entries && state.conns.entries[k].value == connections.slots[p].value
      ensures Find(connections.Contents(), k, connections.clock) == p
    {
      FoundIsUnique(connections.Contents(), k, connections.clock, p);
    }

    /** A field of the record is assigned through the pointer. */
    method Assign(p: nat, k: Key, c: Conn)
      requires Valid() && PointsTo(p, k)
      modifies this`state, connections, connections.slots
      ensures Valid() && state == Store(old(state), k, c)
      ensures PointersKept() && PointsTo(p, k) && connections.slots[p].value == c
    {
      Deref(p, k);
      connections.Write(p, k, c);
      state := Store(state, k, c);
    }

    method SetState(p: nat, k: Key, to: State)
      requires Valid() && PointsTo(p, k)
      modifies this`state, connections, connections.slots
      ensures Valid() && state == Move(old(state), k, old(connections.slots[p].value), to)
      ensures PointersKept() && PointsTo(p, k)
    {
      var c := connections.slots[p].value;
      Assign(p, k, c.(state := to));
      Note(Moved(k, c.state, to));
    }

    /** `tcp_send`; the payload length is a `uint16_t`, and the data pointer may be null. */
    method TcpSend(k: Key, data: Option<seq<Byte>>, len: nat, now: nat) returns (r: int)
      requires Valid() && ClockBy(now) && len <= 65535 && (data.Some? ==> |data.value| == len)
      modifies this`out, this`state, txbuf, txbuf.payload, connections, connections.slots
      ensures Valid() && PointersKept()
      ensures data.None? && len > 0 ==> state == old(state)
      ensures data.Some? || len == 0 ==> state == Act(old(state), Send(k, if data.Some? then data.value else [], now))
      ensures r == if Ready(old(state), k, now) && (data.Some? || len == 0) then 0 else -1
    {
      hide Refines, Wire, Encode, Wrap, Find, Poke, Log;
      var connection := connections.Get(k, now);
      if connection.None? || connections.slots[connection.value].value.state != Established
        || (data.None? && len > 0) {
        return -1;
      }
      var p := connection.value;
      Deref(p, k);
      var c := connections.slots[p].value;
      var flags := if len == 0 then ACK else PSH_ACK;
      r := Emit(k, Segment(c.sndNxt, c.rcvNxt, flags, if data.Some? then data.value else []));
      if r < 0 {
        return -1;
      }
      Assign(p, k, c.(sndNxt := Wrap(c.sndNxt + len)));
      return 0;
    }

    /** Sending our FIN through the pointer and leaving ESTABLISHED. */
    method FinVia(p: nat, k: Key, to: State)
      requires Valid() && PointsTo(p, k)
      modifies this`out, this`state, txbuf, txbuf.payload, connections, connections.slots
      ensures Valid() && PointersKept()
      ensures state == SendFin(old(state), k, old(connections.slots[p].value), to)
    {
      hide Refines, Wire, Encode, Wrap, Find, Poke, Log;
      var c := connections.slots[p].value;
      var r := Emit(k, Segment(c.sndNxt, c.rcvNxt, FIN_ACK, []));
      Assign(p, k, c.(sndNxt := Wrap(c.sndNxt + 1)));
      SetState(p, k, to);
    }

    /** `tcp_close` */
    method TcpClose(k: Key, now: nat) returns (r: int)
      requires Valid() && ClockBy(now)
      modifies this`out, this`state, txbuf, txbuf.payload, connections, connections.slots
      ensures Valid() && PointersKept()
      ensures state == Act(old(state), Close(k, now))
      ensures r == if Ready(old(state), k, now) then 0 else -1
    {
      var connection := connections.Get(k, now);
      if connection.None? || connections.slots[connection.value].value.state != Established {
        return -1;
      }
      Deref(connection.value, k);
      FinVia(connection.value, k, FinWait1);
      return 0;
    }

    /** `tcp_listen`; the handler pointer may be null, and that is the only way to fail. */
    method TcpListen(port: U16, handler: Option<Handler>, now: nat) returns (r: int)
      requires Valid() && ClockBy(now)
      modifies this`state, listeners, listeners.slots
      ensures Valid() && ClockBy(now)
      ensures handler.None? ==> r == -1 && state == old(state)
      ensures handler.Some? ==> state == Act(old(state), Listen(port, handler.value, now))
      ensures r == if handler.Some? then 0 else -1
    {
      hide Wire, Encode, Find, Refines;
      if handler.None? {
        return -1;
      }
      TimePasses(listeners.Contents(), listeners.model, listeners.clock, now);
      PortsFit(listeners.Contents(), listeners.model, port, now);
      r := listeners.Set(port, handler.value, now);
      if r == 0 {
        WireSnoc(state.trace, Listening(port, handler.value), localIp);
        state := Log(state.(listeners := listeners.model), Listening(port, handler.value));
      }
    }

    /** `tcp_unlisten` */
    method TcpUnlisten(port: U16, now: nat)
      requires Valid() && ClockBy(now)
      modifies this`state, listeners, listeners.slots
      ensures Valid() && ClockBy(now)
      ensures state == Act(old(state), Unlisten(port, now))
    {
      hide Wire, Encode, Refines;
      listeners.Delete(port, now);
      WireSnoc(state.trace, Unlistened(port), localIp);
      state := Log(state.(listeners := listeners.model), Unlistened(port));
    }

    /** The call `connection->handler(...)`: the handler makes the calls of `script`. */
    method CallHandler(script: seq<Action>, from: nat)
      requires Valid() && ClockBy(from) && InOrder(script, from)
      requires forall a :: a in script && a.Send? ==> |a.data| <= 65535
      modifies this`out, this`state, txbuf, txbuf.payload, connections, connections.slots, listeners, listeners.slots
      ensures Valid() && PointersKept() && ClockBy(LastClock(script, from))
      ensures state == RunScript(old(state), script)
    {
      hide Refines, Wire, Encode, Wrap, Find, Poke, Log, Act, Ready, Live;
      var i := 0;
      assert script[..|script|] == script;
      while i < |script|
        invariant 0 <= i <= |script| && Valid() && PointersKept()
        invariant InOrder(script[..i], from) ==> ClockBy(LastClock(script[..i], from))
        invariant state == RunScript(old(state), script[..i])
      {
        InOrderPrefix(script, i + 1, from);
        InOrderPrefix(script, i, from);
        assert script[..i + 1][..i] == script[..i];
        var a := script[i];
        assert a in script;
        ClockLater(LastClock(script[..i], from), a.now);
        match a {
          case Send(k, data, now) => var _ := TcpSend(k, Some(data), |data|, now);
          case Close(k, now) => var _ := TcpClose(k, now);
          case Listen(port, h, now) => var _ := TcpListen(port, Some(h), now);
          case Unlisten(port, now) => TcpUnlisten(port, now);
        }
        i := i + 1;
      }
    }

    lemma ClockLater(from: nat, now: nat)
      requires ClockBy(from) && from <= now
      ensures ClockBy(now)
    {
    }

    lemma {:induction false} InOrderPrefix(script: seq<Action>, n: nat, from: nat)
      requires InOrder(script, from) && n <= |script|
      ensures InOrder(script[..n], from)
      decreases |script|
    {
      if n < |script| {
        InOrderPrefix(script[..|script| - 1], n, from);
        assert script[..|script| - 1][..n] == script[..n];
      } else {
        assert script[..n] == script;
      }
    }

    /** `tcp_reset` */
    method TcpReset(k: Key, x: Segment)
      requires Valid()
      modifies this`out, this`state, txbuf, txbuf.payload
      ensures Valid() && state == Reset(old(state), k, x)
    {
      hide Wrap, Refines;
      if Rst(x.flags) {
        return;
      }
      if Ack(x.flags) {
        var _ := Emit(k, Segment(x.ackNo, 0, RST, []));
      } else {
        var _ := Emit(k, Segment(0, Wrap(x.seqNo + SeqLen(x)), RST_ACK, []));
      }
    }

    /** `map_delete` of a connection. */
    method DropConnection(k: Key, now: nat, ghost acked: bool)
      requires Valid() && ClockBy(now)
      modifies this`state, connections, connections.slots
      ensures Valid() && ClockBy(now)
      ensures state == Drop(old(state), k, now, acked)
    {
      connections.Delete(k, now);
      WireSnoc(state.trace, Removed(k, acked), localIp);
      state := Log(state.(conns := connections.model), Removed(k, acked));
    }

    /** src/tcp.c:134-155 */
    method NoConnection(k: Key, x: Segment, now: nat)
      requires Valid() && ClockBy(now)
      modifies this, txbuf, txbuf.payload, connections, connections.slots
      ensures Valid() && ClockBy(now) && state == Knock(old(state), k, x, now)
    {
      hide Refines, Wire, Encode, Wrap, Find;
      var listener := listeners.Get(k.localPort, now);
      if !Syn(x.flags) || Ack(x.flags) || listener.None? {
        TcpReset(k, x);
        return;
      }
      var h := listeners.slots[listener.value].value;
      var c := Conn(SynReceived, Wrap(nextIsn + 1), Wrap(x.seqNo + 1), h);
      ghost var isn := nextIsn;
      nextIsn := Wrap(nextIsn + 64000);
      state := state.(isn := nextIsn);
      var r := connections.Set(k, c, now);
      if r < 0 {
        return;
      }
      WireSnoc(state.trace, Opened(k, isn, x.seqNo, h), localIp);
      state := Log(state.(conns := connections.model), Opened(k, isn, x.seqNo, h));
      WrapBack(isn);
      r := Emit(k, Segment(Wrap(c.sndNxt - 1), c.rcvNxt, SYN_ACK, []));
    }

    lemma WrapBack(isn: U32)
      ensures Wrap(Wrap(isn + 1) - 1) == isn
    {
      WrapAdd(isn + 1, -1);
    }

    /** src/tcp.c:163-176 */
    method InSynReceived(p: nat, k: Key, x: Segment)
      requires Valid() && PointsTo(p, k)
      modifies this`out, this`state, txbuf, txbuf.payload, connections, connections.slots
      ensures Valid() && PointersKept()
      ensures state == Handshake(old(state), k, old(connections.slots[p].value), x)
    {
      hide Refines, Wire, Encode, Wrap, Find, Poke, Log;
      var c := connections.slots[p].value;
      if Syn(x.flags) && !Ack(x.flags) && Wrap(x.seqNo + 1) == c.rcvNxt {
        var _ := Emit(k, Segment(Wrap(c.sndNxt - 1), c.rcvNxt, SYN_ACK, []));
        return;
      }
      if Ack(x.flags) && x.ackNo == c.sndNxt && x.seqNo == c.rcvNxt {
        SetState(p, k, Established);
      } else {
        TcpReset(k, x);
      }
    }

    /** src/tcp.c:212-227 */
    method OnFin(p: nat, k: Key)
      requires Valid() && PointsTo(p, k) && k in state.conns.entries
      modifies this`out, this`state, txbuf, txbuf.payload, connections, connections.slots
      ensures Valid() && PointersKept()
      ensures state == PeerFin(old(state), k)
    {
      Deref(p, k);
      var c := connections.slots[p].value;
      if c.state == Established {
        FinVia(p, k, LastAck);
      } else {
        var _ := Emit(k, Segment(c.sndNxt, c.rcvNxt, ACK, []));
        SetState(p, k, if c.state == FinWait1 then Closing else FinWait2);
      }
    }

    /** src/tcp.c:203-210, up to the handler. */
    method AcceptText(p: nat, k: Key, x: Segment)
      requires Valid() && PointsTo(p, k)
      modifies this`out, this`state, txbuf, txbuf.payload, connections, connections.slots
      ensures Valid() && PointersKept()
      ensures state == Take(old(state), k, old(connections.slots[p].value), x)
    {
      hide Refines, Wire, Encode, Wrap, Find, Poke, Log;
      var c := connections.slots[p].value;
      var c1 := c.(rcvNxt := Wrap(c.rcvNxt + SeqLen(x)));
      Assign(p, k, c1);
      Note(Accepted(k, x));
      if x.data != [] && c.state == Established {
        var _ := Emit(k, Segment(c1.sndNxt, c1.rcvNxt, ACK, []));
        Note(Delivered(k, c1.handler, x.data));
      }
    }

    /** src/tcp.c:195-227 */
    method OnText(p: nat, k: Key, x: Segment, now: nat, script: seq<Action>)
      requires Valid() && PointsTo(p, k) && ClockBy(now) && InOrder(script, now)
      requires forall a :: a in script && a.Send? ==> |a.data| <= 65535
      requires k in state.conns.entries
      modifies this`out, this`state, txbuf, txbuf.payload, connections, connections.slots, listeners, listeners.slots
      ensures Valid() && ClockBy(LastClock(script, now))
      ensures state == Text(old(state), k, old(connections.slots[p].value), x, script)
    {
      hide Refines, Wire, Encode, Wrap, Find, Poke, Log;
      var c := connections.slots[p].value;
      LastClockLater(script, now);
      if SeqLen(x) == 0 {
        ClockLater(now, LastClock(script, now));
        return;
      }
      if x.seqNo != c.rcvNxt {
        var _ := Emit(k, Segment(c.sndNxt, c.rcvNxt, ACK, []));
        ClockLater(now, LastClock(script, now));
        return;
      }
      AcceptText(p, k, x);
      if x.data != [] && c.state == Established {
        CallHandler(script, now);
      }
      if Fin(x.flags) {
        Deref(p, k);
        OnFin(p, k);
      }
      if !(x.data != [] && c.state == Established) {
        ClockLater(now, LastClock(script, now));
      }
    }

    lemma {:induction false} LastClockLater(script: seq<Action>, from: nat)
      requires InOrder(script, from)
      ensures from <= LastClock(script, from)
    {
      if |script| > 0 {
        LastClockLater(script[..|script| - 1], from);
      }
    }

    /** `tcp_in` on a decoded segment (src/tcp.c:132-228). */
    method OnSegment(k: Key, x: Segment, now: nat, script: seq<Action>)
      requires Valid() && ClockBy(now) && InOrder(script, now)
      requires forall a :: a in script && a.Send? ==> |a.data| <= 65535
      modifies this, txbuf, txbuf.payload, connections, connections.slots, listeners, listeners.slots
      ensures Valid() && ClockBy(LastClock(script, now))
      ensures state == Receive(old(state), k, x, now, script)
    {
      hide Refines, Wire, Encode, Wrap, Find;
      LastClockLater(script, now);
      Note(Arrived(k, x));
      var connection := connections.Get(k, now);
      if connection.None? {
        NoConnection(k, x, now);
        ClockLater(now, LastClock(script, now));
        return;
      }
      var p := connection.value;
      Deref(p, k);
      if Rst(x.flags) {
        DropConnection(k, now, false);
        ClockLater(now, LastClock(script, now));
        return;
      }
      if connections.slots[p].value.state == SynReceived {
        InSynReceived(p, k, x);
        ClockLater(now, LastClock(script, now));
        return;
      }
      if (connections.slots[p].value.state == FinWait1 || connections.slots[p].value.state == LastAck)
        && Ack(x.flags) && x.ackNo == connections.slots[p].value.sndNxt {
        if connections.slots[p].value.state == LastAck {
          DropConnection(k, now, true);
          ClockLater(now, LastClock(script, now));
          return;
        }
        SetState(p, k, FinWait2);
        Deref(p, k);
      } else if connections.slots[p].value.state == Closing
        && Ack(x.flags) && x.ackNo == connections.slots[p].value.sndNxt {
        DropConnection(k, now, true);
        ClockLater(now, LastClock(script, now));
        return;
      }
      OnText(p, k, x, now, script);
    }

    /** `tcp_in`: a packet that fails the length, offset or checksum test changes nothing. */
    method TcpIn(buf: Packet, srcIp: Ip, now: nat, script: seq<Action>)
      requires Valid() && ClockBy(now) && InOrder(script, now)
      requires forall a :: a in script && a.Send? ==> |a.data| <= 65535
      requires buf.Valid() && buf !in Repr() && buf.payload !in Repr()
      modifies this, txbuf, txbuf.payload, connections, connections.slots, listeners, listeners.slots
      ensures Valid() && ClockBy(LastClock(script, now))
      ensures state == match Decode(buf.Window(), srcIp, localIp)
        case None => old(state)
        case Some(q) => Receive(old(state), Key(q.dstPort, srcIp, q.srcPort), q.seg, now, script)
    {
      LastClockLater(script, now);
      ClockLater(now, LastClock(script, now));
      var parsed := ReadSegment(buf, srcIp, localIp);
      if parsed.Some? {
        OnSegment(Key(parsed.value.dstPort, srcIp, parsed.value.srcPort), parsed.value.seg, now, script);
      }
    }
  }

  /** The tests and field reads at the head of `tcp_in` (src/tcp.c:114-130). */
  method ReadSegment(buf: Packet, src: Ip, dst: Ip) returns (q: Option<Parsed>)
    requires buf.Valid()
    ensures q == Decode(buf.Window(), src, dst)
  {
    var b := buf.Window();
    if buf.len < HDR_LEN {
      return None;
    }
    var hdrLen := b[12] / 16 * 4;
    if hdrLen < HDR_LEN || hdrLen > buf.len {
      return None;
    }
    var check := Compute(b, src, dst);
    if check != 0 {
      return None;
    }
    var x := Segment(Swap32(Load32(b, 4)), Swap32(Load32(b, 8)), b[13], b[hdrLen..]);
    return Some(Parsed(Swap16(Load16(b, 0)), Swap16(Load16(b, 2)), x));
  }
}
