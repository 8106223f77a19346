/** src/tcp.c as a step function on the module's state. `TcpEngine` runs the same code in place and
is proved to compute these functions.

The application's handler runs in the middle of `tcp_in`. What it did is given by a script: the calls
it made, in order, each with the clock reading that call saw. Quantifying over all scripts covers every
handler, whatever its decisions depend on. */
module TcpMachine {
  import opened Words
  import opened ExpiringMap
  import opened TcpTrace

  datatype Conn = Conn(state: State, sndNxt: U32, rcvNxt: U32, handler: Handler)

  datatype Tcp = Tcp(conns: ExpMap<Key, Conn>, listeners: ExpMap<U16, Handler>, isn: U32, trace: seq<Effect>)

  /** A call made by the application. */
  datatype Action =
    | Send(key: Key, data: seq<Byte>, now: nat)
    | Close(key: Key, now: nat)
    | Listen(port: U16, handler: Handler, now: nat)
    | Unlisten(port: U16, now: nat)

  datatype Event =
    | Arrival(key: Key, seg: Segment, now: nat, script: seq<Action>)
    | Call(action: Action)

  function Log(s: Tcp, e: Effect): Tcp { s.(trace := s.trace + [e]) }

  function Store(s: Tcp, k: Key, c: Conn): Tcp { s.(conns := Poke(s.conns, k, c)) }

  /** `connection->state = to` */
  function Move(s: Tcp, k: Key, c: Conn, to: State): Tcp
  {
    Log(Store(s, k, c.(state := to)), Moved(k, c.state, to))
  }

  function Drop(s: Tcp, k: Key, now: nat, acked: bool): Tcp
  {
    Log(s.(conns := Remove(s.conns, k, now)), Removed(k, acked))
  }

  /** `tcp_reset` */
  function Reset(s: Tcp, k: Key, x: Segment): Tcp
  {
    if Rst(x.flags) then s else Log(s, Tx(k, ResetFor(x)))
  }

  /** Lines 143-153: a new connection and its SYN|ACK. */
  function Open(s: Tcp, k: Key, x: Segment, h: Handler, now: nat): Tcp
  {
    var c := Conn(SynReceived, Wrap(s.isn + 1), Wrap(x.seqNo + 1), h);
    var s1 := s.(isn := Wrap(s.isn + 64000), conns := Put(s.conns, k, c, now));
    Log(Log(s1, Opened(k, s.isn, x.seqNo, h)), Tx(k, Segment(s.isn, c.rcvNxt, SYN_ACK, [])))
  }

  /** Lines 134-155: no connection under this key. The initial sequence number is spent even when the
  table is full. */
  function Knock(s: Tcp, k: Key, x: Segment, now: nat): Tcp
  {
    var listener := Lookup(s.listeners, k.localPort, now);
    if !Syn(x.flags) || Ack(x.flags) || listener.None? then Reset(s, k, x)
    else if Accepts(s.conns, k, now) then Open(s, k, x, listener.value, now)
    else s.(isn := Wrap(s.isn + 64000))
  }

  /** Lines 163-176 */
  function Handshake(s: Tcp, k: Key, c: Conn, x: Segment): Tcp
  {
    if Syn(x.flags) && !Ack(x.flags) && Wrap(x.seqNo + 1) == c.rcvNxt then
      Log(s, Tx(k, Segment(Wrap(c.sndNxt - 1), c.rcvNxt, SYN_ACK, [])))
    else if Ack(x.flags) && x.ackNo == c.sndNxt && x.seqNo == c.rcvNxt then Move(s, k, c, Established)
    else Reset(s, k, x)
  }

  /** Lines 212-227, on the connection as the handler left it. */
  function PeerFin(s: Tcp, k: Key): Tcp
    requires k in s.conns.entries
  {
    var c := s.conns.entries[k].value;
    if c.state == Established then
      SendFin(s, k, c, LastAck)
    else
      var s1 := Log(s, Tx(k, Segment(c.sndNxt, c.rcvNxt, ACK, [])));
      Move(s1, k, c, if c.state == FinWait1 then Closing else FinWait2)
  }

  /** Line 203: the segment is in order. */
  function Advance(s: Tcp, k: Key, c: Conn, x: Segment): Tcp
  {
    Log(Store(s, k, c.(rcvNxt := Wrap(c.rcvNxt + SeqLen(x)))), Accepted(k, x))
  }

  /** Lines 205-210, up to the call of the handler. */
  function HandOver(s: Tcp, k: Key, c: Conn, d: seq<Byte>): Tcp
  {
    Log(Log(s, Tx(k, Segment(c.sndNxt, c.rcvNxt, ACK, []))), Delivered(k, c.handler, d))
  }

  function Take(s: Tcp, k: Key, c: Conn, x: Segment): Tcp
  {
    var s1 := Advance(s, k, c, x);
    if x.data != [] && c.state == Established then HandOver(s1, k, c.(rcvNxt := Wrap(c.rcvNxt + SeqLen(x))), x.data)
    else s1
  }

  /** Our FIN leaves ESTABLISHED (lines 216-219 and 263-267). */
  function SendFin(s: Tcp, k: Key, c: Conn, to: State): Tcp
  {
    CountFin(Log(s, Tx(k, Segment(c.sndNxt, c.rcvNxt, FIN_ACK, []))), k, c.(sndNxt := Wrap(c.sndNxt + 1)), to)
  }

  function CountFin(s: Tcp, k: Key, c: Conn, to: State): Tcp { Move(Store(s, k, c), k, c, to) }

  function RunScript(s: Tcp, script: seq<Action>): Tcp
  {
    if |script| == 0 then s else Act(RunScript(s, script[..|script| - 1]), script[|script| - 1])
  }

  /** Lines 195-227 */
  function Text(s: Tcp, k: Key, c: Conn, x: Segment, script: seq<Action>): Tcp
    requires k in s.conns.entries
  {
    if SeqLen(x) == 0 then s
    else if x.seqNo != c.rcvNxt then Log(s, Tx(k, Segment(c.sndNxt, c.rcvNxt, ACK, [])))
    else
      var s1 := Take(s, k, c, x);
      var s2 := if x.data != [] && c.state == Established then RunScript(s1, script) else s1;
      if Fin(x.flags) && k in s2.conns.entries then PeerFin(s2, k) else s2
  }

  /** `tcp_in`, after the segment was decoded. */
  function Receive(s: Tcp, k: Key, x: Segment, now: nat, script: seq<Action>): Tcp
  {
    var s0 := Log(s, Arrived(k, x));
    if !Live(s0.conns, k, now) then Knock(s0, k, x, now)
    else
      var c := s0.conns.entries[k].value;
      var acksAll := Ack(x.flags) && x.ackNo == c.sndNxt;
      if Rst(x.flags) then Drop(s0, k, now, false)
      else if c.state == SynReceived then Handshake(s0, k, c, x)
      else if acksAll && c.state in {LastAck, Closing} then Drop(s0, k, now, true)
      else if acksAll && c.state == FinWait1 then
        Text(Move(s0, k, c, FinWait2), k, c.(state := FinWait2), x, script)
      else Text(s0, k, c, x, script)
  }

  /** `tcp_send`, `tcp_close`, `tcp_listen`, `tcp_unlisten` */
  function Act(s: Tcp, a: Action): Tcp
  {
    match a
    case Send(k, data, now) =>
      if !Ready(s, k, now) then s
      else
        var c := s.conns.entries[k].value;
        var s1 := Log(s, Tx(k, Segment(c.sndNxt, c.rcvNxt, if data == [] then ACK else PSH_ACK, data)));
        Store(s1, k, c.(sndNxt := Wrap(c.sndNxt + |data|)))
    case Close(k, now) =>
      if !Ready(s, k, now) then s else SendFin(s, k, s.conns.entries[k].value, FinWait1)
    case Listen(port, h, now) =>
      if Accepts(s.listeners, port, now) then
        Log(s.(listeners := Put(s.listeners, port, h, now)), Listening(port, h))
      else s
    case Unlisten(port, now) => Log(s.(listeners := Remove(s.listeners, port, now)), Unlistened(port))
  }

  /** `tcp_send` and `tcp_close` act only on a live established connection. */
  predicate Ready(s: Tcp, k: Key, now: nat)
  {
    Live(s.conns, k, now) && s.conns.entries[k].value.state == Established
  }

  function Step(s: Tcp, e: Event): Tcp
  {
    match e
    case Arrival(k, x, now, script) => Receive(s, k, x, now, script)
    case Call(a) => Act(s, a)
  }

  function Run(s: Tcp, events: seq<Event>): Tcp
  {
    if |events| == 0 then s else Step(Run(s, events[..|events| - 1]), events[|events| - 1])
  }

  /** `tcp_init` */
  predicate Initial(s: Tcp)
  {
    && s.conns.entries == map[] && s.conns.size == 0
    && s.listeners.entries == map[] && s.listeners.size == 0 && s.listeners.timeout == 0
    && s.trace == []
  }

  /** The clock is never 0. */
  predicate ActionClock(a: Action) { a.now > 0 }

  predicate EventClock(e: Event)
  {
    match e
    case Arrival(_, _, now, script) => now > 0 && forall a :: a in script ==> ActionClock(a)
    case Call(a) => ActionClock(a)
  }

  ghost predicate Clocked(events: seq<Event>) { forall e :: e in events ==> EventClock(e) }
}
