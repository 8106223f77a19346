/** The vocabulary of src/tcp.c and the history of a run.

A trace records what the TCP module did, in order. `Hist` reads off the history of one connection:
unbounded counts and byte strings where the program only has 32-bit sequence numbers. `JustifiedNext`
says when an entry may follow a given past; it mentions histories only, never the program's state. */
module TcpTrace {
  import opened Words

  type Handler = nat

  datatype Key = Key(localPort: U16, remoteIp: Ip, remotePort: U16)

  datatype Segment = Segment(seqNo: U32, ackNo: U32, flags: Byte, data: seq<Byte>)

  predicate Fin(flags: Byte) { flags % 2 == 1 }
  predicate Syn(flags: Byte) { flags / 2 % 2 == 1 }
  predicate Rst(flags: Byte) { flags / 4 % 2 == 1 }
  predicate Ack(flags: Byte) { flags / 16 % 2 == 1 }

  const FIN_ACK: Byte := 0x11
  const SYN_ACK: Byte := 0x12
  const RST: Byte := 0x04
  const RST_ACK: Byte := 0x14
  const ACK: Byte := 0x10
  const PSH_ACK: Byte := 0x18

  lemma FlagBits()
    ensures Fin(FIN_ACK) && !Syn(FIN_ACK) && !Rst(FIN_ACK) && Ack(FIN_ACK)
    ensures !Fin(SYN_ACK) && Syn(SYN_ACK) && !Rst(SYN_ACK) && Ack(SYN_ACK)
    ensures !Fin(RST) && !Syn(RST) && Rst(RST) && !Ack(RST)
    ensures !Fin(RST_ACK) && !Syn(RST_ACK) && Rst(RST_ACK) && Ack(RST_ACK)
    ensures !Fin(ACK) && !Syn(ACK) && !Rst(ACK) && Ack(ACK)
    ensures !Fin(PSH_ACK) && !Syn(PSH_ACK) && !Rst(PSH_ACK) && Ack(PSH_ACK)
  {
  }

  function One(b: bool): nat { if b then 1 else 0 }

  /** `sequence_len`: how much sequence space a segment takes. */
  function SeqLen(x: Segment): nat { |x.data| + One(Syn(x.flags)) + One(Fin(x.flags)) }

  /** What `tcp_reset` answers to a segment that carries no RST. */
  function ResetFor(x: Segment): Segment
  {
    if Ack(x.flags) then Segment(x.ackNo, 0, RST, [])
    else Segment(0, Wrap(x.seqNo + SeqLen(x)), RST_ACK, [])
  }

  datatype State = SynReceived | Established | FinWait1 | FinWait2 | Closing | LastAck

  datatype Effect =
    | Arrived(key: Key, seg: Segment)                          // tcp_in was given this segment
    | Opened(key: Key, iss: U32, irs: U32, handler: Handler)   // a connection was entered in the table
    | Tx(key: Key, seg: Segment)                               // tcp_out handed this segment to ip_out
    | Moved(key: Key, from: State, to: State)                  // connection->state was assigned
    | Accepted(key: Key, seg: Segment)                         // rcv_nxt advanced over this segment
    | Delivered(key: Key, handler: Handler, data: seq<Byte>)   // the handler was called
    | Removed(key: Key, acked: bool)                           // deleted, by an ACK of our FIN or by a RST
    | Listening(port: U16, h: Handler)
    | Unlistened(port: U16)

  predicate OnKey(e: Effect, k: Key) { !e.Listening? && !e.Unlistened? && e.key == k }

  datatype Phase = Unopened | In(state: State) | Gone

  /** The history of the connection that key stands for now (the latest one opened). */
  datatype Book = Book(
    opens: nat,            // connections opened so far under this key
    phase: Phase,
    iss: U32, irs: U32, handler: Handler,
    synAcks: nat,          // SYN|ACKs sent
    sent: seq<Byte>,       // payload bytes sent
    fins: nat,             // FINs sent
    rcvd: nat,             // sequence space accepted after the SYN
    taken: seq<Byte>,      // payload bytes of the accepted segments
    finsIn: nat,           // FINs accepted
    delivered: seq<Byte>,  // bytes handed to the handler
    last: Option<Segment>) // latest arrival, until it is accepted

  const BLANK := Book(0, Unopened, 0, 0, 0, 0, [], 0, 0, [], 0, [], None)

  function Update(b: Book, e: Effect): Book
  {
    match e
    case Arrived(_, x) => b.(last := Some(x))
    case Opened(_, iss, irs, h) => Book(b.opens + 1, In(SynReceived), iss, irs, h, 0, [], 0, 0, [], 0, [], None)
    case Tx(_, x) => b.(synAcks := b.synAcks + One(Syn(x.flags)), sent := b.sent + x.data,
        fins := b.fins + One(Fin(x.flags)))
    case Moved(_, _, to) => b.(phase := In(to))
    case Accepted(_, x) =>
      b.(rcvd := b.rcvd + SeqLen(x), taken := b.taken + x.data, finsIn := b.finsIn + One(Fin(x.flags)), last := None)
    case Delivered(_, _, d) => b.(delivered := b.delivered + d)
    case Removed(_, _) => b.(phase := Gone)
    case Listening(_, _) => b
    case Unlistened(_) => b
  }

  function Hist(t: seq<Effect>, k: Key): Book
  {
    if |t| == 0 then BLANK
    else
      var b, e := Hist(t[..|t| - 1], k), t[|t| - 1];
      if OnKey(e, k) then Update(b, e) else b
  }

  lemma HistSnoc(t: seq<Effect>, e: Effect, k: Key)
    ensures Hist(t + [e], k) == if OnKey(e, k) then Update(Hist(t, k), e) else Hist(t, k)
  {
    assert (t + [e])[..|t|] == t;
  }

  /** The handler registered for a port, by the latest listen or unlisten call. */
  function ListenerOf(t: seq<Effect>, port: U16): Option<Handler>
  {
    if |t| == 0 then None
    else match t[|t| - 1]
      case Listening(p, h) => if p == port then Some(h) else ListenerOf(t[..|t| - 1], port)
      case Unlistened(p) => if p == port then None else ListenerOf(t[..|t| - 1], port)
      case _ => ListenerOf(t[..|t| - 1], port)
  }

  lemma ListenerSnoc(t: seq<Effect>, e: Effect, port: U16)
    ensures ListenerOf(t + [e], port)
         == if e.Listening? && e.port == port then Some(e.h)
            else if e.Unlistened? && e.port == port then None
            else ListenerOf(t, port)
  {
    assert (t + [e])[..|t|] == t;
  }

  // ---------- sequence positions

  /** The sequence number after everything sent so far, and the one expected next from the peer. */
  function NextSeq(b: Book): U32 { Wrap(b.iss + 1 + |b.sent| + b.fins) }

  function NextRcv(b: Book): U32 { Wrap(b.irs + 1 + b.rcvd) }

  // ---------- what may happen

  predicate JustArrived(past: seq<Effect>, k: Key, x: Segment)
  {
    |past| > 0 && past[|past| - 1] == Arrived(k, x)
  }

  predicate JustifiedNext(past: seq<Effect>, e: Effect)
  {
    match e
    case Arrived(_, _) => true
    case Listening(_, _) => true
    case Unlistened(_) => true
    case Opened(k, iss, irs, h) => OpenJustified(past, k, irs, h)
    case Tx(k, x) => TxJustified(Hist(past, k), x)
    case Moved(k, from, to) => MoveJustified(past, Hist(past, k), k, from, to)
    case Accepted(k, x) => AcceptJustified(Hist(past, k), x)
    case Delivered(k, h, d) => DeliverJustified(Hist(past, k), h, d)
    case Removed(k, acked) => RemoveJustified(past, Hist(past, k), k, acked)
  }

  /** A connection is opened only by a SYN that just arrived on a port that is listened on. */
  predicate OpenJustified(past: seq<Effect>, k: Key, irs: U32, h: Handler)
  {
    && |past| > 0 && past[|past| - 1].Arrived? && past[|past| - 1].key == k
    && ListenerOf(past, k.localPort) == Some(h)
    && var x := past[|past| - 1].seg;
       Syn(x.flags) && !Ack(x.flags) && x.seqNo == irs
  }

  /** A reset answers a segment without RST. A SYN|ACK repeats the first one exactly. Anything else
  stands at the next sequence number, acknowledges exactly what was accepted, and carries data or a
  FIN only while the connection is established and no FIN has been sent. */
  predicate TxJustified(b: Book, x: Segment)
  {
    if Rst(x.flags) then b.last.Some? && !Rst(b.last.value.flags) && x == ResetFor(b.last.value)
    else if Syn(x.flags) then b.phase == In(SynReceived) && x == Segment(b.iss, Wrap(b.irs + 1), SYN_ACK, [])
    else
      && b.phase.In?
      && x.seqNo == NextSeq(b) && x.ackNo == NextRcv(b)
      && x.flags == (if Fin(x.flags) then FIN_ACK else if x.data != [] then PSH_ACK else ACK)
      && (Fin(x.flags) ==> x.data == [])
      && (Fin(x.flags) || x.data != [] ==> b.phase == In(Established) && b.fins == 0)
  }

  predicate MoveJustified(past: seq<Effect>, b: Book, k: Key, from: State, to: State)
  {
    && b.phase == In(from)
    && match (from, to)
       // the third step of the handshake: an ACK matching both numbers has just arrived
       case (SynReceived, Established) =>
         && b.synAcks >= 1
         && |past| > 0 && past[|past| - 1].Arrived? && past[|past| - 1].key == k
         && var x := past[|past| - 1].seg;
            Ack(x.flags) && x.ackNo == Wrap(b.iss + 1) && x.seqNo == Wrap(b.irs + 1)
       case (Established, FinWait1) => b.fins == 1
       case (Established, LastAck) => b.fins == 1 && b.finsIn >= 1
       // our FIN has just been acknowledged
       case (FinWait1, FinWait2) =>
         && b.fins == 1
         && |past| > 0 && past[|past| - 1].Arrived? && past[|past| - 1].key == k
         && Ack(past[|past| - 1].seg.flags) && past[|past| - 1].seg.ackNo == NextSeq(b)
       case (FinWait1, Closing) => b.finsIn >= 1
       case (FinWait2, FinWait2) => b.finsIn >= 1
       // only a second FIN does this
       case (LastAck, FinWait2) => b.finsIn >= 2
       case (Closing, FinWait2) => b.finsIn >= 2
       case _ => false
  }

  /** Only the segment that arrived last, and stands at the expected number, is accepted, and only once. */
  predicate AcceptJustified(b: Book, x: Segment)
  {
    && b.last == Some(x) && !Rst(x.flags)
    && b.phase.In? && b.phase != In(SynReceived)
    && SeqLen(x) > 0 && x.seqNo == NextRcv(b)
    && (b.phase == In(Established) ==> b.delivered == b.taken)
  }

  /** The handler gets the bytes just accepted, while the connection is established. */
  predicate DeliverJustified(b: Book, h: Handler, d: seq<Byte>)
  {
    b.phase == In(Established) && h == b.handler && d != [] && b.delivered + d == b.taken
  }

  /** Removal by acknowledgement: both FINs exchanged and ours acknowledged; otherwise a RST arrived. */
  predicate RemoveJustified(past: seq<Effect>, b: Book, k: Key, acked: bool)
  {
    && b.phase.In?
    && |past| > 0 && past[|past| - 1].Arrived? && past[|past| - 1].key == k
    && var x := past[|past| - 1].seg;
       if acked then
         && b.phase.state in {LastAck, Closing} && b.fins == 1 && b.finsIn >= 1
         && Ack(x.flags) && x.ackNo == NextSeq(b)
       else Rst(x.flags)
  }

  /** Every entry is justified by what came before it. */
  ghost predicate WellFormed(t: seq<Effect>)
  {
    forall i :: 0 <= i < |t| ==> JustifiedNext(t[..i], t[i])
  }

  lemma WellFormedSnoc(t: seq<Effect>, e: Effect)
    ensures WellFormed(t + [e]) <==> WellFormed(t) && JustifiedNext(t, e)
  {
    var u := t + [e];
    assert u[..|t|] == t && u[|t|] == e;
    forall i | 0 <= i < |t|
      ensures u[..i] == t[..i] && u[i] == t[i]
    {
    }
    if WellFormed(u) {
      assert JustifiedNext(u[..|t|], u[|t|]);
      forall i | 0 <= i < |t|
        ensures JustifiedNext(t[..i], t[i])
      {
        assert JustifiedNext(u[..i], u[i]);
      }
    }
  }

  lemma WellFormedPrefix(t: seq<Effect>, n: nat)
    requires WellFormed(t) && n <= |t|
    ensures WellFormed(t[..n])
  {
    forall i | 0 <= i < n
      ensures JustifiedNext(t[..n][..i], t[..n][i])
    {
      assert t[..n][..i] == t[..i];
    }
  }
}
