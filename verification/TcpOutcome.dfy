/** What each event must lead to, in terms of the connection's history: the complement of `TcpHistory`, which
says what cannot happen. */
module TcpOutcome {
  import opened Words
  import opened ExpiringMap
  import opened TcpTrace
  import opened TcpMachine
  import opened TcpInvariant

  /** The segment acknowledges everything sent so far. */
  predicate AcksAll(b: Book, x: Segment) { Ack(x.flags) && x.ackNo == NextSeq(b) }

  /** The segment carries the FIN and stands at the number expected. */
  predicate FinInOrder(b: Book, x: Segment) { Fin(x.flags) && x.seqNo == NextRcv(b) }

  /** The state of a connection in state `from` with history `b` after segment `x`; None if it is removed. */
  function NextState(from: State, b: Book, x: Segment): Option<State>
  {
    if Rst(x.flags) then None
    else
      match from
      case SynReceived => if AcksAll(b, x) && x.seqNo == NextRcv(b) then Some(Established) else Some(SynReceived)
      case Established => if FinInOrder(b, x) then Some(LastAck) else Some(Established)
      case FinWait1 =>
        if AcksAll(b, x) then Some(FinWait2) else if FinInOrder(b, x) then Some(Closing) else Some(FinWait1)
      case FinWait2 => Some(FinWait2)
      case Closing => if AcksAll(b, x) then None else if FinInOrder(b, x) then Some(FinWait2) else Some(Closing)
      case LastAck => if AcksAll(b, x) then None else if FinInOrder(b, x) then Some(FinWait2) else Some(LastAck)
  }

  predicate LeavesOpen(script: seq<Action>, k: Key) { forall a :: a in script && a.Close? ==> a.key != k }

  /** A handler that does not close `k` leaves its state and what it expects alone. */
  lemma {:induction false} ScriptKeeps(s: Tcp, script: seq<Action>, k: Key)
    requires k in s.conns.entries && LeavesOpen(script, k)
    ensures var s' := RunScript(s, script);
      && k in s'.conns.entries
      && s'.conns.entries[k].value.state == s.conns.entries[k].value.state
      && s'.conns.entries[k].value.rcvNxt == s.conns.entries[k].value.rcvNxt
  {
    if |script| > 0 {
      var init, a := script[..|script| - 1], script[|script| - 1];
      assert forall x :: x in init ==> x in script;
      ScriptKeeps(s, init, k);
      assert a in script;
    }
  }

  lemma TextOutcome(s: Tcp, k: Key, c: Conn, x: Segment, script: seq<Action>)
    requires k in s.conns.entries && s.conns.entries[k].value == c && LeavesOpen(script, k)
    requires c.state != SynReceived
    ensures var s' := Text(s, k, c, x, script);
      k in s'.conns.entries && s'.conns.entries[k].value.state ==
        if Fin(x.flags) && x.seqNo == c.rcvNxt then
          if c.state == Established then LastAck else if c.state == FinWait1 then Closing else FinWait2
        else c.state
  {
    ScriptKeeps(Take(s, k, c, x), script, k);
  }

  /** `tcp_in` on a live connection, with a handler that does not close it: the state afterwards, or the removal,
  is exactly the one its history calls for. */
  lemma ArrivalOutcome(s: Tcp, k: Key, x: Segment, now: nat, script: seq<Action>)
    requires Inv(s) && Live(s.conns, k, now) && LeavesOpen(script, k)
    ensures var conns := Receive(s, k, x, now, script).conns.entries;
      match NextState(s.conns.entries[k].value.state, Hist(s.trace, k), x)
      case None => k !in conns
      case Some(st) => k in conns && conns[k].value.state == st
  {
    hide Text, Wrap, Hist, WellFormed, ListenersOk;
    assert Good(s, k);
    var c := s.conns.entries[k].value;
    var s0 := Log(s, Arrived(k, x));
    var acksAll := Ack(x.flags) && x.ackNo == c.sndNxt;
    if Rst(x.flags) || c.state == SynReceived || (acksAll && c.state in {LastAck, Closing}) {
    } else if acksAll && c.state == FinWait1 {
      TextOutcome(Move(s0, k, c, FinWait2), k, c.(state := FinWait2), x, script);
    } else {
      TextOutcome(s0, k, c, x, script);
    }
  }

  // ---------- what exactly is done

  /** The refusal of a segment without RST, field by field (section 3.4 of RFC 793). */
  function Refusal(x: Segment): Segment
  {
    if Ack(x.flags) then Segment(x.ackNo, 0, 0x04, [])
    else Segment(0, Wrap(x.seqNo + |x.data| + One(Syn(x.flags)) + One(Fin(x.flags))), 0x14, [])
  }

  /** A live connection in SYN_RECEIVED: a reset removes it; the SYN again is answered by the same SYN|ACK; the ACK
  of both numbers establishes it and nothing is sent; anything else is refused. Nothing else happens, and the
  record of the connection changes in its state only. */
  lemma HandshakeOutcome(s: Tcp, k: Key, x: Segment, now: nat, script: seq<Action>)
    requires Inv(s) && Live(s.conns, k, now) && s.conns.entries[k].value.state == SynReceived
    ensures var b, s' := Hist(s.trace, k), Receive(s, k, x, now, script);
      var synAgain := Syn(x.flags) && !Ack(x.flags) && x.seqNo == b.irs;
      var acksBoth := Ack(x.flags) && x.ackNo == Wrap(b.iss + 1) && x.seqNo == Wrap(b.irs + 1);
      && (Rst(x.flags) ==> s'.trace == s.trace + [Arrived(k, x), Removed(k, false)] && k !in s'.conns.entries)
      && (!Rst(x.flags) && synAgain ==>
          s'.trace == s.trace + [Arrived(k, x), Tx(k, Segment(b.iss, Wrap(b.irs + 1), 0x12, []))])
      && (!Rst(x.flags) && acksBoth ==> s'.trace == s.trace + [Arrived(k, x), Moved(k, SynReceived, Established)])
      && (!Rst(x.flags) && !synAgain && !acksBoth ==> s'.trace == s.trace + [Arrived(k, x), Tx(k, Refusal(x))])
      && (!Rst(x.flags) && !acksBoth ==> s'.conns == s.conns)
  {
    hide Hist, WellFormed, ListenersOk;
    assert Good(s, k);
    var b, c, s0 := Hist(s.trace, k), s.conns.entries[k].value, Log(s, Arrived(k, x));
    SynInOrder(x.seqNo, b.irs);
    IssBack(b);
    assert s0.trace + [Removed(k, false)] == s.trace + [Arrived(k, x), Removed(k, false)];
    var move := Moved(k, SynReceived, Established);
    assert s0.trace + [move] == s.trace + [Arrived(k, x), move];
    var synAck := Tx(k, Segment(b.iss, Wrap(b.irs + 1), SYN_ACK, []));
    assert s0.trace + [synAck] == s.trace + [Arrived(k, x), synAck];
    assert s0.trace + [Tx(k, Refusal(x))] == s.trace + [Arrived(k, x), Tx(k, Refusal(x))];
    assert Refusal(x) == ResetFor(x);
  }

  lemma SynInOrder(a: U32, irs: U32)
    ensures Wrap(a + 1) == Wrap(irs + 1) <==> a == irs
  {
  }

  function AckOf(b: Book, more: nat): Segment { Segment(NextSeq(b), Wrap(b.irs + 1 + b.rcvd + more), 0x10, []) }

  /** The entries that text adds when the handler stays silent, in terms of the history. */
  function TextEntries(k: Key, b: Book, st: State, x: Segment): seq<Effect>
  {
    if SeqLen(x) == 0 then []
    else if x.seqNo != NextRcv(b) then [Tx(k, AckOf(b, 0))]
    else
      [Accepted(k, x)] + HandOverEntries(k, b, st, x)
      + (if !Fin(x.flags) then []
         else if st == Established then [Tx(k, AckOf(b, SeqLen(x)).(flags := 0x11)), Moved(k, Established, LastAck)]
         else [Tx(k, AckOf(b, SeqLen(x))), Moved(k, st, if st == FinWait1 then Closing else FinWait2)])
  }

  function HandOverEntries(k: Key, b: Book, st: State, x: Segment): seq<Effect>
  {
    if x.data != [] && st == Established then [Tx(k, AckOf(b, SeqLen(x))), Delivered(k, b.handler, x.data)] else []
  }

  /** All that an arrival adds to the trace on a synchronized connection with history `b` in state `st`. */
  function ArrivalEntries(k: Key, b: Book, st: State, x: Segment): seq<Effect>
  {
    if Rst(x.flags) then [Removed(k, false)]
    else if AcksAll(b, x) && st in {LastAck, Closing} then [Removed(k, true)]
    else if AcksAll(b, x) && st == FinWait1 then [Moved(k, FinWait1, FinWait2)] + TextEntries(k, b, FinWait2, x)
    else TextEntries(k, b, st, x)
  }

  /** The numbers of the record are those of the history. */
  predicate NumbersAgree(c: Conn, b: Book)
  {
    c.sndNxt == NextSeq(b) && c.rcvNxt == NextRcv(b) && c.handler == b.handler
  }

  lemma TextExact(s: Tcp, k: Key, c: Conn, x: Segment, script: seq<Action>, b: Book)
    requires k in s.conns.entries && s.conns.entries[k].value == c && NumbersAgree(c, b)
    requires script == [] || !(x.data != [] && c.state == Established && x.seqNo == c.rcvNxt)
    ensures Text(s, k, c, x, script).trace == s.trace + TextEntries(k, b, c.state, x)
  {
    hide NextSeq;
    WrapAdd(b.irs + 1 + b.rcvd, SeqLen(x));
    if SeqLen(x) > 0 && x.seqNo == c.rcvNxt {
      TakeExact(s, k, c, x, b);
      var s1 := Take(s, k, c, x);
      assert RunScript(s1, []) == s1;
      if Fin(x.flags) {
        FinExact(s1, k);
      }
    }
  }

  lemma TakeExact(s: Tcp, k: Key, c: Conn, x: Segment, b: Book)
    requires k in s.conns.entries && s.conns.entries[k].value == c && NumbersAgree(c, b)
    ensures var s1 := Take(s, k, c, x);
      && s1.trace == s.trace + ([Accepted(k, x)] + HandOverEntries(k, b, c.state, x))
      && k in s1.conns.entries
      && s1.conns.entries[k].value == c.(rcvNxt := Wrap(b.irs + 1 + b.rcvd + SeqLen(x)))
  {
    hide NextSeq;
    WrapAdd(b.irs + 1 + b.rcvd, SeqLen(x));
  }

  lemma FinExact(s: Tcp, k: Key)
    requires k in s.conns.entries
    ensures var c := s.conns.entries[k].value;
      PeerFin(s, k).trace == s.trace + if c.state == Established
        then [Tx(k, Segment(c.sndNxt, c.rcvNxt, 0x11, [])), Moved(k, Established, LastAck)]
        else [Tx(k, Segment(c.sndNxt, c.rcvNxt, 0x10, [])),
              Moved(k, c.state, if c.state == FinWait1 then Closing else FinWait2)]
  {
  }

  /** `tcp_in` on a synchronized connection does exactly what its history calls for: the trace grows by the arrival
  and by `ArrivalEntries`, unless the handler is called and makes calls of its own. */
  lemma ArrivalExact(s: Tcp, k: Key, x: Segment, now: nat, script: seq<Action>)
    requires Inv(s) && Live(s.conns, k, now) && s.conns.entries[k].value.state != SynReceived
    requires script == [] || !HandlerCalled(s.conns.entries[k].value.state, Hist(s.trace, k), x)
    ensures Receive(s, k, x, now, script).trace
         == s.trace + [Arrived(k, x)] + ArrivalEntries(k, Hist(s.trace, k), s.conns.entries[k].value.state, x)
  {
    hide Hist, WellFormed, ListenersOk, NextSeq, NextRcv, Text, TextEntries;
    assert Good(s, k);
    var b, c, s0 := Hist(s.trace, k), s.conns.entries[k].value, Log(s, Arrived(k, x));
    var acksAll := Ack(x.flags) && x.ackNo == c.sndNxt;
    if Rst(x.flags) || (acksAll && c.state in {LastAck, Closing}) {
    } else if acksAll && c.state == FinWait1 {
      TextExact(Move(s0, k, c, FinWait2), k, c.(state := FinWait2), x, script, b);
    } else {
      TextExact(s0, k, c, x, script, b);
    }
  }

  /** In-order data on an established connection is what the handler is called for. */
  predicate HandlerCalled(st: State, b: Book, x: Segment)
  {
    st == Established && !Rst(x.flags) && x.data != [] && x.seqNo == NextRcv(b)
  }

  /** When the handler is called, the segment has been accepted and acknowledged and nothing else was done: the
  handler's calls work on that state, and the answer to a FIN comes after them. */
  lemma HandlerCall(s: Tcp, k: Key, x: Segment, now: nat, script: seq<Action>) returns (s1: Tcp)
    requires Inv(s) && Live(s.conns, k, now)
    requires HandlerCalled(s.conns.entries[k].value.state, Hist(s.trace, k), x)
    ensures s1.trace == s.trace + [Arrived(k, x)] + [Accepted(k, x), Tx(k, AckOf(Hist(s.trace, k), SeqLen(x))),
                                                     Delivered(k, Hist(s.trace, k).handler, x.data)]
    ensures s1.listeners == s.listeners && s1.conns.entries.Keys == s.conns.entries.Keys
    ensures var s' := Receive(s, k, x, now, script);
      s' == if Fin(x.flags) && k in RunScript(s1, script).conns.entries then PeerFin(RunScript(s1, script), k)
            else RunScript(s1, script)
  {
    hide Hist, WellFormed, ListenersOk, NextSeq, RunScript, PeerFin;
    assert Good(s, k);
    var c, s0 := s.conns.entries[k].value, Log(s, Arrived(k, x));
    s1 := Take(s0, k, c, x);
    TakeExact(s0, k, c, x, Hist(s.trace, k));
    assert s0.trace + ([Accepted(k, x)] + HandOverEntries(k, Hist(s.trace, k), Established, x)) == s1.trace;
  }

  /** Without a connection. A SYN to a port that is listened on opens one when the table has room: it is live, in
  SYN_RECEIVED, with the listener's handler, and the SYN|ACK with the next initial number goes out. Without room
  nothing is sent. Anything but such a SYN is refused, unless it is a reset. */
  lemma KnockOutcome(s: Tcp, k: Key, x: Segment, now: nat, script: seq<Action>)
    requires Inv(s) && now > 0 && !Live(s.conns, k, now)
    ensures var s', listener := Receive(s, k, x, now, script), ListenerOf(s.trace, k.localPort);
      var welcome := Syn(x.flags) && !Ack(x.flags) && listener.Some?;
      var room := s.conns.size != s.conns.max;
      && (Live(s'.conns, k, now) <==> welcome && room)
      && (welcome && room ==>
            s'.conns.entries[k] == Stamped(Conn(SynReceived, Wrap(s.isn + 1), Wrap(x.seqNo + 1), listener.value), now)
            && s'.trace == s.trace + [Arrived(k, x), Opened(k, s.isn, x.seqNo, listener.value),
                                      Tx(k, Segment(s.isn, Wrap(x.seqNo + 1), 0x12, []))])
      && (welcome && !room ==> s'.trace == s.trace + [Arrived(k, x)])
      && (!welcome && !Rst(x.flags) ==> s'.trace == s.trace + [Arrived(k, x), Tx(k, Refusal(x))])
      && (!welcome && Rst(x.flags) ==> s'.trace == s.trace + [Arrived(k, x)])
  {
    hide Hist, WellFormed, ListenersOk, ListenerOf;
    var s0 := Log(s, Arrived(k, x));
    ListenerNow(s, k.localPort, now);
    var e := Tx(k, Refusal(x));
    assert Refusal(x) == ResetFor(x);
    assert s0.trace + [e] == s.trace + [Arrived(k, x), e];
  }

  // ---------- the application's calls

  /** `tcp_listen` opens the port, whenever the table accepts it, and leaves every other port as it was. */
  lemma ListenOutcome(s: Tcp, port: U16, h: Handler, now: nat, later: nat, other: U16)
    requires Inv(s) && 0 < now && Accepts(s.listeners, port, now)
    ensures var s' := Act(s, Listen(port, h, now));
      && Lookup(s'.listeners, port, later) == Some(h) && ListenerOf(s'.trace, port) == Some(h)
      && (other != port ==>
          Lookup(s'.listeners, other, later) == Lookup(s.listeners, other, later)
          && ListenerOf(s'.trace, other) == ListenerOf(s.trace, other))
      && s'.conns == s.conns && s'.trace == s.trace + [Listening(port, h)]
  {
    ListenerSnoc(s.trace, Listening(port, h), port);
    ListenerSnoc(s.trace, Listening(port, h), other);
  }

  /** `tcp_unlisten` closes it. */
  lemma UnlistenOutcome(s: Tcp, port: U16, now: nat, later: nat, other: U16)
    requires Inv(s) && 0 < now
    ensures var s' := Act(s, Unlisten(port, now));
      && Lookup(s'.listeners, port, later) == None && ListenerOf(s'.trace, port) == None
      && (other != port ==>
          Lookup(s'.listeners, other, later) == Lookup(s.listeners, other, later)
          && ListenerOf(s'.trace, other) == ListenerOf(s.trace, other))
      && s'.conns == s.conns && s'.trace == s.trace + [Unlistened(port)]
  {
    ListenerSnoc(s.trace, Unlistened(port), port);
    ListenerSnoc(s.trace, Unlistened(port), other);
  }

  /** `tcp_send` on a live established connection sends one segment with the payload, at the next number, and
  otherwise does nothing at all. */
  lemma SendOutcome(s: Tcp, k: Key, data: seq<Byte>, now: nat)
    requires Inv(s)
    ensures var s', b := Act(s, Send(k, data, now)), Hist(s.trace, k);
      && (!(Live(s.conns, k, now) && b.phase == In(Established)) ==> s' == s)
      && (Live(s.conns, k, now) && b.phase == In(Established) ==>
          && s'.trace == s.trace + [Tx(k, Segment(NextSeq(b), NextRcv(b), if data == [] then 0x10 else 0x18, data))]
          && Hist(s'.trace, k).sent == b.sent + data)
  {
    hide WellFormed, ListenersOk;
    assert Good(s, k);
    if Ready(s, k, now) {
      var c := s.conns.entries[k].value;
      HistSnoc(s.trace, Tx(k, Segment(c.sndNxt, c.rcvNxt, if data == [] then ACK else PSH_ACK, data)), k);
    }
  }

  /** `tcp_close` sends the one FIN of a live established connection and leaves ESTABLISHED for FIN_WAIT_1, and
  otherwise does nothing at all. */
  lemma CloseOutcome(s: Tcp, k: Key, now: nat)
    requires Inv(s)
    ensures var s', b := Act(s, Close(k, now)), Hist(s.trace, k);
      && (!(Live(s.conns, k, now) && b.phase == In(Established)) ==> s' == s)
      && (Live(s.conns, k, now) && b.phase == In(Established) ==>
          && s'.trace == s.trace + [Tx(k, Segment(NextSeq(b), NextRcv(b), 0x11, [])), Moved(k, Established, FinWait1)]
          && k in s'.conns.entries && s'.conns.entries[k].value.state == FinWait1
          && b.fins == 0 && Hist(s'.trace, k).fins == 1 && Hist(s'.trace, k).sent == b.sent)
  {
    hide WellFormed, ListenersOk;
    assert Good(s, k);
    FlagBits();
    if Ready(s, k, now) {
      var c := s.conns.entries[k].value;
      var fin, move := Tx(k, Segment(c.sndNxt, c.rcvNxt, FIN_ACK, [])), Moved(k, Established, FinWait1);
      HistSnoc(s.trace, fin, k);
      HistSnoc(s.trace + [fin], move, k);
      assert s.trace + [fin] + [move] == s.trace + [fin, move];
    }
  }
}
