/** Results about whole runs of the TCP module, from `tcp_init` on. */
module TcpRuns {
  import opened Words
  import opened ExpiringMap
  import opened TcpTrace
  import opened TcpMachine
  import opened TcpInvariant
  import opened TcpHistory

  /** Between events, an established connection has not accepted a FIN: the answer to it leaves ESTABLISHED. */
  predicate SettledAt(b: Book) { b.phase == In(Established) ==> b.finsIn == 0 }

  ghost predicate Settled(s: Tcp) { forall k :: SettledAt(Hist(s.trace, k)) }

  /** Effects on `k` leave the history of every other key alone. */
  lemma LogOther(s: Tcp, e: Effect, k: Key, j: Key)
    requires OnKey(e, k) && j != k
    ensures Hist(Log(s, e).trace, j) == Hist(s.trace, j)
  {
    HistSnoc(s.trace, e, j);
  }

  lemma KnockFrame(s: Tcp, k: Key, x: Segment, now: nat, j: Key)
    requires j != k
    ensures Hist(Knock(s, k, x, now).trace, j) == Hist(s.trace, j)
  {
    hide Hist, Wrap, ResetFor, SeqLen;
    var listener := Lookup(s.listeners, k.localPort, now);
    LogOther(s, Tx(k, ResetFor(x)), k, j);
    if listener.Some? {
      var e := Opened(k, s.isn, x.seqNo, listener.value);
      LogOther(s, e, k, j);
      LogOther(Log(s, e), Tx(k, Segment(s.isn, Wrap(x.seqNo + 1), SYN_ACK, [])), k, j);
    }
  }

  lemma KnockSettled(s: Tcp, k: Key, x: Segment, now: nat)
    requires SettledAt(Hist(s.trace, k))
    ensures SettledAt(Hist(Knock(s, k, x, now).trace, k))
  {
    hide Hist, Wrap, ResetFor, SeqLen;
    var listener := Lookup(s.listeners, k.localPort, now);
    HistSnoc(s.trace, Tx(k, ResetFor(x)), k);
    if listener.Some? {
      var e := Opened(k, s.isn, x.seqNo, listener.value);
      HistSnoc(s.trace, e, k);
      HistSnoc(s.trace + [e], Tx(k, Segment(s.isn, Wrap(x.seqNo + 1), SYN_ACK, [])), k);
    }
  }

  lemma HandshakeFrame(s: Tcp, k: Key, c: Conn, x: Segment, j: Key)
    requires j != k
    ensures Hist(Handshake(s, k, c, x).trace, j) == Hist(s.trace, j)
  {
    LogOther(s, Tx(k, Segment(Wrap(c.sndNxt - 1), c.rcvNxt, SYN_ACK, [])), k, j);
    LogOther(s, Moved(k, c.state, Established), k, j);
    LogOther(s, Tx(k, ResetFor(x)), k, j);
  }

  lemma HandshakeSettled(s: Tcp, k: Key, x: Segment)
    requires Inv(s) && k in s.conns.entries && s.conns.entries[k].value.state == SynReceived
    ensures SettledAt(Hist(Handshake(s, k, s.conns.entries[k].value, x).trace, k))
  {
    assert Good(s, k);
    var c := s.conns.entries[k].value;
    HistSnoc(s.trace, Tx(k, Segment(Wrap(c.sndNxt - 1), c.rcvNxt, SYN_ACK, [])), k);
    HistSnoc(s.trace, Moved(k, c.state, Established), k);
    HistSnoc(s.trace, Tx(k, ResetFor(x)), k);
  }

  lemma TakeFrame(s: Tcp, k: Key, c: Conn, x: Segment, j: Key)
    requires j != k
    ensures Hist(Take(s, k, c, x).trace, j) == Hist(s.trace, j)
  {
    var s1 := Advance(s, k, c, x);
    LogOther(s, Accepted(k, x), k, j);
    var c1 := c.(rcvNxt := Wrap(c.rcvNxt + SeqLen(x)));
    var ack := Tx(k, Segment(c1.sndNxt, c1.rcvNxt, ACK, []));
    LogOther(s1, ack, k, j);
    LogOther(Log(s1, ack), Delivered(k, c1.handler, x.data), k, j);
  }

  lemma PeerFinFrame(s: Tcp, k: Key, j: Key)
    requires k in s.conns.entries && j != k
    ensures Hist(PeerFin(s, k).trace, j) == Hist(s.trace, j)
  {
    var c := s.conns.entries[k].value;
    var e1 := Tx(k, Segment(c.sndNxt, c.rcvNxt, if c.state == Established then FIN_ACK else ACK, []));
    var to := if c.state == Established then LastAck else if c.state == FinWait1 then Closing else FinWait2;
    LogOther(s, e1, k, j);
    LogOther(Log(s, e1), Moved(k, c.state, to), k, j);
  }

  /** Text arriving for `k` reaches other connections only through the handler. */
  lemma TextFrame(s: Tcp, k: Key, x: Segment, script: seq<Action>, j: Key)
    requires Inv(s) && k in s.conns.entries && Hist(s.trace, k).last == Some(x) && !Rst(x.flags)
    requires s.conns.entries[k].value.state != SynReceived
    requires forall a :: a in script ==> ActionClock(a)
    requires j != k
    ensures OnlySends(Hist(s.trace, j), Hist(Text(s, k, s.conns.entries[k].value, x, script).trace, j))
  {
    var c := s.conns.entries[k].value;
    if SeqLen(x) > 0 {
      if x.seqNo != c.rcvNxt {
        LogOther(s, Tx(k, Segment(c.sndNxt, c.rcvNxt, ACK, [])), k, j);
      } else {
        var s1 := Take(s, k, c, x);
        TakeFrame(s, k, c, x, j);
        TakeInv(s, k, x);
        var s2 := if x.data != [] && c.state == Established then RunScript(s1, script) else s1;
        if x.data != [] && c.state == Established {
          ScriptInv(s1, script, j);
        }
        if Fin(x.flags) {
          PeerFinFrame(s2, k, j);
        }
      }
    }
  }

  lemma TextSettled(s: Tcp, k: Key, x: Segment, script: seq<Action>)
    requires Inv(s) && k in s.conns.entries && Hist(s.trace, k).last == Some(x) && !Rst(x.flags)
    requires s.conns.entries[k].value.state != SynReceived
    requires forall a :: a in script ==> ActionClock(a)
    requires SettledAt(Hist(s.trace, k))
    ensures SettledAt(Hist(Text(s, k, s.conns.entries[k].value, x, script).trace, k))
  {
    var c := s.conns.entries[k].value;
    assert Good(s, k);
    if SeqLen(x) > 0 {
      if x.seqNo != c.rcvNxt {
        HistSnoc(s.trace, Tx(k, Segment(c.sndNxt, c.rcvNxt, ACK, [])), k);
      } else {
        TakeInv(s, k, x);
        var s1 := Take(s, k, c, x);
        var s2 := if x.data != [] && c.state == Established then RunScript(s1, script) else s1;
        if x.data != [] && c.state == Established {
          ScriptInv(s1, script, k);
        }
        assert Good(s2, k);
        if Fin(x.flags) {
          PeerFinInv(s2, k);
          assert Good(PeerFin(s2, k), k);
        }
      }
    }
  }

  /** An arrival for `k` reaches other connections only through the handler. */
  lemma ReceiveFrame(s: Tcp, k: Key, x: Segment, now: nat, script: seq<Action>, j: Key)
    requires Inv(s) && now > 0 && forall a :: a in script ==> ActionClock(a)
    requires j != k
    ensures OnlySends(Hist(s.trace, j), Hist(Receive(s, k, x, now, script).trace, j))
  {
    hide Hist, WellFormed, ListenersOk;
    var s0 := Log(s, Arrived(k, x));
    ArrivalInv(s, k, x);
    HistSnoc(s.trace, Arrived(k, x), j);
    if !Live(s0.conns, k, now) {
      KnockFrame(s0, k, x, now, j);
    } else {
      var c := s0.conns.entries[k].value;
      assert Good(s0, k);
      var acksAll := Ack(x.flags) && x.ackNo == c.sndNxt;
      if Rst(x.flags) {
        HistSnoc(s0.trace, Removed(k, false), j);
      } else if c.state == SynReceived {
        HandshakeFrame(s0, k, c, x, j);
      } else if acksAll && c.state in {LastAck, Closing} {
        HistSnoc(s0.trace, Removed(k, true), j);
      } else if acksAll && c.state == FinWait1 {
        AroundGood(s0, k);
        MoveInv(s0, k, c, FinWait2);
        HistSnoc(s0.trace, Moved(k, FinWait1, FinWait2), j);
        TextFrame(Move(s0, k, c, FinWait2), k, x, script, j);
      } else {
        TextFrame(s0, k, x, script, j);
      }
    }
  }

  lemma ReceiveSettled(s: Tcp, k: Key, x: Segment, now: nat, script: seq<Action>)
    requires Inv(s) && now > 0 && forall a :: a in script ==> ActionClock(a)
    requires SettledAt(Hist(s.trace, k))
    ensures SettledAt(Hist(Receive(s, k, x, now, script).trace, k))
  {
    hide Hist, WellFormed, ListenersOk;
    var s0 := Log(s, Arrived(k, x));
    ArrivalInv(s, k, x);
    if !Live(s0.conns, k, now) {
      KnockSettled(s0, k, x, now);
    } else {
      var c := s0.conns.entries[k].value;
      assert Good(s0, k);
      var acksAll := Ack(x.flags) && x.ackNo == c.sndNxt;
      if Rst(x.flags) {
        HistSnoc(s0.trace, Removed(k, false), k);
      } else if c.state == SynReceived {
        HandshakeSettled(s0, k, x);
      } else if acksAll && c.state in {LastAck, Closing} {
        HistSnoc(s0.trace, Removed(k, true), k);
      } else if acksAll && c.state == FinWait1 {
        AroundGood(s0, k);
        MoveInv(s0, k, c, FinWait2);
        TextSettled(Move(s0, k, c, FinWait2), k, x, script);
      } else {
        TextSettled(s0, k, x, script);
      }
    }
  }

  /** Both invariants survive every event. */
  lemma StepOk(s: Tcp, e: Event)
    requires Inv(s) && Settled(s) && EventClock(e)
    ensures Inv(Step(s, e)) && Settled(Step(s, e))
  {
    forall j
      ensures SettledAt(Hist(Step(s, e).trace, j))
    {
      assert SettledAt(Hist(s.trace, j));
      match e
      case Arrival(k, x, now, script) =>
        if j == k {
          ReceiveSettled(s, k, x, now, script);
        } else {
          ReceiveFrame(s, k, x, now, script, j);
        }
      case Call(a) => ActInv(s, a, j);
    }
    match e
    case Arrival(k, x, now, script) => ReceiveInv(s, k, x, now, script);
    case Call(a) => ActInv(s, a, Key(0, [0, 0, 0, 0], 0));
  }

  /** Both invariants hold in every run. */
  lemma {:induction false} RunOk(s: Tcp, events: seq<Event>)
    requires Initial(s) && Clocked(events)
    ensures Inv(Run(s, events)) && Settled(Run(s, events))
  {
    if |events| > 0 {
      var init, e := events[..|events| - 1], events[|events| - 1];
      assert forall x :: x in init ==> x in events;
      RunOk(s, init);
      assert e in events && EventClock(e);
      StepOk(Run(s, init), e);
    }
  }

  /** What the record and the history of `k` say about the stream `p` received so far. */
  predicate Received(r: Tcp, k: Key, p: seq<Byte>)
  {
    var b := Hist(r.trace, k);
    && Prefix(b.delivered, p)
    && (k in r.conns.entries && r.conns.entries[k].value.state == Established ==>
          b.rcvd <= |p| && b.delivered == p[..b.rcvd])
  }

  lemma StateReceived(r: Tcp, k: Key, p: seq<Byte>)
    requires Inv(r) && Settled(r) && ConformingPeer(r.trace, k, p)
    ensures Received(r, k, p)
  {
    DeliveredInOrder(r.trace, k, p);
    assert Good(r, k) && SettledAt(Hist(r.trace, k));
  }

  /** In-order, exactly-once delivery in every run: what the handler was given is a prefix of the conforming
  peer's stream; while the connection is established it is the whole of what was acknowledged. */
  lemma RunDelivers(s: Tcp, events: seq<Event>, k: Key, p: seq<Byte>)
    requires Initial(s) && Clocked(events)
    requires ConformingPeer(Run(s, events).trace, k, p)
    ensures Received(Run(s, events), k, p)
  {
    RunOk(s, events);
    StateReceived(Run(s, events), k, p);
  }

  /** The 32-bit fields in every run: `snd_nxt` is ISS + 1 + bytes sent + (1 if a FIN was sent), `rcv_nxt` is
  IRS + 1 + the sequence space accepted, and a FIN was sent exactly when the state is past ESTABLISHED. */
  predicate NumbersOk(c: Conn, b: Book)
  {
    && c.sndNxt == Wrap(b.iss + 1 + |b.sent| + b.fins)
    && c.rcvNxt == Wrap(b.irs + 1 + b.rcvd)
    && b.fins == One(c.state !in {SynReceived, Established})
  }

  lemma RunNumbers(s: Tcp, events: seq<Event>, k: Key)
    requires Initial(s) && Clocked(events) && k in Run(s, events).conns.entries
    ensures NumbersOk(Run(s, events).conns.entries[k].value, Hist(Run(s, events).trace, k))
  {
    RunOk(s, events);
    assert Good(Run(s, events), k);
  }

  /** Every connection found past SYN_RECEIVED in any run went through the handshake, in order. */
  lemma RunHandshake(s: Tcp, events: seq<Event>, k: Key) returns (syn: nat, synAck: nat, ack: nat)
    requires Initial(s) && Clocked(events) && k in Run(s, events).conns.entries
    requires Run(s, events).conns.entries[k].value.state != SynReceived
    ensures var t := Run(s, events).trace;
      && SynAt(t, syn, k, Hist(t, k)) && SynAckAt(t, synAck, k, Hist(t, k)) && AckAt(t, ack, k, Hist(t, k))
      && syn + 1 < synAck < ack
      && SameLife(t, syn + 2, k) && SameLife(t, synAck, k) && SameLife(t, ack, k)
  {
    RunOk(s, events);
    assert Good(Run(s, events), k);
    syn, synAck, ack := HandshakeHappened(Run(s, events).trace, k);
  }

  // ---------- what gets an answer

  /** A segment on a synchronized connection gets an answer of the stack itself exactly when it takes sequence
  space and is out of order, or carries a FIN, or carries data while the connection is established. */
  predicate GetsAnswer(c: Conn, x: Segment)
  {
    SeqLen(x) > 0 && (x.seqNo != c.rcvNxt || Fin(x.flags) || (x.data != [] && c.state == Established))
  }

  /** Entry `i` is an acknowledgement on `k` that is up to date with the record `c`: it acknowledges all that is
  accepted and stands just before what will be sent next. */
  predicate AnswerAt(t: seq<Effect>, i: nat, k: Key, c: Conn)
  {
    && i < |t| && t[i].Tx? && t[i].key == k && Ack(t[i].seg.flags)
    && t[i].seg.ackNo == c.rcvNxt && Wrap(t[i].seg.seqNo + SeqLen(t[i].seg)) == c.sndNxt
  }

  lemma PeerFinAnswers(s: Tcp, k: Key)
    requires k in s.conns.entries
    ensures var s' := PeerFin(s, k);
      k in s'.conns.entries && |s.trace| < |s'.trace| && AnswerAt(s'.trace, |s.trace|, k, s'.conns.entries[k].value)
  {
    FlagBits();
  }

  lemma TakeAnswers(s: Tcp, k: Key, c: Conn, x: Segment)
    requires k in s.conns.entries && s.conns.entries[k].value == c
    ensures var s' := Take(s, k, c, x);
      && k in s'.conns.entries && |s.trace| < |s'.trace| && s'.trace[..|s.trace|] == s.trace
      && s'.conns.entries[k].value == c.(rcvNxt := Wrap(c.rcvNxt + SeqLen(x)))
      && (x.data != [] && c.state == Established ==>
          |s'.trace| == |s.trace| + 3 && AnswerAt(s'.trace, |s.trace| + 1, k, s'.conns.entries[k].value))
      && (!(x.data != [] && c.state == Established) ==> s'.trace == s.trace + [Accepted(k, x)])
  {
    FlagBits();
  }

  /** Whatever the handler does, it leaves what is expected from the peer alone, and the trace only grows. */
  lemma {:induction false} ScriptKeepsRcv(s: Tcp, script: seq<Action>, k: Key)
    requires k in s.conns.entries
    ensures var s' := RunScript(s, script);
      && k in s'.conns.entries && s'.conns.entries[k].value.rcvNxt == s.conns.entries[k].value.rcvNxt
      && |s.trace| <= |s'.trace| && s'.trace[..|s.trace|] == s.trace
  {
    if |script| > 0 {
      ScriptKeepsRcv(s, script[..|script| - 1], k);
    }
  }

  /** Entry `i` acknowledges on `k` all that is accepted in `s`. */
  predicate AcksAt(s: Tcp, i: nat, k: Key)
    requires k in s.conns.entries
  {
    && i < |s.trace| && s.trace[i].Tx? && s.trace[i].key == k && Ack(s.trace[i].seg.flags)
    && s.trace[i].seg.ackNo == s.conns.entries[k].value.rcvNxt
  }

  predicate SendsSince(s: Tcp, from: nat) { exists i :: from <= i < |s.trace| && s.trace[i].Tx? }

  ghost predicate AcksSince(s: Tcp, from: nat, k: Key)
    requires k in s.conns.entries
  {
    exists i :: from <= i < |s.trace| && AcksAt(s, i, k)
  }

  /** With a silent handler the last answer also stands just before what will be sent next. */
  ghost predicate UpToDateSince(s: Tcp, from: nat, k: Key)
    requires k in s.conns.entries
  {
    exists i :: from <= i < |s.trace| && AnswerAt(s.trace, i, k, s.conns.entries[k].value)
  }

  lemma FinAnswer(s: Tcp, k: Key, from: nat)
    requires k in s.conns.entries && from <= |s.trace|
    ensures var s' := PeerFin(s, k);
      && k in s'.conns.entries && |s.trace| <= |s'.trace| && s'.trace[..|s.trace|] == s.trace
      && SendsSince(s', from) && AcksSince(s', from, k) && UpToDateSince(s', from, k)
  {
    PeerFinAnswers(s, k);
    assert AcksAt(PeerFin(s, k), |s.trace|, k);
  }

  lemma TextAnswered(s: Tcp, k: Key, x: Segment, script: seq<Action>)
    requires k in s.conns.entries
    ensures var c := s.conns.entries[k].value;
      var s' := Text(s, k, c, x, script);
      && k in s'.conns.entries && |s.trace| <= |s'.trace| && s'.trace[..|s.trace|] == s.trace
      && (GetsAnswer(c, x) <==> SendsSince(s', |s.trace|))
      && (GetsAnswer(c, x) ==> AcksSince(s', |s.trace|, k))
      && (GetsAnswer(c, x) && script == [] ==> UpToDateSince(s', |s.trace|, k))
  {
    hide PeerFin, Take;
    FlagBits();
    var c := s.conns.entries[k].value;
    var s' := Text(s, k, c, x, script);
    if SeqLen(x) > 0 {
      if x.seqNo != c.rcvNxt {
        assert AnswerAt(s'.trace, |s.trace|, k, c) && AcksAt(s', |s.trace|, k);
      } else {
        TakeAnswers(s, k, c, x);
        var s1 := Take(s, k, c, x);
        if x.data != [] && c.state == Established {
          ScriptKeepsRcv(s1, script, k);
          var s2, i := RunScript(s1, script), |s.trace| + 1;
          assert s2.trace[i] == s2.trace[..|s1.trace|][i] == s1.trace[i];
          assert s1.trace[i].Tx?;
          assert AcksAt(s2, i, k);
          if script == [] {
            assert AnswerAt(s2.trace, i, k, s2.conns.entries[k].value);
          }
          if Fin(x.flags) {
            FinAnswer(s2, k, |s.trace|);
          }
        } else if Fin(x.flags) {
          FinAnswer(s1, k, |s.trace|);
        }
      }
    }
  }

  /** What `tcp_in` sends on a synchronized connection, whatever the handler does: unless the segment removes the
  connection, it is answered exactly when it takes sequence space and is out of order, carries a FIN, or
  carries data while the connection is established; the answer acknowledges all that is accepted. If it is not
  answered, nothing at all is sent. */
  lemma AnsweredExactly(s: Tcp, k: Key, x: Segment, now: nat, script: seq<Action>)
    requires Live(s.conns, k, now) && s.conns.entries[k].value.state != SynReceived && !Rst(x.flags)
    ensures var c := s.conns.entries[k].value;
      var s' := Receive(s, k, x, now, script);
      var removed := Ack(x.flags) && x.ackNo == c.sndNxt && c.state in {LastAck, Closing};
      && (SendsSince(s', |s.trace|) <==> !removed && GetsAnswer(c, x))
      && (removed <==> k !in s'.conns.entries)
      && (!removed && GetsAnswer(c, x) ==>
          AcksSince(s', |s.trace|, k) && (script == [] ==> UpToDateSince(s', |s.trace|, k)))
  {
    hide Text, AcksAt, AnswerAt;
    var c := s.conns.entries[k].value;
    var s0 := Log(s, Arrived(k, x));
    var acksAll := Ack(x.flags) && x.ackNo == c.sndNxt;
    if acksAll && c.state in {LastAck, Closing} {
    } else if acksAll && c.state == FinWait1 {
      var s1 := Move(s0, k, c, FinWait2);
      TextAnswered(s1, k, x, script);
      SinceEarlier(Text(s1, k, c.(state := FinWait2), x, script), |s.trace|, |s1.trace|, k, s1.trace);
    } else {
      TextAnswered(s0, k, x, script);
      SinceEarlier(Text(s0, k, c, x, script), |s.trace|, |s0.trace|, k, s0.trace);
    }
  }

  /** Nothing was sent between `from` and `mid`. */
  lemma SinceEarlier(s: Tcp, from: nat, mid: nat, k: Key, t: seq<Effect>)
    requires k in s.conns.entries && from <= mid == |t| <= |s.trace| && s.trace[..mid] == t
    requires forall i :: from <= i < mid ==> !t[i].Tx?
    ensures SendsSince(s, from) <==> SendsSince(s, mid)
    ensures AcksSince(s, mid, k) ==> AcksSince(s, from, k)
    ensures UpToDateSince(s, mid, k) ==> UpToDateSince(s, from, k)
  {
    hide AcksAt, AnswerAt;
    assert forall i :: from <= i < mid ==> s.trace[i] == t[i];
  }
}
