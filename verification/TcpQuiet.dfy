/** Automatic replies die out. Every segment has a weight and every connection that may still send a FIN
has a potential; `tcp_in` always turns what it is given into strictly less. */
module TcpQuiet {
  import opened Words
  import opened ExpiringMap
  import opened TcpTrace
  import opened TcpMachine

  function Weight(x: Segment): nat
  {
    if Syn(x.flags) && !Ack(x.flags) then 9
    else if SeqLen(x) > 0 then 3
    else if Rst(x.flags) then 1
    else 2
  }

  /** The weight of everything sent in a trace. */
  function SentWeight(t: seq<Effect>): nat
  {
    if |t| == 0 then 0
    else SentWeight(t[..|t| - 1]) + if t[|t| - 1].Tx? then Weight(t[|t| - 1].seg) else 0
  }

  lemma SentWeightSnoc(t: seq<Effect>, e: Effect)
    ensures SentWeight(t + [e]) == SentWeight(t) + if e.Tx? then Weight(e.seg) else 0
  {
    assert (t + [e])[..|t|] == t;
  }

  predicate MayFin(c: Conn) { c.state == SynReceived || c.state == Established }

  /** The connections that may still send a FIN. */
  function Pending(s: Tcp): set<Key>
  {
    set k | k in s.conns.entries && MayFin(s.conns.entries[k].value)
  }

  function Energy(s: Tcp): nat { SentWeight(s.trace) + 5 * |Pending(s)| }

  // ---------- energy of the pieces of a step

  lemma LogEnergy(s: Tcp, e: Effect)
    ensures Energy(Log(s, e)) == Energy(s) + if e.Tx? then Weight(e.seg) else 0
  {
    SentWeightSnoc(s.trace, e);
    assert Pending(Log(s, e)) == Pending(s);
  }

  lemma StoreEnergy(s: Tcp, k: Key, c: Conn)
    requires k in s.conns.entries
    ensures MayFin(c) == MayFin(s.conns.entries[k].value) ==> Energy(Store(s, k, c)) == Energy(s)
    ensures !MayFin(c) && MayFin(s.conns.entries[k].value) ==> Energy(Store(s, k, c)) == Energy(s) - 5
  {
    if MayFin(c) == MayFin(s.conns.entries[k].value) {
      assert Pending(Store(s, k, c)) == Pending(s);
    } else if !MayFin(c) {
      assert Pending(Store(s, k, c)) == Pending(s) - {k};
    }
  }

  lemma MoveEnergy(s: Tcp, k: Key, c: Conn, to: State)
    requires k in s.conns.entries
    ensures var c' := c.(state := to);
      && (MayFin(c') == MayFin(s.conns.entries[k].value) ==> Energy(Move(s, k, c, to)) == Energy(s))
      && (!MayFin(c') && MayFin(s.conns.entries[k].value) ==> Energy(Move(s, k, c, to)) == Energy(s) - 5)
  {
    StoreEnergy(s, k, c.(state := to));
    LogEnergy(Store(s, k, c.(state := to)), Moved(k, c.state, to));
  }

  lemma DropEnergy(s: Tcp, k: Key, now: nat, acked: bool)
    ensures Energy(Drop(s, k, now, acked)) <= Energy(s)
  {
    var s1 := s.(conns := Remove(s.conns, k, now));
    assert Pending(s1) <= Pending(s);
    SubsetCard(Pending(s1), Pending(s));
    LogEnergy(s1, Removed(k, acked));
  }

  lemma SubsetCard<T>(a: set<T>, b: set<T>)
    requires a <= b
    ensures |a| <= |b|
  {
    assert b == a + (b - a);
  }

  lemma ResetEnergy(s: Tcp, k: Key, x: Segment)
    ensures Energy(Reset(s, k, x)) == Energy(s) + One(!Rst(x.flags))
  {
    FlagBits();
    if !Rst(x.flags) {
      LogEnergy(s, Tx(k, ResetFor(x)));
    }
  }

  lemma OpenEnergy(s: Tcp, k: Key, x: Segment, h: Handler, now: nat)
    requires Accepts(s.conns, k, now)
    ensures Energy(Open(s, k, x, h, now)) <= Energy(s) + 8
  {
    hide SentWeight, Wrap;
    FlagBits();
    var c := Conn(SynReceived, Wrap(s.isn + 1), Wrap(x.seqNo + 1), h);
    var s1 := s.(isn := Wrap(s.isn + 64000), conns := Put(s.conns, k, c, now));
    assert Pending(s1) == Pending(s) + {k};
    LogEnergy(s1, Opened(k, s.isn, x.seqNo, h));
    LogEnergy(Log(s1, Opened(k, s.isn, x.seqNo, h)), Tx(k, Segment(s.isn, c.rcvNxt, SYN_ACK, [])));
  }

  lemma KnockEnergy(s: Tcp, k: Key, x: Segment, now: nat)
    ensures Energy(Knock(s, k, x, now)) < Energy(s) + Weight(x)
  {
    var listener := Lookup(s.listeners, k.localPort, now);
    if !Syn(x.flags) || Ack(x.flags) || listener.None? {
      ResetEnergy(s, k, x);
    } else if Accepts(s.conns, k, now) {
      OpenEnergy(s, k, x, listener.value, now);
    } else {
      assert Pending(Knock(s, k, x, now)) == Pending(s);
    }
  }

  lemma HandshakeEnergy(s: Tcp, k: Key, x: Segment)
    requires k in s.conns.entries && s.conns.entries[k].value.state == SynReceived && !Rst(x.flags)
    ensures Energy(Handshake(s, k, s.conns.entries[k].value, x)) < Energy(s) + Weight(x)
  {
    FlagBits();
    var c := s.conns.entries[k].value;
    if Syn(x.flags) && !Ack(x.flags) && Wrap(x.seqNo + 1) == c.rcvNxt {
      LogEnergy(s, Tx(k, Segment(Wrap(c.sndNxt - 1), c.rcvNxt, SYN_ACK, [])));
    } else if Ack(x.flags) && x.ackNo == c.sndNxt && x.seqNo == c.rcvNxt {
      MoveEnergy(s, k, c, Established);
    } else {
      ResetEnergy(s, k, x);
    }
  }

  lemma SendFinEnergy(s: Tcp, k: Key, to: State)
    requires k in s.conns.entries && s.conns.entries[k].value.state == Established
    requires to == FinWait1 || to == LastAck
    ensures Energy(SendFin(s, k, s.conns.entries[k].value, to)) == Energy(s) - 2
  {
    hide Energy, SentWeight, Pending, Wrap;
    FlagBits();
    var c := s.conns.entries[k].value;
    var s1 := Log(s, Tx(k, Segment(c.sndNxt, c.rcvNxt, FIN_ACK, [])));
    var c1 := c.(sndNxt := Wrap(c.sndNxt + 1));
    LogEnergy(s, Tx(k, Segment(c.sndNxt, c.rcvNxt, FIN_ACK, [])));
    StoreEnergy(s1, k, c1);
    MoveEnergy(Store(s1, k, c1), k, c1, to);
  }

  /** An application that sends no data: it may close connections, listen and stop listening. */
  predicate Silent(a: Action) { !a.Send? }

  /** The listeners carry no energy. */
  lemma ListenersEnergy(s: Tcp, l: ExpMap<U16, Handler>, e: Effect)
    requires !e.Tx?
    ensures Energy(Log(s.(listeners := l), e)) == Energy(s)
  {
    SentWeightSnoc(s.trace, e);
    assert Pending(s.(listeners := l)) == Pending(s);
    LogEnergy(s.(listeners := l), e);
  }

  lemma SilentEnergy(s: Tcp, a: Action)
    requires Silent(a)
    ensures Energy(Act(s, a)) <= Energy(s)
    ensures Act(s, a).conns.entries.Keys == s.conns.entries.Keys
    ensures forall k :: k in s.conns.entries && s.conns.entries[k].value.state !in {Established} ==>
      Act(s, a).conns.entries[k] == s.conns.entries[k]
  {
    match a
    case Send(_, _, _) => assert false;
    case Close(k, now) =>
      if Ready(s, k, now) {
        SendFinEnergy(s, k, FinWait1);
      }
    case Listen(port, h, now) => ListenersEnergy(s, Put(s.listeners, port, h, now), Listening(port, h));
    case Unlisten(port, now) => ListenersEnergy(s, Remove(s.listeners, port, now), Unlistened(port));
  }

  lemma {:induction false} ScriptEnergy(s: Tcp, script: seq<Action>)
    requires forall a :: a in script ==> Silent(a)
    ensures Energy(RunScript(s, script)) <= Energy(s)
    ensures RunScript(s, script).conns.entries.Keys == s.conns.entries.Keys
  {
    if |script| > 0 {
      ScriptEnergy(s, script[..|script| - 1]);
      SilentEnergy(RunScript(s, script[..|script| - 1]), script[|script| - 1]);
    }
  }

  lemma PeerFinEnergy(s: Tcp, k: Key)
    requires k in s.conns.entries
    ensures Energy(PeerFin(s, k)) <= Energy(s) + 2
  {
    FlagBits();
    var c := s.conns.entries[k].value;
    if c.state == Established {
      SendFinEnergy(s, k, LastAck);
    } else {
      var s1 := Log(s, Tx(k, Segment(c.sndNxt, c.rcvNxt, ACK, [])));
      LogEnergy(s, Tx(k, Segment(c.sndNxt, c.rcvNxt, ACK, [])));
      MoveEnergy(s1, k, c, if c.state == FinWait1 then Closing else FinWait2);
    }
  }

  lemma TakeEnergy(s: Tcp, k: Key, x: Segment)
    requires k in s.conns.entries
    ensures var c := s.conns.entries[k].value;
      && Energy(Take(s, k, c, x)) == Energy(s) + (if x.data != [] && c.state == Established then 2 else 0)
      && k in Take(s, k, c, x).conns.entries
      && Take(s, k, c, x).conns.entries[k].value.state == c.state
  {
    hide Energy, SentWeight, Pending, Wrap;
    FlagBits();
    var c := s.conns.entries[k].value;
    var c1 := c.(rcvNxt := Wrap(c.rcvNxt + SeqLen(x)));
    var s1 := Store(s, k, c1);
    StoreEnergy(s, k, c1);
    LogEnergy(s1, Accepted(k, x));
    if x.data != [] && c.state == Established {
      var s2 := Advance(s, k, c, x);
      var ack := Tx(k, Segment(c1.sndNxt, c1.rcvNxt, ACK, []));
      LogEnergy(s2, ack);
      LogEnergy(Log(s2, ack), Delivered(k, c1.handler, x.data));
    }
  }

  /** The delicate case is data and FIN in one segment on an established connection: it is answered twice,
  and the potential given up by our FIN pays for the second answer, whoever sends that FIN. */
  lemma TextEnergy(s: Tcp, k: Key, x: Segment, script: seq<Action>)
    requires k in s.conns.entries && s.conns.entries[k].value.state != SynReceived
    requires forall a :: a in script ==> Silent(a)
    ensures Energy(Text(s, k, s.conns.entries[k].value, x, script)) < Energy(s) + Weight(x)
  {
    FlagBits();
    var c := s.conns.entries[k].value;
    if SeqLen(x) > 0 {
      if x.seqNo != c.rcvNxt {
        LogEnergy(s, Tx(k, Segment(c.sndNxt, c.rcvNxt, ACK, [])));
      } else {
        TakeEnergy(s, k, x);
        var s1 := Take(s, k, c, x);
        if x.data != [] && c.state == Established {
          ScriptEnergy(s1, script);
          var s2 := RunScript(s1, script);
          if Fin(x.flags) {
            if s2.conns.entries[k].value.state == Established {
              SendFinEnergy(s2, k, LastAck);
            } else {
              ScriptLeft(s1, script, k);
              PeerFinEnergy(s2, k);
            }
          }
        } else if Fin(x.flags) {
          PeerFinEnergy(s1, k);
        }
      }
    }
  }

  /** If the script took `k` out of ESTABLISHED, it gave up energy. */
  lemma {:induction false} ScriptLeft(s: Tcp, script: seq<Action>, k: Key)
    requires forall a :: a in script ==> Silent(a)
    requires k in s.conns.entries && s.conns.entries[k].value.state == Established
    ensures RunScript(s, script).conns.entries.Keys == s.conns.entries.Keys
    ensures RunScript(s, script).conns.entries[k].value.state != Established ==>
        Energy(RunScript(s, script)) <= Energy(s) - 2
  {
    ScriptEnergy(s, script);
    if |script| > 0 {
      var init, a := script[..|script| - 1], script[|script| - 1];
      ScriptLeft(s, init, k);
      ScriptEnergy(s, init);
      SilentEnergy(RunScript(s, init), a);
      if a.Close? && Ready(RunScript(s, init), a.key, a.now) {
        SendFinEnergy(RunScript(s, init), a.key, FinWait1);
      }
    }
  }

  /** `tcp_in` with a handler that sends nothing: the replies it makes and the connections it leaves weigh
  strictly less than the segment and the connections it was given. */
  lemma ReceiveCools(s: Tcp, k: Key, x: Segment, now: nat, script: seq<Action>)
    requires forall a :: a in script ==> Silent(a)
    ensures Energy(Receive(s, k, x, now, script)) < Energy(s) + Weight(x)
  {
    var s0 := Log(s, Arrived(k, x));
    LogEnergy(s, Arrived(k, x));
    if !Live(s0.conns, k, now) {
      KnockEnergy(s0, k, x, now);
    } else {
      var c := s0.conns.entries[k].value;
      var acksAll := Ack(x.flags) && x.ackNo == c.sndNxt;
      if Rst(x.flags) {
        DropEnergy(s0, k, now, false);
      } else if c.state == SynReceived {
        HandshakeEnergy(s0, k, x);
      } else if acksAll && c.state in {LastAck, Closing} {
        DropEnergy(s0, k, now, true);
      } else if acksAll && c.state == FinWait1 {
        MoveEnergy(s0, k, c, FinWait2);
        TextEnergy(Move(s0, k, c, FinWait2), k, x, script);
      } else {
        TextEnergy(s0, k, x, script);
      }
    }
  }

  /** A segment that takes no sequence space is answered by at most one reset, and by nothing at all if it is
  a reset itself: no RST answers a RST and no pure ACK answers a pure ACK. */
  lemma BareSegmentsGetAtMostReset(s: Tcp, k: Key, x: Segment, now: nat, script: seq<Action>)
    requires SeqLen(x) == 0
    ensures var s0, s' := Log(s, Arrived(k, x)), Receive(s, k, x, now, script);
      || s'.trace == s0.trace
      || (exists e :: s'.trace == s0.trace + [e] && !e.Tx?)
      || (!Rst(x.flags) && s'.trace == s0.trace + [Tx(k, ResetFor(x))])
  {
    var s0, s' := Log(s, Arrived(k, x)), Receive(s, k, x, now, script);
    if Live(s0.conns, k, now) {
      var c := s0.conns.entries[k].value;
      if s'.trace != s0.trace && s'.trace != s0.trace + [Tx(k, ResetFor(x))] {
        var e := s'.trace[|s'.trace| - 1];
        assert s'.trace == s0.trace + [e] && !e.Tx?;
      }
    }
  }
}
