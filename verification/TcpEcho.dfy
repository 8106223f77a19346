/** The sample service of src/main.c: a handler that sends back, from inside `tcp_in`, what it was given. */
module TcpEcho {
  import opened Words
  import opened ExpiringMap
  import opened TcpTrace
  import opened TcpMachine
  import opened TcpInvariant
  import opened TcpHistory
  import opened TcpRuns

  const ECHO_PORT: U16 := 60001

  /** `TCP_handler`: one `tcp_send` from port 60001 to where the data came from; the length is cut to 16 bits. */
  function EchoScript(k: Key, data: seq<Byte>, now: nat): seq<Action>
  {
    [Send(Key(ECHO_PORT, k.remoteIp, k.remotePort), data[..|data| % 0x1_0000], now)]
  }

  /** An arrival served by the echo handler, which reads the clock a little later. A segment comes in an IP
  packet, so its payload is shorter than 2^16. */
  datatype Serving = Serving(key: Key, seg: Segment, now: nat, later: nat)

  function EventOf(v: Serving): Event { Arrival(v.key, v.seg, v.now, EchoScript(v.key, v.seg.data, v.later)) }

  predicate ServingOk(v: Serving, clock: nat)
  {
    0 < v.now && clock <= v.now <= v.later && |v.seg.data| < 0x1_0000
  }

  function Serve(s: Tcp, vs: seq<Serving>): Tcp
  {
    if |vs| == 0 then s else Step(Serve(s, vs[..|vs| - 1]), EventOf(vs[|vs| - 1]))
  }

  function ClockAfter(vs: seq<Serving>, start: nat): nat
  {
    if |vs| == 0 then start else vs[|vs| - 1].later
  }

  predicate AllServingOk(vs: seq<Serving>, start: nat)
  {
    |vs| > 0 ==>
      && AllServingOk(vs[..|vs| - 1], start)
      && ServingOk(vs[|vs| - 1], ClockAfter(vs[..|vs| - 1], start))
  }

  // ---------- other connections are not touched

  predicate SameEntry(s: Tcp, s': Tcp, j: Key)
  {
    && (j in s'.conns.entries <==> j in s.conns.entries)
    && (j in s.conns.entries ==> s'.conns.entries[j] == s.conns.entries[j])
  }

  lemma TextLeavesOthers(s: Tcp, k: Key, c: Conn, x: Segment, d: seq<Byte>, t: nat, j: Key)
    requires k in s.conns.entries && j != k
    ensures var s' := Text(s, k, c, x, [Send(k, d, t)]);
      Hist(s'.trace, j) == Hist(s.trace, j) && SameEntry(s, s', j)
  {
    hide Hist, Wrap;
    LogOther(s, Tx(k, Segment(c.sndNxt, c.rcvNxt, ACK, [])), k, j);
    TakeFrame(s, k, c, x, j);
    var s1 := Take(s, k, c, x);
    var script := [Send(k, d, t)];
    assert RunScript(s1, script) == Act(s1, Send(k, d, t)) by { assert script[..0] == []; }
    if Ready(s1, k, t) {
      var c1 := s1.conns.entries[k].value;
      LogOther(s1, Tx(k, Segment(c1.sndNxt, c1.rcvNxt, if d == [] then ACK else PSH_ACK, d)), k, j);
    }
    var s2 := if x.data != [] && c.state == Established then RunScript(s1, script) else s1;
    if k in s2.conns.entries {
      PeerFinFrame(s2, k, j);
    }
  }

  lemma ReceiveLeavesOthers(s: Tcp, k: Key, x: Segment, now: nat, d: seq<Byte>, t: nat, j: Key)
    requires j != k
    ensures var s' := Receive(s, k, x, now, [Send(k, d, t)]);
      Hist(s'.trace, j) == Hist(s.trace, j) && SameEntry(s, s', j)
  {
    hide Hist, Wrap, Text;
    var s0 := Log(s, Arrived(k, x));
    LogOther(s, Arrived(k, x), k, j);
    if !Live(s0.conns, k, now) {
      KnockFrame(s0, k, x, now, j);
    } else {
      var c := s0.conns.entries[k].value;
      HandshakeFrame(s0, k, c, x, j);
      LogOther(s0, Removed(k, false), k, j);
      LogOther(s0, Removed(k, true), k, j);
      TextLeavesOthers(s0, k, c, x, d, t, j);
      LogOther(s0, Moved(k, c.state, FinWait2), k, j);
      TextLeavesOthers(Move(s0, k, c, FinWait2), k, c.(state := FinWait2), x, d, t, j);
    }
  }

  // ---------- the connection that is served

  predicate Echoed(b: Book) { b.sent == b.delivered }

  lemma TakeKeepsStamp(s: Tcp, k: Key, x: Segment)
    requires k in s.conns.entries
    ensures var s' := Take(s, k, s.conns.entries[k].value, x);
      k in s'.conns.entries && s'.conns.entries[k].stamp == s.conns.entries[k].stamp
          && s'.conns.timeout == s.conns.timeout
  {
  }

  lemma PeerFinKeepsStamp(s: Tcp, k: Key)
    requires k in s.conns.entries
    ensures var s' := PeerFin(s, k);
      k in s'.conns.entries && s'.conns.entries[k].stamp == s.conns.entries[k].stamp
          && s'.conns.timeout == s.conns.timeout
  {
  }

  /** If the connection has not expired by the time the handler sends, what was delivered is sent back. */
  lemma TextEchoes(s: Tcp, k: Key, x: Segment, t: nat)
    requires Inv(s) && k in s.conns.entries && Hist(s.trace, k).last == Some(x) && !Rst(x.flags) && t > 0
    requires s.conns.entries[k].value.state != SynReceived && Echoed(Hist(s.trace, k))
    ensures var s' := Text(s, k, s.conns.entries[k].value, x, [Send(k, x.data, t)]);
      Live(s'.conns, k, t) ==> Echoed(Hist(s'.trace, k))
  {
    hide Hist, WellFormed, ListenersOk, Wrap;
    var c := s.conns.entries[k].value;
    if SeqLen(x) > 0 {
      if x.seqNo != c.rcvNxt {
        PlainAckJustified(s, k);
        FlagBits();
        EmitBare(s, k, Segment(c.sndNxt, c.rcvNxt, ACK, []));
      } else {
        TakeInv(s, k, x);
        TakeKeepsStamp(s, k, x);
        var s1 := Take(s, k, c, x);
        var script := [Send(k, x.data, t)];
        assert RunScript(s1, script) == Act(s1, Send(k, x.data, t)) by { assert script[..0] == []; }
        var s2 := if x.data != [] && c.state == Established then Act(s1, Send(k, x.data, t)) else s1;
        ActInv(s1, Send(k, x.data, t), k);
        if x.data != [] && c.state == Established && Ready(s1, k, t) {
          SendInv(s1, k, x.data, t);
          assert Echoed(Hist(s2.trace, k));
        }
        assert Live(s2.conns, k, t) ==> Echoed(Hist(s2.trace, k)) by {
          assert Hist(s.trace, k).delivered + [] == Hist(s.trace, k).delivered;
        }
        if Fin(x.flags) {
          assert Good(s1, k) && Good(s2, k) && Good(s, k);
          PeerFinInv(s2, k);
          PeerFinKeepsStamp(s2, k);
        }
      }
    }
  }

  lemma KnockEchoes(s: Tcp, k: Key, x: Segment, now: nat, t: nat)
    requires Inv(s) && !Live(s.conns, k, now) && now <= t
    ensures var s' := Knock(s, k, x, now); Live(s'.conns, k, t) ==> Echoed(Hist(s'.trace, k))
  {
    var listener := Lookup(s.listeners, k.localPort, now);
    if Syn(x.flags) && !Ack(x.flags) && listener.Some? && Accepts(s.conns, k, now) {
      var e := Opened(k, s.isn, x.seqNo, listener.value);
      HistSnoc(s.trace, e, k);
      HistSnoc(s.trace + [e], Tx(k, Segment(s.isn, Wrap(x.seqNo + 1), SYN_ACK, [])), k);
    }
  }

  lemma HandshakeEchoes(s: Tcp, k: Key, c: Conn, x: Segment)
    requires Echoed(Hist(s.trace, k))
    ensures Echoed(Hist(Handshake(s, k, c, x).trace, k))
  {
    var b := Hist(s.trace, k);
    assert b.sent + [] == b.sent;
    HistSnoc(s.trace, Tx(k, Segment(Wrap(c.sndNxt - 1), c.rcvNxt, SYN_ACK, [])), k);
    HistSnoc(s.trace, Moved(k, c.state, Established), k);
    HistSnoc(s.trace, Tx(k, ResetFor(x)), k);
  }

  lemma ReceiveEchoes(s: Tcp, k: Key, x: Segment, now: nat, t: nat)
    requires Inv(s) && 0 < now <= t && (Live(s.conns, k, now) ==> Echoed(Hist(s.trace, k)))
    ensures var s' := Receive(s, k, x, now, [Send(k, x.data, t)]);
      Live(s'.conns, k, t) ==> Echoed(Hist(s'.trace, k))
  {
    hide Hist, WellFormed, ListenersOk, Wrap;
    var s0 := Log(s, Arrived(k, x));
    ArrivalInv(s, k, x);
    if !Live(s0.conns, k, now) {
      KnockEchoes(s0, k, x, now, t);
    } else {
      var c := s0.conns.entries[k].value;
      assert Good(s0, k);
      var acksAll := Ack(x.flags) && x.ackNo == c.sndNxt;
      if !Rst(x.flags) {
        if c.state == SynReceived {
          HandshakeEchoes(s0, k, c, x);
        } else if acksAll && c.state == FinWait1 {
          AroundGood(s0, k);
          MoveInv(s0, k, c, FinWait2);
          TextEchoes(Move(s0, k, c, FinWait2), k, x, t);
        } else if !(acksAll && c.state in {LastAck, Closing}) {
          TextEchoes(s0, k, x, t);
        }
      }
    }
  }

  // ---------- the service over whole runs

  /** Only the echo port has a listener, and every live connection has sent back exactly what it delivered. */
  ghost predicate EchoState(s: Tcp, clock: nat)
  {
    && Inv(s) && Settled(s)
    && (forall port :: port in s.listeners.entries ==> port == ECHO_PORT)
    && (forall k :: k in s.conns.entries ==> k.localPort == ECHO_PORT)
    && (forall k | k in s.conns.entries :: Live(s.conns, k, clock) ==> Echoed(Hist(s.trace, k)))
  }

  /** A segment for any other port is answered by a reset at most. */
  lemma OtherPort(s: Tcp, v: Serving, clock: nat)
    requires EchoState(s, clock) && ServingOk(v, clock) && v.key.localPort != ECHO_PORT
    ensures var s' := Step(s, EventOf(v));
      s'.conns == s.conns && s'.listeners == s.listeners
      && forall j :: j in s.conns.entries ==> Hist(s'.trace, j) == Hist(s.trace, j)
  {
    var k, x := v.key, v.seg;
    assert Lookup(s.listeners, k.localPort, v.now).None?;
    forall j | j in s.conns.entries
      ensures Hist(Step(s, EventOf(v)).trace, j) == Hist(s.trace, j)
    {
      LogOther(s, Arrived(k, x), k, j);
      LogOther(Log(s, Arrived(k, x)), Tx(k, ResetFor(x)), k, j);
    }
  }

  lemma TextPorts(s: Tcp, k: Key, c: Conn, x: Segment, d: seq<Byte>, t: nat)
    requires k in s.conns.entries
    ensures Text(s, k, c, x, [Send(k, d, t)]).listeners == s.listeners
  {
    var s1 := Take(s, k, c, x);
    var script := [Send(k, d, t)];
    assert RunScript(s1, script) == Act(s1, Send(k, d, t)) by { assert script[..0] == []; }
  }

  lemma ReceivePorts(s: Tcp, k: Key, x: Segment, now: nat, d: seq<Byte>, t: nat)
    ensures Receive(s, k, x, now, [Send(k, d, t)]).listeners == s.listeners
  {
    var s0 := Log(s, Arrived(k, x));
    if Live(s0.conns, k, now) {
      var c := s0.conns.entries[k].value;
      TextPorts(s0, k, c, x, d, t);
      TextPorts(Move(s0, k, c, FinWait2), k, c.(state := FinWait2), x, d, t);
    }
  }

  lemma StampsOnlyAge<K, V>(m: ExpMap<K, V>, k: K, now: nat, later: nat)
    requires now <= later && Live(m, k, later)
    ensures Live(m, k, now)
  {
  }

  lemma ReceiveTimeout(s: Tcp, v: Serving)
    requires v.key.localPort == ECHO_PORT && |v.seg.data| < 0x1_0000
    ensures Step(s, EventOf(v)) == Receive(s, v.key, v.seg, v.now, [Send(v.key, v.seg.data, v.later)])
  {
    hide Receive;
    assert v.seg.data[..|v.seg.data|] == v.seg.data;
  }

  lemma ServeStep(s: Tcp, v: Serving, clock: nat)
    requires EchoState(s, clock) && ServingOk(v, clock)
    ensures EchoState(Step(s, EventOf(v)), v.later)
  {
    hide Hist, WellFormed, ListenersOk, Wrap;
    var k, x := v.key, v.seg;
    var s' := Step(s, EventOf(v));
    StepOk(s, EventOf(v));
    if k.localPort != ECHO_PORT {
      OtherPort(s, v, clock);
      forall j | j in s'.conns.entries && Live(s'.conns, j, v.later)
        ensures Echoed(Hist(s'.trace, j))
      {
        StampsOnlyAge(s.conns, j, clock, v.later);
      }
    } else {
      ReceiveTimeout(s, v);
      ReceivePorts(s, k, x, v.now, x.data, v.later);
      if Live(s.conns, k, v.now) {
        StampsOnlyAge(s.conns, k, clock, v.now);
      }
      ReceiveEchoes(s, k, x, v.now, v.later);
      forall j | j in s'.conns.entries
        ensures j.localPort == ECHO_PORT && (Live(s'.conns, j, v.later) ==> Echoed(Hist(s'.trace, j)))
      {
        if j != k {
          ReceiveLeavesOthers(s, k, x, v.now, x.data, v.later, j);
          TimeoutsFixed(s, k, x, v.now, x.data, v.later);
          if Live(s'.conns, j, v.later) {
            StampsOnlyAge(s.conns, j, clock, v.later);
          }
        }
      }
    }
  }

  lemma TextTimeout(s: Tcp, k: Key, c: Conn, x: Segment, d: seq<Byte>, t: nat)
    requires k in s.conns.entries
    ensures Text(s, k, c, x, [Send(k, d, t)]).conns.timeout == s.conns.timeout
  {
    var s1 := Take(s, k, c, x);
    var script := [Send(k, d, t)];
    assert RunScript(s1, script) == Act(s1, Send(k, d, t)) by { assert script[..0] == []; }
  }

  lemma TimeoutsFixed(s: Tcp, k: Key, x: Segment, now: nat, d: seq<Byte>, t: nat)
    ensures Receive(s, k, x, now, [Send(k, d, t)]).conns.timeout == s.conns.timeout
  {
    var s0 := Log(s, Arrived(k, x));
    if Live(s0.conns, k, now) {
      var c := s0.conns.entries[k].value;
      TextTimeout(s0, k, c, x, d, t);
      TextTimeout(Move(s0, k, c, FinWait2), k, c.(state := FinWait2), x, d, t);
    }
  }

  /** The echo service, in every run: every live connection has sent back exactly the bytes delivered to the
  handler, in order. */
  lemma {:induction false} ServeEchoes(s: Tcp, vs: seq<Serving>, start: nat)
    requires EchoState(s, start) && AllServingOk(vs, start)
    ensures EchoState(Serve(s, vs), ClockAfter(vs, start))
  {
    if |vs| > 0 {
      var init := vs[..|vs| - 1];
      ServeEchoes(s, init, start);
      ServeStep(Serve(s, init), vs[|vs| - 1], ClockAfter(init, start));
    }
  }

  /** src/main.c after start-up: the echo port is listened on and nothing has arrived. */
  lemma ListeningIsEchoState(s: Tcp, h: Handler, now: nat)
    requires Initial(s) && now > 0 && s.listeners.max > 0
    ensures EchoState(Act(s, Listen(ECHO_PORT, h, now)), now)
  {
    var a := Listen(ECHO_PORT, h, now);
    RunOk(s, []);
    StepOk(s, Call(a));
  }

  lemma WrapDiff(base: int, n: int)
    ensures Wrap(Wrap(base + n) - base) == Wrap(n)
  {
    WrapAdd(base + n, -base);
  }

  /** With a conforming peer the two directions stay level while established: as far as `snd_nxt` is ahead of
  ISS + 1, `rcv_nxt` is ahead of IRS + 1. */
  lemma EchoLevel(s: Tcp, k: Key, clock: nat, p: seq<Byte>)
    requires EchoState(s, clock) && k in s.conns.entries && Live(s.conns, k, clock)
    requires s.conns.entries[k].value.state == Established && ConformingPeer(s.trace, k, p)
    ensures var c, b := s.conns.entries[k].value, Hist(s.trace, k);
      && |b.sent| <= |p| && b.sent == b.delivered == p[..|b.sent|]
      && Wrap(c.sndNxt - (b.iss + 1)) == Wrap(c.rcvNxt - (b.irs + 1)) == Wrap(|b.sent|)
  {
    var b := Hist(s.trace, k);
    StateReceived(s, k, p);
    assert Good(s, k);
    WrapDiff(b.iss + 1, |b.sent|);
    WrapDiff(b.irs + 1, b.rcvd);
  }
}
