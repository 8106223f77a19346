/** Two hosts running this stack, joined by a network that may lose, delay and reorder segments but
does not duplicate them, always go quiet when their applications send no data, whatever they close or listen on. */
module TcpNetwork {
  import opened Words
  import opened ExpiringMap
  import opened TcpTrace
  import opened TcpMachine
  import opened TcpQuiet
  import opened TcpSegment

  /** A segment in flight, to the first or the second host; `key` is the connection it names there. */
  datatype Packet = Packet(toFirst: bool, key: Key, seg: Segment)

  datatype Net = Net(first: Tcp, second: Tcp, firstIp: Ip, secondIp: Ip, flight: seq<Packet>)

  datatype NetEvent =
    | Deliver(i: nat, now: nat, script: seq<Action>)  // flight[i] reaches its host
    | Lose(i: nat)
    | Application(atFirst: bool, action: Action)

  /** The packets a host put on the network since its trace had length `from`; what it sent to third
  parties is of no interest. */
  function Outgoing(t: seq<Effect>, from: nat, fromFirst: bool, self: Ip, peer: Ip): seq<Packet>
    requires from <= |t|
    decreases |t|
  {
    if |t| == from then []
    else
      var e := t[|t| - 1];
      Outgoing(t[..|t| - 1], from, fromFirst, self, peer) +
      if e.Tx? && e.key.remoteIp == peer then
        [Packet(!fromFirst, Key(e.key.remotePort, self, e.key.localPort), e.seg)]
      else []
  }

  /** Entry `e` puts `p` in flight. */
  predicate Carries(e: Effect, fromFirst: bool, self: Ip, peer: Ip, p: Packet)
  {
    && e.Tx? && e.key.remoteIp == peer
    && p == Packet(!fromFirst, Key(e.key.remotePort, self, e.key.localPort), e.seg)
  }

  /** Nothing of what a host sends to its peer is left out, and nothing else is put in flight. */
  lemma {:induction false} OutgoingExact(t: seq<Effect>, from: nat, fromFirst: bool, self: Ip, peer: Ip, p: Packet)
    requires from <= |t|
    ensures p in Outgoing(t, from, fromFirst, self, peer) <==>
      exists i :: from <= i < |t| && Carries(t[i], fromFirst, self, peer, p)
    decreases |t|
  {
    if |t| > from {
      var n := |t| - 1;
      OutgoingExact(t[..n], from, fromFirst, self, peer, p);
      var before := Outgoing(t[..n], from, fromFirst, self, peer);
      assert p in Outgoing(t, from, fromFirst, self, peer) <==> p in before || Carries(t[n], fromFirst, self, peer, p);
      hide Carries, Outgoing;
      assert forall i :: from <= i < n ==> t[..n][i] == t[i];
    }
  }

  /** On the wire a packet of the model is what `tcp_out` writes: the peer's `tcp_in` decodes the bytes to the
  same segment, under the key that `Outgoing` gives it. */
  lemma WireCarriesPacket(k: Key, x: Segment, self: Ip, peer: Ip)
    requires |x.data| <= 65535 && k.remoteIp == peer
    ensures var b := Encode(self, k.remoteIp, k.localPort, k.remotePort, x);
      var got := Decode(b, self, peer);
      got.Some? && Key(got.value.dstPort, self, got.value.srcPort) == Key(k.remotePort, self, k.localPort)
          && got.value.seg == x
  {
    RoundTrip(self, peer, k.localPort, k.remotePort, x);
  }

  function FlightWeight(f: seq<Packet>): nat
  {
    if |f| == 0 then 0 else FlightWeight(f[..|f| - 1]) + Weight(f[|f| - 1].seg)
  }

  function Without(f: seq<Packet>, i: nat): seq<Packet>
    requires i < |f|
  {
    f[..i] + f[i + 1..]
  }

  predicate Enabled(n: Net, e: NetEvent)
  {
    match e
    case Deliver(i, _, script) => i < |n.flight| && forall a :: a in script ==> Silent(a)
    case Lose(i) => i < |n.flight|
    case Application(_, a) => Silent(a)
  }

  /** The first host acts and its new segments join the flight `f`; likewise the second. */
  function FirstActs(n: Net, s: Tcp, f: seq<Packet>): Net
    requires |n.first.trace| <= |s.trace|
  {
    n.(first := s, flight := f + Outgoing(s.trace, |n.first.trace|, true, n.firstIp, n.secondIp))
  }

  function SecondActs(n: Net, s: Tcp, f: seq<Packet>): Net
    requires |n.second.trace| <= |s.trace|
  {
    n.(second := s, flight := f + Outgoing(s.trace, |n.second.trace|, false, n.secondIp, n.firstIp))
  }

  ghost function NetStep(n: Net, e: NetEvent): Net
    requires Enabled(n, e)
  {
    match e
    case Deliver(i, now, script) =>
      var p, f := n.flight[i], Without(n.flight, i);
      if p.toFirst then
        ReceiveExtends(n.first, p.key, p.seg, now, script);
        FirstActs(n, Receive(n.first, p.key, p.seg, now, script), f)
      else
        ReceiveExtends(n.second, p.key, p.seg, now, script);
        SecondActs(n, Receive(n.second, p.key, p.seg, now, script), f)
    case Lose(i) => n.(flight := Without(n.flight, i))
    case Application(atFirst, a) =>
      if atFirst then
        ActExtends(n.first, a);
        FirstActs(n, Act(n.first, a), n.flight)
      else
        ActExtends(n.second, a);
        SecondActs(n, Act(n.second, a), n.flight)
  }

  // ---------- traces only grow

  predicate Extends(t: seq<Effect>, t': seq<Effect>) { |t| <= |t'| && t'[..|t|] == t }

  lemma ActExtends(s: Tcp, a: Action)
    ensures Extends(s.trace, Act(s, a).trace)
  {
  }

  lemma {:induction false} ScriptExtends(s: Tcp, script: seq<Action>)
    ensures Extends(s.trace, RunScript(s, script).trace)
  {
    if |script| > 0 {
      ScriptExtends(s, script[..|script| - 1]);
      ActExtends(RunScript(s, script[..|script| - 1]), script[|script| - 1]);
    }
  }

  lemma TextExtends(s: Tcp, k: Key, c: Conn, x: Segment, script: seq<Action>)
    requires k in s.conns.entries
    ensures Extends(s.trace, Text(s, k, c, x, script).trace)
  {
    ScriptExtends(Take(s, k, c, x), script);
  }

  lemma ReceiveExtends(s: Tcp, k: Key, x: Segment, now: nat, script: seq<Action>)
    ensures Extends(s.trace, Receive(s, k, x, now, script).trace)
  {
    hide Text, Wrap, Hist, ResetFor;
    var s0 := Log(s, Arrived(k, x));
    if Live(s0.conns, k, now) {
      var c := s0.conns.entries[k].value;
      TextExtends(s0, k, c, x, script);
      var s1 := Move(s0, k, c, FinWait2);
      TextExtends(s1, k, c.(state := FinWait2), x, script);
      assert Extends(s0.trace, s1.trace);
    }
  }

  // ---------- weights

  lemma {:induction false} FlightAppend(f: seq<Packet>, g: seq<Packet>)
    ensures FlightWeight(f + g) == FlightWeight(f) + FlightWeight(g)
  {
    if g == [] {
      assert f + g == f;
    } else {
      assert (f + g)[..|f + g| - 1] == f + g[..|g| - 1];
      FlightAppend(f, g[..|g| - 1]);
    }
  }

  lemma FlightSnoc(f: seq<Packet>, p: Packet)
    ensures FlightWeight(f + [p]) == FlightWeight(f) + Weight(p.seg)
  {
    assert (f + [p])[..|f|] == f;
  }

  lemma FlightWithout(f: seq<Packet>, i: nat)
    requires i < |f|
    ensures FlightWeight(Without(f, i)) == FlightWeight(f) - Weight(f[i].seg)
  {
    hide FlightWeight;
    var a, b := f[..i], f[i + 1..];
    FlightAppend(a, b);
    FlightAppend(a + [f[i]], b);
    assert f == (a + [f[i]]) + b;
    FlightSnoc(a, f[i]);
  }

  lemma {:induction false} OutgoingWeight(t: seq<Effect>, from: nat, fromFirst: bool, self: Ip, peer: Ip)
    requires from <= |t|
    ensures FlightWeight(Outgoing(t, from, fromFirst, self, peer)) <= SentWeight(t) - SentWeight(t[..from])
    decreases |t|
  {
    if |t| == from {
      assert t[..from] == t;
    } else {
      var init, e := t[..|t| - 1], t[|t| - 1];
      OutgoingWeight(init, from, fromFirst, self, peer);
      assert init[..from] == t[..from];
      FlightAppend(Outgoing(init, from, fromFirst, self, peer),
        if e.Tx? && e.key.remoteIp == peer then
            [Packet(!fromFirst, Key(e.key.remotePort, self, e.key.localPort), e.seg)]
        else []);
    }
  }

  function Potential(s: Tcp): nat { 5 * |Pending(s)| }

  function NetEnergy(n: Net): nat { FlightWeight(n.flight) + Potential(n.first) + Potential(n.second) }

  /** The weighted sum over the segments in flight and the connections that may still send a FIN strictly
  decreases whenever a segment is delivered or lost, and closing a connection does not raise it. */
  lemma StepCools(n: Net, e: NetEvent)
    requires Enabled(n, e)
    ensures NetEnergy(NetStep(n, e)) <= NetEnergy(n) - One(!e.Application?)
  {
    match e
    case Deliver(i, now, script) =>
      var p := n.flight[i];
      var s := if p.toFirst then n.first else n.second;
      var s' := Receive(s, p.key, p.seg, now, script);
      FlightWithout(n.flight, i);
      ReceiveCools(s, p.key, p.seg, now, script);
      HostActs(n, s', Without(n.flight, i), p.toFirst, p.key, p.seg, now, script);
    case Lose(i) => FlightWithout(n.flight, i);
    case Application(atFirst, a) =>
      var s := if atFirst then n.first else n.second;
      SilentEnergy(s, a);
      ActExtends(s, a);
      JoinFlight(n, Act(s, a), n.flight, atFirst);
  }

  lemma HostActs(n: Net, s': Tcp, f: seq<Packet>, first: bool, k: Key, x: Segment, now: nat, script: seq<Action>)
    requires s' == Receive(if first then n.first else n.second, k, x, now, script)
    ensures Extends((if first then n.first else n.second).trace, s'.trace)
    ensures var n' := if first then FirstActs(n, s', f) else SecondActs(n, s', f);
      NetEnergy(n') <= NetEnergy(n) - FlightWeight(n.flight) + FlightWeight(f)
                       + Energy(s') - Energy(if first then n.first else n.second)
  {
    ReceiveExtends(if first then n.first else n.second, k, x, now, script);
    JoinFlight(n, s', f, first);
  }

  lemma JoinFlight(n: Net, s': Tcp, f: seq<Packet>, first: bool)
    requires Extends((if first then n.first else n.second).trace, s'.trace)
    ensures var n' := if first then FirstActs(n, s', f) else SecondActs(n, s', f);
      NetEnergy(n') <= NetEnergy(n) - FlightWeight(n.flight) + FlightWeight(f)
                       + Energy(s') - Energy(if first then n.first else n.second)
  {
    if first {
      OutgoingWeight(s'.trace, |n.first.trace|, true, n.firstIp, n.secondIp);
      FlightAppend(f, Outgoing(s'.trace, |n.first.trace|, true, n.firstIp, n.secondIp));
    } else {
      OutgoingWeight(s'.trace, |n.second.trace|, false, n.secondIp, n.firstIp);
      FlightAppend(f, Outgoing(s'.trace, |n.second.trace|, false, n.secondIp, n.firstIp));
    }
  }

  // ---------- runs

  ghost predicate NetRun(states: seq<Net>, events: seq<NetEvent>)
  {
    && |states| == |events| + 1
    && forall i :: 0 <= i < |events| ==> Enabled(states[i], events[i]) && states[i + 1] == NetStep(states[i], events[i])
  }

  function Deliveries(events: seq<NetEvent>): nat
  {
    if |events| == 0 then 0
    else Deliveries(events[..|events| - 1]) + One(!events[|events| - 1].Application?)
  }

  /** The two endpoints always go quiet: however long the run, at most as many segments are delivered or lost
  as the energy it started with, so from some point on nothing is in flight or nothing arrives any more. */
  lemma {:induction false} AlwaysGoesQuiet(states: seq<Net>, events: seq<NetEvent>)
    requires NetRun(states, events)
    ensures Deliveries(events) + NetEnergy(states[|events|]) <= NetEnergy(states[0])
  {
    if |events| > 0 {
      var n := |events| - 1;
      AlwaysGoesQuiet(states[..n + 1], events[..n]);
      assert states[..n + 1][n] == states[n];
      StepCools(states[n], events[n]);
    }
  }
}
