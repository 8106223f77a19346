/** Initial sequence numbers: every SYN that finds a listener and no connection spends one, 64000 before the
next, and none comes back before 8388608 more have been spent. */
module TcpIsn {
  import opened Words
  import opened ExpiringMap
  import opened TcpTrace
  import opened TcpMachine

  const ISN_STEP := 64000
  /** 2^32 divided by the power of two in 64000. */
  const ISN_PERIOD := 0x80_0000

  /** The event is a SYN to a port that is listened on, from a peer without a connection. */
  predicate Spends(s: Tcp, e: Event)
  {
    && e.Arrival? && !Live(s.conns, e.key, e.now) && Syn(e.seg.flags) && !Ack(e.seg.flags)
    && Lookup(s.listeners, e.key.localPort, e.now).Some?
  }

  /** How many such SYNs arrived in a run. */
  function Spent(s: Tcp, events: seq<Event>): nat
  {
    if |events| == 0 then 0
    else var init := events[..|events| - 1]; Spent(s, init) + One(Spends(Run(s, init), events[|events| - 1]))
  }

  lemma {:induction false} ScriptKeepsIsn(s: Tcp, script: seq<Action>)
    ensures RunScript(s, script).isn == s.isn
  {
    if |script| > 0 {
      ScriptKeepsIsn(s, script[..|script| - 1]);
    }
  }

  lemma TextKeepsIsn(s: Tcp, k: Key, c: Conn, x: Segment, script: seq<Action>)
    requires k in s.conns.entries
    ensures Text(s, k, c, x, script).isn == s.isn
  {
    ScriptKeepsIsn(Take(s, k, c, x), script);
  }

  lemma StepIsn(s: Tcp, e: Event)
    ensures Step(s, e).isn == if Spends(s, e) then Wrap(s.isn + ISN_STEP) else s.isn
  {
    hide Text;
    if e.Arrival? && Live(s.conns, e.key, e.now) {
      var s0 := Log(s, Arrived(e.key, e.seg));
      var c := s0.conns.entries[e.key].value;
      TextKeepsIsn(s0, e.key, c, e.seg, e.script);
      TextKeepsIsn(Move(s0, e.key, c, FinWait2), e.key, c.(state := FinWait2), e.seg, e.script);
    }
  }

  lemma {:induction false} IsnAfterRun(s: Tcp, events: seq<Event>)
    ensures Run(s, events).isn == Wrap(s.isn + ISN_STEP * Spent(s, events))
  {
    hide Step, Spends;
    if |events| > 0 {
      var init, e := events[..|events| - 1], events[|events| - 1];
      IsnAfterRun(s, init);
      StepIsn(Run(s, init), e);
      WrapAdd(s.isn + ISN_STEP * Spent(s, init), ISN_STEP);
    }
  }

  /** 125 is invertible modulo 2^23, so steps of 64000 meet again only after 2^23 of them. */
  lemma StepsMeet(a: int, n: nat, m: nat)
    requires Wrap(a + ISN_STEP * n) == Wrap(a + ISN_STEP * m)
    ensures (n - m) % ISN_PERIOD == 0
  {
    var d := n - m;
    var q := (a + ISN_STEP * n) / 0x1_0000_0000 - (a + ISN_STEP * m) / 0x1_0000_0000;
    assert ISN_STEP * d == 0x1_0000_0000 * q;
    assert 125 * d == ISN_PERIOD * q;
    assert d == ISN_PERIOD * (6912213 * q - 103 * d);
  }

  /** Two connections of one run that are opened with fewer than 8388608 numbers spent between them start from
  different initial sequence numbers, whoever the peers are. */
  lemma IsnsDiffer(s: Tcp, events: seq<Event>, i: nat, j: nat)
    requires i < j <= |events| && Spends(Run(s, events[..i]), events[i])
    requires Spent(s, events[..j]) - Spent(s, events[..i]) < ISN_PERIOD
    ensures Run(s, events[..i]).isn != Run(s, events[..j]).isn
  {
    hide Run, Spent, Spends, Wrap;
    IsnAfterRun(s, events[..i]);
    IsnAfterRun(s, events[..j]);
    SpentGrows(s, events, i, j);
    if Run(s, events[..i]).isn == Run(s, events[..j]).isn {
      StepsMeet(s.isn, Spent(s, events[..j]), Spent(s, events[..i]));
    }
  }

  lemma {:induction false} SpentGrows(s: Tcp, events: seq<Event>, i: nat, j: nat)
    requires i < j <= |events| && Spends(Run(s, events[..i]), events[i])
    ensures Spent(s, events[..i]) < Spent(s, events[..j])
    decreases j
  {
    hide Step, Spends;
    assert events[..j][..j - 1] == events[..j - 1];
    if i < j - 1 {
      SpentGrows(s, events, i, j - 1);
    }
  }

  /** The number spent is the one the new connection starts from. */
  lemma OpenedWithIsn(s: Tcp, e: Event)
    requires Spends(s, e) && Accepts(s.conns, e.key, e.now)
    ensures Hist(Step(s, e).trace, e.key).iss == s.isn
    ensures Step(s, e).trace[|s.trace|..][..2] == [Arrived(e.key, e.seg),
      Opened(e.key, s.isn, e.seg.seqNo, Lookup(s.listeners, e.key.localPort, e.now).value)]
  {
    var s0 := Log(s, Arrived(e.key, e.seg));
    var o := Opened(e.key, s.isn, e.seg.seqNo, Lookup(s.listeners, e.key.localPort, e.now).value);
    HistSnoc(s0.trace, o, e.key);
    HistSnoc(s0.trace + [o], Tx(e.key, Segment(s.isn, Wrap(e.seg.seqNo + 1), SYN_ACK, [])), e.key);
  }
}
