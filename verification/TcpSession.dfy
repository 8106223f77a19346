/** The other half of delivery: when nothing is lost, everything is delivered. A client that connects, sends
any stream in any pieces and closes gets the whole stream back and the connection is removed gracefully, while
it repeats segments at will and the host serves anybody else. */
module TcpSession {
  import opened Words
  import opened ExpiringMap
  import opened TcpTrace
  import opened TcpMachine
  import opened TcpInvariant
  import opened TcpHistory
  import opened TcpRuns
  import opened TcpEcho
  import opened TcpNetwork
  import opened TcpOutcome

  const SYN: Byte := 0x02

  function Flat(chunks: seq<seq<Byte>>): seq<Byte>
  {
    if |chunks| == 0 then [] else Flat(chunks[..|chunks| - 1]) + chunks[|chunks| - 1]
  }

  /** A client of the echo service: its key, both initial sequence numbers, the time its SYN arrives, and the
  time-out of the connection table, after which the session would be cut off. */
  datatype Client = Client(key: Key, irs: U32, iss: U32, start: nat, timeout: nat)

  predicate InTime(cl: Client, now: nat) { 0 < now && (cl.timeout == 0 || now <= cl.start + cl.timeout) }

  /** The client's segment after it has sent, and seen echoed, `n` bytes or the bytes and its FIN. */
  function Say(cl: Client, n: nat, flags: Byte, data: seq<Byte>): Segment
  {
    Segment(Wrap(cl.irs + 1 + n), Wrap(cl.iss + 1 + n), flags, data)
  }

  /** The client's segments in order: SYN, ACK, one for each chunk, FIN, ACK. */
  function SegmentAt(cl: Client, chunks: seq<seq<Byte>>, m: nat): Segment
    requires m < |chunks| + 4
  {
    if m == 0 then Segment(cl.irs, 0, SYN, [])
    else if m == 1 then Say(cl, 0, ACK, [])
    else if m < |chunks| + 2 then Say(cl, |Flat(chunks[..m - 2])|, PSH_ACK, chunks[m - 2])
    else if m == |chunks| + 2 then Say(cl, |Flat(chunks)|, FIN_ACK, [])
    else Say(cl, |Flat(chunks)| + 1, ACK, [])
  }

  /** Sequence space of the client's segment `j`: where it starts, relative to its initial number. */
  function Position(chunks: seq<seq<Byte>>, j: nat): nat
    requires j < |chunks| + 4
  {
    if j == 0 then 0
    else if j == 1 then 1
    else if j < |chunks| + 2 then 1 + |Flat(chunks[..j - 2])|
    else if j == |chunks| + 2 then 1 + |Flat(chunks)|
    else 2 + |Flat(chunks)|
  }

  /** What happens at the host: the client's next segment, served by the echo handler; segment `j` of the client
  once more, repeated or delayed; or anything else. */
  datatype Turn = Mine(v: Serving) | Again(v: Serving, j: nat) | Other(e: Event)

  function TurnEvent(t: Turn): Event
  {
    match t
    case Mine(v) => EventOf(v)
    case Again(v, _) => EventOf(v)
    case Other(e) => e
  }

  function RunTurns(s: Tcp, ts: seq<Turn>): Tcp
  {
    if |ts| == 0 then s else Step(RunTurns(s, ts[..|ts| - 1]), TurnEvent(ts[|ts| - 1]))
  }

  function Count(ts: seq<Turn>): nat
  {
    if |ts| == 0 then 0 else Count(ts[..|ts| - 1]) + One(ts[|ts| - 1].Mine?)
  }

  // ---------- what does not concern the client

  predicate Apart(a: Action, k: Key) { (a.Send? || a.Close?) ==> a.key != k }

  /** An arrival for another connection, whose handler leaves `k` alone, or a call that does. */
  predicate Elsewhere(e: Event, k: Key)
  {
    match e
    case Arrival(j, _, _, script) => j != k && forall a :: a in script ==> Apart(a, k)
    case Call(a) => Apart(a, k)
  }

  /** The record and the history of `k` are as they were. */
  predicate Untouched(s: Tcp, s': Tcp, k: Key)
  {
    && SameEntry(s, s', k) && Hist(s'.trace, k) == Hist(s.trace, k)
    && s'.conns.timeout == s.conns.timeout
  }

  lemma ActApart(s: Tcp, a: Action, k: Key)
    requires Apart(a, k)
    ensures Untouched(s, Act(s, a), k)
  {
    hide Hist, Wrap;
    match a
    case Send(j, data, now) =>
      if Ready(s, j, now) {
        var c := s.conns.entries[j].value;
        LogOther(s, Tx(j, Segment(c.sndNxt, c.rcvNxt, if data == [] then ACK else PSH_ACK, data)), j, k);
      }
    case Close(j, now) =>
      if Ready(s, j, now) {
        var c := s.conns.entries[j].value;
        var fin := Tx(j, Segment(c.sndNxt, c.rcvNxt, FIN_ACK, []));
        LogOther(s, fin, j, k);
        LogOther(Log(s, fin), Moved(j, Established, FinWait1), j, k);
      }
    case Listen(port, h, now) => HistSnoc(s.trace, Listening(port, h), k);
    case Unlisten(port, now) => HistSnoc(s.trace, Unlistened(port), k);
  }

  lemma {:induction false} ScriptApart(s: Tcp, script: seq<Action>, k: Key)
    requires forall a :: a in script ==> Apart(a, k)
    ensures Untouched(s, RunScript(s, script), k)
  {
    hide Hist, Act;
    if |script| > 0 {
      var init, a := script[..|script| - 1], script[|script| - 1];
      assert forall x :: x in init ==> x in script;
      ScriptApart(s, init, k);
      assert a in script;
      ActApart(RunScript(s, init), a, k);
    }
  }

  lemma TextApart(s: Tcp, j: Key, c: Conn, x: Segment, script: seq<Action>, k: Key)
    requires j in s.conns.entries && j != k && forall a :: a in script ==> Apart(a, k)
    ensures Untouched(s, Text(s, j, c, x, script), k)
  {
    hide Hist, Wrap, RunScript;
    LogOther(s, Tx(j, Segment(c.sndNxt, c.rcvNxt, ACK, [])), j, k);
    TakeFrame(s, j, c, x, k);
    var s1 := Take(s, j, c, x);
    ScriptApart(s1, script, k);
    var s2 := if x.data != [] && c.state == Established then RunScript(s1, script) else s1;
    if j in s2.conns.entries {
      PeerFinFrame(s2, j, k);
    }
  }

  lemma ElsewhereKeeps(s: Tcp, e: Event, k: Key)
    requires Elsewhere(e, k)
    ensures Untouched(s, Step(s, e), k) && Extends(s.trace, Step(s, e).trace)
  {
    hide Hist, Wrap, Text, Act;
    match e
    case Call(a) =>
      ActApart(s, a, k);
      ActExtends(s, a);
    case Arrival(j, x, now, script) =>
      ReceiveExtends(s, j, x, now, script);
      var s0 := Log(s, Arrived(j, x));
      LogOther(s, Arrived(j, x), j, k);
      if !Live(s0.conns, j, now) {
        KnockFrame(s0, j, x, now, k);
      } else {
        var c := s0.conns.entries[j].value;
        HandshakeFrame(s0, j, c, x, k);
        LogOther(s0, Removed(j, false), j, k);
        LogOther(s0, Removed(j, true), j, k);
        LogOther(s0, Moved(j, c.state, FinWait2), j, k);
        TextApart(s0, j, c, x, script, k);
        TextApart(Move(s0, j, c, FinWait2), j, c.(state := FinWait2), x, script, k);
      }
  }

  // ---------- the client's turns

  /** The connection of `cl` is in state `st`, has echoed exactly `p`, and lives as long as it may. */
  ghost predicate Talking(s: Tcp, cl: Client, st: State, p: seq<Byte>, fin: nat)
  {
    && Inv(s) && cl.key.localPort == ECHO_PORT && cl.start > 0 && s.conns.timeout == cl.timeout
    && cl.key in s.conns.entries && s.conns.entries[cl.key].stamp == cl.start
    && s.conns.entries[cl.key].value.state == st
    && var b := Hist(s.trace, cl.key);
       b.iss == cl.iss && b.irs == cl.irs && b.sent == p && b.delivered == p && b.finsIn == fin && b.rcvd == |p| + fin
  }

  /** The session is over and went well. */
  ghost predicate Finished(s: Tcp, cl: Client, p: seq<Byte>)
  {
    && cl.key !in s.conns.entries && Removed(cl.key, true) in s.trace
    && var b := Hist(s.trace, cl.key);
       b.phase == Gone && b.delivered == p && b.sent == p
  }

  lemma Numbers(s: Tcp, cl: Client, st: State, p: seq<Byte>, fin: nat)
    requires Talking(s, cl, st, p, fin)
    ensures var c := s.conns.entries[cl.key].value;
      && c.rcvNxt == Wrap(cl.irs + 1 + (|p| + fin))
      && c.sndNxt == Wrap(cl.iss + 1 + (|p| + One(st !in {SynReceived, Established})))
  {
    assert Good(s, cl.key);
    var b := Hist(s.trace, cl.key);
    assert b.iss + 1 + |b.sent| + b.fins == cl.iss + 1 + (|p| + One(st !in {SynReceived, Established}));
  }

  lemma SynOpens(s: Tcp, cl: Client, h: Handler, v: Serving)
    requires Inv(s) && cl.start > 0 && cl.key.localPort == ECHO_PORT && cl.iss == s.isn
    requires !Live(s.conns, cl.key, cl.start) && Accepts(s.conns, cl.key, cl.start)
    requires Lookup(s.listeners, ECHO_PORT, cl.start) == Some(h) && cl.timeout == s.conns.timeout
    requires v.key == cl.key && v.seg == Segment(cl.irs, 0, SYN, []) && v.now == cl.start
    ensures Talking(Step(s, EventOf(v)), cl, SynReceived, [], 0)
  {
    hide Hist, WellFormed, ListenerOf, Wrap;
    var k, x := cl.key, v.seg;
    assert !Fin(SYN) && Syn(SYN) && !Rst(SYN) && !Ack(SYN);
    ReceiveTimeout(s, v);
    var s0 := Log(s, Arrived(k, x));
    ArrivalInv(s, k, x);
    ListenerNow(s0, ECHO_PORT, cl.start);
    OpenInv(s0, k, x, h, cl.start);
    assert Step(s, EventOf(v)) == Open(s0, k, x, h, cl.start);
  }

  lemma AckEstablishes(s: Tcp, cl: Client, v: Serving)
    requires Talking(s, cl, SynReceived, [], 0)
    requires v.key == cl.key && v.seg == Say(cl, 0, ACK, []) && InTime(cl, v.now) && v.later > 0
    ensures Talking(Step(s, EventOf(v)), cl, Established, [], 0)
  {
    var k, x := cl.key, v.seg;
    FlagBits();
    Numbers(s, cl, SynReceived, [], 0);
    ReceiveTimeout(s, v);
    ReceiveInv(s, k, x, v.now, [Send(k, [], v.later)]);
    var s0 := Log(s, Arrived(k, x));
    HistSnoc(s.trace, Arrived(k, x), k);
    var c := s.conns.entries[k].value;
    assert Step(s, EventOf(v)) == Move(s0, k, c, Established);
    HistSnoc(s0.trace, Moved(k, SynReceived, Established), k);
  }

  lemma ChunkEchoed(s: Tcp, cl: Client, p: seq<Byte>, d: seq<Byte>, v: Serving)
    requires Talking(s, cl, Established, p, 0) && 0 < |d| < 0x1_0000
    requires v.key == cl.key && v.seg == Say(cl, |p|, PSH_ACK, d) && InTime(cl, v.now) && InTime(cl, v.later)
    ensures Talking(Step(s, EventOf(v)), cl, Established, p + d, 0)
  {
    hide Hist, WellFormed, ListenersOk, Wrap;
    var k, x := cl.key, v.seg;
    FlagBits();
    Numbers(s, cl, Established, p, 0);
    ReceiveTimeout(s, v);
    var s0 := Log(s, Arrived(k, x));
    ArrivalInv(s, k, x);
    var c := s0.conns.entries[k].value;
    var s1 := Take(s0, k, c, x);
    assert Good(s0, k);
    TakeInv(s0, k, x);
    TakeKeepsStamp(s0, k, x);
    SendInv(s1, k, d, v.later);
    var script := [Send(k, d, v.later)];
    assert RunScript(s1, script) == Act(s1, Send(k, d, v.later)) by { assert script[..0] == []; }
    assert Step(s, EventOf(v)) == Act(s1, Send(k, d, v.later));
  }

  lemma FinAnswered(s: Tcp, cl: Client, p: seq<Byte>, v: Serving)
    requires Talking(s, cl, Established, p, 0)
    requires v.key == cl.key && v.seg == Say(cl, |p|, FIN_ACK, []) && InTime(cl, v.now)
    ensures Talking(Step(s, EventOf(v)), cl, LastAck, p, 1)
  {
    hide Hist, WellFormed, ListenersOk, Wrap;
    var k, x := cl.key, v.seg;
    FlagBits();
    Numbers(s, cl, Established, p, 0);
    ReceiveTimeout(s, v);
    var s0 := Log(s, Arrived(k, x));
    ArrivalInv(s, k, x);
    var c := s0.conns.entries[k].value;
    var s1 := Take(s0, k, c, x);
    assert Good(s0, k);
    assert Hist(s.trace, k).delivered + [] == p;
    TakeInv(s0, k, x);
    TakeKeepsStamp(s0, k, x);
    FinOut(s1, k, LastAck);
    PeerFinKeepsStamp(s1, k);
    assert Step(s, EventOf(v)) == PeerFin(s1, k);
  }

  lemma LastAckRemoves(s: Tcp, cl: Client, p: seq<Byte>, v: Serving)
    requires Talking(s, cl, LastAck, p, 1)
    requires v.key == cl.key && v.seg == Say(cl, |p| + 1, ACK, []) && InTime(cl, v.now)
    ensures Finished(Step(s, EventOf(v)), cl, p)
  {
    var k, x := cl.key, v.seg;
    FlagBits();
    Numbers(s, cl, LastAck, p, 1);
    ReceiveTimeout(s, v);
    var s0 := Log(s, Arrived(k, x));
    HistSnoc(s.trace, Arrived(k, x), k);
    var s' := Step(s, EventOf(v));
    assert s' == Drop(s0, k, v.now, true);
    HistSnoc(s0.trace, Removed(k, true), k);
    assert s'.trace[|s'.trace| - 1] == Removed(k, true);
  }

  // ---------- the session

  /** The turns are a session: the client's segments come in order and in time, any of them possibly again before
  the last one, and nothing else touches its connection. */
  predicate Follows(ts: seq<Turn>, cl: Client, chunks: seq<seq<Byte>>)
  {
    forall i :: 0 <= i < |ts| ==> TurnOk(ts[i], Count(ts[..i]), cl, chunks)
  }

  predicate TurnOk(t: Turn, m: nat, cl: Client, chunks: seq<seq<Byte>>)
  {
    match t
    case Other(e) => Elsewhere(e, cl.key) && EventClock(e)
    case Again(v, j) =>
      && j < m < |chunks| + 4 && Position(chunks, m) < Position(chunks, j) + 0x1_0000_0000
      && v.key == cl.key && v.seg == SegmentAt(cl, chunks, j)
      && InTime(cl, v.now) && InTime(cl, v.later)
    case Mine(v) =>
      && m < |chunks| + 4 && v.key == cl.key && v.seg == SegmentAt(cl, chunks, m)
      && InTime(cl, v.now) && InTime(cl, v.later) && (m == 0 ==> v.now == cl.start)
  }

  /** Where the session stands after `m` segments of the client. */
  ghost predicate Progress(s: Tcp, cl: Client, chunks: seq<seq<Byte>>, m: nat)
  {
    if m == 1 then Talking(s, cl, SynReceived, [], 0)
    else if 2 <= m <= |chunks| + 2 then Talking(s, cl, Established, Flat(chunks[..m - 2]), 0)
    else if m == |chunks| + 3 then Talking(s, cl, LastAck, Flat(chunks), 1)
    else m == |chunks| + 4 && Finished(s, cl, Flat(chunks))
  }

  lemma MyTurn(s: Tcp, cl: Client, chunks: seq<seq<Byte>>, m: nat, v: Serving)
    requires Progress(s, cl, chunks, m) && TurnOk(Mine(v), m, cl, chunks)
    requires forall i :: 0 <= i < |chunks| ==> 0 < |chunks[i]| < 0x1_0000
    ensures Progress(Step(s, EventOf(v)), cl, chunks, m + 1)
  {
    hide Talking, Finished, Step, EventOf, Say;
    if m == 1 {
      AckEstablishes(s, cl, v);
      assert Flat(chunks[..0]) == [];
    } else if m < |chunks| + 2 {
      ChunkEchoed(s, cl, Flat(chunks[..m - 2]), chunks[m - 2], v);
      assert chunks[..m - 1][..m - 2] == chunks[..m - 2];
    } else {
      assert chunks[..|chunks|] == chunks;
      if m == |chunks| + 2 {
        FinAnswered(s, cl, Flat(chunks), v);
      } else {
        LastAckRemoves(s, cl, Flat(chunks), v);
      }
    }
  }

  lemma {:induction false} FlatGrows(chunks: seq<seq<Byte>>, i: nat, j: nat)
    requires i <= j <= |chunks| && forall n :: 0 <= n < |chunks| ==> 0 < |chunks[n]|
    ensures |Flat(chunks[..i])| <= |Flat(chunks[..j])| <= |Flat(chunks)|
    ensures i < j ==> |Flat(chunks[..i])| < |Flat(chunks[..j])|
    decreases |chunks| - i
  {
    if i < |chunks| {
      assert chunks[..i + 1][..i] == chunks[..i];
      if i < j {
        FlatGrows(chunks, i + 1, j);
      } else {
        FlatGrows(chunks, i + 1, i + 1);
      }
    } else {
      assert chunks[..i] == chunks;
    }
  }

  lemma PositionsGrow(chunks: seq<seq<Byte>>, j: nat, m: nat)
    requires j < m < |chunks| + 4 && j != 1 && forall n :: 0 <= n < |chunks| ==> 0 < |chunks[n]|
    ensures Position(chunks, j) < Position(chunks, m)
  {
    hide Flat;
    assert chunks[..|chunks|] == chunks;
    if 2 <= j < |chunks| + 2 {
      FlatGrows(chunks, j - 2, if m < |chunks| + 2 then m - 2 else |chunks|);
    }
  }

  lemma SegmentNumbers(cl: Client, chunks: seq<seq<Byte>>, j: nat)
    requires j < |chunks| + 4 && forall n :: 0 <= n < |chunks| ==> 0 < |chunks[n]|
    ensures var x := SegmentAt(cl, chunks, j);
      && !Rst(x.flags) && (Syn(x.flags) <==> j == 0) && (Ack(x.flags) <==> j > 0)
      && (SeqLen(x) > 0 ==> j != 1 && j != |chunks| + 3)
      && x.seqNo == Wrap(cl.irs + Position(chunks, j))
      && (j > 0 ==> x.ackNo == Wrap(cl.iss + Position(chunks, j)))
  {
    hide Flat, Wrap;
    FlagBits();
    assert !Fin(SYN) && Syn(SYN) && !Rst(SYN) && !Ack(SYN);
    SameSum(cl.irs, Position(chunks, j));
    SameSum(cl.iss, Position(chunks, j));
  }

  lemma SameSum(base: U32, n: nat)
    ensures Wrap(base + 0) == base
    ensures n > 0 ==> Wrap(base + 1 + (n - 1)) == Wrap(base + n)
  {
  }

  /** An earlier segment of the client once more: its sequence number is not the one expected, and its
  acknowledgement does not cover our FIN. */
  lemma OldSegment(cl: Client, chunks: seq<seq<Byte>>, j: nat, m: nat)
    requires j < m < |chunks| + 4 && forall n :: 0 <= n < |chunks| ==> 0 < |chunks[n]|
    requires Position(chunks, m) < Position(chunks, j) + 0x1_0000_0000
    ensures var x := SegmentAt(cl, chunks, j);
      && !Rst(x.flags) && (Syn(x.flags) <==> j == 0) && (Ack(x.flags) <==> j > 0)
      && (j == 0 ==> x.seqNo == cl.irs)
      && (SeqLen(x) > 0 ==> x.seqNo != Wrap(cl.irs + Position(chunks, m)))
      && (j > 0 && m == |chunks| + 3 ==> x.ackNo != Wrap(cl.iss + Position(chunks, m)))
  {
    hide SegmentAt, Wrap, Flat;
    SegmentNumbers(cl, chunks, j);
    SameSum(cl.irs, 0);
    if j != 1 {
      PositionsGrow(chunks, j, m);
    }
    if Position(chunks, j) < Position(chunks, m) {
      Distinct(cl.irs, Position(chunks, j), Position(chunks, m));
      Distinct(cl.iss, Position(chunks, j), Position(chunks, m));
    }
  }

  lemma Distinct(base: U32, a: nat, b: nat)
    requires a < b < a + 0x1_0000_0000
    ensures Wrap(base + a) != Wrap(base + b)
  {
  }

  /** A repeated SYN gets the SYN|ACK again, every other repeated segment an acknowledgement at most; the connection
  is as it was. */
  lemma AgainTurn(s: Tcp, cl: Client, chunks: seq<seq<Byte>>, m: nat, v: Serving, j: nat)
    requires Progress(s, cl, chunks, m) && TurnOk(Again(v, j), m, cl, chunks)
    requires forall i :: 0 <= i < |chunks| ==> 0 < |chunks[i]| < 0x1_0000
    ensures Progress(Step(s, EventOf(v)), cl, chunks, m)
  {
    hide Flat, SegmentAt, Talking, Step, EventOf, Wrap;
    ChunkSizes(cl, chunks, j);
    OldSegment(cl, chunks, j, m);
    if m == 1 {
      AgainKeeps(s, cl, SynReceived, [], 0, 1, v);
    } else if m < |chunks| + 3 {
      assert chunks[..|chunks|] == chunks;
      AgainKeeps(s, cl, Established, Flat(chunks[..m - 2]), 0, Position(chunks, m), v);
    } else {
      AgainKeeps(s, cl, LastAck, Flat(chunks), 1, Position(chunks, m), v);
    }
  }

  lemma ChunkSizes(cl: Client, chunks: seq<seq<Byte>>, j: nat)
    requires j < |chunks| + 4 && forall i :: 0 <= i < |chunks| ==> 0 < |chunks[i]| < 0x1_0000
    ensures |SegmentAt(cl, chunks, j).data| < 0x1_0000
  {
  }

  lemma AgainKeeps(s: Tcp, cl: Client, st: State, p: seq<Byte>, fin: nat, at: nat, v: Serving)
    requires Talking(s, cl, st, p, fin) && at == 1 + (|p| + fin) && v.key == cl.key && |v.seg.data| < 0x1_0000
    requires InTime(cl, v.now) && InTime(cl, v.later) && st in {SynReceived, Established, LastAck}
    requires !Rst(v.seg.flags) && (SeqLen(v.seg) > 0 ==> v.seg.seqNo != Wrap(cl.irs + at))
    requires st == SynReceived ==> at == 1 && Syn(v.seg.flags) && !Ack(v.seg.flags) && v.seg.seqNo == cl.irs
    requires st == LastAck && Ack(v.seg.flags) ==> fin == 1 && v.seg.ackNo != Wrap(cl.iss + at)
    ensures Talking(Step(s, EventOf(v)), cl, st, p, fin)
  {
    hide WellFormed, ListenersOk, Wrap, Hist;
    var k, x := cl.key, v.seg;
    FlagBits();
    Numbers(s, cl, st, p, fin);
    SameSum(cl.irs, at);
    SameSum(cl.iss, at);
    ReceiveTimeout(s, v);
    StepInv(s, EventOf(v));
    var c, s0 := s.conns.entries[k].value, Log(s, Arrived(k, x));
    var ack := Tx(k, Segment(c.sndNxt, c.rcvNxt, ACK, []));
    var synAck := Tx(k, Segment(Wrap(c.sndNxt - 1), c.rcvNxt, SYN_ACK, []));
    HistSnoc(s.trace, Arrived(k, x), k);
    HistSnoc(s0.trace, ack, k);
    HistSnoc(s0.trace, synAck, k);
    assert c.rcvNxt == Wrap(cl.irs + at);
    var s' := Step(s, EventOf(v));
    if st == SynReceived {
      assert s' == Log(s0, synAck);
    } else {
      assert s' == s0 || s' == Log(s0, ack);
    }
  }

  lemma OtherTurn(s: Tcp, cl: Client, chunks: seq<seq<Byte>>, m: nat, e: Event)
    requires Inv(s) && Progress(s, cl, chunks, m) && Elsewhere(e, cl.key) && EventClock(e)
    ensures Progress(Step(s, e), cl, chunks, m)
  {
    hide Hist, Step, WellFormed, ListenersOk, Flat;
    ElsewhereKeeps(s, e, cl.key);
    StepInv(s, e);
    if Removed(cl.key, true) in s.trace {
      var i :| 0 <= i < |s.trace| && s.trace[i] == Removed(cl.key, true);
      assert Step(s, e).trace[i] == s.trace[i];
    }
  }

  lemma StepInv(s: Tcp, e: Event)
    requires Inv(s) && EventClock(e)
    ensures Inv(Step(s, e))
  {
    match e
    case Arrival(k, x, now, script) => ReceiveInv(s, k, x, now, script);
    case Call(a) => ActInv(s, a, Key(0, [0, 0, 0, 0], 0));
  }

  /** At every point of the session the client's segments so far have been delivered and echoed in full, whatever
  else the host did in between. */
  lemma {:induction false} SessionProgress(s: Tcp, cl: Client, h: Handler, chunks: seq<seq<Byte>>, ts: seq<Turn>)
    requires Inv(s) && cl.start > 0 && cl.key.localPort == ECHO_PORT && cl.iss == s.isn
    requires !Live(s.conns, cl.key, cl.start) && Accepts(s.conns, cl.key, cl.start)
    requires Lookup(s.listeners, ECHO_PORT, cl.start) == Some(h) && cl.timeout == s.conns.timeout
    requires forall i :: 0 <= i < |chunks| ==> 0 < |chunks[i]| < 0x1_0000
    requires |ts| > 0 && ts[0].Mine? && Follows(ts, cl, chunks)
    ensures Inv(RunTurns(s, ts)) && Progress(RunTurns(s, ts), cl, chunks, Count(ts))
  {
    hide Progress, Inv, Step, EventOf, TurnOk;
    var n := |ts| - 1;
    var init, t := ts[..n], ts[n];
    assert TurnOk(t, Count(init), cl, chunks);
    if n == 0 {
      assert init == [] && Count(init) == 0 && RunTurns(s, init) == s;
      FirstTurn(s, cl, h, chunks, t.v);
    } else {
      assert Follows(init, cl, chunks) by {
        forall i | 0 <= i < n
          ensures TurnOk(init[i], Count(init[..i]), cl, chunks)
        {
          assert init[..i] == ts[..i] && TurnOk(ts[i], Count(ts[..i]), cl, chunks);
        }
      }
      SessionProgress(s, cl, h, chunks, init);
      NextTurn(RunTurns(s, init), cl, chunks, Count(init), t);
    }
  }

  lemma FirstTurn(s: Tcp, cl: Client, h: Handler, chunks: seq<seq<Byte>>, v: Serving)
    requires Inv(s) && cl.start > 0 && cl.key.localPort == ECHO_PORT && cl.iss == s.isn
    requires !Live(s.conns, cl.key, cl.start) && Accepts(s.conns, cl.key, cl.start)
    requires Lookup(s.listeners, ECHO_PORT, cl.start) == Some(h) && cl.timeout == s.conns.timeout
    requires TurnOk(Mine(v), 0, cl, chunks)
    ensures Inv(Step(s, EventOf(v))) && Progress(Step(s, EventOf(v)), cl, chunks, 1)
  {
    SynOpens(s, cl, h, v);
  }

  lemma NextTurn(s: Tcp, cl: Client, chunks: seq<seq<Byte>>, m: nat, t: Turn)
    requires Inv(s) && Progress(s, cl, chunks, m) && TurnOk(t, m, cl, chunks)
    requires forall i :: 0 <= i < |chunks| ==> 0 < |chunks[i]| < 0x1_0000
    ensures Inv(Step(s, TurnEvent(t))) && Progress(Step(s, TurnEvent(t)), cl, chunks, m + One(t.Mine?))
  {
    hide Progress, Inv, Step;
    StepInv(s, TurnEvent(t));
    match t
    case Mine(v) => MyTurn(s, cl, chunks, m, v);
    case Again(v, j) => AgainTurn(s, cl, chunks, m, v, j);
    case Other(e) => OtherTurn(s, cl, chunks, m, e);
  }

  /** Whatever the stream and however it is cut into segments, however often the client repeats what it has sent,
  and whatever happens on other connections in between: the session delivers all of it, echoes all of it, and ends
  with the connection removed by the acknowledgement of our FIN, provided that it ends before the time-out of the
  connection table. */
  lemma SessionCompletes(s: Tcp, cl: Client, h: Handler, chunks: seq<seq<Byte>>, ts: seq<Turn>)
    requires Inv(s) && cl.start > 0 && cl.key.localPort == ECHO_PORT && cl.iss == s.isn
    requires !Live(s.conns, cl.key, cl.start) && Accepts(s.conns, cl.key, cl.start)
    requires Lookup(s.listeners, ECHO_PORT, cl.start) == Some(h) && cl.timeout == s.conns.timeout
    requires forall i :: 0 <= i < |chunks| ==> 0 < |chunks[i]| < 0x1_0000
    requires |ts| > 0 && ts[0].Mine? && Follows(ts, cl, chunks) && Count(ts) == |chunks| + 4
    ensures Finished(RunTurns(s, ts), cl, Flat(chunks))
  {
    hide Finished, Inv, RunTurns, Talking;
    SessionProgress(s, cl, h, chunks, ts);
  }

  // ---------- from the start

  /** After `tcp_init` and `tcp_listen` the service is open: a first client finds the listener at any time, and
  room. */
  lemma ServiceOpens(s: Tcp, h: Handler, when: nat, k: Key, now: nat)
    requires Initial(s) && s.listeners.max > 0 && s.conns.max > 0 && when > 0
    ensures var s1 := Act(s, Listen(ECHO_PORT, h, when));
      && Inv(s1) && Lookup(s1.listeners, ECHO_PORT, now) == Some(h)
      && !Live(s1.conns, k, now) && Accepts(s1.conns, k, now)
  {
    RunOk(s, []);
    assert Run(s, []) == s;
    ListenOutcome(s, ECHO_PORT, h, when, now, ECHO_PORT);
    ActInv(s, Listen(ECHO_PORT, h, when), k);
  }

  /** So the first session after the start completes. */
  lemma FirstSession(s: Tcp, h: Handler, when: nat, cl: Client, chunks: seq<seq<Byte>>, ts: seq<Turn>)
    requires Initial(s) && s.listeners.max > 0 && s.conns.max > 0 && when > 0
    requires cl.start > 0 && cl.key.localPort == ECHO_PORT && cl.iss == s.isn && cl.timeout == s.conns.timeout
    requires forall i :: 0 <= i < |chunks| ==> 0 < |chunks[i]| < 0x1_0000
    requires |ts| > 0 && ts[0].Mine? && Follows(ts, cl, chunks) && Count(ts) == |chunks| + 4
    ensures Finished(RunTurns(Act(s, Listen(ECHO_PORT, h, when)), ts), cl, Flat(chunks))
  {
    hide Finished, Inv, RunTurns, Talking;
    ServiceOpens(s, h, when, cl.key, cl.start);
    SessionCompletes(Act(s, Listen(ECHO_PORT, h, when)), cl, h, chunks, ts);
  }
}
