/** Every run of the TCP module produces a well-formed trace, and the 32-bit fields of each connection
agree with its unbounded history. */
module TcpInvariant {
  import opened Words
  import opened ExpiringMap
  import opened TcpTrace
  import opened TcpMachine

  /** How the record in the table agrees with the history. */
  predicate ConnOk(c: Conn, b: Book)
  {
    match c
    case Conn(state, sndNxt, rcvNxt, handler) =>
      && b.phase == In(state) && handler == b.handler
      && sndNxt == NextSeq(b) && rcvNxt == NextRcv(b)
      && b.synAcks >= 1
      && b.fins == (if state in {SynReceived, Established} then 0 else 1)
      && (state == SynReceived ==> b.sent == [] && b.rcvd == 0 && b.finsIn == 0 && b.taken == [] && b.delivered == [])
      && (state == Established ==> b.delivered == b.taken)
      && (state in {LastAck, Closing} ==> b.finsIn >= 1)
  }

  predicate Good(s: Tcp, k: Key)
  {
    k in s.conns.entries ==> ConnOk(s.conns.entries[k].value, Hist(s.trace, k))
  }

  ghost predicate ListenersOk(s: Tcp)
  {
    && s.listeners.timeout == 0
    && (forall port: U16 :: ListenerOf(s.trace, port) == Lookup(s.listeners, port, 1))
  }

  /** Everything is in order except, possibly, the record of `k`. */
  ghost predicate Around(s: Tcp, k: Key)
  {
    match s
    case Tcp(_, _, _, trace) =>
      && WellFormed(trace)
      && ListenersOk(s)
      && (forall j :: j != k ==> Good(s, j))
  }

  ghost predicate Inv(s: Tcp)
  {
    match s
    case Tcp(_, _, _, trace) =>
      && WellFormed(trace)
      && ListenersOk(s)
      && (forall k :: Good(s, k))
  }

  /** Logging a justified effect on `k`. */
  lemma LogAround(s: Tcp, e: Effect, k: Key)
    requires Around(s, k) && OnKey(e, k) && JustifiedNext(s.trace, e)
    ensures Around(Log(s, e), k)
    ensures Hist(Log(s, e).trace, k) == Update(Hist(s.trace, k), e)
  {
    WellFormedSnoc(s.trace, e);
    HistSnoc(s.trace, e, k);
    forall j | j != k
      ensures Good(Log(s, e), j)
    {
      HistSnoc(s.trace, e, j);
      assert Good(s, j);
    }
    forall port: U16
      ensures ListenerOf(s.trace + [e], port) == Lookup(s.listeners, port, 1)
    {
      ListenerSnoc(s.trace, e, port);
    }
  }

  /** Changing the record of `k` only. */
  lemma ConnsAround(s: Tcp, s': Tcp, k: Key)
    requires Around(s, k) && s'.trace == s.trace && s'.listeners == s.listeners
    requires forall j :: j != k && j in s'.conns.entries ==>
        j in s.conns.entries && s'.conns.entries[j] == s.conns.entries[j]
    ensures Around(s', k)
  {
    forall j | j != k
      ensures Good(s', j)
    {
      assert Good(s, j);
    }
  }

  lemma AroundGood(s: Tcp, k: Key)
    ensures Inv(s) <==> Around(s, k) && Good(s, k)
  {
  }

  lemma StoreAround(s: Tcp, k: Key, c: Conn)
    requires Around(s, k)
    ensures Around(Store(s, k, c), k)
    ensures k in s.conns.entries ==> k in Store(s, k, c).conns.entries && Store(s, k, c).conns.entries[k].value == c
  {
    ConnsAround(s, Store(s, k, c), k);
  }

  lemma MoveAround(s: Tcp, k: Key, c: Conn, to: State)
    requires Around(s, k) && MoveJustified(s.trace, Hist(s.trace, k), k, c.state, to)
    ensures Around(Move(s, k, c, to), k)
    ensures Hist(Move(s, k, c, to).trace, k) == Hist(s.trace, k).(phase := In(to))
    ensures k in s.conns.entries ==>
      k in Move(s, k, c, to).conns.entries && Move(s, k, c, to).conns.entries[k].value == c.(state := to)
  {
    var c' := c.(state := to);
    StoreAround(s, k, c');
    LogAround(Store(s, k, c'), Moved(k, c.state, to), k);
  }

  /** A justified move after which the record agrees with the history again. */
  lemma MoveInv(s: Tcp, k: Key, c: Conn, to: State)
    requires Around(s, k) && k in s.conns.entries
    requires MoveJustified(s.trace, Hist(s.trace, k), k, c.state, to)
    requires ConnOk(c.(state := to), Hist(s.trace, k).(phase := In(to)))
    ensures Inv(Move(s, k, c, to))
    ensures Hist(Move(s, k, c, to).trace, k) == Hist(s.trace, k).(phase := In(to))
    ensures Move(s, k, c, to).conns.entries.Keys == s.conns.entries.Keys
    ensures Move(s, k, c, to).conns.entries[k].value == c.(state := to)
  {
    MoveAround(s, k, c, to);
    AroundGood(Move(s, k, c, to), k);
  }

  /** The history after a segment without data was sent. */
  function AfterBare(b: Book, x: Segment): Book
  {
    b.(synAcks := b.synAcks + One(Syn(x.flags)), fins := b.fins + One(Fin(x.flags)))
  }

  lemma EmitAround(s: Tcp, k: Key, x: Segment)
    requires Around(s, k) && TxJustified(Hist(s.trace, k), x)
    ensures Around(Log(s, Tx(k, x)), k)
    ensures Hist(Log(s, Tx(k, x)).trace, k) == Update(Hist(s.trace, k), Tx(k, x))
    ensures x.data == [] ==> Hist(Log(s, Tx(k, x)).trace, k) == AfterBare(Hist(s.trace, k), x)
  {
    LogAround(s, Tx(k, x), k);
    assert Hist(s.trace, k).sent + [] == Hist(s.trace, k).sent;
  }

  /** A segment without text leaves the numbers of the connection alone. */
  lemma EmitBare(s: Tcp, k: Key, x: Segment)
    requires Inv(s) && TxJustified(Hist(s.trace, k), x)
    requires x.data == [] && !Fin(x.flags)
    ensures Inv(Log(s, Tx(k, x)))
    ensures Hist(Log(s, Tx(k, x)).trace, k)
         == Hist(s.trace, k).(synAcks := Hist(s.trace, k).synAcks + One(Syn(x.flags)))
  {
    AroundGood(s, k);
    EmitAround(s, k, x);
    AroundGood(Log(s, Tx(k, x)), k);
  }

  lemma PlainAckJustified(s: Tcp, k: Key)
    requires Inv(s) && k in s.conns.entries && s.conns.entries[k].value.state != SynReceived
    ensures var c := s.conns.entries[k].value; TxJustified(Hist(s.trace, k), Segment(c.sndNxt, c.rcvNxt, ACK, []))
  {
    FlagBits();
    assert Good(s, k);
  }

  lemma ResetInv(s: Tcp, k: Key, x: Segment)
    requires Inv(s) && Hist(s.trace, k).last == Some(x)
    ensures Inv(Reset(s, k, x))
  {
    FlagBits();
    if !Rst(x.flags) {
      EmitBare(s, k, ResetFor(x));
    }
  }

  lemma DropInv(s: Tcp, k: Key, now: nat, acked: bool)
    requires Inv(s) && Live(s.conns, k, now) && RemoveJustified(s.trace, Hist(s.trace, k), k, acked)
    ensures Inv(Drop(s, k, now, acked))
  {
    AroundGood(s, k);
    var s1 := s.(conns := Remove(s.conns, k, now));
    ConnsAround(s, s1, k);
    LogAround(s1, Removed(k, acked), k);
    AroundGood(Drop(s, k, now, acked), k);
  }

  lemma ArrivalInv(s: Tcp, k: Key, x: Segment)
    requires Inv(s)
    ensures Inv(Log(s, Arrived(k, x)))
    ensures Hist(Log(s, Arrived(k, x)).trace, k) == Hist(s.trace, k).(last := Some(x))
  {
    AroundGood(s, k);
    LogAround(s, Arrived(k, x), k);
    AroundGood(Log(s, Arrived(k, x)), k);
  }

  lemma ListenerNow(s: Tcp, port: U16, now: nat)
    requires ListenersOk(s)
    ensures Lookup(s.listeners, port, now) == ListenerOf(s.trace, port)
  {
  }

  lemma OpenAround(s: Tcp, k: Key, x: Segment, h: Handler, now: nat)
    requires Inv(s) && OpenJustified(s.trace, k, x.seqNo, h)
    ensures var c := Conn(SynReceived, Wrap(s.isn + 1), Wrap(x.seqNo + 1), h);
      var s1 := s.(isn := Wrap(s.isn + 64000), conns := Put(s.conns, k, c, now));
      var s2 := Log(s1, Opened(k, s.isn, x.seqNo, h));
      && Around(s2, k)
      && Hist(s2.trace, k) ==
          Book(Hist(s.trace, k).opens + 1, In(SynReceived), s.isn, x.seqNo, h, 0, [], 0, 0, [], 0, [], None)
  {
    var c := Conn(SynReceived, Wrap(s.isn + 1), Wrap(x.seqNo + 1), h);
    var s1 := s.(isn := Wrap(s.isn + 64000), conns := Put(s.conns, k, c, now));
    AroundGood(s, k);
    ConnsAround(s, s1, k);
    LogAround(s1, Opened(k, s.isn, x.seqNo, h), k);
  }

  lemma OpenInv(s: Tcp, k: Key, x: Segment, h: Handler, now: nat)
    requires Inv(s) && OpenJustified(s.trace, k, x.seqNo, h) && Accepts(s.conns, k, now)
    ensures Inv(Open(s, k, x, h, now))
    ensures Hist(Open(s, k, x, h, now).trace, k) == OpenedBook(Hist(s.trace, k).opens + 1, s.isn, x.seqNo, h)
  {
    hide Hist, WellFormed, ListenersOk, ConnOk;
    var c := Conn(SynReceived, Wrap(s.isn + 1), Wrap(x.seqNo + 1), h);
    var s1 := s.(isn := Wrap(s.isn + 64000), conns := Put(s.conns, k, c, now));
    var s2 := Log(s1, Opened(k, s.isn, x.seqNo, h));
    OpenAround(s, k, x, h, now);
    FirstSynAck(s2, k, s.isn, x.seqNo, h, c);
  }

  lemma FirstSynAck(s: Tcp, k: Key, iss: U32, irs: U32, h: Handler, c: Conn)
    requires Around(s, k) && k in s.conns.entries && s.conns.entries[k].value == c
    requires c == Conn(SynReceived, Wrap(iss + 1), Wrap(irs + 1), h)
    requires Hist(s.trace, k) ==
        Book(Hist(s.trace, k).opens, In(SynReceived), iss, irs, h, 0, [], 0, 0, [], 0, [], None)
    ensures Inv(Log(s, Tx(k, Segment(iss, c.rcvNxt, SYN_ACK, []))))
    ensures Hist(Log(s, Tx(k, Segment(iss, c.rcvNxt, SYN_ACK, []))).trace, k) ==
        OpenedBook(Hist(s.trace, k).opens, iss, irs, h)
  {
    FlagBits();
    OpenBook(iss, irs, h, Hist(s.trace, k).opens);
    EmitAround(s, k, Segment(iss, c.rcvNxt, SYN_ACK, []));
    AroundGood(Log(s, Tx(k, Segment(iss, c.rcvNxt, SYN_ACK, []))), k);
  }

  lemma KnockInv(s: Tcp, k: Key, x: Segment, now: nat)
    requires Inv(s) && JustArrived(s.trace, k, x) && Hist(s.trace, k).last == Some(x) && now > 0
    ensures Inv(Knock(s, k, x, now))
  {
    var listener := Lookup(s.listeners, k.localPort, now);
    ListenerNow(s, k.localPort, now);
    if !Syn(x.flags) || Ack(x.flags) || listener.None? {
      ResetInv(s, k, x);
    } else if Accepts(s.conns, k, now) {
      OpenInv(s, k, x, listener.value, now);
    } else {
      AroundGood(s, k);
      ConnsAround(s, s.(isn := Wrap(s.isn + 64000)), k);
      AroundGood(s.(isn := Wrap(s.isn + 64000)), k);
    }
  }

  lemma IssBack(b: Book)
    requires b.sent == [] && b.fins == 0
    ensures Wrap(NextSeq(b) - 1) == b.iss
  {
    WrapAdd(b.iss + 1, -1);
  }

  lemma HandshakeInv(s: Tcp, k: Key, x: Segment)
    requires Inv(s) && JustArrived(s.trace, k, x) && Hist(s.trace, k).last == Some(x)
    requires k in s.conns.entries && s.conns.entries[k].value.state == SynReceived
    ensures Inv(Handshake(s, k, s.conns.entries[k].value, x))
  {
    hide Hist, WellFormed, ListenersOk, Wrap;
    var c, b := s.conns.entries[k].value, Hist(s.trace, k);
    assert Good(s, k);
    if Syn(x.flags) && !Ack(x.flags) && Wrap(x.seqNo + 1) == c.rcvNxt {
      FlagBits();
      IssBack(b);
      EmitBare(s, k, Segment(Wrap(c.sndNxt - 1), c.rcvNxt, SYN_ACK, []));
    } else if Ack(x.flags) && x.ackNo == c.sndNxt && x.seqNo == c.rcvNxt {
      AroundGood(s, k);
      MoveInv(s, k, c, Established);
    } else {
      ResetInv(s, k, x);
    }
  }

  /** The history of a connection that has just sent its SYN|ACK. */
  function OpenedBook(opens: nat, iss: U32, irs: U32, h: Handler): Book
  {
    Book(opens, In(SynReceived), iss, irs, h, 1, [], 0, 0, [], 0, [], None)
  }

  lemma OpenBook(iss: U32, irs: U32, h: Handler, opens: nat)
    ensures ConnOk(Conn(SynReceived, Wrap(iss + 1), Wrap(irs + 1), h), OpenedBook(opens, iss, irs, h))
  {
  }

  lemma FinBook(c: Conn, b: Book, to: State)
    requires ConnOk(c, b) && c.state == Established
    requires to == FinWait1 || (to == LastAck && b.finsIn >= 1)
    ensures ConnOk(c.(sndNxt := Wrap(c.sndNxt + 1), state := to), b.(phase := In(to), fins := 1))
  {
    BumpSeq(b, 1);
  }

  lemma TakeBook(c: Conn, b: Book, x: Segment)
    requires ConnOk(c, b) && c.state != SynReceived
    ensures ConnOk(c.(rcvNxt := Wrap(c.rcvNxt + SeqLen(x))), AfterTake(c, b, x))
  {
    BumpSeq(b, SeqLen(x));
  }

  lemma BumpSeq(b: Book, n: nat)
    ensures Wrap(NextSeq(b) + n) == Wrap(b.iss + 1 + |b.sent| + b.fins + n)
    ensures Wrap(NextRcv(b) + n) == Wrap(b.irs + 1 + b.rcvd + n)
  {
    WrapAdd(b.iss + 1 + |b.sent| + b.fins, n);
    WrapAdd(b.irs + 1 + b.rcvd, n);
  }

  /** The segment with our FIN. */
  lemma FinAround(s: Tcp, k: Key)
    requires Inv(s) && k in s.conns.entries && s.conns.entries[k].value.state == Established
    ensures var c := s.conns.entries[k].value;
      var s1 := Log(s, Tx(k, Segment(c.sndNxt, c.rcvNxt, FIN_ACK, [])));
      Around(s1, k) && ConnOk(c, Hist(s.trace, k)) && Hist(s1.trace, k) == Hist(s.trace, k).(fins := 1)
  {
    hide Hist, WellFormed, ListenersOk, Wrap, NextSeq, NextRcv;
    FlagBits();
    var c, b := s.conns.entries[k].value, Hist(s.trace, k);
    assert Good(s, k);
    AroundGood(s, k);
    EmitAround(s, k, Segment(c.sndNxt, c.rcvNxt, FIN_ACK, []));
  }

  /** Leaving ESTABLISHED after that segment. */
  lemma FinLeave(s: Tcp, k: Key, c: Conn, b: Book, to: State)
    requires Around(s, k) && k in s.conns.entries && s.conns.entries[k].value == c && c.state == Established
    requires ConnOk(c, b) && Hist(s.trace, k) == b.(fins := 1)
    requires to == FinWait1 || (to == LastAck && b.finsIn >= 1)
    ensures var s' := CountFin(s, k, c.(sndNxt := Wrap(c.sndNxt + 1)), to);
      && Inv(s') && s'.conns.entries.Keys == s.conns.entries.Keys && s'.conns.entries[k].value.state == to
      && Hist(s'.trace, k) == b.(phase := In(to), fins := 1)
  {
    hide Hist, WellFormed, ListenersOk, Wrap;
    var c1 := c.(sndNxt := Wrap(c.sndNxt + 1));
    StoreAround(s, k, c1);
    FinBook(c, b, to);
    MoveInv(Store(s, k, c1), k, c1, to);
  }

  lemma FinOut(s: Tcp, k: Key, to: State)
    requires Inv(s) && k in s.conns.entries && s.conns.entries[k].value.state == Established
    requires to == FinWait1 || (to == LastAck && Hist(s.trace, k).finsIn >= 1)
    ensures var s' := SendFin(s, k, s.conns.entries[k].value, to);
      && Inv(s') && s'.conns.entries.Keys == s.conns.entries.Keys && s'.conns.entries[k].value.state == to
      && Hist(s'.trace, k) == Hist(s.trace, k).(phase := In(to), fins := 1)
  {
    hide Hist, ConnOk, WellFormed, ListenersOk;
    FinAround(s, k);
    var c := s.conns.entries[k].value;
    FinLeave(Log(s, Tx(k, Segment(c.sndNxt, c.rcvNxt, FIN_ACK, []))), k, c, Hist(s.trace, k), to);
  }

  lemma SendInv(s: Tcp, k: Key, data: seq<Byte>, now: nat)
    requires Inv(s) && Ready(s, k, now)
    ensures var s' := Act(s, Send(k, data, now));
      && Inv(s') && Hist(s'.trace, k) == Hist(s.trace, k).(sent := Hist(s.trace, k).sent + data)
  {
    hide Hist, WellFormed, ListenersOk, Wrap;
    FlagBits();
    var c, b := s.conns.entries[k].value, Hist(s.trace, k);
    assert Good(s, k);
    AroundGood(s, k);
    var x := Segment(c.sndNxt, c.rcvNxt, if data == [] then ACK else PSH_ACK, data);
    EmitAround(s, k, x);
    var c1 := c.(sndNxt := Wrap(c.sndNxt + |data|));
    StoreAround(Log(s, Tx(k, x)), k, c1);
    BumpSeq(b, |data|);
    AroundGood(Act(s, Send(k, data, now)), k);
  }

  function ListenerAfter(s: Tcp, e: Effect, port: U16): Option<Handler>
    requires e.Listening? || e.Unlistened?
  {
    if port != e.port then Lookup(s.listeners, port, 1) else if e.Listening? then Some(e.h) else None
  }

  lemma ListenInv(s: Tcp, s': Tcp, e: Effect)
    requires Inv(s) && (e.Listening? || e.Unlistened?)
    requires s'.trace == s.trace + [e] && s'.conns == s.conns && s'.listeners.timeout == 0
    requires forall port: U16 :: Lookup(s'.listeners, port, 1) == ListenerAfter(s, e, port)
    ensures Inv(s')
  {
    WellFormedSnoc(s.trace, e);
    forall k
      ensures Good(s', k)
    {
      HistSnoc(s.trace, e, k);
      assert Good(s, k);
    }
    forall port: U16
      ensures ListenerOf(s'.trace, port) == Lookup(s'.listeners, port, 1)
    {
      ListenerSnoc(s.trace, e, port);
    }
  }

  /** What a call of the application may do to the connection of any key. */
  predicate OnlySends(b: Book, b': Book)
  {
    && b' == b.(phase := b'.phase, sent := b'.sent, fins := b'.fins)
    && (b'.phase == b.phase || (b.phase == In(Established) && b'.phase == In(FinWait1)))
  }

  lemma ActInv(s: Tcp, a: Action, k: Key)
    requires Inv(s) && ActionClock(a)
    ensures Inv(Act(s, a))
    ensures Act(s, a).conns.entries.Keys == s.conns.entries.Keys
    ensures OnlySends(Hist(s.trace, k), Hist(Act(s, a).trace, k))
  {
    hide Hist, WellFormed;
    var s' := Act(s, a);
    match a
    case Send(j, data, now) =>
      if Ready(s, j, now) {
        SendInv(s, j, data, now);
        var c := s.conns.entries[j].value;
        HistSnoc(s.trace, Tx(j, Segment(c.sndNxt, c.rcvNxt, if data == [] then ACK else PSH_ACK, data)), k);
      }
    case Close(j, now) =>
      if Ready(s, j, now) {
        FinOut(s, j, FinWait1);
        assert Good(s, j);
        var c := s.conns.entries[j].value;
        var e1, e2 := Tx(j, Segment(c.sndNxt, c.rcvNxt, FIN_ACK, [])), Moved(j, Established, FinWait1);
        HistSnoc(s.trace, e1, k);
        HistSnoc(s.trace + [e1], e2, k);
      }
    case Listen(port, h, now) =>
      if Accepts(s.listeners, port, now) {
        ListenInv(s, s', Listening(port, h));
        HistSnoc(s.trace, Listening(port, h), k);
      }
    case Unlisten(port, now) =>
      ListenInv(s, s', Unlistened(port));
      HistSnoc(s.trace, Unlistened(port), k);
  }

  lemma {:induction false} ScriptInv(s: Tcp, script: seq<Action>, k: Key)
    requires Inv(s) && forall a :: a in script ==> ActionClock(a)
    ensures Inv(RunScript(s, script))
    ensures RunScript(s, script).conns.entries.Keys == s.conns.entries.Keys
    ensures OnlySends(Hist(s.trace, k), Hist(RunScript(s, script).trace, k))
  {
    if |script| > 0 {
      ScriptInv(s, script[..|script| - 1], k);
      ActInv(RunScript(s, script[..|script| - 1]), script[|script| - 1], k);
    }
  }

  /** Advancing `rcv_nxt` over an acceptable segment; the record of `k` may wait for the delivery. */
  lemma AcceptAround(s: Tcp, k: Key, x: Segment)
    requires Inv(s) && k in s.conns.entries && Acceptable(s, k, x)
    ensures var c := s.conns.entries[k].value;
      var s1 := Advance(s, k, c, x);
      && Around(s1, k) && k in s1.conns.entries && s1.conns.entries[k].value == c.(rcvNxt := Wrap(c.rcvNxt + SeqLen(x)))
      && s1.conns.entries.Keys == s.conns.entries.Keys
      && Hist(s1.trace, k) == Update(Hist(s.trace, k), Accepted(k, x))
      && ConnOk(c.(rcvNxt := Wrap(c.rcvNxt + SeqLen(x))), AfterTake(c, Hist(s.trace, k), x))
  {
    hide Hist, WellFormed, ListenersOk, Wrap, NextSeq, NextRcv;
    var c := s.conns.entries[k].value;
    assert Good(s, k);
    AroundGood(s, k);
    var c1 := c.(rcvNxt := Wrap(c.rcvNxt + SeqLen(x)));
    StoreAround(s, k, c1);
    LogAround(Store(s, k, c1), Accepted(k, x), k);
    TakeBook(c, Hist(s.trace, k), x);
  }

  predicate Acceptable(s: Tcp, k: Key, x: Segment)
    requires k in s.conns.entries
  {
    var c := s.conns.entries[k].value;
    && Hist(s.trace, k).last == Some(x)
    && c.state != SynReceived && !Rst(x.flags) && SeqLen(x) > 0 && x.seqNo == c.rcvNxt
  }

  /** The history after an acceptable segment was taken. */
  function AfterTake(c: Conn, b: Book, x: Segment): Book
  {
    b.(rcvd := b.rcvd + SeqLen(x), taken := b.taken + x.data, finsIn := b.finsIn + One(Fin(x.flags)),
       delivered := if c.state == Established then b.delivered + x.data else b.delivered, last := None)
  }

  /** Acknowledging and handing over what was just accepted. */
  lemma HandOverInv(s: Tcp, k: Key, c: Conn, b: Book, d: seq<Byte>)
    requires Around(s, k) && k in s.conns.entries && s.conns.entries[k].value == c && d != []
    requires c.state == Established && Hist(s.trace, k) == b && ConnOk(c, b.(delivered := b.delivered + d))
    ensures Inv(HandOver(s, k, c, d)) && Hist(HandOver(s, k, c, d).trace, k) == b.(delivered := b.delivered + d)
  {
    hide Hist, WellFormed, ListenersOk, Wrap;
    FlagBits();
    var ack := Segment(c.sndNxt, c.rcvNxt, ACK, []);
    EmitAround(s, k, ack);
    var s1 := Log(s, Tx(k, ack));
    LogAround(s1, Delivered(k, c.handler, d), k);
    AroundGood(HandOver(s, k, c, d), k);
  }

  lemma TakeInv(s: Tcp, k: Key, x: Segment)
    requires Inv(s) && k in s.conns.entries && Acceptable(s, k, x)
    ensures var c, b := s.conns.entries[k].value, Hist(s.trace, k);
      var s' := Take(s, k, c, x);
      && Inv(s') && s'.conns.entries.Keys == s.conns.entries.Keys
      && Hist(s'.trace, k) == AfterTake(c, b, x)
      && s'.conns.entries[k].value.state == c.state
  {
    hide Hist, WellFormed, ListenersOk, ConnOk;
    var c, b := s.conns.entries[k].value, Hist(s.trace, k);
    AcceptAround(s, k, x);
    var s1 := Advance(s, k, c, x);
    if x.data != [] && c.state == Established {
      HandOverInv(s1, k, s1.conns.entries[k].value, Hist(s1.trace, k), x.data);
    } else {
      assert b.delivered + [] == b.delivered;
      assert Hist(s1.trace, k) == AfterTake(c, b, x);
      AroundGood(s1, k);
    }
  }

  /** A FIN that we need not answer with ours: it is acknowledged. */
  lemma PlainFinInv(s: Tcp, k: Key)
    requires Inv(s) && k in s.conns.entries && Hist(s.trace, k).finsIn >= 1
    requires var st := s.conns.entries[k].value.state;
      st !in {SynReceived, Established} && (st in {LastAck, Closing} ==> Hist(s.trace, k).finsIn >= 2)
    ensures var c := s.conns.entries[k].value;
      var s1 := Log(s, Tx(k, Segment(c.sndNxt, c.rcvNxt, ACK, [])));
      var to := if c.state == FinWait1 then Closing else FinWait2;
      && Inv(Move(s1, k, c, to)) && Move(s1, k, c, to).conns.entries.Keys == s.conns.entries.Keys
      && Move(s1, k, c, to).conns.entries[k].value.state == to
      && Hist(Move(s1, k, c, to).trace, k) == Hist(s.trace, k).(phase := In(to))
  {
    hide Hist, WellFormed, ListenersOk, Wrap, Move, TxJustified;
    FlagBits();
    assert Good(s, k);
    var c := s.conns.entries[k].value;
    var x := Segment(c.sndNxt, c.rcvNxt, ACK, []);
    PlainAckJustified(s, k);
    EmitBare(s, k, x);
    AroundGood(Log(s, Tx(k, x)), k);
    MoveInv(Log(s, Tx(k, x)), k, c, if c.state == FinWait1 then Closing else FinWait2);
  }

  lemma PeerFinInv(s: Tcp, k: Key)
    requires Inv(s) && k in s.conns.entries && Hist(s.trace, k).finsIn >= 1
    requires var st := s.conns.entries[k].value.state;
      st != SynReceived && (st in {LastAck, Closing} ==> Hist(s.trace, k).finsIn >= 2)
    ensures Inv(PeerFin(s, k))
    ensures PeerFin(s, k).conns.entries.Keys == s.conns.entries.Keys
    ensures PeerFin(s, k).conns.entries[k].value.state != Established
    ensures var b, b' := Hist(s.trace, k), Hist(PeerFin(s, k).trace, k); b' == b.(phase := b'.phase, fins := b'.fins)
  {
    hide Hist, WellFormed, ListenersOk, Wrap, Move, SendFin, ConnOk;
    if s.conns.entries[k].value.state == Established {
      FinOut(s, k, LastAck);
    } else {
      PlainFinInv(s, k);
    }
  }

  lemma TextInv(s: Tcp, k: Key, x: Segment, script: seq<Action>)
    requires Inv(s) && k in s.conns.entries && Hist(s.trace, k).last == Some(x) && !Rst(x.flags)
    requires s.conns.entries[k].value.state != SynReceived
    requires forall a :: a in script ==> ActionClock(a)
    ensures Inv(Text(s, k, s.conns.entries[k].value, x, script))
  {
    hide Hist, WellFormed, ListenersOk, Wrap, NextSeq, NextRcv;
    var c := s.conns.entries[k].value;
    assert Good(s, k);
    if SeqLen(x) > 0 {
      if x.seqNo != c.rcvNxt {
        PlainAckJustified(s, k);
        FlagBits();
        EmitBare(s, k, Segment(c.sndNxt, c.rcvNxt, ACK, []));
      } else {
        TakeInv(s, k, x);
        var s1 := Take(s, k, c, x);
        var s2 := if x.data != [] && c.state == Established then RunScript(s1, script) else s1;
        if x.data != [] && c.state == Established {
          ScriptInv(s1, script, k);
        }
        assert Good(s2, k);
        if Fin(x.flags) {
          PeerFinInv(s2, k);
        }
      }
    }
  }

  lemma ReceiveInv(s: Tcp, k: Key, x: Segment, now: nat, script: seq<Action>)
    requires Inv(s) && now > 0 && forall a :: a in script ==> ActionClock(a)
    ensures Inv(Receive(s, k, x, now, script))
  {
    hide Hist, WellFormed, ListenersOk, Wrap;
    var s0 := Log(s, Arrived(k, x));
    ArrivalInv(s, k, x);
    assert JustArrived(s0.trace, k, x);
    if !Live(s0.conns, k, now) {
      KnockInv(s0, k, x, now);
    } else {
      var c := s0.conns.entries[k].value;
      assert Good(s0, k);
      var acksAll := Ack(x.flags) && x.ackNo == c.sndNxt;
      if Rst(x.flags) {
        DropInv(s0, k, now, false);
      } else if c.state == SynReceived {
        HandshakeInv(s0, k, x);
      } else if acksAll && c.state in {LastAck, Closing} {
        DropInv(s0, k, now, true);
      } else if acksAll && c.state == FinWait1 {
        AroundGood(s0, k);
        MoveInv(s0, k, c, FinWait2);
        TextInv(Move(s0, k, c, FinWait2), k, x, script);
      } else {
        TextInv(s0, k, x, script);
      }
    }
  }
}
