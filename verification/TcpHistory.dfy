/** What a well-formed trace says about the whole life of a connection. A life is the stretch of the
trace with the same number of connections opened under the key. */
module TcpHistory {
  import opened Words
  import opened TcpTrace

  /** The history just before entry `i`, and whether entry `i` falls in the current life of `k`. */
  function At(t: seq<Effect>, i: nat, k: Key): Book
    requires i <= |t|
  {
    Hist(t[..i], k)
  }

  predicate SameLife(t: seq<Effect>, i: nat, k: Key)
    requires i <= |t|
  {
    At(t, i, k).opens == Hist(t, k).opens
  }

  lemma AtInit(t: seq<Effect>, i: nat, k: Key)
    requires i < |t|
    ensures At(t[..|t| - 1], i, k) == At(t, i, k)
    ensures At(t, |t| - 1, k) == Hist(t[..|t| - 1], k)
  {
    assert t[..|t| - 1][..i] == t[..i];
  }

  function Rank(p: Phase): nat
  {
    match p
    case Unopened => 0
    case In(SynReceived) => 1
    case In(Established) => 2
    case In(FinWait1) => 3
    case In(FinWait2) => 4
    case In(Closing) => 4
    case In(LastAck) => 4
    case Gone => 5
  }

  predicate Prefix<T(==)>(a: seq<T>, b: seq<T>) { |a| <= |b| && a == b[..|a|] }

  lemma PrefixTrans<T>(a: seq<T>, b: seq<T>, c: seq<T>)
    requires Prefix(a, b) && Prefix(b, c)
    ensures Prefix(a, c)
  {
  }

  /** How the history of one life develops. */
  predicate Grows(b: Book, b': Book)
  {
    && b.iss == b'.iss && b.irs == b'.irs && b.handler == b'.handler && b.opens == b'.opens
    && Rank(b.phase) <= Rank(b'.phase)
    && Prefix(b.sent, b'.sent) && Prefix(b.taken, b'.taken) && Prefix(b.delivered, b'.delivered)
    && b.fins <= b'.fins && b.finsIn <= b'.finsIn && b.rcvd <= b'.rcvd && b.synAcks <= b'.synAcks
    && (b.fins > 0 ==> b'.sent == b.sent && b'.fins == b.fins)
  }

  lemma StepGrows(t: seq<Effect>, k: Key)
    requires WellFormed(t) && |t| > 0
    ensures var b, b' := Hist(t[..|t| - 1], k), Hist(t, k);
      b.opens <= b'.opens && (b.opens == b'.opens ==> Grows(b, b'))
  {
    assert JustifiedNext(t[..|t| - 1], t[|t| - 1]);
    FlagBits();
  }

  /** The rank SYN_RECEIVED < ESTABLISHED < FIN_WAIT_1 < {FIN_WAIT_2, CLOSING, LAST_ACK} < removed never
  goes down within a life, byte counts only grow, and after our FIN nothing more is sent. */
  lemma {:induction false} LifeGrows(t: seq<Effect>, k: Key, i: nat)
    requires WellFormed(t) && i <= |t|
    ensures At(t, i, k).opens <= Hist(t, k).opens
    ensures SameLife(t, i, k) ==> Grows(At(t, i, k), Hist(t, k))
  {
    if i == |t| {
      assert t[..i] == t;
    } else {
      var init := t[..|t| - 1];
      WellFormedPrefix(t, |t| - 1);
      assert init[..i] == t[..i];
      LifeGrows(init, k, i);
      StepGrows(t, k);
      if SameLife(t, i, k) {
        GrowsTrans(At(t, i, k), Hist(init, k), Hist(t, k));
      }
    }
  }

  lemma GrowsTrans(a: Book, b: Book, c: Book)
    requires Grows(a, b) && Grows(b, c)
    ensures Grows(a, c)
  {
    PrefixTrans(a.sent, b.sent, c.sent);
    PrefixTrans(a.taken, b.taken, c.taken);
    PrefixTrans(a.delivered, b.delivered, c.delivered);
  }

  /** The same between any two points of the trace. */
  lemma RankNeverDrops(t: seq<Effect>, k: Key, i: nat, j: nat)
    requires WellFormed(t) && i <= j <= |t| && At(t, i, k).opens == At(t, j, k).opens
    ensures Rank(At(t, i, k).phase) <= Rank(At(t, j, k).phase)
    ensures Grows(At(t, i, k), At(t, j, k))
  {
    WellFormedPrefix(t, j);
    assert t[..j][..i] == t[..i];
    LifeGrows(t[..j], k, i);
  }

  // ---------- outgoing sequence space

  /** Entry `i` is a segment of the stream: not a reset and not a SYN|ACK. */
  predicate StreamTx(t: seq<Effect>, i: nat, k: Key)
    requires i < |t|
  {
    t[i].Tx? && t[i].key == k && !Rst(t[i].seg.flags) && !Syn(t[i].seg.flags)
  }

  /** Where a segment starts in the stream of bytes and FIN that the connection sends. */
  function Start(t: seq<Effect>, i: nat, k: Key): nat
    requires i < |t|
  {
    |At(t, i, k).sent| + At(t, i, k).fins
  }

  /** What a stream segment `x` sent at history `b` says in terms of a later history `b'` of the same life. */
  predicate Names(b: Book, x: Segment, b': Book)
  {
    var o := |b.sent| + b.fins;
    && x.seqNo == Wrap(b'.iss + 1 + o)
    && x.ackNo == Wrap(b'.irs + 1 + b.rcvd)
    && o + SeqLen(x) <= |b'.sent| + b'.fins
    && (x.data != [] ==> o + |x.data| <= |b'.sent| && x.data == b'.sent[o..o + |x.data|])
    && (Fin(x.flags) ==> o == |b'.sent| && b'.fins == 1)
  }

  lemma TxNames(b: Book, x: Segment, k: Key, b': Book)
    requires TxJustified(b, x) && !Rst(x.flags) && !Syn(x.flags)
    requires Grows(Update(b, Tx(k, x)), b')
    ensures Names(b, x, b')
  {
    assert x.data == (b.sent + x.data)[|b.sent|..];
    assert b.iss + 1 + |b.sent| + b.fins == b'.iss + 1 + (|b.sent| + b.fins);
  }

  /** Each segment carries exactly the slice of the sent stream that its sequence number names, and
  acknowledges exactly what was accepted by then; a FIN stands behind the last byte ever sent. */
  lemma SegmentNamesItsBytes(t: seq<Effect>, i: nat, k: Key)
    requires WellFormed(t) && i < |t| && StreamTx(t, i, k) && SameLife(t, i, k)
    ensures Names(At(t, i, k), t[i].seg, Hist(t, k))
  {
    assert JustifiedNext(t[..i], t[i]);
    AfterEntry(t, i, k);
    LifeGrows(t, k, i + 1);
    TxNames(At(t, i, k), t[i].seg, k, Hist(t, k));
  }

  lemma AfterEntry(t: seq<Effect>, i: nat, k: Key)
    requires i < |t|
    ensures At(t, i + 1, k) == if OnKey(t[i], k) then Update(At(t, i, k), t[i]) else At(t, i, k)
  {
    assert t[..i + 1][..i] == t[..i];
  }

  /** Later segments start where earlier ones ended or after: no sequence number is used twice. */
  lemma SegmentsDoNotOverlap(t: seq<Effect>, i: nat, j: nat, k: Key)
    requires WellFormed(t) && i < j < |t| && StreamTx(t, i, k) && StreamTx(t, j, k)
    requires SameLife(t, i, k) && SameLife(t, j, k)
    ensures Start(t, i, k) + SeqLen(t[i].seg) <= Start(t, j, k)
  {
    AfterEntry(t, i, k);
    assert JustifiedNext(t[..i], t[i]);
    RankNeverDrops(t, k, i, j);
    LifeGrows(t, k, i + 1);
    LifeGrows(t[..j], k, i + 1) by { WellFormedPrefix(t, j); }
    assert t[..j][..i + 1] == t[..i + 1];
  }

  /** Entry `i`, of the current life, sends stream position `o`. */
  predicate Covers(t: seq<Effect>, i: nat, k: Key, o: nat)
    requires i < |t|
  {
    && StreamTx(t, i, k) && SameLife(t, i, k)
    && Start(t, i, k) <= o < Start(t, i, k) + SeqLen(t[i].seg)
  }

  /** And there are no gaps: every position of the stream, FIN included, was sent in some segment. */
  lemma {:induction false} StreamIsCovered(t: seq<Effect>, k: Key, o: nat)
    requires WellFormed(t) && o < |Hist(t, k).sent| + Hist(t, k).fins
    ensures exists i :: 0 <= i < |t| && Covers(t, i, k, o)
  {
    var n := |t| - 1;
    var init := t[..n];
    assert JustifiedNext(init, t[n]);
    AtInit(t, n, k);
    WellFormedPrefix(t, n);
    StepGrows(t, k);
    FlagBits();
    if Hist(init, k).opens == Hist(t, k).opens {
      if o < |Hist(init, k).sent| + Hist(init, k).fins {
        StreamIsCovered(init, k, o);
        var i :| 0 <= i < |init| && Covers(init, i, k, o);
        AtInit(t, i, k);
        assert Covers(t, i, k, o);
      } else {
        assert Covers(t, n, k, o);
      }
    }
  }

  /** Repeated SYN|ACKs are identical. */
  lemma SynAcksAreIdentical(t: seq<Effect>, i: nat, j: nat, k: Key)
    requires WellFormed(t) && i < |t| && j < |t|
    requires t[i].Tx? && t[j].Tx? && t[i].key == k && t[j].key == k
    requires Syn(t[i].seg.flags) && Syn(t[j].seg.flags) && SameLife(t, i, k) && SameLife(t, j, k)
    ensures t[i] == t[j]
    ensures t[i].seg == Segment(Hist(t, k).iss, Wrap(Hist(t, k).irs + 1), SYN_ACK, [])
  {
    FlagBits();
    assert JustifiedNext(t[..i], t[i]) && JustifiedNext(t[..j], t[j]);
    LifeGrows(t, k, i);
    LifeGrows(t, k, j);
  }

  /** At most one FIN is ever sent, and only after the handshake. */
  lemma {:induction false} AtMostOneFin(t: seq<Effect>, k: Key)
    requires WellFormed(t)
    ensures Hist(t, k).fins <= 1
    ensures Hist(t, k).phase.In? && Hist(t, k).phase.state == SynReceived ==> Hist(t, k).fins == 0
    ensures Hist(t, k).phase.In? && Hist(t, k).phase.state !in {SynReceived, Established} ==> Hist(t, k).fins == 1
  {
    if |t| > 0 {
      var n := |t| - 1;
      WellFormedPrefix(t, n);
      AtMostOneFin(t[..n], k);
      assert JustifiedNext(t[..n], t[n]);
      FlagBits();
    }
  }

  // ---------- handshake and close

  /** Nothing is accepted before the handshake is complete. */
  lemma {:induction false} NothingAcceptedYet(t: seq<Effect>, k: Key)
    requires WellFormed(t) && Hist(t, k).phase == In(SynReceived)
    ensures Hist(t, k).rcvd == 0 && Hist(t, k).sent == [] && Hist(t, k).fins == 0
  {
    var n := |t| - 1;
    WellFormedPrefix(t, n);
    assert JustifiedNext(t[..n], t[n]);
    FlagBits();
    if Hist(t[..n], k).phase == In(SynReceived) {
      NothingAcceptedYet(t[..n], k);
    }
  }

  /** Section 3.4 of RFC 793 believes a reset by its sequence number. When a segment of this stack is answered
  by `tcp_reset` of a peer that does not know the connection, the reset stands exactly where the connection
  expects the peer's next segment. */
  lemma ResetIsBelieved(t: seq<Effect>, i: nat, k: Key)
    requires WellFormed(t) && i < |t| && t[i].Tx? && t[i].key == k && !Rst(t[i].seg.flags)
    ensures ResetFor(t[i].seg) == Segment(NextRcv(At(t, i, k)), 0, RST, [])
  {
    FlagBits();
    assert JustifiedNext(t[..i], t[i]);
    if Syn(t[i].seg.flags) {
      WellFormedPrefix(t, i);
      NothingAcceptedYet(t[..i], k);
    }
  }

  /** And a peer that opens a connection believes it by its acknowledgement, which covers its SYN exactly. */
  lemma RefusalAcksSyn(x: Segment)
    requires Syn(x.flags) && !Ack(x.flags) && !Fin(x.flags)
    ensures var r := ResetFor(x);
      Rst(r.flags) && Ack(r.flags) && r.seqNo == 0 && r.ackNo == Wrap(Wrap(x.seqNo + 1) + |x.data|)
  {
    FlagBits();
    WrapAdd(x.seqNo + 1, |x.data|);
  }

  /** Entry `i` is a SYN that opened the connection of history `b`, on a port listened on at that time. */
  predicate SynAt(t: seq<Effect>, i: nat, k: Key, b: Book)
  {
    && i + 1 < |t| && t[i].Arrived? && t[i].key == k
    && Syn(t[i].seg.flags) && !Ack(t[i].seg.flags) && t[i].seg.seqNo == b.irs
    && t[i + 1] == Opened(k, b.iss, b.irs, b.handler)
    && ListenerOf(t[..i + 1], k.localPort) == Some(b.handler)
  }

  /** Entry `i` is the SYN|ACK of that connection. */
  predicate SynAckAt(t: seq<Effect>, i: nat, k: Key, b: Book)
  {
    i < |t| && t[i] == Tx(k, Segment(b.iss, Wrap(b.irs + 1), SYN_ACK, []))
  }

  /** Entry `i` is an arrival that acknowledges the SYN|ACK and stands right behind the SYN. */
  predicate AckAt(t: seq<Effect>, i: nat, k: Key, b: Book)
  {
    && i < |t| && t[i].Arrived? && t[i].key == k && Ack(t[i].seg.flags)
    && t[i].seg.ackNo == Wrap(b.iss + 1) && t[i].seg.seqNo == Wrap(b.irs + 1)
  }

  /** Entry `n` keeps what was established before it, unless it opens a new connection. */
  lemma SameParties(t: seq<Effect>, n: nat, k: Key)
    requires WellFormed(t) && n + 1 == |t| && Hist(t, k).phase.In? && !(t[n].Opened? && t[n].key == k)
    ensures var b, b' := Hist(t[..n], k), Hist(t, k);
      && b.phase.In? && b.iss == b'.iss && b.irs == b'.irs && b.handler == b'.handler
      && (b'.phase != In(SynReceived) && b.phase == In(SynReceived) ==>
          n > 0 && AckAt(t, n - 1, k, b') && b.synAcks >= 1)
      && (b'.synAcks >= 1 && b.synAcks == 0 ==> SynAckAt(t, n, k, b'))
      && b.synAcks <= b'.synAcks
  {
    assert JustifiedNext(t[..n], t[n]);
    FlagBits();
    if n > 0 {
      assert t[..n][n - 1] == t[n - 1];
    }
  }

  /** The events of the handshake as far as it has come: the SYN always, the others if they were needed. */
  predicate ShookHands(t: seq<Effect>, k: Key, syn: nat, synAck: nat, ack: nat)
  {
    var b := Hist(t, k);
    && SynAt(t, syn, k, b) && SameLife(t, syn + 2, k)
    && (b.synAcks >= 1 ==> syn + 1 < synAck && SynAckAt(t, synAck, k, b))
    && (b.phase != In(SynReceived) ==> b.synAcks >= 1 && synAck < ack && AckAt(t, ack, k, b))
  }

  lemma OpeningShakes(t: seq<Effect>, n: nat, k: Key)
    requires WellFormed(t) && n + 1 == |t| && t[n].Opened? && t[n].key == k
    ensures n > 0 && ShookHands(t, k, n - 1, 0, 0)
  {
    hide ListenerOf, Wrap;
    assert JustifiedNext(t[..n], t[n]);
    assert t[..n - 1 + 2] == t;
  }

  lemma LaterShakes(t: seq<Effect>, n: nat, k: Key, syn: nat, synAck: nat, ack: nat) returns (synAck': nat, ack': nat)
    requires WellFormed(t) && n + 1 == |t| && Hist(t, k).phase.In? && !(t[n].Opened? && t[n].key == k)
    requires ShookHands(t[..n], k, syn, synAck, ack)
    ensures ShookHands(t, k, syn, synAck', ack')
  {
    var b, b' := Hist(t[..n], k), Hist(t, k);
    SameParties(t, n, k);
    StepGrows(t, k);
    assert b.opens == b'.opens by {
      AfterEntry(t, n, k);
      assert t[..n + 1] == t;
    }
    hide Hist, WellFormed, ListenerOf, Wrap, Grows;
    assert t[..n][..syn + 1] == t[..syn + 1] && t[..n][..syn + 2] == t[..syn + 2];
    synAck' := if b.synAcks == 0 then n else synAck;
    ack' := if b.phase == In(SynReceived) then n - 1 else ack;
    if b.phase == In(SynReceived) && b'.phase != In(SynReceived) {
      assert synAck < n - 1 by {
        assert t[..n][synAck].Tx? && t[n - 1].Arrived?;
      }
    }
  }

  lemma {:induction false} HandshakeEvents(t: seq<Effect>, k: Key) returns (syn: nat, synAck: nat, ack: nat)
    requires WellFormed(t) && Hist(t, k).phase.In?
    ensures ShookHands(t, k, syn, synAck, ack)
  {
    hide ShookHands;
    var n := |t| - 1;
    if t[n].Opened? && t[n].key == k {
      OpeningShakes(t, n, k);
      syn, synAck, ack := n - 1, 0, 0;
    } else {
      SameParties(t, n, k);
      WellFormedPrefix(t, n);
      syn, synAck, ack := HandshakeEvents(t[..n], k);
      synAck, ack := LaterShakes(t, n, k, syn, synAck, ack);
    }
  }

  lemma LaterSameLife(t: seq<Effect>, i: nat, j: nat, k: Key)
    requires WellFormed(t) && i <= j <= |t| && SameLife(t, i, k)
    ensures SameLife(t, j, k)
  {
    LifeGrows(t, k, j);
    WellFormedPrefix(t, j);
    LifeGrows(t[..j], k, i);
    assert t[..j][..i] == t[..i];
  }

  /** A connection past SYN_RECEIVED has the right history, all of it in its present life: a SYN arrived on a
  port that was listened on at that time, then a SYN|ACK was sent, then an ACK matching both numbers arrived. */
  lemma HandshakeHappened(t: seq<Effect>, k: Key) returns (syn: nat, synAck: nat, ack: nat)
    requires WellFormed(t) && Hist(t, k).phase.In?
    ensures SynAt(t, syn, k, Hist(t, k)) && SameLife(t, syn + 2, k)
    ensures Hist(t, k).synAcks >= 1 ==>
        syn + 1 < synAck && SynAckAt(t, synAck, k, Hist(t, k)) && SameLife(t, synAck, k)
    ensures Hist(t, k).phase != In(SynReceived) ==>
        Hist(t, k).synAcks >= 1 && synAck < ack && AckAt(t, ack, k, Hist(t, k)) && SameLife(t, ack, k)
  {
    hide Hist, WellFormed;
    syn, synAck, ack := HandshakeEvents(t, k);
    if Hist(t, k).synAcks >= 1 {
      LaterSameLife(t, syn + 2, synAck, k);
    }
    if Hist(t, k).phase != In(SynReceived) {
      LaterSameLife(t, syn + 2, ack, k);
    }
  }

  lemma {:induction false} FinWasSent(t: seq<Effect>, k: Key) returns (i: nat)
    requires WellFormed(t) && Hist(t, k).fins >= 1
    ensures i < |t| && SameLife(t, i, k) && t[i].Tx? && t[i].key == k && Fin(t[i].seg.flags)
  {
    i := |t| - 1;
    AtInit(t, i, k);
    WellFormedPrefix(t, i);
    StepGrows(t, k);
    if !(t[i].Tx? && t[i].key == k && Fin(t[i].seg.flags)) {
      i := FinWasSent(t[..|t| - 1], k);
      AtInit(t, i, k);
    }
  }

  lemma {:induction false} FinWasAccepted(t: seq<Effect>, k: Key) returns (i: nat)
    requires WellFormed(t) && Hist(t, k).finsIn >= 1
    ensures i < |t| && SameLife(t, i, k) && t[i].Accepted? && t[i].key == k && Fin(t[i].seg.flags)
  {
    i := |t| - 1;
    AtInit(t, i, k);
    WellFormedPrefix(t, i);
    StepGrows(t, k);
    if !(t[i].Accepted? && t[i].key == k && Fin(t[i].seg.flags)) {
      i := FinWasAccepted(t[..|t| - 1], k);
      AtInit(t, i, k);
    }
  }

  /** Removal by acknowledgement: our FIN was sent, the peer's FIN accepted, and the segment that has just
  arrived acknowledges everything we ever sent, the FIN included. */
  lemma GracefulClose(t: seq<Effect>, n: nat, k: Key) returns (ours: nat, theirs: nat)
    requires WellFormed(t) && n < |t| && t[n] == Removed(k, true)
    ensures ours < n && t[ours].Tx? && t[ours].key == k && Fin(t[ours].seg.flags)
    ensures theirs < n && t[theirs].Accepted? && t[theirs].key == k && Fin(t[theirs].seg.flags)
    ensures At(t, ours, k).opens == At(t, theirs, k).opens == At(t, n, k).opens
    ensures n > 0 && t[n - 1].Arrived? && t[n - 1].key == k && Ack(t[n - 1].seg.flags)
    ensures t[n - 1].seg.ackNo == Wrap(At(t, n, k).iss + 1 + |At(t, n, k).sent| + 1)
  {
    assert JustifiedNext(t[..n], t[n]);
    WellFormedPrefix(t, n);
    ours := FinWasSent(t[..n], k);
    theirs := FinWasAccepted(t[..n], k);
    assert t[..n][..ours] == t[..ours] && t[..n][..theirs] == t[..theirs];
    assert t[..n][n - 1] == t[n - 1];
  }

  // ---------- a conforming peer

  /** Segment `x` carries what the peer's stream `p` followed by one FIN has at position `o`; position -1 is
  the SYN that opened the connection. */
  predicate AtPosition(x: Segment, p: seq<Byte>, irs: U32, o: int)
  {
    && x.seqNo == Wrap(irs + 1 + o)
    && if Syn(x.flags) then o == -1 && x.data == [] && !Fin(x.flags)
       else
         && 0 <= o && o + SeqLen(x) <= |p| + 1
         && (x.data != [] ==> o + |x.data| <= |p| && x.data == p[o..o + |x.data|])
         && (Fin(x.flags) ==> o + |x.data| == |p|)
  }

  /** An arrival from a conforming peer, over a network that may have lost, duplicated, delayed or
  reordered it by less than 2^32 stream positions. */
  ghost predicate Conforms(x: Segment, p: seq<Byte>, b: Book)
  {
    Rst(x.flags) || exists o: int :: AtPosition(x, p, b.irs, o) && -0x1_0000_0000 < o - b.rcvd < 0x1_0000_0000
  }

  /** All arrivals of the current life conform to the one stream `p`. */
  ghost predicate ConformingPeer(t: seq<Effect>, k: Key, p: seq<Byte>)
  {
    forall i :: 0 <= i < |t| && t[i].Arrived? && t[i].key == k && SameLife(t, i, k) && At(t, i, k).phase.In?
      ==> Conforms(t[i].seg, p, At(t, i, k))
  }

  lemma ConformingInit(t: seq<Effect>, k: Key, p: seq<Byte>)
    requires |t| > 0 && ConformingPeer(t, k, p) && SameLife(t, |t| - 1, k)
    ensures ConformingPeer(t[..|t| - 1], k, p)
  {
    var init := t[..|t| - 1];
    forall i | 0 <= i < |init| && init[i].Arrived? && init[i].key == k && SameLife(init, i, k)
        && At(init, i, k).phase.In?
      ensures Conforms(init[i].seg, p, At(init, i, k))
    {
      AtInit(t, i, k);
      assert t[i] == init[i];
    }
  }

  /** Two positions less than 2^32 apart with the same sequence number are the same. */
  lemma PositionUnique(base: int, o: int, r: int)
    requires Wrap(base + o) == Wrap(base + r) && -0x1_0000_0000 < o - r < 0x1_0000_0000
    ensures o == r
  {
  }

  /** What has been received from a conforming peer, at any moment of the run. */
  ghost predicate InStep(b: Book, p: seq<Byte>)
  {
    && b.rcvd == |b.taken| + b.finsIn && b.finsIn <= 1
    && Prefix(b.taken, p) && (b.finsIn == 1 ==> b.taken == p)
    && Prefix(b.delivered, b.taken)
    && (b.last.Some? && b.phase.In? ==> Conforms(b.last.value, p, b))
  }

  lemma AcceptInStep(b: Book, x: Segment, p: seq<Byte>)
    requires InStep(b, p) && AcceptJustified(b, x)
    ensures var b' := Update(b, Accepted(Key(0, [0, 0, 0, 0], 0), x)); InStep(b', p)
  {
    var o: int :| AtPosition(x, p, b.irs, o) && -0x1_0000_0000 < o - b.rcvd < 0x1_0000_0000;
    PositionUnique(b.irs + 1, o, b.rcvd);
    var b' := Update(b, Accepted(Key(0, [0, 0, 0, 0], 0), x));
    if x.data != [] {
      assert b.finsIn == 0;
      assert b'.taken == p[..|b'.taken|];
    } else {
      assert b'.taken == b.taken;
    }
    PrefixTrans(b.delivered, b.taken, b'.taken);
  }

  /** In-order, exactly-once delivery: at every moment of every run the bytes handed to the handler over the
  life of the connection are a prefix of the peer's stream, across wrap-around and all later states. */
  lemma {:induction false} DeliveredInOrder(t: seq<Effect>, k: Key, p: seq<Byte>)
    requires WellFormed(t) && ConformingPeer(t, k, p)
    ensures InStep(Hist(t, k), p)
    ensures Prefix(Hist(t, k).delivered, p)
  {
    hide Wrap;
    if |t| > 0 {
      var n := |t| - 1;
      var init, e := t[..n], t[n];
      assert JustifiedNext(init, e);
      WellFormedPrefix(t, n);
      AtInit(t, n, k);
      if e.Opened? && e.key == k {
      } else {
        ConformingInit(t, k, p);
        DeliveredInOrder(init, k, p);
        var b := Hist(init, k);
        if OnKey(e, k) {
          match e
          case Accepted(_, x) => AcceptInStep(b, x, p);
          case Arrived(_, x) => assert t[n].Arrived?;
          case _ =>
        }
      }
    }
    PrefixTrans(Hist(t, k).delivered, Hist(t, k).taken, p);
  }

  /** The transitions that section 3.9 of RFC 793 means for a passive open, with CLOSE-WAIT passed at once
  (the FIN is answered by ours) and TIME-WAIT left out. */
  predicate RfcMove(from: State, to: State)
  {
    (from, to) in {
      (SynReceived, Established), (Established, FinWait1), (Established, LastAck),
      (FinWait1, FinWait2), (FinWait1, Closing), (FinWait2, FinWait2)}
  }

  /** A conforming peer causes no other transition; with any other peer the only additions are the moves
  to FIN_WAIT_2 on a second FIN. */
  lemma ConformingMoves(t: seq<Effect>, n: nat, k: Key, p: seq<Byte>)
    requires WellFormed(t) && n < |t| && t[n].Moved? && t[n].key == k
    ensures RfcMove(t[n].from, t[n].to)
      || (t[n].from in {LastAck, Closing} && t[n].to == FinWait2 && At(t, n, k).finsIn >= 2)
    ensures ConformingPeer(t[..n], k, p) ==> RfcMove(t[n].from, t[n].to)
  {
    assert JustifiedNext(t[..n], t[n]);
    if ConformingPeer(t[..n], k, p) {
      WellFormedPrefix(t, n);
      DeliveredInOrder(t[..n], k, p);
    }
  }
}
