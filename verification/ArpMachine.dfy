/** src/arp.c as steps on the address table and the queue of one packet per destination, with a trace of what
was done and the results about whole runs. */
module ArpMachine {
  import opened Words
  import opened ExpiringMap

  const ARP_MIN_INTERVAL := 1

  /** A packet buffer kept by value: where the window starts, how long it is, and all the bytes. */
  datatype Snapshot = Snapshot(data: nat, len: nat, payload: seq<Byte>)

  function View(s: Snapshot): seq<Byte>
  {
    if s.data + s.len <= |s.payload| then s.payload[s.data..s.data + s.len] else []
  }

  datatype Effect =
    | Sent(ip: Ip, packet: seq<Byte>, mac: Mac)                       // at once, to the cached address
    | Asked(ip: Ip, packet: seq<Byte>, time: nat, kept: bool)         // request sent; packet parked, if a slot was left
    | Dropped(ip: Ip, packet: seq<Byte>)                              // another packet is parked for this address
    | Learned(ip: Ip, mac: Mac)
    | NotLearned(ip: Ip, mac: Mac)                                    // the address table had no slot
    | Replied(ip: Ip, mac: Mac)
    | Flushed(ip: Ip, packet: seq<Byte>, mac: Mac)                    // the parked packet went out
    | GivenUp(ip: Ip, packet: seq<Byte>)                              // and this one did not: address not learned

  datatype Arp = Arp(table: ExpMap<Ip, Mac>, queue: ExpMap<Ip, Snapshot>, trace: seq<Effect>)

  function Log(s: Arp, e: Effect): Arp { s.(trace := s.trace + [e]) }

  /** `arp_out` */
  function Out(s: Arp, ip: Ip, buf: Snapshot, now: nat): Arp
  {
    if Live(s.table, ip, now) then Log(s, Sent(ip, View(buf), s.table.entries[ip].value))
    else if Live(s.queue, ip, now) then Log(s, Dropped(ip, View(buf)))
    else Log(s.(queue := Put(s.queue, ip, buf, now)), Asked(ip, View(buf), now, Accepts(s.queue, ip, now)))
  }

  /** A valid ARP packet; `raw` is its buffer, which is forwarded when it is meant for somebody else. */
  datatype ArpMessage = ArpMessage(request: bool, senderIp: Ip, senderMac: Mac, targetIp: Ip, raw: Snapshot)

  /** Line 118 of `arp_in` */
  function Learn(s: Arp, ip: Ip, mac: Mac, now: nat): Arp
  {
    Log(s.(table := Put(s.table, ip, mac, now)),
        if Accepts(s.table, ip, now) then Learned(ip, mac) else NotLearned(ip, mac))
  }

  /** Lines 126-130: the parked packet goes through `arp_out` again and is then deleted. */
  function Flush(s: Arp, ip: Ip, now: nat): Arp
    requires Live(s.queue, ip, now)
  {
    var packet := View(s.queue.entries[ip].value);
    Log(s.(queue := Remove(s.queue, ip, now)),
      if Live(s.table, ip, now) then Flushed(ip, packet, s.table.entries[ip].value) else GivenUp(ip, packet))
  }

  /** `arp_in`, after its tests; `mac` is the Ethernet source of the packet. */
  function In(s: Arp, m: ArpMessage, mac: Mac, local: Ip, now: nat): Arp
  {
    var s1 := Learn(s, m.senderIp, mac, now);
    var s2 := if m.targetIp == local && m.request then Log(s1, Replied(m.senderIp, m.senderMac)) else s1;
    if Live(s2.queue, m.senderIp, now) then Flush(s2, m.senderIp, now)
    else if m.targetIp != local then Out(s2, m.targetIp, m.raw, now)
    else s2
  }

  // ---------- histories

  /** What the trace says about one address: the packet waiting, with the time it was parked; the address
  learned last; the last request since a flush, and whether its packet was parked; and how many packets were
  ever parked, flushed, given up, or replaced while waiting. */
  datatype Book = Book(
    waiting: Option<(seq<Byte>, nat)>, learned: Option<Mac>, asked: Option<(nat, bool)>,
    parked: nat, flushed: nat, givenUp: nat, replaced: nat)

  const BLANK := Book(None, None, None, 0, 0, 0, 0)

  function One(b: bool): nat { if b then 1 else 0 }

  function Update(b: Book, e: Effect): Book
  {
    match e
    case Asked(_, p, t, kept) =>
      if kept then
        b.(waiting := Some((p, t)), asked := Some((t, true)), parked := b.parked + 1,
            replaced := b.replaced + One(b.waiting.Some?))
      else b.(asked := Some((t, false)))
    case Learned(_, m) => b.(learned := Some(m))
    case Flushed(_, _, _) => b.(waiting := None, asked := None, flushed := b.flushed + 1)
    case GivenUp(_, _) => b.(waiting := None, asked := None, givenUp := b.givenUp + 1)
    case _ => b
  }

  function Hist(t: seq<Effect>, ip: Ip): Book
  {
    if |t| == 0 then BLANK
    else
      var b, e := Hist(t[..|t| - 1], ip), t[|t| - 1];
      if e.ip == ip then Update(b, e) else b
  }

  lemma HistSnoc(t: seq<Effect>, e: Effect, ip: Ip)
    ensures Hist(t + [e], ip) == if e.ip == ip then Update(Hist(t, ip), e) else Hist(t, ip)
  {
    assert (t + [e])[..|t|] == t;
  }

  predicate Expired(time: nat, now: nat) { time + ARP_MIN_INTERVAL < now }

  /** When an entry may follow a past. A flush sends exactly the waiting packet to the address learned last; a
  packet is sent at once only to that address, and dropped only because one is waiting; a request is made only
  when no packet is waiting or that one has expired, and so never within the interval after a request whose
  packet was parked. */
  predicate Justified(b: Book, e: Effect)
  {
    match e
    case Sent(_, _, m) => b.learned == Some(m)
    case Asked(_, _, t, kept) =>
      && (b.waiting.Some? ==> Expired(b.waiting.value.1, t))
      && (b.asked.Some? && b.asked.value.1 ==> Expired(b.asked.value.0, t))
    case Dropped(_, _) => b.waiting.Some?
    case Flushed(_, p, m) => b.waiting.Some? && b.waiting.value.0 == p && b.learned == Some(m)
    case GivenUp(_, p) => b.waiting.Some? && b.waiting.value.0 == p
    case _ => true
  }

  ghost predicate WellFormed(t: seq<Effect>)
  {
    forall i :: 0 <= i < |t| ==> Justified(Hist(t[..i], t[i].ip), t[i])
  }

  lemma WellFormedSnoc(t: seq<Effect>, e: Effect)
    requires WellFormed(t) && Justified(Hist(t, e.ip), e)
    ensures WellFormed(t + [e])
  {
    var u := t + [e];
    forall i | 0 <= i < |u|
      ensures Justified(Hist(u[..i], u[i].ip), u[i])
    {
      if i < |t| {
        assert u[..i] == t[..i] && u[i] == t[i];
      } else {
        assert u[..i] == t;
      }
    }
  }

  // ---------- the invariant

  /** The tables agree with the history of `ip`. */
  predicate Coupled(s: Arp, ip: Ip)
  {
    var b := Hist(s.trace, ip);
    && (ip in s.table.entries ==> b.learned == Some(s.table.entries[ip].value))
    && (ip in s.queue.entries <==> b.waiting.Some?)
    && (ip in s.queue.entries ==>
          && s.queue.entries[ip].stamp > 0
          && b.waiting == Some((View(s.queue.entries[ip].value), s.queue.entries[ip].stamp)))
    && (b.asked.Some? && b.asked.value.1 ==> b.waiting.Some? && b.waiting.value.1 == b.asked.value.0)
  }

  ghost predicate Inv(s: Arp)
  {
    && WellFormed(s.trace) && s.queue.timeout == ARP_MIN_INTERVAL
    && forall ip: Ip :: Coupled(s, ip)
  }

  /** One entry, one address: all others stay coupled. */
  lemma StepInv(s: Arp, s': Arp, e: Effect)
    requires Inv(s) && s'.trace == s.trace + [e] && Justified(Hist(s.trace, e.ip), e)
    requires s'.queue.timeout == s.queue.timeout
    requires forall ip: Ip :: ip != e.ip ==>
      && (ip in s'.table.entries ==> ip in s.table.entries && s'.table.entries[ip] == s.table.entries[ip])
      && (ip in s'.queue.entries <==> ip in s.queue.entries)
      && (ip in s.queue.entries ==> s'.queue.entries[ip] == s.queue.entries[ip])
    requires Coupled(s', e.ip)
    ensures Inv(s')
  {
    WellFormedSnoc(s.trace, e);
    forall ip: Ip
      ensures Coupled(s', ip)
    {
      HistSnoc(s.trace, e, ip);
      assert Coupled(s, ip);
    }
  }

  lemma OutInv(s: Arp, ip: Ip, buf: Snapshot, now: nat)
    requires Inv(s) && now > 0
    ensures Inv(Out(s, ip, buf, now))
  {
    var s' := Out(s, ip, buf, now);
    var e := s'.trace[|s.trace|];
    assert Coupled(s, ip);
    HistSnoc(s.trace, e, ip);
    StepInv(s, s', e);
  }

  lemma LearnInv(s: Arp, ip: Ip, mac: Mac, now: nat)
    requires Inv(s)
    ensures Inv(Learn(s, ip, mac, now))
    ensures Accepts(s.table, ip, now) ==> Hist(Learn(s, ip, mac, now).trace, ip).learned == Some(mac)
  {
    var s' := Learn(s, ip, mac, now);
    var e := s'.trace[|s.trace|];
    assert Coupled(s, ip);
    HistSnoc(s.trace, e, ip);
    StepInv(s, s', e);
  }

  lemma FlushInv(s: Arp, ip: Ip, now: nat)
    requires Inv(s) && Live(s.queue, ip, now)
    ensures Inv(Flush(s, ip, now))
  {
    var s' := Flush(s, ip, now);
    var e := s'.trace[|s.trace|];
    assert Coupled(s, ip);
    HistSnoc(s.trace, e, ip);
    StepInv(s, s', e);
  }

  lemma InInv(s: Arp, m: ArpMessage, mac: Mac, local: Ip, now: nat)
    requires Inv(s) && now > 0
    ensures Inv(In(s, m, mac, local, now))
  {
    var s1 := Learn(s, m.senderIp, mac, now);
    LearnInv(s, m.senderIp, mac, now);
    var s2 := if m.targetIp == local && m.request then Log(s1, Replied(m.senderIp, m.senderMac)) else s1;
    if m.targetIp == local && m.request {
      var e := Replied(m.senderIp, m.senderMac);
      assert Coupled(s1, m.senderIp);
      HistSnoc(s1.trace, e, m.senderIp);
      StepInv(s1, s2, e);
    }
    if Live(s2.queue, m.senderIp, now) {
      FlushInv(s2, m.senderIp, now);
    } else if m.targetIp != local {
      OutInv(s2, m.targetIp, m.raw, now);
    }
  }

  // ---------- runs

  datatype Event =
    | OutEvent(ip: Ip, buf: Snapshot, now: nat)
    | InEvent(m: ArpMessage, mac: Mac, local: Ip, now: nat)

  function Step(s: Arp, e: Event): Arp
  {
    match e
    case OutEvent(ip, buf, now) => Out(s, ip, buf, now)
    case InEvent(m, mac, local, now) => In(s, m, mac, local, now)
  }

  function Run(s: Arp, events: seq<Event>): Arp
  {
    if |events| == 0 then s else Step(Run(s, events[..|events| - 1]), events[|events| - 1])
  }

  predicate Initial(s: Arp)
  {
    && s.table.entries == map[] && s.table.size == 0
    && s.queue.entries == map[] && s.queue.size == 0 && s.queue.timeout == ARP_MIN_INTERVAL
    && s.trace == []
  }

  lemma {:induction false} RunInv(s: Arp, events: seq<Event>)
    requires Initial(s) && forall e :: e in events ==> e.now > 0
    ensures Inv(Run(s, events))
  {
    if |events| > 0 {
      var init, e := events[..|events| - 1], events[|events| - 1];
      assert forall x :: x in init ==> x in events;
      RunInv(s, init);
      assert e in events;
      match e
      case OutEvent(ip, buf, now) => OutInv(Run(s, init), ip, buf, now);
      case InEvent(m, mac, local, now) => InInv(Run(s, init), m, mac, local, now);
    }
  }

  // ---------- what a well-formed trace says

  predicate Ends(e: Effect) { e.Flushed? || e.GivenUp? }

  predicate NoFlush(t: seq<Effect>, i: nat, j: nat, ip: Ip)
  {
    forall n :: i < n < j && n < |t| && t[n].ip == ip ==> !Ends(t[n])
  }

  lemma AfterEntry(t: seq<Effect>, i: nat, ip: Ip)
    requires i < |t|
    ensures Hist(t[..i + 1], ip) == if t[i].ip == ip then Update(Hist(t[..i], ip), t[i]) else Hist(t[..i], ip)
  {
    assert t[..i + 1][..i] == t[..i];
  }

  lemma PlaceKept(b: Book, e: Effect, since: nat)
    requires b.waiting.Some? && b.waiting.value.1 >= since && Justified(b, e) && !Ends(e)
    ensures Update(b, e).waiting.Some? && Update(b, e).waiting.value.1 >= since
  {
  }

  /** A packet parked at `i` keeps the place taken: until a flush, whatever waits was parked no earlier. */
  lemma {:induction false} PlaceTaken(t: seq<Effect>, i: nat, j: nat)
    requires WellFormed(t) && i < j <= |t| && t[i].Asked? && t[i].kept && NoFlush(t, i, j, t[i].ip)
    ensures var b := Hist(t[..j], t[i].ip); b.waiting.Some? && b.waiting.value.1 >= t[i].time
    decreases j
  {
    hide Hist, Justified;
    var n := j - 1;
    AfterEntry(t, n, t[i].ip);
    if n > i {
      PlaceTaken(t, i, n);
      if t[n].ip == t[i].ip {
        assert Justified(Hist(t[..n], t[n].ip), t[n]);
        PlaceKept(Hist(t[..n], t[i].ip), t[n], t[i].time);
      }
    }
  }

  /** Rate limit: two requests for one address, the first of which got its packet parked, are separated by a
  flush or by more than the interval. */
  lemma RequestsAreSpaced(t: seq<Effect>, i: nat, j: nat)
    requires WellFormed(t) && i < j < |t| && t[i].Asked? && t[j].Asked? && t[i].ip == t[j].ip && t[i].kept
    requires NoFlush(t, i, j, t[i].ip)
    ensures t[i].time + ARP_MIN_INTERVAL < t[j].time
  {
    PlaceTaken(t, i, j);
    assert Justified(Hist(t[..j], t[j].ip), t[j]);
  }

  lemma {:induction false} WaitingWasParked(t: seq<Effect>, j: nat, ip: Ip) returns (a: nat)
    requires j <= |t| && Hist(t[..j], ip).waiting.Some?
    ensures a < j && t[a].Asked? && t[a].ip == ip && t[a].kept && NoFlush(t, a, j, ip)
    ensures Hist(t[..j], ip).waiting == Some((t[a].packet, t[a].time))
    decreases j
  {
    assert j > 0;
    hide Hist;
    a := j - 1;
    AfterEntry(t, a, ip);
    if !(t[a].Asked? && t[a].ip == ip && t[a].kept) {
      a := WaitingWasParked(t, j - 1, ip);
    }
  }

  lemma {:induction false} LearnedLast(t: seq<Effect>, j: nat, ip: Ip) returns (l: nat)
    requires j <= |t| && Hist(t[..j], ip).learned.Some?
    ensures l < j && t[l] == Learned(ip, Hist(t[..j], ip).learned.value)
    ensures forall n :: l < n < j && t[n].Learned? ==> t[n].ip != ip
    decreases j
  {
    assert j > 0;
    hide Hist;
    l := j - 1;
    AfterEntry(t, l, ip);
    if !(t[l].Learned? && t[l].ip == ip) {
      l := LearnedLast(t, j - 1, ip);
    }
  }

  /** A flush sends exactly the packet parked last for that address, which no earlier flush has sent, to the
  address learned last. So a parked packet goes out at most once. */
  lemma FlushSendsParked(t: seq<Effect>, j: nat) returns (a: nat, l: nat)
    requires WellFormed(t) && j < |t| && t[j].Flushed?
    ensures a < j && t[a].Asked? && t[a].kept && t[a].ip == t[j].ip && t[a].packet == t[j].packet
    ensures NoFlush(t, a, j, t[j].ip)
    ensures l < j && t[l] == Learned(t[j].ip, t[j].mac) && forall n :: l < n < j && t[n].Learned? ==> t[n].ip != t[j].ip
  {
    assert Justified(Hist(t[..j], t[j].ip), t[j]);
    a := WaitingWasParked(t, j, t[j].ip);
    l := LearnedLast(t, j, t[j].ip);
  }

  /** A packet is dropped only while another one, parked for the same address, has been neither sent nor given up. */
  lemma DropMeansWaiting(t: seq<Effect>, j: nat) returns (a: nat)
    requires WellFormed(t) && j < |t| && t[j].Dropped?
    ensures a < j && t[a].Asked? && t[a].kept && t[a].ip == t[j].ip && NoFlush(t, a, j, t[j].ip)
  {
    assert Justified(Hist(t[..j], t[j].ip), t[j]);
    a := WaitingWasParked(t, j, t[j].ip);
  }

  /** Conservation: every packet ever parked was flushed, was given up, expired and was replaced, or is the one
  that is waiting. */
  lemma {:induction false} QueueConserves(t: seq<Effect>, ip: Ip)
    requires WellFormed(t)
    ensures var b := Hist(t, ip); b.parked == b.flushed + b.givenUp + b.replaced + One(b.waiting.Some?)
  {
    if |t| > 0 {
      var n := |t| - 1;
      forall i | 0 <= i < n
        ensures Justified(Hist(t[..n][..i], t[..n][i].ip), t[..n][i])
      {
        assert t[..n][..i] == t[..i];
      }
      QueueConserves(t[..n], ip);
      assert Justified(Hist(t[..n], t[n].ip), t[n]);
    }
  }

  /** What one call of `arp_out` did with its packet. */
  predicate Disposed(s: Arp, ip: Ip, packet: seq<Byte>, now: nat, e: Effect)
  {
    && (e.Sent? || e.Asked? || e.Dropped?) && e.ip == ip && e.packet == packet
    && (e.Sent? <==> Live(s.table, ip, now))
    && (e.Sent? ==> Lookup(s.table, ip, now) == Some(e.mac))
    && (e.Dropped? <==> !Live(s.table, ip, now) && Live(s.queue, ip, now))
    && (e.Asked? ==> e.time == now && (e.kept <==> Accepts(s.queue, ip, now)))
  }

  /** Each call of `arp_out` does exactly one thing with its packet. While the queue accepts it, that is: send it
  to the cached address, park it, or drop it because one is parked. */
  lemma OutDisposes(s: Arp, ip: Ip, buf: Snapshot, now: nat)
    ensures exists e :: Out(s, ip, buf, now).trace == s.trace + [e] && Disposed(s, ip, View(buf), now, e)
    ensures var s' := Out(s, ip, buf, now);
      && s'.table == s.table
      && s'.queue == if Live(s.table, ip, now) || Live(s.queue, ip, now) then s.queue else Put(s.queue, ip, buf, now)
  {
    var e := Out(s, ip, buf, now).trace[|s.trace|];
    assert Out(s, ip, buf, now).trace == s.trace + [e] && Disposed(s, ip, View(buf), now, e);
  }

  /** The event is about the address: a packet for it, or an ARP packet from it or for it. */
  predicate Concerns(e: Event, ip: Ip)
  {
    match e
    case OutEvent(dst, _, _) => dst == ip
    case InEvent(m, _, _, _) => m.senderIp == ip || m.targetIp == ip
  }

  /** What the tables hold for `ip`. */
  predicate SameFor(s: Arp, s': Arp, ip: Ip)
  {
    && s'.table.timeout == s.table.timeout && s'.queue.timeout == s.queue.timeout
    && (ip in s'.table.entries <==> ip in s.table.entries)
    && (ip in s.table.entries ==> s'.table.entries[ip] == s.table.entries[ip])
    && (ip in s'.queue.entries <==> ip in s.queue.entries)
    && (ip in s.queue.entries ==> s'.queue.entries[ip] == s.queue.entries[ip])
  }

  lemma {:induction false} OthersLeave(s: Arp, events: seq<Event>, ip: Ip)
    requires forall e :: e in events ==> !Concerns(e, ip)
    ensures SameFor(s, Run(s, events), ip)
  {
    if |events| > 0 {
      var init, e := events[..|events| - 1], events[|events| - 1];
      assert forall x :: x in init ==> x in events;
      OthersLeave(s, init, ip);
      assert e in events;
      StepLeaves(Run(s, init), e, ip);
    }
  }

  lemma StepLeaves(s: Arp, e: Event, ip: Ip)
    requires !Concerns(e, ip)
    ensures SameFor(s, Step(s, e), ip)
  {
    hide Accepts;
  }

  /** A request and the silence after it, whatever happens for other addresses in between: while nothing is
  heard about the address, a second packet for it within the interval causes another request exactly when the
  first one could not be parked, because `size` had reached the capacity of the queue. */
  lemma SilenceAfterRequest(s: Arp, ip: Ip, first: Snapshot, between: seq<Event>, second: Snapshot,
                            now: nat, later: nat)
    requires s.queue.timeout == ARP_MIN_INTERVAL && 0 < now <= later <= now + ARP_MIN_INTERVAL
    requires !Live(s.table, ip, now) && !Live(s.queue, ip, now)
    requires forall e :: e in between ==> !Concerns(e, ip)
    ensures var s2 := Run(Out(s, ip, first, now), between);
      var s3 := Out(s2, ip, second, later);
      |s3.trace| == |s2.trace| + 1 && (s3.trace[|s2.trace|].Asked? <==> s.queue.size == s.queue.max)
  {
    OthersLeave(Out(s, ip, first, now), between, ip);
  }

  // ---------- what an ARP packet causes

  /** What is recorded of the sender's address. */
  function LearnedEntry(s: Arp, m: ArpMessage, mac: Mac, now: nat): Effect
  {
    if Live(s.table, m.senderIp, now) || s.table.size != s.table.max then Learned(m.senderIp, mac)
    else NotLearned(m.senderIp, mac)
  }

  /** A request for our own address is answered, to the address it names as its sender; nothing else is. */
  function ReplyEntry(m: ArpMessage, local: Ip): seq<Effect>
  {
    if m.request && m.targetIp == local then [Replied(m.senderIp, m.senderMac)] else []
  }

  /** Everything that `arp_in` does with a packet: it records the sender, answers a request for us, and then sends
  the packet waiting for the sender, or, if there is none and the target is somebody else, passes the ARP packet
  itself on to `arp_out`. */
  lemma InOutcome(s: Arp, m: ArpMessage, mac: Mac, local: Ip, now: nat) returns (last: seq<Effect>)
    requires now > 0
    ensures In(s, m, mac, local, now).trace == s.trace + [LearnedEntry(s, m, mac, now)] + ReplyEntry(m, local) + last
    ensures Live(s.queue, m.senderIp, now) ==>
      var packet := View(s.queue.entries[m.senderIp].value);
      last == [if LearnedEntry(s, m, mac, now).Learned? then Flushed(m.senderIp, packet, mac)
               else GivenUp(m.senderIp, packet)]
    ensures !Live(s.queue, m.senderIp, now) && m.targetIp == local ==> last == []
    ensures |last| <= 1 && forall e :: e in last ==> !e.Replied?
    ensures !Live(s.queue, m.senderIp, now) && m.targetIp != local ==>
      |last| == 1 && Disposed(Learn(s, m.senderIp, mac, now), m.targetIp, View(m.raw), now, last[0])
  {
    var s1 := Learn(s, m.senderIp, mac, now);
    assert s1.trace == s.trace + [LearnedEntry(s, m, mac, now)];
    var s2 := if m.targetIp == local && m.request then Log(s1, Replied(m.senderIp, m.senderMac)) else s1;
    assert s2.trace == s.trace + [LearnedEntry(s, m, mac, now)] + ReplyEntry(m, local);
    var s' := In(s, m, mac, local, now);
    last := s'.trace[|s2.trace|..];
    if !Live(s.queue, m.senderIp, now) && m.targetIp != local {
      OutDisposes(s2, m.targetIp, m.raw, now);
    }
  }

  /** Afterwards the sender is found at that address, as long as entries live, unless the table refused it; what is
  known of others stays; and no packet waits for the sender. */
  lemma InLearns(s: Arp, m: ArpMessage, mac: Mac, local: Ip, now: nat, later: nat, other: Ip)
    requires 0 < now <= later
    ensures var s' := In(s, m, mac, local, now);
      && (LearnedEntry(s, m, mac, now).Learned? && (s.table.timeout == 0 || later <= now + s.table.timeout) ==>
            Lookup(s'.table, m.senderIp, later) == Some(mac))
      && (other != m.senderIp ==> Lookup(s'.table, other, later) == Lookup(s.table, other, later))
      && (Live(s.queue, m.senderIp, now) ==> Lookup(s'.queue, m.senderIp, later) == None)
  {
    FoundAfterPut(s.table, m.senderIp, mac, now, m.senderIp, later);
    FoundAfterPut(s.table, m.senderIp, mac, now, other, later);
  }

  /** The replies sent in a trace, and the requests for our address among some events. */
  function Replies(t: seq<Effect>): seq<(Ip, Mac)>
  {
    if |t| == 0 then []
    else Replies(t[..|t| - 1]) + match t[|t| - 1]
      case Replied(ip, mac) => [(ip, mac)]
      case _ => []
  }

  function RequestsForUs(events: seq<Event>, local: Ip): seq<(Ip, Mac)>
  {
    if |events| == 0 then []
    else RequestsForUs(events[..|events| - 1], local) + match events[|events| - 1]
      case InEvent(m, _, _, _) => if m.request && m.targetIp == local then [(m.senderIp, m.senderMac)] else []
      case _ => []
  }

  lemma {:induction false} RepliesAppend(t: seq<Effect>, u: seq<Effect>)
    ensures Replies(t + u) == Replies(t) + Replies(u)
  {
    if |u| == 0 {
      assert t + u == t;
    } else {
      assert (t + u)[..|t + u| - 1] == t + u[..|u| - 1];
      RepliesAppend(t, u[..|u| - 1]);
    }
  }

  /** In every run of the host `local` the replies are exactly the answers to the requests for its address, one for
  each and in that order. */
  lemma {:induction false} RepliesMatchRequests(s: Arp, events: seq<Event>, local: Ip)
    requires forall e :: e in events ==> e.now > 0 && (e.InEvent? ==> e.local == local)
    ensures Replies(Run(s, events).trace) == Replies(s.trace) + RequestsForUs(events, local)
  {
    hide In, Out;
    if |events| > 0 {
      var init, e := events[..|events| - 1], events[|events| - 1];
      assert forall x :: x in init ==> x in events;
      RepliesMatchRequests(s, init, local);
      assert e in events;
      StepReplies(Run(s, init), e, local);
    }
  }

  lemma StepReplies(s: Arp, e: Event, local: Ip)
    requires e.now > 0 && (e.InEvent? ==> e.local == local)
    ensures Replies(Step(s, e).trace) == Replies(s.trace) + RequestsForUs([e], local)
  {
    hide In, Out, Replies;
    assert [e][..0] == [] && RequestsForUs([], local) == [];
    match e
    case OutEvent(ip, buf, now) =>
      OutDisposes(s, ip, buf, now);
      var d :| Out(s, ip, buf, now).trace == s.trace + [d] && Disposed(s, ip, View(buf), now, d);
      RepliesAppend(s.trace, [d]);
      OneReply(d);
    case InEvent(m, mac, _, now) => InReplies(s, m, mac, local, now);
  }

  lemma InReplies(s: Arp, m: ArpMessage, mac: Mac, local: Ip, now: nat)
    requires now > 0
    ensures Replies(In(s, m, mac, local, now).trace) == Replies(s.trace) +
      if m.request && m.targetIp == local then [(m.senderIp, m.senderMac)] else []
  {
    hide In, Replies, LearnedEntry, Disposed;
    var last := InOutcome(s, m, mac, local, now);
    var first, reply := LearnedEntry(s, m, mac, now), ReplyEntry(m, local);
    RepliesAppend(s.trace + [first] + reply, last);
    RepliesAppend(s.trace + [first], reply);
    RepliesAppend(s.trace, [first]);
    OneReply(Replied(m.senderIp, m.senderMac));
    NotReplied(s, m, mac, now);
    NoReply([first]);
    NoReply(last);
    NoReply([]);
  }

  lemma NotReplied(s: Arp, m: ArpMessage, mac: Mac, now: nat)
    ensures !LearnedEntry(s, m, mac, now).Replied?
  {
  }

  lemma NoReply(u: seq<Effect>)
    requires |u| <= 1 && forall e :: e in u ==> !e.Replied?
    ensures Replies(u) == []
  {
    if |u| == 1 {
      assert u[..0] == [] && u[0] in u;
    }
  }

  lemma OneReply(e: Effect)
    ensures Replies([e]) == if e.Replied? then [(e.ip, e.mac)] else []
  {
    assert [e][..0] == [];
  }

  /** A packet sent at once goes to the address learned last, like a flushed one. */
  lemma SentToLearned(t: seq<Effect>, j: nat) returns (l: nat)
    requires WellFormed(t) && j < |t| && t[j].Sent?
    ensures l < j && t[l] == Learned(t[j].ip, t[j].mac) && forall n :: l < n < j && t[n].Learned? ==> t[n].ip != t[j].ip
  {
    assert Justified(Hist(t[..j], t[j].ip), t[j]);
    l := LearnedLast(t, j, t[j].ip);
  }

  // ---------- the queue that dies

  /** `n` packets for one address, each just after the copy of the one before has expired. */
  function Knocks(ip: Ip, buf: Snapshot, n: nat): seq<Event>
  {
    if n == 0 then [] else Knocks(ip, buf, n - 1) + [OutEvent(ip, buf, KnockTime(n - 1))]
  }

  function KnockTime(n: nat): nat { 1 + n * (ARP_MIN_INTERVAL + 1) }

  /** Full by `size`, and no packet in it can be found any more. */
  ghost predicate QueueDead(s: Arp, clock: nat)
  {
    s.queue.size == s.queue.max && forall ip: Ip :: !Live(s.queue, ip, clock)
  }

  lemma {:induction false} QueueFills(s: Arp, ip: Ip, buf: Snapshot, n: nat)
    requires Initial(s) && n <= s.queue.max
    ensures var r := Run(s, Knocks(ip, buf, n));
      && r.table == s.table && r.queue.size == n && r.queue.max == s.queue.max
      && r.queue.timeout == ARP_MIN_INTERVAL
      && (forall other: Ip :: !Live(r.queue, other, KnockTime(n)))
  {
    if n > 0 {
      QueueFills(s, ip, buf, n - 1);
      var init := Knocks(ip, buf, n - 1);
      var e := OutEvent(ip, buf, KnockTime(n - 1));
      assert (init + [e])[..|init|] == init;
      var r := Run(s, init);
      assert Run(s, Knocks(ip, buf, n)) == Step(r, e);
      assert r.queue.size < r.queue.max && !Live(r.queue, ip, KnockTime(n - 1));
      forall other: Ip
        ensures !Live(Step(r, e).queue, other, KnockTime(n))
      {
        assert !Live(r.queue, other, KnockTime(n - 1));
      }
    }
  }

  /** Once dead, the queue parks nothing and sends nothing any more: every packet for an address that is not
  cached is lost with a request of its own. */
  predicate KeepsNothing(t: seq<Effect>, from: nat)
  {
    forall i :: from <= i < |t| ==> !t[i].Flushed? && !t[i].Dropped? && (t[i].Asked? ==> !t[i].kept)
  }

  lemma StepDead(s: Arp, e: Event, clock: nat)
    requires QueueDead(s, clock) && clock <= e.now
    ensures Step(s, e).queue == s.queue
    ensures |s.trace| <= |Step(s, e).trace| && Step(s, e).trace[..|s.trace|] == s.trace
    ensures KeepsNothing(Step(s, e).trace, |s.trace|)
  {
    assert forall ip: Ip :: !Live(s.queue, ip, clock) ==> !Live(s.queue, ip, e.now);
    match e
    case OutEvent(ip, buf, now) => assert !Live(s.queue, ip, clock);
    case InEvent(m, mac, local, now) => assert !Live(s.queue, m.senderIp, clock) && !Live(s.queue, m.targetIp, clock);
  }

  lemma {:induction false} StaysDead(s: Arp, events: seq<Event>, clock: nat)
    requires QueueDead(s, clock) && forall e :: e in events ==> clock <= e.now
    ensures Run(s, events).queue == s.queue
    ensures |s.trace| <= |Run(s, events).trace| && KeepsNothing(Run(s, events).trace, |s.trace|)
  {
    if |events| > 0 {
      var init, e := events[..|events| - 1], events[|events| - 1];
      assert forall x :: x in init ==> x in events;
      StaysDead(s, init, clock);
      assert e in events;
      var r := Run(s, init);
      StepDead(r, e, clock);
      var t := Step(r, e).trace;
      assert forall i :: |s.trace| <= i < |r.trace| ==> t[i] == t[..|r.trace|][i];
    }
  }

  /** From `arp_init`, as many packets for one silent address as the queue has slots, two seconds apart, kill the
  queue: whatever comes afterwards, no packet is ever parked or flushed again, and there is no limit on
  requests any more. */
  lemma QueueCanDie(s: Arp, ip: Ip, buf: Snapshot, later: seq<Event>)
    requires Initial(s) && forall e :: e in later ==> KnockTime(s.queue.max) <= e.now
    ensures var r := Run(s, Knocks(ip, buf, s.queue.max));
      QueueDead(r, KnockTime(s.queue.max))
      && |r.trace| <= |Run(r, later).trace| && KeepsNothing(Run(r, later).trace, |r.trace|)
  {
    QueueFills(s, ip, buf, s.queue.max);
    StaysDead(Run(s, Knocks(ip, buf, s.queue.max)), later, KnockTime(s.queue.max));
  }

  /** Two requests for one address at the same second then. */
  lemma RateLimitFails(s: Arp, ip: Ip, buf: Snapshot, first: Snapshot, second: Snapshot, now: nat)
    requires Initial(s) && KnockTime(s.queue.max) <= now
    ensures var r := Run(s, Knocks(ip, buf, s.queue.max));
      Run(r, [OutEvent(ip, first, now), OutEvent(ip, second, now)]).trace
        == r.trace + [Asked(ip, View(first), now, false), Asked(ip, View(second), now, false)]
  {
    QueueFills(s, ip, buf, s.queue.max);
    var r := Run(s, Knocks(ip, buf, s.queue.max));
    var one, two := OutEvent(ip, first, now), OutEvent(ip, second, now);
    assert !Live(r.queue, ip, KnockTime(s.queue.max)) && !Live(r.table, ip, now);
    assert [one, two][..1] == [one] && [one][..0] == [];
    assert Run(r, [one]) == Out(r, ip, first, now) && Run(r, [one, two]) == Out(Run(r, [one]), ip, second, now);
  }

  /** While the address table accepts the sender, an ARP packet flushes the packet waiting for it to the very
  address the packet came from. */
  lemma InFlushesToSender(s: Arp, m: ArpMessage, mac: Mac, local: Ip, now: nat)
    requires now > 0 && Live(s.queue, m.senderIp, now) && Accepts(s.table, m.senderIp, now)
    ensures var s' := In(s, m, mac, local, now);
      && |s'.trace| > 0 && s'.trace[|s'.trace| - 1] == Flushed(m.senderIp, View(s.queue.entries[m.senderIp].value), mac)
      && !Live(s'.queue, m.senderIp, now)
  {
  }
}
