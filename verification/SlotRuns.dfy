/** Whole runs of a slot table, from `map_init` on. */
module SlotRuns {
  import opened Words
  import opened ExpiringMap
  import opened SlotTable

  /** One call on the map, with the clock reading it sees. `WriteOp` is `map_get` followed by a write
  through the returned pointer. */
  datatype Op<K, V> =
    | SetOp(k: K, v: V, now: nat)
    | DeleteOp(k: K, now: nat)
    | WriteOp(k: K, v: V, now: nat)

  function Apply<K(==), V>(t: Table<K, V>, op: Op<K, V>): Table<K, V>
  {
    match op
    case SetOp(k, v, now) => Set(t, k, v, now)
    case DeleteOp(k, now) => Delete(t, k, now)
    case WriteOp(k, v, now) =>
      var p := Find(t, k, now);
      if p < |t.slots| then Write(t, p, v) else t
  }

  function ApplyModel<K, V>(m: ExpMap<K, V>, op: Op<K, V>): ExpMap<K, V>
  {
    match op
    case SetOp(k, v, now) => Put(m, k, v, now)
    case DeleteOp(k, now) => Remove(m, k, now)
    case WriteOp(k, v, now) => if Live(m, k, now) then Poke(m, k, v) else m
  }

  function Run<K(==), V>(t: Table<K, V>, ops: seq<Op<K, V>>): Table<K, V>
  {
    if |ops| == 0 then t else Apply(Run(t, ops[..|ops| - 1]), ops[|ops| - 1])
  }

  function RunModel<K, V>(m: ExpMap<K, V>, ops: seq<Op<K, V>>): ExpMap<K, V>
  {
    if |ops| == 0 then m else ApplyModel(RunModel(m, ops[..|ops| - 1]), ops[|ops| - 1])
  }

  /** The clock is positive and never goes backwards. */
  ghost predicate ClockOk<K, V>(ops: seq<Op<K, V>>, start: nat)
  {
    && start > 0
    && (forall i :: 0 <= i < |ops| ==> start <= ops[i].now)
    && (forall i, j :: 0 <= i < j < |ops| ==> ops[i].now <= ops[j].now)
  }

  function LastClock<K, V>(ops: seq<Op<K, V>>, start: nat): nat
  {
    if |ops| == 0 then start else ops[|ops| - 1].now
  }

  lemma ApplyRefines<K, V>(t: Table<K, V>, m: ExpMap<K, V>, op: Op<K, V>)
    requires Refines(t, m, op.now) && op.now > 0
    ensures Refines(Apply(t, op), ApplyModel(m, op), op.now)
  {
    match op
    case SetOp(k, v, now) => SetRefines(t, m, k, v, now);
    case DeleteOp(k, now) => DeleteRefines(t, m, k, now);
    case WriteOp(k, v, now) =>
      GetRefines(t, m, k, now);
      if Live(m, k, now) {
        WriteRefines(t, m, k, v, Find(t, k, now), now);
      }
  }

  /** In every reachable state, at every later time, the slot table is the expiring partial map. */
  lemma {:induction false} RunRefines<K, V>(t: Table<K, V>, m: ExpMap<K, V>, ops: seq<Op<K, V>>, start: nat)
    requires Refines(t, m, start) && ClockOk(ops, start)
    ensures Refines(Run(t, ops), RunModel(m, ops), LastClock(ops, start))
  {
    if |ops| > 0 {
      var init, last := ops[..|ops| - 1], ops[|ops| - 1];
      RunRefines(t, m, init, start);
      TimePasses(Run(t, init), RunModel(m, init), LastClock(init, start), last.now);
      ApplyRefines(Run(t, init), RunModel(m, init), last);
    }
  }

  /** `map_get` after any run is lookup in the partial map, whatever has expired meanwhile. */
  lemma GetAfterRun<K, V>(t: Table<K, V>, m: ExpMap<K, V>, ops: seq<Op<K, V>>, start: nat, k: K, now: nat)
    requires Refines(t, m, start) && ClockOk(ops, start) && LastClock(ops, start) <= now
    ensures Get(Run(t, ops), k, now) == Lookup(RunModel(m, ops), k, now)
    ensures SetSucceeds(Run(t, ops), k, now) <==>
        Live(RunModel(m, ops), k, now) || Run(t, ops).size != |Run(t, ops).slots|
  {
    RunRefines(t, m, ops, start);
    TimePasses(Run(t, ops), RunModel(m, ops), LastClock(ops, start), now);
    GetRefines(Run(t, ops), RunModel(m, ops), k, now);
    SetOutcome(Run(t, ops), RunModel(m, ops), k, now);
  }

  /** Size accounting in every reachable state: live <= stamped <= size <= max, `size` exceeds the
  stamped slots by exactly the number of expired slots recycled, and is exact without a timeout. */
  lemma SizeAccounting<K, V>(t: Table<K, V>, m: ExpMap<K, V>, ops: seq<Op<K, V>>, start: nat, now: nat)
    requires Refines(t, m, start) && ClockOk(ops, start)
    ensures var r := Run(t, ops);
      && LiveSlots(r.slots, r.timeout, now) <= StampedSlots(r.slots) <= r.size <= |r.slots|
      && r.size - StampedSlots(r.slots) == r.recycled
      && (r.timeout == 0 ==> r.size == LiveSlots(r.slots, 0, now))
  {
    RunRefines(t, m, ops, start);
  }

  /** Full by `size`, and nothing in it is live. */
  predicate Dead<K, V>(t: Table<K, V>, now: nat)
  {
    t.size == |t.slots| && LiveSlots(t.slots, t.timeout, now) == 0
  }

  /** A table that is full by `size` and holds nothing live is dead for good: no later call changes it,
  every insertion fails and every lookup misses. */
  lemma {:induction false} DeadForever<K, V>(t: Table<K, V>, ops: seq<Op<K, V>>, clock: nat, k: K, now: nat)
    requires Dead(t, clock)
    requires ClockOk(ops, clock) && clock <= now
    ensures Run(t, ops) == t
    ensures !SetSucceeds(Run(t, ops), k, now) && Get(Run(t, ops), k, now) == None
  {
    if |ops| > 0 {
      DeadForever(t, ops[..|ops| - 1], clock, k, now);
    }
  }

  /** Any other table accepts an insertion, after one deletion at most. */
  lemma OneDeletionRevives<K, V>(t: Table<K, V>, m: ExpMap<K, V>, now: nat) returns (ops: seq<Op<K, V>>, k: K)
    requires Refines(t, m, now) && now > 0 && !Dead(t, now)
    ensures |ops| <= 1 && (forall op :: op in ops ==> op.DeleteOp? && op.now == now)
    ensures SetSucceeds(Run(t, ops), k, now)
  {
    hide StampedSlots;
    if t.size != |t.slots| {
      ops, k := [], t.slots[0].key;
      SetOutcome(t, m, k, now);
    } else {
      var i :| 0 <= i < |t.slots| && Usable(t.slots[i], t.timeout, now);
      k := t.slots[i].key;
      ops := [DeleteOp(k, now)];
      assert ops[..0] == [] && Run(t, ops) == Delete(t, k, now);
      FoundIsUnique(t, k, now, i);
      DeleteRefines(t, m, k, now);
      SetOutcome(Delete(t, k, now), Remove(m, k, now), k, now);
    }
  }

  /** From `clock` on, no calls can bring the table to accept an insertion. */
  ghost predicate RefusesForever<K(!new), V(!new)>(t: Table<K, V>, clock: nat)
  {
    forall ops: seq<Op<K, V>>, k: K, now: nat :: ClockOk(ops, clock) && LastClock(ops, clock) <= now ==>
      !SetSucceeds(Run(t, ops), k, now)
  }

  /** A table refuses every insertion for ever if and only if `size` is `max_size` and no slot is live. */
  lemma RefusesForeverIffDead<K(!new), V(!new)>(t: Table<K, V>, m: ExpMap<K, V>, clock: nat)
    requires Refines(t, m, clock) && clock > 0
    ensures RefusesForever(t, clock) <==> Dead(t, clock)
  {
    if Dead(t, clock) {
      forall ops: seq<Op<K, V>>, k: K, now: nat | ClockOk(ops, clock) && LastClock(ops, clock) <= now
        ensures !SetSucceeds(Run(t, ops), k, now)
      {
        DeadForever(t, ops, clock, k, now);
      }
    } else {
      var ops, k := OneDeletionRevives(t, m, clock);
      assert ClockOk(ops, clock) && LastClock(ops, clock) <= clock;
    }
  }

  /** Clock readings just more than `timeout` apart. */
  function Tick(timeout: nat, i: nat): nat
  {
    if i == 0 then 1 else Tick(timeout, i - 1) + timeout + 1
  }

  /** One key set over and over, each time just after the previous copy expired. */
  function Repeats<K, V>(k: K, v: V, timeout: nat, n: nat): (ops: seq<Op<K, V>>)
  {
    if n == 0 then [] else Repeats(k, v, timeout, n - 1) + [SetOp(k, v, Tick(timeout, n - 1))]
  }

  /** How a table dies: with a timeout, as many such insertions as there are slots use up `size`
  although one slot at most was ever occupied. */
  lemma {:induction false} RunsDry<K, V>(slots: seq<Slot<K, V>>, k: K, v: V, timeout: nat, n: nat)
    requires timeout > 0 && n <= |slots| && |slots| > 0
    requires forall i :: 0 <= i < |slots| ==> slots[i].stamp == 0
    ensures var t := Run(Table(slots, 0, timeout, 0), Repeats(k, v, timeout, n));
      && t.size == n && |t.slots| == |slots| && t.timeout == timeout
      && (forall i :: 1 <= i < |slots| ==> t.slots[i].stamp == 0)
      && LiveSlots(t.slots, timeout, Tick(timeout, n)) == 0
  {
    hide LiveSlots, Set, Run, StampedSlots;
    var empty := Table(slots, 0, timeout, 0);
    if n == 0 {
      assert Run(empty, Repeats(k, v, timeout, 0)) == empty by { RunNothing(empty); }
    } else {
      RunsDry(slots, k, v, timeout, n - 1);
      var init, now := Repeats(k, v, timeout, n - 1), Tick(timeout, n - 1);
      RunSnoc(empty, init, SetOp(k, v, now));
      TakeOverFirst(Run(empty, init), k, v, now);
    }
  }

  lemma RunNothing<K, V>(t: Table<K, V>)
    ensures Run(t, []) == t
  {
  }

  lemma RunSnoc<K, V>(t: Table<K, V>, ops: seq<Op<K, V>>, op: Op<K, V>)
    ensures Run(t, ops + [op]) == Apply(Run(t, ops), op)
  {
    assert (ops + [op])[..|ops|] == ops;
  }

  lemma TakeOverFirst<K, V>(t: Table<K, V>, k: K, v: V, now: nat)
    requires t.timeout > 0 && now > 0 && 0 < |t.slots| && t.size < |t.slots|
    requires LiveSlots(t.slots, t.timeout, now) == 0
    ensures var r := Set(t, k, v, now);
      && r.slots == t.slots[0 := Slot(k, v, now)] && r.size == t.size + 1 && r.timeout == t.timeout
      && ((forall i :: 1 <= i < |t.slots| ==> t.slots[i].stamp == 0) ==>
          LiveSlots(r.slots, r.timeout, now + t.timeout + 1) == 0)
  {
    assert !Usable(t.slots[0], t.timeout, now);
    assert FindFree(t, now) == 0;
  }

  lemma {:induction false} RepeatsClock<K, V>(k: K, v: V, timeout: nat, n: nat)
    ensures |Repeats(k, v, timeout, n)| == n && ClockOk(Repeats(k, v, timeout, n), 1)
    ensures LastClock(Repeats(k, v, timeout, n), 1) <= Tick(timeout, n)
  {
    if n > 0 {
      RepeatsClock(k, v, timeout, n - 1);
      var init := Repeats(k, v, timeout, n - 1);
      assert forall i :: 0 <= i < |init| ==> init[i].now <= init[|init| - 1].now;
    }
  }

  lemma {:induction false} RunShape<K, V>(t: Table<K, V>, ops: seq<Op<K, V>>)
    ensures |Run(t, ops).slots| == |t.slots| && Run(t, ops).timeout == t.timeout
  {
    if |ops| > 0 {
      RunShape(t, ops[..|ops| - 1]);
    }
  }

  /** Some run from an empty table, and the passing of time, lead to a dead one. */
  ghost predicate CanDie<K(!new), V(!new)>(t: Table<K, V>)
  {
    exists ops: seq<Op<K, V>>, now: nat :: ClockOk(ops, 1) && LastClock(ops, 1) <= now && Dead(Run(t, ops), now)
  }

  /** A freshly initialised table can die if and only if it has a timeout, or no slots at all. */
  lemma TimedTablesDie<K(!new), V(!new)>(slots: seq<Slot<K, V>>, timeout: nat)
    requires forall i :: 0 <= i < |slots| ==> slots[i].stamp == 0
    ensures CanDie(Table(slots, 0, timeout, 0)) <==> timeout > 0 || |slots| == 0
  {
    var t := Table(slots, 0, timeout, 0);
    if |slots| == 0 {
      var none: seq<Op<K, V>> := [];
      assert ClockOk(none, 1) && LastClock(none, 1) <= 1 && Dead(Run(t, none), 1);
    } else if timeout > 0 {
      var ops := Repeats(slots[0].key, slots[0].value, timeout, |slots|);
      RepeatsClock(slots[0].key, slots[0].value, timeout, |slots|);
      RunsDry(slots, slots[0].key, slots[0].value, timeout, |slots|);
      assert Dead(Run(t, ops), Tick(timeout, |slots|));
    } else {
      forall ops: seq<Op<K, V>>, now: nat | ClockOk(ops, 1)
        ensures !Dead(Run(t, ops), now)
      {
        InitRefines(slots, timeout, 1);
        RunShape(t, ops);
        SizeAccounting(t, Empty(|slots|, timeout), ops, 1, now);
      }
    }
  }

  /** So a timed table of any size can be brought to refuse every new entry for ever. */
  lemma TimedTableCanDie<K, V>(slots: seq<Slot<K, V>>, k: K, v: V, timeout: nat, later: seq<Op<K, V>>, key: K, now: nat)
    requires timeout > 0 && |slots| > 0
    requires forall i :: 0 <= i < |slots| ==> slots[i].stamp == 0
    requires ClockOk(later, Tick(timeout, |slots|)) && Tick(timeout, |slots|) <= now
    ensures var t := Run(Table(slots, 0, timeout, 0), Repeats(k, v, timeout, |slots|));
      Run(t, later) == t && !SetSucceeds(t, key, now)
  {
    RunsDry(slots, k, v, timeout, |slots|);
    var t := Run(Table(slots, 0, timeout, 0), Repeats(k, v, timeout, |slots|));
    DeadForever(t, later, Tick(timeout, |slots|), key, now);
  }
}
