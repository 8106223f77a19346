/** The slot array of src/map.c as a value: linear search, lazy expiry, recycling of dead slots
and a separately kept `size`. The lemmas show that it refines the expiring partial map. */
module SlotTable {
  import opened Words
  import opened ExpiringMap

  datatype Slot<K, V> = Slot(key: K, value: V, stamp: nat)

  /** `recycled` counts how often an expired slot was taken over by a new entry. The program does
  not store it; it explains the difference between `size` and the stamped slots. */
  datatype Table<K, V> = Table(slots: seq<Slot<K, V>>, size: int, timeout: nat, recycled: nat)

  /** src/map.c `map_entry_valid` */
  predicate Usable<K, V>(s: Slot<K, V>, timeout: nat, now: nat)
  {
    s.stamp != 0 && (timeout == 0 || s.stamp + timeout >= now)
  }

  predicate Holds<K(==), V>(s: Slot<K, V>, k: K, timeout: nat, now: nat)
  {
    Usable(s, timeout, now) && s.key == k
  }

  /** The first slot from `i` on that holds `k`; the number of slots if there is none. */
  function Find<K(==), V>(t: Table<K, V>, k: K, now: nat, i: nat := 0): (p: nat)
    requires i <= |t.slots|
    ensures i <= p <= |t.slots|
    ensures p < |t.slots| ==> Holds(t.slots[p], k, t.timeout, now)
    ensures forall j :: i <= j < p ==> !Holds(t.slots[j], k, t.timeout, now)
    decreases |t.slots| - i
  {
    if i == |t.slots| || Holds(t.slots[i], k, t.timeout, now) then i else Find(t, k, now, i + 1)
  }

  /** The first slot from `i` on that may be overwritten. */
  function FindFree<K, V>(t: Table<K, V>, now: nat, i: nat := 0): (p: nat)
    requires i <= |t.slots|
    ensures i <= p <= |t.slots|
    ensures p < |t.slots| ==> !Usable(t.slots[p], t.timeout, now)
    ensures forall j :: i <= j < p ==> Usable(t.slots[j], t.timeout, now)
    decreases |t.slots| - i
  {
    if i == |t.slots| || !Usable(t.slots[i], t.timeout, now) then i else FindFree(t, now, i + 1)
  }

  function Get<K(==), V>(t: Table<K, V>, k: K, now: nat): Option<V>
  {
    var p := Find(t, k, now);
    if p < |t.slots| then Some(t.slots[p].value) else None
  }

  predicate SetSucceeds<K(==), V>(t: Table<K, V>, k: K, now: nat)
  {
    Find(t, k, now) < |t.slots| || (t.size != |t.slots| && FindFree(t, now) < |t.slots|)
  }

  function Set<K(==), V>(t: Table<K, V>, k: K, v: V, now: nat): Table<K, V>
  {
    var p := Find(t, k, now);
    if p < |t.slots| then t.(slots := t.slots[p := Slot(t.slots[p].key, v, now)])
    else if t.size == |t.slots| then t
    else
      var q := FindFree(t, now);
      if q < |t.slots| then
        t.(slots := t.slots[q := Slot(k, v, now)], size := t.size + 1,
           recycled := if t.slots[q].stamp != 0 then t.recycled + 1 else t.recycled)
      else t
  }

  function Delete<K(==), V>(t: Table<K, V>, k: K, now: nat): Table<K, V>
  {
    var p := Find(t, k, now);
    if p < |t.slots| then t.(slots := t.slots[p := t.slots[p].(stamp := 0)], size := t.size - 1) else t
  }

  /** Overwriting a value in place through the pointer that `map_get` returned. */
  function Write<K, V>(t: Table<K, V>, p: nat, v: V): Table<K, V>
    requires p < |t.slots|
  {
    t.(slots := t.slots[p := t.slots[p].(value := v)])
  }

  // ---------- counting

  function StampedSlots<K, V>(s: seq<Slot<K, V>>): (n: nat)
    ensures n <= |s|
  {
    if |s| == 0 then 0 else StampedSlots(s[..|s| - 1]) + if s[|s| - 1].stamp != 0 then 1 else 0
  }

  function LiveSlots<K, V>(s: seq<Slot<K, V>>, timeout: nat, now: nat): (n: nat)
    ensures n <= StampedSlots(s)
    ensures n == |s| <==> forall i :: 0 <= i < |s| ==> Usable(s[i], timeout, now)
    ensures n == 0 <==> forall i :: 0 <= i < |s| ==> !Usable(s[i], timeout, now)
    ensures timeout == 0 ==> n == StampedSlots(s)
  {
    if |s| == 0 then 0
    else LiveSlots(s[..|s| - 1], timeout, now) + if Usable(s[|s| - 1], timeout, now) then 1 else 0
  }

  lemma {:induction false} StampedUpdate<K, V>(s: seq<Slot<K, V>>, i: nat, x: Slot<K, V>)
    requires i < |s|
    ensures StampedSlots(s[i := x])
         == StampedSlots(s) - (if s[i].stamp != 0 then 1 else 0) + (if x.stamp != 0 then 1 else 0)
  {
    var init := s[..|s| - 1];
    if i < |s| - 1 {
      assert s[i := x][..|s| - 1] == init[i := x];
      StampedUpdate(init, i, x);
    } else {
      assert s[i := x][..|s| - 1] == init;
    }
  }

  // ---------- the invariant and the refinement

  /** What every reachable table satisfies at clock reading `clock`. */
  ghost predicate TableOk<K, V>(t: Table<K, V>, clock: nat)
  {
    && (forall i, j :: 0 <= i < j < |t.slots|
          && Usable(t.slots[i], t.timeout, clock) && Usable(t.slots[j], t.timeout, clock)
          ==> t.slots[i].key != t.slots[j].key)
    && t.size == StampedSlots(t.slots) + t.recycled
    && t.size <= |t.slots|
    && (t.timeout == 0 ==> t.recycled == 0)
  }

  ghost predicate Refines<K, V>(t: Table<K, V>, m: ExpMap<K, V>, clock: nat)
  {
    && TableOk(t, clock)
    && m.size == t.size && m.max == |t.slots| && m.timeout == t.timeout
    && (forall i :: 0 <= i < |t.slots| && Usable(t.slots[i], t.timeout, clock) ==>
          t.slots[i].key in m.entries && m.entries[t.slots[i].key] == Stamped(t.slots[i].value, t.slots[i].stamp))
    && (forall k | k in m.entries :: Live(m, k, clock) ==> Find(t, k, clock) < |t.slots|)
  }

  lemma InitRefines<K, V>(slots: seq<Slot<K, V>>, timeout: nat, clock: nat)
    requires forall i :: 0 <= i < |slots| ==> slots[i].stamp == 0
    ensures Refines(Table(slots, 0, timeout, 0), Empty(|slots|, timeout), clock)
  {
    NoneStamped(slots);
  }

  lemma {:induction false} NoneStamped<K, V>(s: seq<Slot<K, V>>)
    requires forall i :: 0 <= i < |s| ==> s[i].stamp == 0
    ensures StampedSlots(s) == 0
  {
    if |s| > 0 {
      NoneStamped(s[..|s| - 1]);
    }
  }

  /** Time alone never makes a slot usable again, so the refinement survives the passing of time:
  an expired copy of a key stays invisible. */
  lemma TimePasses<K, V>(t: Table<K, V>, m: ExpMap<K, V>, clock: nat, now: nat)
    requires Refines(t, m, clock) && clock <= now
    ensures Refines(t, m, now)
  {
    forall k | k in m.entries && Live(m, k, now)
      ensures Find(t, k, now) < |t.slots|
    {
      var p := Find(t, k, clock);
      assert Live(m, k, clock);
      assert Holds(t.slots[p], k, t.timeout, now);
    }
  }

  /** The slot found is the only usable one with its key. */
  lemma FoundIsUnique<K, V>(t: Table<K, V>, k: K, now: nat, i: nat)
    requires TableOk(t, now) && i < |t.slots| && Holds(t.slots[i], k, t.timeout, now)
    ensures Find(t, k, now) == i
  {
    var p := Find(t, k, now);
    assert p <= i;
  }

  /** `map_get` is lookup. */
  lemma GetRefines<K, V>(t: Table<K, V>, m: ExpMap<K, V>, k: K, now: nat)
    requires Refines(t, m, now)
    ensures Get(t, k, now) == Lookup(m, k, now)
    ensures Find(t, k, now) < |t.slots| <==> Live(m, k, now)
  {
  }

  /** `map_set` fails exactly when a new key meets `size == max_size`. */
  lemma SetOutcome<K, V>(t: Table<K, V>, m: ExpMap<K, V>, k: K, now: nat)
    requires Refines(t, m, now)
    ensures SetSucceeds(t, k, now) <==> Accepts(m, k, now)
    ensures t.size != |t.slots| ==> FindFree(t, now) < |t.slots|
  {
    GetRefines(t, m, k, now);
    if t.size != |t.slots| {
      assert LiveSlots(t.slots, t.timeout, now) < |t.slots|;
    }
  }

  /** Stamping slot `p` with `k` is sound when `p` already holds `k`, or `k` is not there and `p` is free. */
  lemma StampRefines<K, V>(t: Table<K, V>, m: ExpMap<K, V>, k: K, v: V, p: nat, t': Table<K, V>, m': ExpMap<K, V>,
      now: nat)
    requires Refines(t, m, now) && now > 0 && p < |t.slots|
    requires if Live(m, k, now) then p == Find(t, k, now) else !Usable(t.slots[p], t.timeout, now)
    requires t'.slots == t.slots[p := Slot(k, v, now)] && t'.timeout == t.timeout && TableOk(t', now)
    requires m' == m.(entries := m.entries[k := Stamped(v, now)], size := t'.size)
    ensures Refines(t', m', now)
  {
    forall k' | k' in m'.entries && Live(m', k', now)
      ensures Find(t', k', now) < |t'.slots|
    {
      if k' == k {
        assert Holds(t'.slots[p], k, t.timeout, now);
      } else {
        assert Live(m, k', now);
        var p' := Find(t, k', now);
        assert Holds(t'.slots[p'], k', t.timeout, now);
      }
    }
  }

  /** `map_set` is update. The time must not be 0, which marks an empty slot. */
  lemma SetRefines<K, V>(t: Table<K, V>, m: ExpMap<K, V>, k: K, v: V, now: nat)
    requires Refines(t, m, now) && now > 0
    ensures Refines(Set(t, k, v, now), Put(m, k, v, now), now)
  {
    hide LiveSlots, StampedSlots;
    SetOutcome(t, m, k, now);
    GetRefines(t, m, k, now);
    if Accepts(m, k, now) {
      var p := if Live(m, k, now) then Find(t, k, now) else FindFree(t, now);
      StampedUpdate(t.slots, p, Slot(k, v, now));
      assert Set(t, k, v, now).slots == t.slots[p := Slot(k, v, now)];
      StampRefines(t, m, k, v, p, Set(t, k, v, now), Put(m, k, v, now), now);
    }
  }

  /** `map_delete` is removal, and `size` cannot underflow. */
  lemma DeleteRefines<K, V>(t: Table<K, V>, m: ExpMap<K, V>, k: K, now: nat)
    requires Refines(t, m, now)
    ensures Refines(Delete(t, k, now), Remove(m, k, now), now)
    ensures 0 <= Delete(t, k, now).size
  {
    hide StampedSlots;
    GetRefines(t, m, k, now);
    var t', m' := Delete(t, k, now), Remove(m, k, now);
    if Live(m, k, now) {
      var p := Find(t, k, now);
      StampedUpdate(t.slots, p, t.slots[p].(stamp := 0));
      forall k' | k' in m'.entries && Live(m', k', now)
        ensures Find(t', k', now) < |t'.slots|
      {
        assert Live(m, k', now);
        var p' := Find(t, k', now);
        assert Holds(t'.slots[p'], k', t.timeout, now);
      }
    }
  }

  /** A write through a pointer obtained earlier changes the value of that key and nothing else. The
  entry may have expired in between; then nobody sees the write. */
  lemma WriteRefines<K, V>(t: Table<K, V>, m: ExpMap<K, V>, k: K, v: V, p: nat, now: nat)
    requires Refines(t, m, now)
    requires p < |t.slots| && t.slots[p].key == k
    requires Live(m, k, now) ==> Find(t, k, now) == p
    ensures Refines(Write(t, p, v), Poke(m, k, v), now)
  {
    hide StampedSlots;
    var t', m' := Write(t, p, v), Poke(m, k, v);
    StampedUpdate(t.slots, p, t.slots[p].(value := v));
    forall k' | k' in m'.entries && Live(m', k', now)
      ensures Find(t', k', now) < |t'.slots|
    {
      assert Live(m, k', now);
      var p' := Find(t, k', now);
      assert Holds(t'.slots[p'], k', t.timeout, now);
    }
  }

  // ---------- map_foreach

  function UsableSlots<K, V>(s: seq<Slot<K, V>>, timeout: nat, now: nat): seq<Slot<K, V>>
  {
    if |s| == 0 then []
    else UsableSlots(s[..|s| - 1], timeout, now) + if Usable(s[|s| - 1], timeout, now) then [s[|s| - 1]] else []
  }

  lemma {:induction false} UsableSlotsMember<K, V>(s: seq<Slot<K, V>>, timeout: nat, now: nat, x: Slot<K, V>)
    ensures x in UsableSlots(s, timeout, now) <==> x in s && Usable(x, timeout, now)
  {
    if |s| > 0 {
      UsableSlotsMember(s[..|s| - 1], timeout, now, x);
      assert s == s[..|s| - 1] + [s[|s| - 1]];
    }
  }

  lemma {:induction false} UsableSlotsDistinct<K, V>(s: seq<Slot<K, V>>, timeout: nat, now: nat)
    requires forall i, j :: 0 <= i < j < |s| && Usable(s[i], timeout, now) && Usable(s[j], timeout, now) ==>
        s[i].key != s[j].key
    ensures var u := UsableSlots(s, timeout, now); forall i, j :: 0 <= i < j < |u| ==> u[i].key != u[j].key
  {
    if |s| > 0 {
      var init := s[..|s| - 1];
      UsableSlotsDistinct(init, timeout, now);
      var u := UsableSlots(init, timeout, now);
      forall i | 0 <= i < |u|
        ensures Usable(s[|s| - 1], timeout, now) ==> u[i].key != s[|s| - 1].key
      {
        UsableSlotsMember(init, timeout, now, u[i]);
        assert u[i] in init;
      }
    }
  }

  /** `map_foreach` visits each live key of the partial map exactly once, with its current value and
  time, and nothing else. */
  lemma ForEachIsExact<K, V>(t: Table<K, V>, m: ExpMap<K, V>, now: nat)
    requires Refines(t, m, now)
    ensures var u := UsableSlots(t.slots, t.timeout, now);
      && (forall i, j :: 0 <= i < j < |u| ==> u[i].key != u[j].key)
      && (forall x :: x in u ==> Live(m, x.key, now) && m.entries[x.key] == Stamped(x.value, x.stamp))
      && (forall k | k in m.entries :: Live(m, k, now) ==> exists x :: x in u && x.key == k)
  {
    UsableSlotsDistinct(t.slots, t.timeout, now);
    var u := UsableSlots(t.slots, t.timeout, now);
    forall x | x in u
      ensures Live(m, x.key, now) && m.entries[x.key] == Stamped(x.value, x.stamp)
    {
      UsableSlotsMember(t.slots, t.timeout, now, x);
      var i :| 0 <= i < |t.slots| && t.slots[i] == x;
    }
    forall k | k in m.entries && Live(m, k, now)
      ensures exists x :: x in u && x.key == k
    {
      var p := Find(t, k, now);
      UsableSlotsMember(t.slots, t.timeout, now, t.slots[p]);
    }
  }
}
