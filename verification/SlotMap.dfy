/** src/map.c as it runs: an array of slots searched, stamped and recycled in place. The ghost field
`model` is the expiring partial map that the object stands for. */
module SlotMap {
  import opened Words
  import opened ExpiringMap
  import opened SlotTable
  import Layout = MapLayout

  class Map<K(==, 0), V(0)> {
    const slots: array<Slot<K, V>>
    const timeout: nat
    var size: int
    ghost var recycled: nat
    ghost var model: ExpMap<K, V>
    ghost var clock: nat  // the latest clock reading seen

    ghost function Contents(): Table<K, V>
      reads this, slots
    {
      Table(slots[..], size, timeout, recycled)
    }

    ghost predicate Valid()
      reads this, slots
    {
      && Refines(Contents(), model, clock)
      && 0 <= size
    }

    /** `map_init` */
    constructor (keyLen: nat, valueLen: nat, maxSize: nat, timeout: nat)
      ensures Valid() && fresh(slots)
      ensures slots.Length == Layout.MaxSize(Layout.EntryLen(keyLen, valueLen), maxSize)
      ensures model == Empty(slots.Length, timeout) && clock == 0 && this.timeout == timeout
    {
      var n := Layout.MaxSize(Layout.EntryLen(keyLen, valueLen), maxSize);
      slots := new Slot<K, V>[n];
      this.timeout := timeout;
      size := 0;
      recycled := 0;
      model := Empty(n, timeout);
      clock := 0;
      new;
      forall i | 0 <= i < n {
        slots[i] := slots[i].(stamp := 0);
      }
      InitRefines(slots[..], timeout, 0);
    }

    /** `map_get`: the position of the value, as a stand-in for the pointer. */
    method Get(k: K, now: nat) returns (p: Option<nat>)
      requires Valid() && clock <= now
      ensures p.Some? <==> Live(model, k, now)
      ensures p.Some? ==> p.value < slots.Length && Holds(slots[p.value], k, timeout, now)
      ensures p.Some? ==> p.value == Find(Contents(), k, now) && slots[p.value].value == model.entries[k].value
    {
      TimePasses(Contents(), model, clock, now);
      GetRefines(Contents(), model, k, now);
      var i := 0;
      while i < slots.Length
        invariant 0 <= i <= slots.Length
        invariant forall j :: 0 <= j < i ==> !Holds(slots[j], k, timeout, now)
      {
        if Usable(slots[i], timeout, now) && slots[i].key == k {
          FoundIsUnique(Contents(), k, now, i);
          return Some(i);
        }
        i := i + 1;
      }
      return None;
    }

    /** `map_set`: 0 on success, -1 on failure. */
    method Set(k: K, v: V, now: nat) returns (r: int)
      requires Valid() && clock <= now && 0 < now
      modifies this, slots
      ensures Valid() && clock == now
      ensures model == Put(old(model), k, v, now)
      ensures r == if Accepts(old(model), k, now) then 0 else -1
    {
      ghost var t := Contents();
      var p := Get(k, now);
      TimePasses(t, model, clock, now);
      SetOutcome(t, model, k, now);
      SetRefines(t, model, k, v, now);
      model := Put(model, k, v, now);
      clock := now;
      if p.Some? {
        slots[p.value] := Slot(slots[p.value].key, v, now);
        assert Contents() == SlotTable.Set(t, k, v, now);
        return 0;
      }
      if size == slots.Length {
        return -1;
      }
      var i := 0;
      while i < slots.Length
        invariant 0 <= i <= slots.Length
        invariant forall j :: 0 <= j < i ==> Usable(slots[j], timeout, now)
        invariant Contents() == t
      {
        if !Usable(slots[i], timeout, now) {
          assert FindFree(t, now) == i;
          recycled := if slots[i].stamp != 0 then recycled + 1 else recycled;
          slots[i] := Slot(k, v, now);
          size := size + 1;
          assert Contents() == SlotTable.Set(t, k, v, now);
          return 0;
        }
        i := i + 1;
      }
      return -1;
    }

    /** `map_delete` */
    method Delete(k: K, now: nat)
      requires Valid() && clock <= now
      modifies this, slots
      ensures Valid() && clock == now
      ensures model == Remove(old(model), k, now)
    {
      ghost var t := Contents();
      var p := Get(k, now);
      TimePasses(t, model, clock, now);
      DeleteRefines(t, model, k, now);
      model := Remove(model, k, now);
      clock := now;
      if p.Some? {
        slots[p.value] := slots[p.value].(stamp := 0);
        size := size - 1;
        assert Contents() == SlotTable.Delete(t, k, now);
      }
    }

    /** A write through a pointer that `map_get` returned for `k`, possibly a while ago. */
    method Write(p: nat, k: K, v: V)
      requires Valid() && p < slots.Length && slots[p].key == k
      requires Live(model, k, clock) ==> Find(Contents(), k, clock) == p
      modifies this, slots
      ensures Valid() && clock == old(clock)
      ensures model == Poke(old(model), k, v)
      ensures slots[..] == old(slots[..])[p := old(slots[p]).(value := v)]
    {
      ghost var t := Contents();
      WriteRefines(t, model, k, v, p, clock);
      slots[p] := slots[p].(value := v);
      model := Poke(model, k, v);
      assert Contents() == SlotTable.Write(t, p, v);
    }

    /** `map_foreach`, with the visited entries in place of the callback. */
    method ForEach(now: nat) returns (visited: seq<Slot<K, V>>)
      requires Valid() && clock <= now
      ensures visited == UsableSlots(slots[..], timeout, now)
    {
      visited := [];
      var i := 0;
      while i < slots.Length
        invariant 0 <= i <= slots.Length
        invariant visited == UsableSlots(slots[..i], timeout, now)
      {
        assert slots[..i + 1][..i] == slots[..i];
        if Usable(slots[i], timeout, now) {
          visited := visited + [slots[i]];
        }
        i := i + 1;
      }
      assert slots[..i] == slots[..];
    }
  }
}
