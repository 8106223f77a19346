/** The listener table is larger than the port space, so `tcp_listen` and `udp_open` never run out of room. */
module TcpPorts {
  import opened Words
  import opened ExpiringMap
  import opened SlotTable
  import Layout = MapLayout

  /** At most `n` different numbers below `n`. */
  lemma {:induction false} Pigeonhole(ks: seq<int>, n: nat)
    requires forall i :: 0 <= i < |ks| ==> 0 <= ks[i] < n
    requires forall i, j :: 0 <= i < j < |ks| ==> ks[i] != ks[j]
    ensures |ks| <= n
  {
    if n == 0 {
    } else if exists i :: 0 <= i < |ks| && ks[i] == n - 1 {
      var i :| 0 <= i < |ks| && ks[i] == n - 1;
      Pigeonhole(ks[..i] + ks[i + 1..], n - 1);
    } else {
      Pigeonhole(ks, n - 1);
    }
  }

  /** A table without timeout whose keys are ports and which has more slots than there are ports accepts every
  insertion, in every reachable state. */
  lemma PortsFit<V>(t: Table<U16, V>, m: ExpMap<U16, V>, port: U16, now: nat)
    requires Refines(t, m, now) && t.timeout == 0 && |t.slots| > 0x1_0000
    ensures Accepts(m, port, now)
  {
    if t.size == |t.slots| {
      assert LiveSlots(t.slots, 0, now) == |t.slots|;
      var ks: seq<int> := seq(|t.slots|, i requires 0 <= i < |t.slots| => t.slots[i].key);
      forall i, j | 0 <= i < j < |ks|
        ensures ks[i] != ks[j]
      {
        assert Usable(t.slots[i], 0, now) && Usable(t.slots[j], 0, now);
      }
      Pigeonhole(ks, 0x1_0000);
    }
  }

  /** A port is two bytes and a handler pointer eight; `map_init` then finds room for 116733 of them. */
  lemma ListenerSlots()
    ensures Layout.MaxSize(Layout.EntryLen(2, 8), 0) == 116733 > 0x1_0000
  {
  }
}
