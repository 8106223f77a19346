/** Where src/map.c puts its slots: `map_init` chooses how many there are, `map_entry_get` where
each one starts. Sizes are those of a 64-bit host (`size_t` and `time_t` take eight bytes). */
module MapLayout {
  import opened Words

  const BUF_MAX_LEN := 2 * 65535 + 255
  const MAP_MAX_LEN := 16 * BUF_MAX_LEN
  const TIME_LEN := 8
  const SIZE_T := 0x1_0000_0000_0000_0000

  function EntryLen(keyLen: nat, valueLen: nat): nat { keyLen + valueLen + TIME_LEN }

  /** `map_init`'s choice of `max_size`; the multiplication wraps at 64 bits. */
  function MaxSize(w: nat, asked: nat): nat
    requires 0 < w
  {
    if asked == 0 || asked * w % SIZE_T > MAP_MAX_LEN then MAP_MAX_LEN / w else asked
  }

  function EntryStart(w: nat, pos: nat): nat { pos * w }

  lemma ProductGrows(p: nat, q: nat, w: nat)
    requires p <= q
    ensures p * w <= q * w
  {
    assert q * w == p * w + (q - p) * w;
    assert 0 <= (q - p) * w;
  }

  /** All slots lie inside `data` if and only if the product in `map_init`'s guard did not wrap to a
  small number. */
  lemma SlotsFit(w: nat, asked: nat)
    requires 0 < w
    ensures (forall pos :: 0 <= pos < MaxSize(w, asked) ==> EntryStart(w, pos) + w <= MAP_MAX_LEN)
       <==> (asked * w < SIZE_T || asked * w % SIZE_T > MAP_MAX_LEN)
  {
    var n := MaxSize(w, asked);
    if asked * w < SIZE_T || asked * w % SIZE_T > MAP_MAX_LEN {
      ProductFits(w, asked);
      forall pos | 0 <= pos < n
        ensures EntryStart(w, pos) + w <= MAP_MAX_LEN
      {
        ProductGrows(pos + 1, n, w);
        assert (pos + 1) * w == pos * w + w;
      }
    } else {
      var last := asked - 1;
      assert EntryStart(w, last) + w == asked * w;
    }
  }

  /** A capacity that was asked for and fits is granted; otherwise the largest that fits is taken. */
  lemma CapacityExact(w: nat, asked: nat)
    requires 0 < w && asked * w < SIZE_T
    ensures asked > 0 && asked * w <= MAP_MAX_LEN ==> MaxSize(w, asked) == asked
    ensures asked == 0 || asked * w > MAP_MAX_LEN ==>
      MaxSize(w, asked) * w <= MAP_MAX_LEN < (MaxSize(w, asked) + 1) * w
  {
    var n := MAP_MAX_LEN / w;
    assert n * w <= MAP_MAX_LEN < n * w + w;
    assert (n + 1) * w == n * w + w;
    assert asked * w % SIZE_T == asked * w;
  }

  lemma ProductFits(w: nat, asked: nat)
    requires 0 < w
    requires asked * w < SIZE_T || asked * w % SIZE_T > MAP_MAX_LEN
    ensures MaxSize(w, asked) * w <= MAP_MAX_LEN
  {
    if MaxSize(w, asked) == MAP_MAX_LEN / w {
      assert MAP_MAX_LEN / w * w <= MAP_MAX_LEN;
    } else {
      assert asked * w % SIZE_T == asked * w;
    }
  }

  /** Different slots share no byte. */
  lemma SlotsDisjoint(w: nat, p: nat, q: nat, i: nat)
    requires p != q && EntryStart(w, p) <= i < EntryStart(w, p) + w
    ensures !(EntryStart(w, q) <= i < EntryStart(w, q) + w)
  {
    if p < q {
      ProductGrows(p + 1, q, w);
    } else {
      ProductGrows(q + 1, p, w);
    }
    assert (p + 1) * w == p * w + w && (q + 1) * w == q * w + w;
  }

  function EntryBytes(data: seq<Byte>, w: nat, pos: nat): (e: seq<Byte>)
    requires EntryStart(w, pos) + w <= |data|
    ensures |e| == w
  {
    data[EntryStart(w, pos)..EntryStart(w, pos) + w]
  }

  /** All slots of a map lie inside the array. */
  ghost predicate SlotsInside(data: array<Byte>, n: nat, w: nat)
  {
    forall q :: 0 <= q < n ==> 0 <= EntryStart(w, q) <= data.Length - w
  }

  lemma SlotInside(data: array<Byte>, n: nat, w: nat)
    requires n * w <= data.Length
    ensures SlotsInside(data, n, w)
  {
    forall q | 0 <= q < n
      ensures 0 <= EntryStart(w, q) <= data.Length - w
    {
      ProductGrows(q + 1, n, w);
      assert (q + 1) * w == q * w + w;
    }
  }

  /** Any write that stays inside slot `pos` changes that slot as asked and no byte of any other. */
  method WriteInside(data: array<Byte>, n: nat, w: nat, pos: nat, at: nat, b: seq<Byte>)
    requires pos < n && at + |b| <= w && n * w <= data.Length
    modifies data
    ensures SlotsInside(data, n, w)
    ensures EntryBytes(data[..], w, pos) == Splice(old(EntryBytes(data[..], w, pos)), at, b)
    ensures forall q :: 0 <= q < n && q != pos ==>
      EntryBytes(data[..], w, q) == old(EntryBytes(data[..], w, q))
  {
    SlotInside(data, n, w);
    ghost var was := data[..];
    CopyBytes(data, EntryStart(w, pos) + at, b);
    assert EntryBytes(data[..], w, pos) == Splice(EntryBytes(was, w, pos), at, b);
    forall q | 0 <= q < n && q != pos
      ensures EntryBytes(data[..], w, q) == EntryBytes(was, w, q)
    {
      forall i | EntryStart(w, q) <= i < EntryStart(w, q) + w
        ensures data[i] == was[i]
      {
        SlotsDisjoint(w, q, pos, i);
      }
    }
  }

  lemma TailStored(e: seq<Byte>, at: nat, value: seq<Byte>, time: seq<Byte>)
    requires |e| == at + |value| + |time|
    ensures Splice(Splice(e, at, value), at + |value|, time) == e[..at] + value + time
  {
    var r := Splice(Splice(e, at, value), at + |value|, time);
    assert r[..at] == e[..at] && r[at..at + |value|] == value && r[at + |value|..] == time;
  }

  lemma FieldsStored(e: seq<Byte>, key: seq<Byte>, value: seq<Byte>, time: seq<Byte>)
    requires |e| == |key| + |value| + |time|
    ensures Splice(Splice(Splice(e, 0, key), |key|, value), |key| + |value|, time) == key + value + time
  {
    TailStored(Splice(e, 0, key), |key|, value, time);
    assert Splice(e, 0, key)[..|key|] == key;
  }

  /** The three writes of an insertion by `map_set` (src/map.c:111-113): the slot then holds exactly key, value
  and time. */
  method StoreEntry(data: array<Byte>, n: nat, pos: nat, key: seq<Byte>, value: seq<Byte>, time: seq<Byte>)
    requires |time| == TIME_LEN && pos < n
    requires n * EntryLen(|key|, |value|) <= data.Length
    modifies data
    ensures SlotsInside(data, n, EntryLen(|key|, |value|))
    ensures EntryBytes(data[..], EntryLen(|key|, |value|), pos) == key + value + time
    ensures forall q :: 0 <= q < n && q != pos ==>
      EntryBytes(data[..], EntryLen(|key|, |value|), q) == old(EntryBytes(data[..], EntryLen(|key|, |value|), q))
  {
    hide EntryStart, EntryBytes, Splice;
    var w := EntryLen(|key|, |value|);
    SlotInside(data, n, w);
    ghost var e := EntryBytes(data[..], w, pos);
    WriteInside(data, n, w, pos, 0, key);
    WriteInside(data, n, w, pos, |key|, value);
    WriteInside(data, n, w, pos, |key| + |value|, time);
    FieldsStored(e, key, value, time);
  }

  /** The two writes of an update by `map_set` (src/map.c:100-101): the key stays. */
  method UpdateEntry(data: array<Byte>, n: nat, keyLen: nat, pos: nat, value: seq<Byte>, time: seq<Byte>)
    requires |time| == TIME_LEN && pos < n
    requires n * EntryLen(keyLen, |value|) <= data.Length
    modifies data
    ensures SlotsInside(data, n, EntryLen(keyLen, |value|))
    ensures EntryBytes(data[..], EntryLen(keyLen, |value|), pos)
      == old(EntryBytes(data[..], EntryLen(keyLen, |value|), pos))[..keyLen] + value + time
    ensures forall q :: 0 <= q < n && q != pos ==>
      EntryBytes(data[..], EntryLen(keyLen, |value|), q) == old(EntryBytes(data[..], EntryLen(keyLen, |value|), q))
  {
    hide EntryStart, EntryBytes, Splice;
    var w := EntryLen(keyLen, |value|);
    SlotInside(data, n, w);
    ghost var e := EntryBytes(data[..], w, pos);
    WriteInside(data, n, w, pos, keyLen, value);
    WriteInside(data, n, w, pos, keyLen + |value|, time);
    TailStored(e, keyLen, value, time);
  }

  /** The write of `map_delete` (src/map.c:133): the time becomes 0, key and value stay. */
  method ClearEntry(data: array<Byte>, n: nat, keyLen: nat, valueLen: nat, pos: nat)
    requires pos < n && n * EntryLen(keyLen, valueLen) <= data.Length
    modifies data
    ensures SlotsInside(data, n, EntryLen(keyLen, valueLen))
    ensures EntryBytes(data[..], EntryLen(keyLen, valueLen), pos)
      == old(EntryBytes(data[..], EntryLen(keyLen, valueLen), pos))[..keyLen + valueLen] + Zeros(TIME_LEN)
    ensures forall q :: 0 <= q < n && q != pos ==>
      EntryBytes(data[..], EntryLen(keyLen, valueLen), q) == old(EntryBytes(data[..], EntryLen(keyLen, valueLen), q))
  {
    hide EntryStart, EntryBytes, Splice;
    var w := EntryLen(keyLen, valueLen);
    SlotInside(data, n, w);
    ghost var e := EntryBytes(data[..], w, pos);
    WriteInside(data, n, w, pos, keyLen + valueLen, Zeros(TIME_LEN));
    assert Splice(e, keyLen + valueLen, Zeros(TIME_LEN)) == e[..keyLen + valueLen] + Zeros(TIME_LEN);
  }

  /** `memcpy` into the array. */
  method CopyBytes(data: array<Byte>, at: nat, b: seq<Byte>)
    requires at + |b| <= data.Length
    modifies data
    ensures forall i :: 0 <= i < data.Length ==> data[i] == if at <= i < at + |b| then b[i - at] else old(data[i])
  {
    forall i | 0 <= i < |b| {
      data[at + i] := b[i];
    }
  }
}
