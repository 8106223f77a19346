/** src/buf.c: a packet is a window in a fixed array; headers are pushed in front of it and popped off in
place, padding is appended and cut. */
module Buf {
  import opened Words
  import Layout = MapLayout

  const BUF_MAX_LEN := Layout.BUF_MAX_LEN

  class Packet {
    const payload: array<Byte>
    var data: nat  // where the window starts
    var len: nat

    ghost predicate Valid()
      reads this
    {
      payload.Length == BUF_MAX_LEN && data + len <= BUF_MAX_LEN
    }

    function Window(): seq<Byte>
      requires Valid()
      reads this, payload
    {
      payload[data..data + len]
    }

    constructor ()
      ensures Valid() && fresh(payload) && len == 0
    {
      payload := new Byte[BUF_MAX_LEN];
      data, len := 0, 0;
    }

    /** `buf_init` */
    method Init(n: nat) returns (r: int)
      requires Valid()
      modifies this
      ensures Valid()
      ensures n < BUF_MAX_LEN / 2 ==> r == 0 && len == n && data == BUF_MAX_LEN / 2 - n
      ensures n >= BUF_MAX_LEN / 2 ==> r == -1 && len == old(len) && data == old(data)
    {
      if n >= BUF_MAX_LEN / 2 {
        return -1;
      }
      len := n;
      data := BUF_MAX_LEN / 2 - n;
      r := 0;
    }

    /** `buf_add_header`: the bytes in front of the window join it as they are. */
    method AddHeader(n: nat) returns (r: int)
      requires Valid()
      modifies this
      ensures Valid()
      ensures old(data) >= n ==> r == 0 && data == old(data) - n && len == old(len) + n
      ensures old(data) >= n ==> Window() == payload[data..data + n] + old(Window())
      ensures old(data) < n ==> r == -1 && data == old(data) && len == old(len)
    {
      if data < n {
        return -1;
      }
      len := len + n;
      data := data - n;
      r := 0;
    }

    /** `buf_remove_header` */
    method RemoveHeader(n: nat) returns (r: int)
      requires Valid()
      modifies this
      ensures Valid()
      ensures old(len) >= n ==> r == 0 && data == old(data) + n && len == old(len) - n && Window() == old(Window())[n..]
      ensures old(len) < n ==> r == -1 && data == old(data) && len == old(len)
    {
      if len < n {
        return -1;
      }
      len := len - n;
      data := data + n;
      r := 0;
    }

    /** `buf_add_padding`: zeros, at the cost of the bytes behind the window. */
    method AddPadding(n: nat) returns (r: int)
      requires Valid()
      modifies this, payload
      ensures Valid() && data == old(data)
      ensures old(data + len) + n < BUF_MAX_LEN ==> r == 0 && len == old(len) + n
      ensures r == 0 ==> Window() == old(Window()) + Zeros(n)
      ensures r == 0 ==> payload[..] == Splice(old(payload[..]), old(data + len), Zeros(n))
      ensures old(data + len) + n >= BUF_MAX_LEN ==> r == -1 && len == old(len) && payload[..] == old(payload[..])
    {
      if data + len + n >= BUF_MAX_LEN {
        return -1;
      }
      forall i | 0 <= i < n {
        payload[data + len + i] := 0;
      }
      len := len + n;
      r := 0;
    }

    /** `buf_remove_padding` */
    method RemovePadding(n: nat) returns (r: int)
      requires Valid()
      modifies this
      ensures Valid() && data == old(data)
      ensures old(len) >= n ==> r == 0 && len == old(len) - n && Window() == old(Window())[..old(len) - n]
      ensures old(len) < n ==> r == -1 && len == old(len)
    {
      if len < n {
        return -1;
      }
      len := len - n;
      r := 0;
    }

    /** `buf_copy` */
    method CopyFrom(src: Packet)
      requires Valid() && src.Valid() && src != this && src.payload != payload
      modifies this, payload
      ensures Valid() && len == src.len && data == src.data
      ensures payload[..] == src.payload[..] && Window() == src.Window()
    {
      len := src.len;
      data := src.data;
      forall i | 0 <= i < BUF_MAX_LEN {
        payload[i] := src.payload[i];
      }
    }

    /** `memcpy`, or a field written through a header struct, at offset `at` of the window. */
    method Store(at: nat, b: seq<Byte>)
      requires Valid() && at + |b| <= len
      modifies payload
      ensures Window() == Splice(old(Window()), at, b)
      ensures payload[..] == Splice(old(payload[..]), data + at, b)
    {
      forall i | 0 <= i < |b| {
        payload[data + at + i] := b[i];
      }
    }
  }
}
