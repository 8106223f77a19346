/** Bytes, 16- and 32-bit words, and the byte orders in which they travel.

The host is little-endian: a `uint16_t` stored in memory occupies its low byte first.
Bit operations are written as the arithmetic they perform: `x >> 8` is `x / 256`,
`x & 0xff` is `x % 256`. */
module Words {
  type Byte = x: int | 0 <= x < 0x100
  type U16 = x: int | 0 <= x < 0x1_0000
  type U32 = x: int | 0 <= x < 0x1_0000_0000

  /** Arithmetic on `uint32_t`. */
  function Wrap(n: int): U32 { n % 0x1_0000_0000 }

  datatype Option<+T> = None | Some(value: T)

  lemma WrapUnique(a: int, q: int, r: U32)
    requires a == 0x1_0000_0000 * q + r
    ensures Wrap(a) == r
  {
  }

  lemma WrapAdd(a: int, n: int)
    ensures Wrap(Wrap(a) + n) == Wrap(a + n)
  {
    var q, q' := a / 0x1_0000_0000, (Wrap(a) + n) / 0x1_0000_0000;
    WrapUnique(a + n, q + q', Wrap(Wrap(a) + n));
  }

  type Ip = s: seq<Byte> | |s| == 4 witness [0, 0, 0, 0]
  type Mac = s: seq<Byte> | |s| == 6 witness [0, 0, 0, 0, 0, 0]

  /** Two, or four, base-256 digits, most significant first. */
  function Pair(hi: Byte, lo: Byte): U16 { 256 * (hi as int) + lo }

  function Quad(a: Byte, b: Byte, c: Byte, d: Byte): U32
  {
    0x100_0000 * (a as int) + 0x1_0000 * (b as int) + 256 * (c as int) + d
  }

  function Digit(x: U32, k: nat): Byte
    requires k < 4
  {
    match k
    case 0 => x % 256
    case 1 => x / 256 % 256
    case 2 => x / 0x1_0000 % 256
    case _ => x / 0x100_0000
  }

  lemma Digits(a: Byte, b: Byte, c: Byte, d: Byte)
    ensures var x := Quad(a, b, c, d);
      Digit(x, 0) == d && Digit(x, 1) == c && Digit(x, 2) == b && Digit(x, 3) == a
  {
    var x := Quad(a, b, c, d);
    assert x / 256 == 0x1_0000 * (a as int) + 256 * (b as int) + c;
    assert x / 0x1_0000 == 256 * (a as int) + b;
  }

  lemma FromDigits(x: U32)
    ensures x == Quad(Digit(x, 3), Digit(x, 2), Digit(x, 1), Digit(x, 0))
  {
    assert x / 0x1_0000 == x / 256 / 256;
    assert x / 0x100_0000 == x / 0x1_0000 / 256;
  }

  /** The macro `swap16`, and src/tcp.c `tcp_swap32`. */
  function Swap16(x: U16): U16 { x % 256 * 256 + x / 256 }

  function Swap32(x: U32): U32 { Quad(Digit(x, 0), Digit(x, 1), Digit(x, 2), Digit(x, 3)) }

  /** The value the little-endian host loads from two, or four, bytes of memory. */
  function Load16(b: seq<Byte>, i: nat): U16
    requires i + 2 <= |b|
  {
    Pair(b[i + 1], b[i])
  }

  function Load32(b: seq<Byte>, i: nat): U32
    requires i + 4 <= |b|
  {
    Quad(b[i + 3], b[i + 2], b[i + 1], b[i])
  }

  /** The bytes the little-endian host stores for a value. */
  function Store16(x: U16): (b: seq<Byte>)
    ensures |b| == 2
  {
    [x % 256, x / 256]
  }

  function Store32(x: U32): (b: seq<Byte>)
    ensures |b| == 4
  {
    [Digit(x, 0), Digit(x, 1), Digit(x, 2), Digit(x, 3)]
  }

  /** Network byte order. */
  function Be16(x: U16): (b: seq<Byte>)
    ensures |b| == 2
  {
    [x / 256, x % 256]
  }

  function Be32(x: U32): (b: seq<Byte>)
    ensures |b| == 4
  {
    [Digit(x, 3), Digit(x, 2), Digit(x, 1), Digit(x, 0)]
  }

  /** Network byte order puts the most significant byte first, this host the least. */
  lemma ByteOrders(x: U16, y: U32)
    ensures 256 * (Be16(x)[0] as int) + Be16(x)[1] == x && 256 * (Store16(x)[1] as int) + Store16(x)[0] == x
    ensures var b := Be32(y);
      0x100_0000 * (b[0] as int) + 0x1_0000 * (b[1] as int) + 256 * (b[2] as int) + b[3] == y
  {
    FromDigits(y);
  }

  /** Swapping and storing on this host is network byte order, and the way back. */
  lemma StoreSwapped16(x: U16)
    ensures Store16(Swap16(x)) == Be16(x)
    ensures Swap16(Swap16(x)) == x
    ensures Load16(Store16(x), 0) == x
    ensures Swap16(Load16(Be16(x), 0)) == x
  {
  }

  lemma StoreSwapped32(x: U32)
    ensures Store32(Swap32(x)) == Be32(x)
    ensures Swap32(Load32(Be32(x), 0)) == x
  {
    Digits(Digit(x, 0), Digit(x, 1), Digit(x, 2), Digit(x, 3));
    FromDigits(x);
  }

  function Zeros(n: nat): (z: seq<Byte>)
    ensures |z| == n && forall i :: 0 <= i < n ==> z[i] == 0
  {
    seq(n, _ => 0)
  }

  /** `w` with the bytes from `at` on overwritten by `b`. */
  function Splice(w: seq<Byte>, at: nat, b: seq<Byte>): (r: seq<Byte>)
    requires at + |b| <= |w|
    ensures |r| == |w|
    ensures forall i :: 0 <= i < |w| ==> r[i] == if at <= i < at + |b| then b[i - at] else w[i]
  {
    w[..at] + b + w[at + |b|..]
  }

  lemma SliceOfSlice(p: seq<Byte>, lo: nat, hi: nat, i: nat, j: nat)
    requires lo <= hi <= |p| && i <= j <= hi - lo
    ensures p[lo..hi][i..j] == p[lo + i..lo + j]
  {
    var a, b := p[lo..hi][i..j], p[lo + i..lo + j];
    assert forall n :: 0 <= n < |a| ==> a[n] == b[n];
  }

  lemma Covered(w: seq<Byte>, b: seq<Byte>)
    requires |w| == |b|
    ensures Splice(w, 0, b) == b
  {
  }

  /** Fields written one after the other over the first bytes of a window. */
  lemma FieldStored(w: seq<Byte>, before: seq<Byte>, room: seq<Byte>, after: seq<Byte>, b: seq<Byte>)
    requires w == before + room + after && |b| <= |room|
    ensures Splice(w, |before|, b) == (before + b) + room[|b|..] + after
  {
  }

  lemma ZerosDrop(n: nat, k: nat)
    requires k <= n
    ensures Zeros(n)[k..] == Zeros(n - k)
  {
  }

  lemma Loaded16(b: seq<Byte>, i: nat, x: U16)
    requires i + 2 <= |b| && b[i..i + 2] == Be16(x)
    ensures Swap16(Load16(b, i)) == x
  {
    assert b[i] == b[i..i + 2][0] && b[i + 1] == b[i..i + 2][1];
    StoreSwapped16(x);
  }

  lemma Loaded32(b: seq<Byte>, i: nat, x: U32)
    requires i + 4 <= |b| && b[i..i + 4] == Be32(x)
    ensures Swap32(Load32(b, i)) == x
  {
    assert b[i] == b[i..i + 4][0] && b[i + 1] == b[i..i + 4][1];
    assert b[i + 2] == b[i..i + 4][2] && b[i + 3] == b[i..i + 4][3];
    StoreSwapped32(x);
  }
}
