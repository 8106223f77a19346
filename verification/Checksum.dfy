/** The Internet checksum of RFC 1071, in the two forms the stack uses: `checksum16`
(host order, fold on every addition) and `tcp_checksum_add` with its final folding
(network order, 32-bit accumulator). Both are compared with one reference: the unbounded
sum of the 16-bit words, reduced to its canonical one's-complement representative. */
module Checksum {
  import opened Words

  /** Unbounded sum of the 16-bit words, most significant byte first; an odd byte is padded with zero. */
  function SumBe(b: seq<Byte>): nat
  {
    if |b| == 0 then 0
    else if |b| == 1 then Pair(b[0], 0)
    else Pair(b[0], b[1]) + SumBe(b[2..])
  }

  /** The same with the least significant byte first. */
  function SumLe(b: seq<Byte>): nat
  {
    if |b| == 0 then 0
    else if |b| == 1 then Pair(0, b[0])
    else Pair(b[1], b[0]) + SumLe(b[2..])
  }

  /** The representative of `n` modulo 65535 that folding arrives at: 0 only for 0. */
  function Canon(n: nat): U16
  {
    if n == 0 then 0 else 1 + (n - 1) % 65535
  }

  function Complement(x: U16): U16 { 65535 - x }

  /** One step of `(sum >> 16) + (sum & 0xffff)`. */
  function Fold(sum: nat): nat { sum / 0x1_0000 + sum % 0x1_0000 }

  // ---------- facts about the representative

  lemma CanonIsResidue(n: nat)
    ensures Canon(n) == 0 <==> n == 0
    ensures Canon(n) % 65535 == n % 65535
    ensures Canon(n) == n || n > 65535
  {
  }

  lemma CanonUnique(n: nat, c: nat)
    requires 0 < c <= 65535 && 0 < n && (n - c) % 65535 == 0
    ensures Canon(n) == c
  {
  }

  lemma CanonCongruent(n: nat, c: nat, k: int)
    requires 0 < c <= 65535 && 0 < n && n == c + 65535 * k
    ensures Canon(n) == c
  {
    assert (n - 1) % 65535 == c - 1;
  }

  lemma CanonAbsorbs(n: nat, k: nat)
    requires n > 0
    ensures Canon(n + 65535 * k) == Canon(n)
  {
    CanonUnique(n + 65535 * k, Canon(n));
  }

  lemma CanonOfFold(n: nat)
    ensures Canon(Fold(n)) == Canon(n)
    ensures Fold(n) <= n
  {
    var q := n / 0x1_0000;
    assert n == Fold(n) + 65535 * q;
    if Fold(n) > 0 {
      CanonAbsorbs(Fold(n), q);
    }
  }

  /** Adding a word to a canonical sum and folding once is canonical again. */
  lemma CanonStep(n: nat, w: U16)
    ensures var t := Canon(n) + w; (if t > 0xffff then Fold(t) else t) == Canon(n + w)
  {
    var t := Canon(n) + w;
    var r := if t > 0xffff then Fold(t) else t;
    if n + w > 0 {
      CanonIsResidue(n);
      assert (n + w - r) % 65535 == 0;
      CanonUnique(n + w, r);
    }
  }

  /** Any 32-bit accumulator is folded to 16 bits by two folds at most. */
  lemma TwoFoldsSuffice(sum: U32)
    ensures Fold(sum) <= 2 * 65535
    ensures Fold(Fold(sum)) == Canon(sum)
  {
    CanonOfFold(sum);
    CanonOfFold(Fold(sum));
    CanonIsResidue(Fold(Fold(sum)));
  }

  // ---------- sums over concatenations

  lemma {:induction false} SumBeAppend(a: seq<Byte>, b: seq<Byte>)
    requires |a| % 2 == 0
    ensures SumBe(a + b) == SumBe(a) + SumBe(b)
  {
    if a == [] {
      assert a + b == b;
    } else {
      assert (a + b)[2..] == a[2..] + b;
      SumBeAppend(a[2..], b);
    }
  }

  lemma {:induction false} SumLeAppend(a: seq<Byte>, b: seq<Byte>)
    requires |a| % 2 == 0
    ensures SumLe(a + b) == SumLe(a) + SumLe(b)
  {
    if a == [] {
      assert a + b == b;
    } else {
      assert (a + b)[2..] == a[2..] + b;
      SumLeAppend(a[2..], b);
    }
  }

  lemma {:induction false} SumBounds(b: seq<Byte>)
    ensures SumBe(b) <= 65535 * ((|b| + 1) / 2) && SumLe(b) <= 65535 * ((|b| + 1) / 2)
    ensures (SumBe(b) == 0) == (SumLe(b) == 0)
  {
    if |b| > 1 {
      SumBounds(b[2..]);
    }
  }

  // ---------- byte-order independence

  /** The bytes at odd positions, added up. */
  ghost function OddBytes(b: seq<Byte>): nat
  {
    if |b| < 2 then 0 else b[1] + OddBytes(b[2..])
  }

  /** Reading the words the other way round multiplies the sum by 256 modulo 65535. */
  lemma {:induction false} SumsCongruent(b: seq<Byte>)
    ensures 256 * SumLe(b) == SumBe(b) + 65535 * OddBytes(b)
  {
    if |b| > 1 {
      SumsCongruent(b[2..]);
    }
  }

  lemma SwapDigits(x: U16, hi: Byte, lo: Byte)
    requires x == Pair(hi, lo)
    ensures Swap16(x) == Pair(lo, hi)
  {
    assert x / 256 == hi;
  }

  lemma SwapComplement(x: U16)
    ensures Swap16(Complement(x)) == Complement(Swap16(x))
    ensures Swap16(Swap16(x)) == x
  {
    var hi, lo := x / 256, x % 256;
    SwapDigits(x, hi, lo);
    SwapDigits(Swap16(x), lo, hi);
    SwapDigits(Complement(x), 255 - hi, 255 - lo);
  }

  lemma CanonSwaps(b: seq<Byte>)
    ensures Canon(SumBe(b)) == Swap16(Canon(SumLe(b)))
  {
    SumBounds(b);
    SumsCongruent(b);
    var le, be := SumLe(b), SumBe(b);
    if be > 0 {
      var c: nat := Canon(le);
      var k := (le - 1) / 65535;
      assert le == c + 65535 * k;
      var hi, lo := c / 256, c % 256;
      SwapDigits(c, hi, lo);
      assert 256 * c == Swap16(c) + 65535 * (hi as int);
      CanonCongruent(be, Swap16(c), hi + 256 * k - OddBytes(b));
    }
  }

  /** Section 2(B) of RFC 1071: summing little-endian words and storing the result as it is
  puts the same two bytes on the wire as summing big-endian words and storing it swapped. */
  lemma ByteOrderIndependence(b: seq<Byte>)
    ensures Store16(Complement(Canon(SumLe(b)))) == Store16(Swap16(Complement(Canon(SumBe(b)))))
  {
    CanonSwaps(b);
    SwapComplement(Canon(SumLe(b)));
    SwapComplement(Complement(Canon(SumLe(b))));
  }

  /** So the host's sum, stored as it is, reads on the wire as the complement of the big-endian sum. */
  lemma OnTheWire(b: seq<Byte>)
    ensures Store16(Complement(Canon(SumLe(b)))) == Be16(Complement(Canon(SumBe(b))))
  {
    hide Canon, SumLe, SumBe, Swap16, Store16, Be16;
    ByteOrderIndependence(b);
    StoreSwapped16(Complement(Canon(SumBe(b))));
  }

  // ---------- one word changed, and verification

  function WordAt(b: seq<Byte>, i: nat): U16
    requires 2 * i + 2 <= |b|
  {
    Pair(b[2 * i], b[2 * i + 1])
  }

  lemma SumAroundWord(b: seq<Byte>, i: nat)
    requires 2 * i + 2 <= |b|
    ensures SumBe(b) == SumBe(b[..2 * i]) + WordAt(b, i) + SumBe(b[2 * i + 2..])
  {
    var rest := b[2 * i..];
    assert b == b[..2 * i] + rest;
    SumBeAppend(b[..2 * i], rest);
    assert rest[2..] == b[2 * i + 2..];
  }

  /** Replacing one aligned word by `Be16(w)` moves the sum by the difference of the two words. */
  lemma SumWithWord(b: seq<Byte>, i: nat, w: U16)
    requires 2 * i + 2 <= |b|
    ensures SumBe(Splice(b, 2 * i, Be16(w))) == SumBe(b) - WordAt(b, i) + w
  {
    var c := Splice(b, 2 * i, Be16(w));
    SumAroundWord(b, i);
    SumAroundWord(c, i);
    assert c[..2 * i] == b[..2 * i];
    assert c[2 * i + 2..] == b[2 * i + 2..];
  }

  /** Adding the complement of the sum to the sum always verifies. */
  lemma Verifies(n: nat)
    ensures Complement(Canon(n + Complement(Canon(n)))) == 0
  {
    CanonIsResidue(n);
    CanonUnique(n + Complement(Canon(n)), 65535);
  }

  /** Of two sums that differ in one word, both verify only if the words agree modulo 65535. */
  lemma BothVerify(rest: nat, v: U16, w: U16)
    requires Canon(rest + v) == 65535
    requires rest + w > 0
    ensures Canon(rest + w) == 65535 <==> v == w || (v == 0 && w == 65535) || (v == 65535 && w == 0)
  {
    var q := (rest + v - 1) / 65535;
    assert rest + v == 65535 + 65535 * q;
    var d: int := w - (v as int);
    if Canon(rest + w) == 65535 {
      var q' := (rest + w - 1) / 65535;
      assert rest + w == 65535 + 65535 * q';
      assert d == 65535 * (q' - q);
    }
    if d == 0 || d == 65535 || d == -65535 {
      CanonCongruent(rest + w, 65535, q + (if d == 0 then 0 else if d > 0 then 1 else -1));
    }
  }

  // ---------- the two loops

  /** src/utils.c `checksum16`: `len` words of memory in host order, folded on every addition. */
  method Checksum16(data: seq<Byte>, len: nat) returns (r: U16)
    requires 2 * len <= |data|
    ensures r == Complement(Canon(SumLe(data[..2 * len])))
  {
    var i: nat, sum: nat := 0, 0;
    while i < len
      invariant 0 <= i <= len
      invariant sum == Canon(SumLe(data[..2 * i]))
    {
      var word := Load16(data, 2 * i);
      assert data[..2 * (i + 1)] == data[..2 * i] + [data[2 * i], data[2 * i + 1]];
      SumLeAppend(data[..2 * i], [data[2 * i], data[2 * i + 1]]);
      assert SumLe([data[2 * i], data[2 * i + 1]]) == word;
      CanonStep(SumLe(data[..2 * i]), word);
      sum := sum + word;
      i := i + 1;
      if sum > 0xffff {
        sum := sum / 0x1_0000 + sum % 0x1_0000;
      }
    }
    r := 0xffff - sum;
  }

  /** src/tcp.c `tcp_checksum_add`: the accumulator wraps at 32 bits. */
  method ChecksumAdd(start: U32, data: seq<Byte>) returns (sum: U32)
    ensures sum == Wrap(start + SumBe(data))
  {
    sum := start;
    var rest := data;
    while |rest| > 1
      invariant Wrap(sum + SumBe(rest)) == Wrap(start + SumBe(data))
      decreases |rest|
    {
      WrapAdd(sum + Pair(rest[0], rest[1]), SumBe(rest[2..]));
      sum := Wrap(sum + Pair(rest[0], rest[1]));
      rest := rest[2..];
    }
    if |rest| > 0 {
      sum := Wrap(sum + Pair(rest[0], 0));
    }
  }

  /** The final loop of src/tcp.c `tcp_checksum`; `folds` counts its iterations. */
  method FoldDown(start: U32) returns (r: U16, folds: nat)
    ensures r == Complement(Canon(start))
    ensures folds <= 2
  {
    TwoFoldsSuffice(start);
    var sum: nat := start;
    folds := 0;
    while sum / 0x1_0000 != 0
      invariant folds == 0 ==> sum == start
      invariant folds == 1 ==> sum == Fold(start)
      invariant folds == 2 ==> sum == Fold(Fold(start))
      invariant folds <= 2
      decreases 2 - folds
    {
      sum := sum % 0x1_0000 + sum / 0x1_0000;
      folds := folds + 1;
    }
    CanonIsResidue(sum);
    CanonOfFold(start);
    CanonOfFold(Fold(start));
    r := 0xffff - sum;
  }

  /** The 32-bit accumulator is exact up to 65537 words: it never wraps. */
  lemma AccumulatorExact(b: seq<Byte>)
    requires (|b| + 1) / 2 <= 65537
    ensures SumBe(b) < 0x1_0000_0000 && Wrap(SumBe(b)) == SumBe(b)
  {
    SumBounds(b);
  }

  /** The bound is sharp: 65538 words of all ones overflow it, and the checksum is then wrong. */
  lemma {:induction false} AccumulatorOverflows()
    ensures exists b: seq<Byte> ::
      |b| == 2 * 65538 && Complement(Canon(Wrap(SumBe(b)))) != Complement(Canon(SumBe(b)))
  {
    hide SumBe, Ones;
    var b := Ones(65538);
    assert SumBe(b) == 65538 * 65535;
  }

  ghost function Ones(n: nat): (b: seq<Byte>)
    ensures |b| == 2 * n && SumBe(b) == 65535 * n
  {
    if n == 0 then [] else
      var b := [255, 255] + Ones(n - 1);
      assert b[2..] == Ones(n - 1);
      b
  }

  /** The two algorithms agree: for every message of at most 65537 words the accumulate-then-fold
  result is the byte-swapped fold-per-add result. */
  lemma AlgorithmsAgree(b: seq<Byte>)
    requires (|b| + 1) / 2 <= 65537
    ensures Complement(Canon(Wrap(SumBe(b)))) == Swap16(Complement(Canon(SumLe(b))))
  {
    AccumulatorExact(b);
    var le := Canon(SumLe(b));
    assert Canon(SumBe(b)) == Swap16(le) by { CanonSwaps(b); }
    SwapComplement(le);
  }
}
