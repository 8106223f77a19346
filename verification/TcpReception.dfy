/** Which bytes `tcp_in` takes for a segment and what it reads from them, as section 3.1 of RFC 793 lays them out. */
module TcpReception {
  import opened Words
  import opened Checksum
  import opened TcpTrace
  import opened TcpSegment

  /** Pseudo header and segment, summed up; the accumulator has 32 bits. */
  function Sum(b: seq<Byte>, src: Ip, dst: Ip): U32
  {
    Wrap(SumBe(src + dst + [0, 6] + Be16(|b| % 0x1_0000)) + SumBe(b))
  }

  /** There is a header of at least twenty bytes, all of it there, and the sum is that of an intact segment. */
  predicate Intact(b: seq<Byte>, src: Ip, dst: Ip)
  {
    |b| >= 20 && 20 <= 4 * (b[12] / 16) <= |b| && Canon(Sum(b, src, dst)) == 65535
  }

  /** Anything else is refused; options are skipped. */
  lemma DecodeExact(b: seq<Byte>, src: Ip, dst: Ip)
    ensures Decode(b, src, dst) ==
      if !Intact(b, src, dst) then None
      else
        Some(Parsed(WordAt(b, 0), WordAt(b, 1),
          Segment(Quad(b[4], b[5], b[6], b[7]), Quad(b[8], b[9], b[10], b[11]), b[13], b[4 * (b[12] / 16)..])))
  {
    hide TcpCheck, Canon, Sum, Swap16, Swap32, Load16, Load32, WordAt, Quad;
    if |b| >= 20 {
      FieldsRead(b);
      CheckRead(b, src, dst);
    }
  }

  lemma FieldsRead(b: seq<Byte>)
    requires |b| >= 20
    ensures Swap16(Load16(b, 0)) == WordAt(b, 0) && Swap16(Load16(b, 2)) == WordAt(b, 1)
    ensures Swap32(Load32(b, 4)) == Quad(b[4], b[5], b[6], b[7])
    ensures Swap32(Load32(b, 8)) == Quad(b[8], b[9], b[10], b[11])
  {
    hide Swap16, Swap32, Quad;
    SwapDigits(Load16(b, 0), b[1], b[0]);
    SwapDigits(Load16(b, 2), b[3], b[2]);
    SwapQuad(b[4], b[5], b[6], b[7]);
    SwapQuad(b[8], b[9], b[10], b[11]);
  }

  lemma CheckRead(b: seq<Byte>, src: Ip, dst: Ip)
    ensures TcpCheck(b, src, dst) == 0 <==> Canon(Sum(b, src, dst)) == 65535
  {
    hide Canon, SumBe, Wrap;
    LengthBytes(|b|);
    assert Pseudo(src, dst, |b|) == src + dst + [0, 6] + Be16(|b| % 0x1_0000);
  }

  lemma LengthBytes(len: nat)
    ensures Be16(len % 0x1_0000) == [len / 256 % 256, len % 256]
  {
    var q, r := len / 0x1_0000, len % 0x1_0000;
    assert len == 256 * (256 * q + r / 256) + r % 256;
    assert len / 256 == 256 * q + r / 256;
  }

  lemma SwapQuad(a: Byte, b: Byte, c: Byte, d: Byte)
    ensures Swap32(Quad(d, c, b, a)) == Quad(a, b, c, d)
  {
    hide Quad, Digit;
    Digits(d, c, b, a);
  }

  lemma DecodesIff(b: seq<Byte>, src: Ip, dst: Ip)
    ensures Decode(b, src, dst).Some? <==>
      |b| >= 20 && 20 <= 4 * (b[12] / 16) <= |b| && TcpCheck(b, src, dst) == 0
  {
    hide TcpCheck, Swap16, Swap32, Load16, Load32;
  }

  /** A changed word makes `tcp_in` drop the segment, except for 0x0000 against 0xffff where the header still has a
  possible length. */
  lemma DamageRefused(b: seq<Byte>, src: Ip, dst: Ip, i: nat, w: U16)
    requires Decode(b, src, dst).Some? && |b| <= 131062 && 2 * i + 2 <= |b|
    ensures |b| >= 20
    ensures var v, c := WordAt(b, i), Splice(b, 2 * i, Be16(w));
      Decode(c, src, dst).Some? <==>
        w == v || (((v == 0 && w == 0xffff) || (v == 0xffff && w == 0)) && 20 <= 4 * (c[12] / 16) <= |c|)
  {
    hide TcpCheck, Decode, Be16;
    DecodesIff(b, src, dst);
    var c := Splice(b, 2 * i, Be16(w));
    DecodesIff(c, src, dst);
    WordChangeDetected(b, src, dst, i, w);
    if w == WordAt(b, i) {
      SameWord(b, i);
    }
  }

  lemma SameWord(b: seq<Byte>, i: nat)
    requires 2 * i + 2 <= |b|
    ensures Splice(b, 2 * i, Be16(WordAt(b, i))) == b
  {
    assert Be16(WordAt(b, i)) == [b[2 * i], b[2 * i + 1]];
  }
}
