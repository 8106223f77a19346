/** TCP segments on the wire: what `tcp_out` writes into the buffer and what `tcp_in` reads back. */
module TcpSegment {
  import opened Words
  import opened Checksum
  import opened TcpTrace
  import opened Buf

  const HDR_LEN := 20
  const PROTOCOL_TCP: Byte := 6
  const DATA_OFFSET: Byte := 0x50   // TCP_DATA_OFFSET(20)
  const WINDOW: U16 := 65535

  /** The pseudo header; the length is cut to 16 bits. */
  function Pseudo(src: Ip, dst: Ip, len: nat): (p: seq<Byte>)
    ensures |p| == 12
  {
    src + dst + [0, PROTOCOL_TCP, len / 256 % 256, len % 256]
  }

  function TcpSum(b: seq<Byte>, src: Ip, dst: Ip): nat { SumBe(Pseudo(src, dst, |b|)) + SumBe(b) }

  /** The value `tcp_checksum` computes: 0 for an intact segment. */
  function TcpCheck(b: seq<Byte>, src: Ip, dst: Ip): U16 { Complement(Canon(Wrap(TcpSum(b, src, dst)))) }

  /** src/tcp.c `tcp_checksum` */
  method Compute(b: seq<Byte>, src: Ip, dst: Ip) returns (r: U16)
    ensures r == TcpCheck(b, src, dst)
  {
    var pseudo := Pseudo(src, dst, |b|);
    var sum := ChecksumAdd(0, pseudo);
    sum := ChecksumAdd(sum, b);
    WrapAdd(SumBe(pseudo), SumBe(b));
    var folds;
    r, folds := FoldDown(sum);
  }

  /** The twenty bytes of a header without options. */
  function Header(srcPort: U16, dstPort: U16, x: Segment, check: U16): (h: seq<Byte>)
    ensures |h| == HDR_LEN
  {
    Be16(srcPort) + Be16(dstPort) + Be32(x.seqNo) + Be32(x.ackNo) + [DATA_OFFSET, x.flags]
      + Be16(WINDOW) + Be16(check) + [0, 0]
  }

  /** The bytes of a segment from `src` to `dst`. */
  function Encode(src: Ip, dst: Ip, srcPort: U16, dstPort: U16, x: Segment): (b: seq<Byte>)
    ensures |b| == HDR_LEN + |x.data|
  {
    var blank := Header(srcPort, dstPort, x, 0) + x.data;
    Header(srcPort, dstPort, x, TcpCheck(blank, src, dst)) + x.data
  }

  datatype Parsed = Parsed(srcPort: U16, dstPort: U16, seg: Segment)

  /** What `tcp_in` makes of received bytes: nothing if the length, offset or checksum test fails. */
  function Decode(b: seq<Byte>, src: Ip, dst: Ip): Option<Parsed>
  {
    if |b| < HDR_LEN then None
    else
      var hdrLen := b[12] / 16 * 4;
      if hdrLen < HDR_LEN || hdrLen > |b| then None
      else if TcpCheck(b, src, dst) != 0 then None
      else
        Some(Parsed(Swap16(Load16(b, 0)), Swap16(Load16(b, 2)),
          Segment(Swap32(Load32(b, 4)), Swap32(Load32(b, 8)), b[13], b[hdrLen..])))
  }

  /** The protocol number alone makes the sum positive. */
  lemma PseudoPositive(src: Ip, dst: Ip, len: nat)
    ensures 0 < SumBe(Pseudo(src, dst, len)) <= 6 * 65535
  {
    var p := Pseudo(src, dst, len);
    SumBounds(p);
    SumAroundWord(p, 4);
    assert WordAt(p, 4) == Pair(0, PROTOCOL_TCP) == 6;
  }

  /** The accumulator is exact for anything that fits a packet buffer. */
  lemma SumExact(b: seq<Byte>, src: Ip, dst: Ip)
    requires |b| <= 131062
    ensures Wrap(TcpSum(b, src, dst)) == TcpSum(b, src, dst) > 0
  {
    hide SumBe, Pseudo;
    PseudoPositive(src, dst, |b|);
    SumBounds(b);
  }

  lemma EncodedChecksum(src: Ip, dst: Ip, srcPort: U16, dstPort: U16, x: Segment)
    requires |x.data| <= 65535
    ensures TcpCheck(Encode(src, dst, srcPort, dstPort, x), src, dst) == 0
  {
    hide Header, Pseudo, Complement, SumBe, Canon, Splice, Be16, Wrap;
    var blank := Header(srcPort, dstPort, x, 0) + x.data;
    var check := TcpCheck(blank, src, dst);
    var b := Encode(src, dst, srcPort, dstPort, x);
    CheckStored(srcPort, dstPort, x, check);
    BlankWord(srcPort, dstPort, x);
    SumWithWord(blank, 8, check);
    SumExact(blank, src, dst);
    SumExact(b, src, dst);
    Verifies(TcpSum(blank, src, dst));
  }

  lemma BlankWord(srcPort: U16, dstPort: U16, x: Segment)
    ensures WordAt(Header(srcPort, dstPort, x, 0) + x.data, 8) == 0
  {
  }

  lemma HeaderFields(h: seq<Byte>, srcPort: U16, dstPort: U16, x: Segment, check: U16)
    requires h == Header(srcPort, dstPort, x, check)
    ensures h[0..2] == Be16(srcPort) && h[2..4] == Be16(dstPort)
    ensures h[4..8] == Be32(x.seqNo) && h[8..12] == Be32(x.ackNo)
    ensures h[12] == 0x50 && h[13] == x.flags && h[14..16] == [0xff, 0xff]
    ensures h[16..18] == Be16(check) && h[18..20] == [0, 0]
  {
  }

  /** Every segment `tcp_out` builds passes the receiver's three tests and decodes to the same fields and
  payload. */
  lemma RoundTrip(src: Ip, dst: Ip, srcPort: U16, dstPort: U16, x: Segment)
    requires |x.data| <= 65535
    ensures Decode(Encode(src, dst, srcPort, dstPort, x), src, dst) == Some(Parsed(srcPort, dstPort, x))
  {
    hide TcpCheck, Header, Swap16, Swap32, Load16, Load32, Be16, Be32;
    var b := Encode(src, dst, srcPort, dstPort, x);
    EncodedChecksum(src, dst, srcPort, dstPort, x);
    var h := b[..HDR_LEN];
    HeaderFields(h, srcPort, dstPort, x, TcpCheck(Header(srcPort, dstPort, x, 0) + x.data, src, dst));
    assert b[0..2] == h[0..2] && b[2..4] == h[2..4] && b[4..8] == h[4..8] && b[8..12] == h[8..12];
    Loaded16(b, 0, srcPort);
    Loaded16(b, 2, dstPort);
    Loaded32(b, 4, x.seqNo);
    Loaded32(b, 8, x.ackNo);
    assert b[12] == h[12] && b[13] == h[13] && b[HDR_LEN..] == x.data;
  }

  /** Changing any one aligned word of an intact segment is detected, except 0x0000 <-> 0xffff. */
  lemma WordChangeDetected(b: seq<Byte>, src: Ip, dst: Ip, i: nat, w: U16)
    requires |b| <= 131062 && 2 * i + 2 <= |b| && TcpCheck(b, src, dst) == 0
    ensures var v := WordAt(b, i);
      TcpCheck(Splice(b, 2 * i, Be16(w)), src, dst) == 0 <==> v == w || (v == 0 && w == 65535) || (v == 65535 && w == 0)
  {
    var c, v := Splice(b, 2 * i, Be16(w)), WordAt(b, i);
    SumWithWord(b, i, w);
    SumExact(b, src, dst);
    SumExact(c, src, dst);
    SumAroundWord(b, i);
    BothVerify(TcpSum(b, src, dst) - v, v, w);
  }

  /** Changing the last byte of a segment of odd length is always detected. */
  lemma TailChangeDetected(b: seq<Byte>, src: Ip, dst: Ip, x: Byte)
    requires |b| <= 131062 && |b| % 2 == 1 && TcpCheck(b, src, dst) == 0 && x != b[|b| - 1]
    ensures TcpCheck(b[|b| - 1 := x], src, dst) != 0
  {
    var n := |b| - 1;
    var c := b[n := x];
    SumBeAppend(b[..n], [b[n]]);
    SumBeAppend(b[..n], [x]);
    assert b == b[..n] + [b[n]] && c == b[..n] + [x];
    SumExact(b, src, dst);
    SumExact(c, src, dst);
    BothVerify(TcpSum(b, src, dst) - Pair(b[n], 0), Pair(b[n], 0), Pair(x, 0));
  }

  /** The building part of `tcp_out` (src/tcp.c:78-94), field by field in the buffer. It fails only when the
  payload does not fit the buffer. */
  method Build(buf: Packet, src: Ip, dst: Ip, srcPort: U16, dstPort: U16, x: Segment) returns (r: int)
    requires buf.Valid()
    modifies buf, buf.payload
    ensures buf.Valid()
    ensures |x.data| <= BUF_MAX_LEN / 2 - HDR_LEN ==> r == 0 && buf.Window() == Encode(src, dst, srcPort, dstPort, x)
    ensures |x.data| > BUF_MAX_LEN / 2 - HDR_LEN ==> r == -1
  {
    hide Splice, Header, Be16, Store16, Swap16, TcpCheck;
    r := buf.Init(|x.data|);
    if r < 0 {
      return -1;
    }
    Covered(buf.Window(), x.data);
    buf.Store(0, x.data);
    r := buf.AddHeader(HDR_LEN);
    if r < 0 {
      return -1;
    }
    WriteHeader(buf, src, dst, srcPort, dstPort, x);
  }

  /** The header in front of the payload, checksum included (src/tcp.c:85-94). */
  method WriteHeader(buf: Packet, src: Ip, dst: Ip, srcPort: U16, dstPort: U16, x: Segment)
    requires buf.Valid() && buf.len == HDR_LEN + |x.data| && buf.Window()[HDR_LEN..] == x.data
    modifies buf.payload
    ensures buf.Window() == Encode(src, dst, srcPort, dstPort, x)
  {
    hide Splice, Header, Be16, Store16, Swap16, TcpCheck, Pseudo;
    assert buf.Window() == [] + buf.Window()[..HDR_LEN] + x.data;
    FieldStored(buf.Window(), [], buf.Window()[..HDR_LEN], x.data, Zeros(HDR_LEN));
    buf.Store(0, Zeros(HDR_LEN));
    assert buf.Window() == [] + Zeros(HDR_LEN) + x.data;
    WriteFields(buf, srcPort, dstPort, x);
    var check := Compute(buf.Window(), src, dst);
    StoreSwapped16(check);
    buf.Store(16, Store16(Swap16(check)));
    CheckStored(srcPort, dstPort, x, check);
  }

  lemma CheckStored(srcPort: U16, dstPort: U16, x: Segment, check: U16)
    ensures Splice(Header(srcPort, dstPort, x, 0) + x.data, 16, Be16(check)) ==
        Header(srcPort, dstPort, x, check) + x.data
  {
  }

  /** One field, written behind those that are there already, into space that is still zero. */
  method StoreField(buf: Packet, at: nat, b: seq<Byte>, ghost done: seq<Byte>, ghost zeros: nat, ghost rest: seq<Byte>)
    requires buf.Valid() && at == |done| && |b| <= zeros && buf.Window() == done + Zeros(zeros) + rest
    modifies buf.payload
    ensures buf.Window() == (done + b) + Zeros(zeros - |b|) + rest
  {
    hide Zeros, Splice;
    ZerosDrop(zeros, |b|);
    FieldStored(buf.Window(), done, Zeros(zeros), rest, b);
    buf.Store(at, b);
  }

  /** The header fields, still without checksum, into zeroed space in front of the payload. */
  method WriteFields(buf: Packet, srcPort: U16, dstPort: U16, x: Segment)
    requires buf.Valid() && buf.Window() == [] + Zeros(HDR_LEN) + x.data
    modifies buf.payload
    ensures buf.Window() == Header(srcPort, dstPort, x, 0) + x.data
  {
    hide Header, Zeros, Splice, Swap16, Swap32, Store16, Store32, Be16, Be32;
    StoreSwapped16(srcPort);
    StoreSwapped16(dstPort);
    StoreSwapped32(x.seqNo);
    StoreSwapped32(x.ackNo);
    StoreSwapped16(WINDOW);
    ghost var done: seq<Byte> := [];
    StoreField(buf, 0, Store16(Swap16(srcPort)), done, 20, x.data);
    done := done + Be16(srcPort);
    StoreField(buf, 2, Store16(Swap16(dstPort)), done, 18, x.data);
    done := done + Be16(dstPort);
    StoreField(buf, 4, Store32(Swap32(x.seqNo)), done, 16, x.data);
    done := done + Be32(x.seqNo);
    StoreField(buf, 8, Store32(Swap32(x.ackNo)), done, 12, x.data);
    done := done + Be32(x.ackNo);
    StoreField(buf, 12, [DATA_OFFSET], done, 8, x.data);
    done := done + [DATA_OFFSET];
    StoreField(buf, 13, [x.flags], done, 7, x.data);
    done := done + [x.flags];
    StoreField(buf, 14, Store16(Swap16(WINDOW)), done, 6, x.data);
    done := done + Be16(WINDOW);
    HeaderIs(srcPort, dstPort, x);
  }

  lemma HeaderIs(srcPort: U16, dstPort: U16, x: Segment)
    ensures ([] + Be16(srcPort) + Be16(dstPort) + Be32(x.seqNo) + Be32(x.ackNo) + [DATA_OFFSET] + [x.flags] +
        Be16(WINDOW))
         + Zeros(4) == Header(srcPort, dstPort, x, 0)
  {
  }
}
