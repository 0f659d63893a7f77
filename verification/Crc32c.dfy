/** CRC32C: the byte-at-a-time definition and the four-stride form (util/crc32c.cc, section 12.1 of RFC 3720).

    One step of the reflected shift register is linear over GF(2).  Eight steps extend the register by a
    zero byte; the lookup tables of the code are values of powers of that operator. */
module Crc32c {
  import opened InternalKeys

  /** A 32-bit word as its bits, the lowest first. */
  type Word32 = w: seq<bool> | |w| == 32 witness [
    false, false, false, false, false, false, false, false,
    false, false, false, false, false, false, false, false,
    false, false, false, false, false, false, false, false,
    false, false, false, false, false, false, false, false
  ]

  /** Bit `i` of a number. */
  predicate BitOf(n: nat, i: nat) {
    if i == 0 then n % 2 == 1 else BitOf(n / 2, i - 1)
  }

  /** The reflected Castagnoli polynomial, 0x82f63b78. */
  const POLYNOMIAL: Word32 := [
    false, false, false, true, true, true, true, false,
    true, true, false, true, true, true, false, false,
    false, true, true, false, true, true, true, true,
    false, true, false, false, false, false, false, true
  ]
  const ONES: Word32 := [
    true, true, true, true, true, true, true, true,
    true, true, true, true, true, true, true, true,
    true, true, true, true, true, true, true, true,
    true, true, true, true, true, true, true, true
  ]
  const ZEROS: Word32 := [
    false, false, false, false, false, false, false, false,
    false, false, false, false, false, false, false, false,
    false, false, false, false, false, false, false, false,
    false, false, false, false, false, false, false, false
  ]

  /** Addition over GF(2). */
  function Xor(a: Word32, b: Word32): Word32 {
    seq(32, i requires 0 <= i < 32 => a[i] != b[i])
  }

  lemma XorLaws(a: Word32, b: Word32, c: Word32)
    ensures Xor(a, Xor(b, c)) == Xor(Xor(a, b), c)
    ensures Xor(a, b) == Xor(b, a)
    ensures Xor(Xor(a, b), b) == a
    ensures Xor(a, ZEROS) == a
  {
  }

  /** One step of the shift register. */
  function Bit(l: Word32): Word32 {
    seq(32, i requires 0 <= i < 32 => (i < 31 && l[i + 1]) != (l[0] && POLYNOMIAL[i]))
  }

  lemma BitLinear(x: Word32, y: Word32)
    ensures Bit(Xor(x, y)) == Xor(Bit(x), Bit(y))
  {
  }

  /** Extends the register by a zero byte. */
  function Zero1(l: Word32): Word32 {
    Bit(Bit(Bit(Bit(Bit(Bit(Bit(Bit(l))))))))
  }

  /** Extends the register by four zero bytes. */
  function Zero4(l: Word32): Word32 {
    Zero1(Zero1(Zero1(Zero1(l))))
  }

  /** Extends the register by sixteen zero bytes, one swath of four strides. */
  function Zero16(l: Word32): Word32 {
    Zero4(Zero4(Zero4(Zero4(l))))
  }

  lemma Zero1Linear(x: Word32, y: Word32)
    ensures Zero1(Xor(x, y)) == Xor(Zero1(x), Zero1(y))
  {
    hide Bit, Xor;
    BitLinear(x, y);
    var x1, y1 := Bit(x), Bit(y);
    BitLinear(x1, y1);
    var x2, y2 := Bit(x1), Bit(y1);
    BitLinear(x2, y2);
    var x3, y3 := Bit(x2), Bit(y2);
    BitLinear(x3, y3);
    var x4, y4 := Bit(x3), Bit(y3);
    BitLinear(x4, y4);
    var x5, y5 := Bit(x4), Bit(y4);
    BitLinear(x5, y5);
    var x6, y6 := Bit(x5), Bit(y5);
    BitLinear(x6, y6);
    BitLinear(Bit(x6), Bit(y6));
  }

  lemma Zero4Linear(x: Word32, y: Word32)
    ensures Zero4(Xor(x, y)) == Xor(Zero4(x), Zero4(y))
  {
    hide Zero1, Xor;
    Zero1Linear(x, y);
    var x1, y1 := Zero1(x), Zero1(y);
    Zero1Linear(x1, y1);
    var x2, y2 := Zero1(x1), Zero1(y1);
    Zero1Linear(x2, y2);
    Zero1Linear(Zero1(x2), Zero1(y2));
  }

  lemma Zero16Linear(x: Word32, y: Word32)
    ensures Zero16(Xor(x, y)) == Xor(Zero16(x), Zero16(y))
  {
    hide Zero4, Xor;
    Zero4Linear(x, y);
    var x1, y1 := Zero4(x), Zero4(y);
    Zero4Linear(x1, y1);
    var x2, y2 := Zero4(x1), Zero4(y1);
    Zero4Linear(x2, y2);
    Zero4Linear(Zero4(x2), Zero4(y2));
  }

  // ---------- byte at a time ----------

  /** A byte in the lowest place of a word. */
  function ByteWord(b: byte): Word32 {
    seq(32, i requires 0 <= i < 32 => i < 8 && BitOf(b as nat, i))
  }

  /** The lowest byte, and the word moved down or up by whole bytes. */
  function Low8(l: Word32): Word32 {
    seq(32, i requires 0 <= i < 32 => i < 8 && l[i])
  }

  function Down(l: Word32, bits: nat): Word32 {
    seq(32, i requires 0 <= i < 32 => i + bits < 32 && l[i + bits])
  }

  function Up(l: Word32, bits: nat): Word32 {
    seq(32, i requires 0 <= i < 32 => i >= bits && l[i - bits])
  }

  /** Entry of the byte extension table. */
  function ByteTable(c: Word32): Word32 {
    Zero1(c)
  }

  /** One byte into the register, through the table. */
  function Step1(l: Word32, b: byte): Word32 {
    Xor(ByteTable(Xor(Low8(l), ByteWord(b))), Down(l, 8))
  }

  /** One byte into the register, bit by bit. */
  function Feed(l: Word32, b: byte): Word32 {
    Zero1(Xor(l, ByteWord(b)))
  }

  /** The register after some bytes. */
  function Register(l: Word32, data: Bytes): Word32
    decreases |data|
  {
    if data == [] then l else Register(Feed(l, data[0]), data[1..])
  }

  /** The checksum of a stream, extended by more data. */
  function Extend(crc: Word32, data: Bytes): Word32 {
    Xor(Register(Xor(crc, ONES), data), ONES)
  }

  function Checksum(data: Bytes): Word32 {
    Extend(ZEROS, data)
  }

  lemma ChecksumMore(a: Bytes, b: Bytes)
    ensures Extend(Checksum(a), b) == Checksum(a + b)
  {
    hide Extend;
    ExtendAppend(ZEROS, a, b);
  }

  lemma {:induction false} RegisterAppend(l: Word32, a: Bytes, b: Bytes)
    ensures Register(l, a + b) == Register(Register(l, a), b)
    decreases |a|
  {
    hide Feed;
    if a == [] {
      assert a + b == b;
    } else {
      assert (a + b)[1..] == a[1..] + b;
      RegisterAppend(Feed(l, a[0]), a[1..], b);
    }
  }

  /** Extending twice is extending by the concatenation. */
  lemma ExtendAppend(crc: Word32, a: Bytes, b: Bytes)
    ensures Extend(Extend(crc, a), b) == Extend(crc, a + b)
  {
    hide Xor, Register;
    RegisterAppend(Xor(crc, ONES), a, b);
    XorLaws(Register(Xor(crc, ONES), a), ONES, ZEROS);
  }

  // ---------- the table step is the shift register ----------

  /** Only the lowest byte may be non-zero. */
  predicate IsByte(w: Word32) {
    forall i :: 8 <= i < 32 ==> !w[i]
  }

  lemma BitShifts(l: Word32)
    requires !l[0]
    ensures Bit(l) == Down(l, 1)
  {
  }

  lemma DownDown(l: Word32, a: nat, b: nat)
    ensures Down(Down(l, a), b) == Down(l, a + b)
  {
  }

  /** A register whose low byte is clear only shifts. */
  lemma ShiftHigh(l: Word32)
    requires forall i :: 0 <= i < 8 ==> !l[i]
    ensures Zero1(l) == Down(l, 8)
  {
    hide Bit;
    BitShifts(l);
    ShiftOnce(l, 1);
    ShiftOnce(l, 2);
    ShiftOnce(l, 3);
    ShiftOnce(l, 4);
    ShiftOnce(l, 5);
    ShiftOnce(l, 6);
    ShiftOnce(l, 7);
  }

  lemma ShiftOnce(l: Word32, k: nat)
    requires k < 8 && forall i :: 0 <= i < 8 ==> !l[i]
    ensures Bit(Down(l, k)) == Down(l, k + 1)
  {
    hide Bit;
    BitShifts(Down(l, k));
    DownDown(l, k, 1);
  }

  /** The word without its lowest byte. */
  function High(l: Word32): Word32 {
    seq(32, i requires 0 <= i < 32 => i >= 8 && l[i])
  }

  lemma Split(l: Word32, w: Word32)
    requires IsByte(w)
    ensures Xor(l, w) == Xor(Xor(Low8(l), w), High(l))
    ensures Down(High(l), 8) == Down(l, 8)
  {
  }

  /** One table lookup is eight steps of the shift register. */
  lemma StepIsFeed(l: Word32, b: byte)
    ensures Step1(l, b) == Feed(l, b)
  {
    hide Zero1, Xor, Down, Low8;
    Split(l, ByteWord(b));
    Zero1Linear(Xor(Low8(l), ByteWord(b)), High(l));
    ShiftHigh(High(l));
  }

  // ---------- words ----------

  /** Four bytes, the first one lowest. */
  function ReadUint32LE(p: Bytes): Word32
    requires |p| >= 4
  {
    Or(ByteWord(p[0]), Or(Up(ByteWord(p[1]), 8), Or(Up(ByteWord(p[2]), 16), Up(ByteWord(p[3]), 24))))
  }

  function Or(a: Word32, b: Word32): Word32 {
    seq(32, i requires 0 <= i < 32 => a[i] || b[i])
  }

  /** A byte placed higher comes down one byte by a zero-byte extension. */
  lemma ByteDown(w: Word32)
    requires IsByte(w)
    ensures Zero1(Up(w, 8)) == w && Zero1(Up(w, 16)) == Up(w, 8) && Zero1(Up(w, 24)) == Up(w, 16)
  {
    hide Zero1;
    ShiftHigh(Up(w, 8));
    ShiftHigh(Up(w, 16));
    ShiftHigh(Up(w, 24));
    assert Down(Up(w, 8), 8) == w;
    assert Down(Up(w, 16), 8) == Up(w, 8);
    assert Down(Up(w, 24), 8) == Up(w, 16);
  }

  lemma OrIsXor(a: Word32, b: Word32, c: Word32, d: Word32)
    requires IsByte(a) && IsByte(b) && IsByte(c) && IsByte(d)
    ensures Or(a, Or(Up(b, 8), Or(Up(c, 16), Up(d, 24)))) == Xor(a, Xor(Up(b, 8), Xor(Up(c, 16), Up(d, 24))))
  {
  }

  /** Three bytes above a register come in one after another. */
  lemma ThreeBytes(x: Word32, b: Word32, c: Word32, d: Word32)
    requires IsByte(b) && IsByte(c) && IsByte(d)
    ensures Zero4(Xor(x, Xor(Up(b, 8), Xor(Up(c, 16), Up(d, 24)))))
             == Zero1(Xor(Zero1(Xor(Zero1(Xor(Zero1(x), b)), c)), d))
  {
    hide Zero1, Xor, Up, IsByte;
    ByteDown(b);
    ByteDown(c);
    ByteDown(d);
    Zero1Linear(x, Xor(Up(b, 8), Xor(Up(c, 16), Up(d, 24))));
    Zero1Linear(Up(b, 8), Xor(Up(c, 16), Up(d, 24)));
    Zero1Linear(Up(c, 16), Up(d, 24));
    var x1 := Zero1(x);
    XorLaws(x1, b, Xor(Up(c, 8), Up(d, 16)));
    Zero1Linear(Xor(x1, b), Xor(Up(c, 8), Up(d, 16)));
    Zero1Linear(Up(c, 8), Up(d, 16));
    var x2 := Zero1(Xor(x1, b));
    XorLaws(x2, c, Up(d, 8));
    Zero1Linear(Xor(x2, c), Up(d, 8));
  }

  /** Four bytes one by one are one word at once. */
  lemma WordStep(l: Word32, p: Bytes)
    requires |p| == 4
    ensures Register(l, p) == Zero4(Xor(l, ReadUint32LE(p)))
  {
    hide Zero1, Zero4, Xor, Up, Register;
    var a, b, c, d := ByteWord(p[0]), ByteWord(p[1]), ByteWord(p[2]), ByteWord(p[3]);
    OrIsXor(a, b, c, d);
    XorLaws(l, a, Xor(Up(b, 8), Xor(Up(c, 16), Up(d, 24))));
    ThreeBytes(Xor(l, a), b, c, d);
    FourBytes(l, p);
  }

  lemma FourBytes(l: Word32, p: Bytes)
    requires |p| == 4
    ensures Register(l, p) == Feed(Feed(Feed(Feed(l, p[0]), p[1]), p[2]), p[3])
  {
    hide Feed;
    assert p == [p[0]] + ([p[1]] + ([p[2]] + [p[3]]));
    RegisterAppend(l, [p[0]], [p[1]] + ([p[2]] + [p[3]]));
    RegisterAppend(Feed(l, p[0]), [p[1]], [p[2]] + [p[3]]);
    RegisterAppend(Feed(Feed(l, p[0]), p[1]), [p[2]], [p[3]]);
    OneByte(l, p[0]);
    OneByte(Feed(l, p[0]), p[1]);
    OneByte(Feed(Feed(l, p[0]), p[1]), p[2]);
    OneByte(Feed(Feed(Feed(l, p[0]), p[1]), p[2]), p[3]);
  }

  lemma OneByte(l: Word32, b: byte)
    ensures Register(l, [b]) == Feed(l, b)
  {
    hide Feed;
    assert [b][1..] == [];
  }

  // ---------- four strides ----------

  /** Entries of the stride extension tables: a byte in each place, extended by a swath of zeros. */
  function StrideTable3(c: Word32): Word32 { Zero16(c) }
  function StrideTable2(c: Word32): Word32 { Zero16(Up(c, 8)) }
  function StrideTable1(c: Word32): Word32 { Zero16(Up(c, 16)) }
  function StrideTable0(c: Word32): Word32 { Zero16(Up(c, 24)) }

  /** One stride: its partial result extended by a swath, and the next word. */
  function Stride(crc: Word32, w: Word32): Word32 {
    Xor(w, Xor(StrideTable3(Low8(crc)),
           Xor(StrideTable2(Low8(Down(crc, 8))), Xor(StrideTable1(Low8(Down(crc, 16))), StrideTable0(Down(crc, 24))))))
  }

  lemma BytesOf(x: Word32)
    ensures x == Xor(Low8(x), Xor(Up(Low8(Down(x, 8)), 8), Xor(Up(Low8(Down(x, 16)), 16), Up(Down(x, 24), 24))))
  {
  }

  /** The four table lookups add up to the zero-swath extension. */
  lemma StrideIsZero16(crc: Word32, w: Word32)
    ensures Stride(crc, w) == Xor(w, Zero16(crc))
  {
    hide Zero16, Xor, Up, Down, Low8;
    var a, b, c, d := Low8(crc), Up(Low8(Down(crc, 8)), 8), Up(Low8(Down(crc, 16)), 16), Up(Down(crc, 24), 24);
    BytesOf(crc);
    Zero16Linear(a, Xor(b, Xor(c, d)));
    Zero16Linear(b, Xor(c, d));
    Zero16Linear(c, d);
  }

  /** The register that four partial results stand for. */
  function Combine(c0: Word32, c1: Word32, c2: Word32, c3: Word32): Word32 {
    Zero4(Xor(c3, Zero4(Xor(c2, Zero4(Xor(c1, Zero4(Xor(c0, ZEROS))))))))
  }

  /** Advancing the first stride by a word and rotating advances the combined register by that word. */
  lemma RotateStride(c0: Word32, c1: Word32, c2: Word32, c3: Word32, w: Word32)
    ensures Combine(c1, c2, c3, Stride(c0, w)) == Zero4(Xor(Combine(c0, c1, c2, c3), w))
  {
    hide Zero4, Xor, Stride;
    StrideIsZero16(c0, w);
    XorLaws(c0, ZEROS, ZEROS);
    XorLaws(c1, ZEROS, ZEROS);
    var z0 := Zero4(c0);
    // What c0 contributes travels through the strides unchanged, by linearity.
    Zero4Linear(c1, z0);
    var a1 := Zero4(c1);
    Carry(c2, a1, Zero4(z0));
    var a2 := Zero4(Xor(c2, a1));
    Carry(c3, a2, Zero4(Zero4(z0)));
    var a3 := Zero4(Xor(c3, a2));
    var z3 := Zero4(Zero4(Zero4(z0)));
    assert Combine(c0, c1, c2, c3) == Xor(a3, z3);
    XorLaws(Xor(a3, z3), w, ZEROS);
    XorLaws(w, a3, z3);
    XorLaws(a3, z3, ZEROS);
    XorLaws(w, z3, a3);
  }

  lemma Carry(c: Word32, a: Word32, z: Word32)
    ensures Zero4(Xor(c, Xor(a, z))) == Xor(Zero4(Xor(c, a)), Zero4(z))
  {
    hide Zero4, Xor;
    XorLaws(c, a, z);
    Zero4Linear(Xor(c, a), z);
  }

  /** The whole of `Extend` on a buffer whose first aligned byte is at `aligned`: single bytes up to there,
      four interleaved strides, words, and the last few bytes.  The result is the byte-at-a-time checksum. */
  method ExtendFast(crc: Word32, data: Bytes, aligned: nat) returns (r: Word32)
    requires aligned < 4
    ensures r == Extend(crc, data)
  {
    hide Step1, Feed, Xor;
    var start := Xor(crc, ONES);
    var l := start;
    var p := 0;
    if aligned <= |data| {
      while p != aligned
        invariant 0 <= p <= aligned && l == Register(start, data[..p])
      {
        NextByte(start, data, p);
        StepIsFeed(l, data[p]);
        l := Step1(l, data[p]);
        p := p + 1;
      }
    }
    if |data| - p >= 16 {
      l, p := Strides(start, l, data, p);
    }
    while p != |data|
      invariant 0 <= p <= |data| && l == Register(start, data[..p])
    {
      NextByte(start, data, p);
      StepIsFeed(l, data[p]);
      l := Step1(l, data[p]);
      p := p + 1;
    }
    assert data[..|data|] == data;
    r := Xor(l, ONES);
  }

  lemma NextByte(l: Word32, data: Bytes, p: nat)
    requires p < |data|
    ensures Register(l, data[..p + 1]) == Feed(Register(l, data[..p]), data[p])
  {
    hide Feed;
    assert data[..p + 1] == data[..p] + [data[p]];
    RegisterAppend(l, data[..p], [data[p]]);
    OneByte(Register(l, data[..p]), data[p]);
  }

  lemma NextWord(l: Word32, data: Bytes, p: nat)
    requires p + 4 <= |data|
    ensures Register(l, data[..p + 4]) == Zero4(Xor(Register(l, data[..p]), ReadUint32LE(data[p..])))
  {
    hide Feed, Zero4, Xor, ByteWord;
    assert data[..p + 4] == data[..p] + data[p..p + 4];
    RegisterAppend(l, data[..p], data[p..p + 4]);
    WordStep(Register(l, data[..p]), data[p..p + 4]);
    assert ReadUint32LE(data[p..]) == ReadUint32LE(data[p..p + 4]);
  }

  /** The interleaved part: at least one swath, then further swaths and words. */
  method Strides(ghost start: Word32, l0: Word32, data: Bytes, p0: nat) returns (l: Word32, p: nat)
    requires p0 + 16 <= |data| && l0 == Register(start, data[..p0])
    ensures p0 <= p <= |data| && l == Register(start, data[..p])
  {
    hide Stride, ReadUint32LE, Zero4, Xor, Register, Combine;
    p := p0;
    var crc0 := Xor(ReadUint32LE(data[p..]), l0);
    var crc1 := ReadUint32LE(data[p + 4..]);
    var crc2 := ReadUint32LE(data[p + 8..]);
    var crc3 := ReadUint32LE(data[p + 12..]);
    FirstSwath(start, l0, data, p, crc0, crc1, crc2, crc3);
    p := p + 16;
    while |data| - p >= 16
      invariant p0 <= p <= |data| && Combine(crc0, crc1, crc2, crc3) == Register(start, data[..p])
    {
      ghost var old0, old1, old2, old3 := crc0, crc1, crc2, crc3;
      crc0 := Stride(crc0, ReadUint32LE(data[p..]));
      StrideWord(start, data, p, old0, old1, old2, old3);
      crc1 := Stride(crc1, ReadUint32LE(data[p + 4..]));
      StrideWord(start, data, p + 4, old1, old2, old3, crc0);
      crc2 := Stride(crc2, ReadUint32LE(data[p + 8..]));
      StrideWord(start, data, p + 8, old2, old3, crc0, crc1);
      crc3 := Stride(crc3, ReadUint32LE(data[p + 12..]));
      StrideWord(start, data, p + 12, old3, crc0, crc1, crc2);
      p := p + 16;
    }
    while |data| - p >= 4
      invariant p0 <= p <= |data| && Combine(crc0, crc1, crc2, crc3) == Register(start, data[..p])
    {
      StrideWord(start, data, p, crc0, crc1, crc2, crc3);
      crc0 := Stride(crc0, ReadUint32LE(data[p..]));
      crc0, crc1, crc2, crc3 := crc1, crc2, crc3, crc0;
      p := p + 4;
    }
    l := CombineStrides(crc0, crc1, crc2, crc3);
  }

  /** Folds the four partial results into one register. */
  method CombineStrides(c0: Word32, c1: Word32, c2: Word32, c3: Word32) returns (l: Word32)
    ensures l == Combine(c0, c1, c2, c3)
  {
    hide Zero4, Xor;
    l := ZEROS;
    l := Step4W(l, c0);
    l := Step4W(l, c1);
    l := Step4W(l, c2);
    l := Step4W(l, c3);
  }

  /** Four bytes already loaded into a word, through the byte table. */
  method Step4W(l: Word32, w0: Word32) returns (r: Word32)
    ensures r == Zero4(Xor(w0, l))
  {
    hide Zero1, Xor, Down, Low8;
    var w := Xor(w0, l);
    ghost var x := w;
    var i := 0;
    while i < 4
      invariant 0 <= i <= 4 && ZeroBytes(w, 4 - i) == ZeroBytes(x, 4)
    {
      ByteShift(w);
      w := Xor(Down(w, 8), ByteTable(Low8(w)));
      i := i + 1;
    }
    FourZeros(x);
    r := w;
  }

  /** Extends the register by `n` zero bytes. */
  function ZeroBytes(l: Word32, n: nat): Word32
    decreases n
  {
    if n == 0 then l else ZeroBytes(Zero1(l), n - 1)
  }

  lemma FourZeros(l: Word32)
    ensures ZeroBytes(l, 4) == Zero4(l)
  {
    hide Zero1;
    assert ZeroBytes(l, 4) == ZeroBytes(Zero1(Zero1(l)), 2);
  }

  /** A table lookup on the low byte extends the register by a zero byte. */
  lemma ByteShift(w: Word32)
    ensures Xor(Down(w, 8), ByteTable(Low8(w))) == Zero1(w)
  {
    hide Zero1, Xor, Down, Low8;
    assert IsByte(ZEROS);
    Split(w, ZEROS);
    XorLaws(w, ZEROS, ZEROS);
    XorLaws(Low8(w), ZEROS, ZEROS);
    Zero1Linear(Low8(w), High(w));
    ShiftHigh(High(w));
    XorLaws(Down(w, 8), ByteTable(Low8(w)), ZEROS);
  }

  lemma StrideWord(start: Word32, data: Bytes, p: nat, c0: Word32, c1: Word32, c2: Word32, c3: Word32)
    requires p + 4 <= |data| && Combine(c0, c1, c2, c3) == Register(start, data[..p])
    ensures Combine(c1, c2, c3, Stride(c0, ReadUint32LE(data[p..]))) == Register(start, data[..p + 4])
  {
    hide Stride, ReadUint32LE, Zero4, Xor, Combine, Register;
    RotateStride(c0, c1, c2, c3, ReadUint32LE(data[p..]));
    NextWord(start, data, p);
  }

  lemma FirstSwath(start: Word32, l0: Word32, data: Bytes, p: nat, c0: Word32, c1: Word32, c2: Word32, c3: Word32)
    requires p + 16 <= |data| && l0 == Register(start, data[..p])
    requires c0 == Xor(ReadUint32LE(data[p..]), l0) && c1 == ReadUint32LE(data[p + 4..])
    requires c2 == ReadUint32LE(data[p + 8..]) && c3 == ReadUint32LE(data[p + 12..])
    ensures Combine(c0, c1, c2, c3) == Register(start, data[..p + 16])
  {
    hide ReadUint32LE, Zero4, Xor, Register;
    NextWord(start, data, p);
    XorLaws(l0, ReadUint32LE(data[p..]), ZEROS);
    XorLaws(c0, ZEROS, ZEROS);
    NextWord(start, data, p + 4);
    XorLaws(Register(start, data[..p + 4]), c1, ZEROS);
    NextWord(start, data, p + 8);
    XorLaws(Register(start, data[..p + 8]), c2, ZEROS);
    NextWord(start, data, p + 12);
    XorLaws(Register(start, data[..p + 12]), c3, ZEROS);
  }
}
