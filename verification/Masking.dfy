/** Stored checksums: masking and little-endian fixed-width numbers (util/crc32c.h, util/coding.h). */
module Masking {
  import opened InternalKeys
  import opened Crc32c

  const TWO32: nat := 0x1_0000_0000
  const MASK_DELTA: nat := 0xa282_ead8

  /** Two to the power `n`. */
  function Pow2(n: nat): (p: nat)
    ensures p > 0
  {
    if n == 0 then 1 else 2 * Pow2(n - 1)
  }

  /** The number whose binary digits, lowest first, are `w`. */
  function Num(w: seq<bool>): nat {
    if w == [] then 0 else (if w[0] then 1 else 0) + 2 * Num(w[1..])
  }

  /** The `n` lowest binary digits of `v`. */
  function Digits(v: nat, n: nat): (w: seq<bool>)
    ensures |w| == n
    decreases n
  {
    if n == 0 then [] else [v % 2 == 1] + Digits(v / 2, n - 1)
  }

  lemma {:induction false} DigitsOfNum(w: seq<bool>)
    ensures Num(w) < Pow2(|w|) && Digits(Num(w), |w|) == w
    decreases |w|
  {
    if w != [] {
      DigitsOfNum(w[1..]);
      assert Num(w) / 2 == Num(w[1..]);
      assert w == [w[0]] + w[1..];
    }
  }

  lemma Pow32()
    ensures Pow2(32) == TWO32
  {
    assert Pow2(8) == 256;
    assert Pow2(16) == 0x1_0000;
    assert Pow2(24) == 0x100_0000;
  }

  function RotateRight(w: Word32, bits: nat): Word32
    requires bits <= 32
  {
    w[bits..] + w[..bits]
  }

  lemma {:induction false} NumOfParts(a: seq<bool>, b: seq<bool>)
    ensures Num(a + b) == Num(a) + Pow2(|a|) * Num(b)
  {
    if a == [] {
      assert [] + b == b;
    } else {
      NumOfParts(a[1..], b);
      assert (a + b)[1..] == a[1..] + b;
      assert 2 * (Pow2(|a| - 1) * Num(b)) == Pow2(|a|) * Num(b);
    }
  }

  lemma {:induction false} NumOfDigits(v: nat, n: nat)
    requires v < Pow2(n)
    ensures Num(Digits(v, n)) == v
    decreases n
  {
    if n > 0 {
      NumOfDigits(v / 2, n - 1);
      assert Digits(v, n)[1..] == Digits(v / 2, n - 1);
    }
  }

  /** Rotation and a constant, so that checksums of data holding checksums stay strong. */
  function Mask(crc: Word32): nat {
    (Num(RotateRight(crc, 15)) + MASK_DELTA) % TWO32
  }

  function Unmask(masked: nat): Word32 {
    RotateRight(Digits((masked - MASK_DELTA) % TWO32, 32), 17)
  }

  lemma UnmaskMask(crc: Word32)
    ensures Mask(crc) < TWO32 && Unmask(Mask(crc)) == crc
  {
    hide Num, Digits, Pow2;
    var w := RotateRight(crc, 15);
    DigitsOfNum(w);
    Pow32();
    SubtractDelta(Num(w));
    assert RotateRight(w, 17) == crc;
  }

  lemma SubtractDelta(n: nat)
    requires n < TWO32
    ensures ((n + MASK_DELTA) % TWO32 - MASK_DELTA) % TWO32 == n
  {
    if n + MASK_DELTA >= TWO32 {
      assert (n + MASK_DELTA) % TWO32 == n + MASK_DELTA - TWO32;
    }
  }

  lemma MaskUnmask(m: nat)
    requires m < TWO32
    ensures Mask(Unmask(m)) == m
  {
    hide Num, Digits, Pow2;
    var n := (m - MASK_DELTA) % TWO32;
    var w := Digits(n, 32);
    assert RotateRight(RotateRight(w, 17), 15) == w;
    Pow32();
    NumOfDigits(n, 32);
    AddDelta(m);
  }

  lemma AddDelta(m: nat)
    requires m < TWO32
    ensures 0 <= (m - MASK_DELTA) % TWO32 < TWO32 && ((m - MASK_DELTA) % TWO32 + MASK_DELTA) % TWO32 == m
  {
    if m < MASK_DELTA {
      assert (m - MASK_DELTA) % TWO32 == m - MASK_DELTA + TWO32;
    }
  }

  /** Four bytes, the lowest first. */
  function Fixed32(v: nat): (b: Bytes)
    ensures |b| == 4
  {
    [(v % 256) as byte, (v / 0x100 % 256) as byte, (v / 0x1_0000 % 256) as byte, (v / 0x100_0000 % 256) as byte]
  }

  function DecodeFixed32(b: Bytes): nat
    requires |b| >= 4
  {
    b[0] as nat + 0x100 * b[1] as nat + 0x1_0000 * b[2] as nat + 0x100_0000 * b[3] as nat
  }

  lemma FixedRoundTrip(v: nat)
    requires v < TWO32
    ensures DecodeFixed32(Fixed32(v)) == v
    ensures var b := Fixed32(v);
            v == b[0] as nat + 256 * (b[1] as nat + 256 * (b[2] as nat + 256 * b[3] as nat))
  {
    var a := v / 0x100;
    var b := a / 0x100;
    assert v / 0x1_0000 == b && v / 0x100_0000 == b / 0x100;
    assert v == 0x100 * a + v % 256 && a == 0x100 * b + a % 256 && b == 0x100 * (b / 0x100) + b % 256;
    assert b / 0x100 < 256;
  }

  lemma FixedBack(b: Bytes)
    requires |b| >= 4
    ensures DecodeFixed32(b) < TWO32 && Fixed32(DecodeFixed32(b)) == b[..4]
  {
    var v := DecodeFixed32(b);
    var a := b[1] as nat + 256 * (b[2] as nat + 256 * b[3] as nat);
    assert v == b[0] as nat + 256 * a;
    assert v % 256 == b[0] as nat && v / 256 == a;
    assert a / 256 == b[2] as nat + 256 * b[3] as nat && v / 0x1_0000 == a / 256;
    assert v / 0x100_0000 == b[3] as nat;
  }
}
