/** Numbers on the wire of a protocol buffer (nanopb/pb_encode.c, nanopb/pb_decode.c). */
module PbWire {
  import opened InternalKeys
  import opened Masking
  import opened Coding

  const TWO29: nat := 0x2000_0000
  const TWO31: int := 0x8000_0000
  const TWO63: int := 0x8000_0000_0000_0000

  /** What a signed 64-bit number is when cast to an unsigned one, and back. */
  function ToUnsigned(n: int): nat
    requires -TWO63 <= n < TWO63
  {
    if n < 0 then n + TWO64 else n
  }

  function ToSigned(v: nat): int {
    if v < TWO63 then v else v - TWO64
  }

  /** The low 32 bits as a signed number. */
  function ToSigned32(v: nat): int {
    var low := v % TWO32;
    if low < TWO31 then low else low - TWO32
  }

  /** Small absolute values become small numbers: 0, -1, 1, -2, ... */
  function ZigZag(n: int): nat {
    if n < 0 then -2 * n - 1 else 2 * n
  }

  function UnZigZag(v: nat): int {
    if v % 2 == 1 then -(v / 2) - 1 else v / 2
  }

  lemma SignedRoundTrips(n: int)
    requires -TWO63 <= n < TWO63
    ensures ToSigned(ToUnsigned(n)) == n
    ensures -TWO31 <= n < TWO31 ==> ToSigned32(ToUnsigned(n)) == n
    ensures ZigZag(n) < TWO64 && UnZigZag(ZigZag(n)) == n
  {
    assert TWO64 % TWO32 == 0;
    if n < 0 && -TWO31 <= n {
      assert (n + TWO64) % TWO32 == n + TWO32;
    }
  }

  /** A number moved up by `bitpos` bits, as far as a varint of 32 bits goes. */
  function Place(w: nat, bitpos: nat): nat {
    match bitpos
    case 7 => w * 0x80
    case 14 => w * 0x4000
    case 21 => w * 0x20_0000
    case 28 => w * 0x1000_0000
    case _ => 0
  }

  /** Where the next byte of a varint may go while bits are left, and what came before stays below it. */
  predicate Reached(bitpos: nat, result: nat) {
    (bitpos == 7 || bitpos == 14 || bitpos == 21 || bitpos == 28 || bitpos >= 35)
      && (bitpos <= 28 ==> result < Place(1, bitpos))
  }

  /** A varint that must fit 32 bits; beyond them only padding or a sign extension may follow. */
  function Varint32(s: Bytes): (r: Option<Parsed>)
    ensures r.Some? ==> |r.value.rest| < |s| && r.value.value < TWO32
  {
    if s == [] then None
    else if s[0] < 128 then Some(Parsed(s[0] as nat, s[1..]))
    else MoreBits(s[1..], 7, s[0] as nat - 128)
  }

  /** Whether a byte past the 32 bits carries nothing but padding or the sign. */
  predicate Padding(b: byte, bitpos: nat, result: nat) {
    b % 128 == 0 || (result >= TWO31 && b == if bitpos < 63 then 0xFF else 0x01)
  }

  /** The bytes after the first; at bit 28 only four bits of a byte are left, the others are cut off. */
  function MoreBits(s: Bytes, bitpos: nat, result: nat): (r: Option<Parsed>)
    requires result < TWO32 && Reached(bitpos, result)
    ensures r.Some? ==> |r.value.rest| < |s| && r.value.value < TWO32
    decreases |s|
  {
    if s == [] || (bitpos >= 32 && !Padding(s[0], bitpos, result)) then None
    else
      var low := s[0] as nat % (if bitpos == 28 then 16 else 128);
      var r := if bitpos >= 32 then result else result + Place(low, bitpos);
      if s[0] >= 128 then MoreBits(s[1..], bitpos + 7, r)
      else if bitpos + 7 == 35 && s[0] >= 16 then None
      else Some(Parsed(r, s[1..]))
  }

  /** What the encoder writes of a number below 2^32 reads back as it. */
  lemma Varint32Reads(v: nat, rest: Bytes)
    requires v < TWO32
    ensures Varint32(Varint(v) + rest) == Some(Parsed(v, rest))
  {
    hide Varint, MoreBits;
    VarintFront(v, rest);
    if v >= 128 {
      MoreBitsRead(v / 128, 7, v % 128, rest);
    }
  }

  lemma {:induction false} MoreBitsRead(w: nat, bitpos: nat, result: nat, rest: Bytes)
    requires Reached(bitpos, result) && bitpos <= 28 && result + Place(w, bitpos) < TWO32
    ensures MoreBits(Varint(w) + rest, bitpos, result) == Some(Parsed(result + Place(w, bitpos), rest))
    decreases 35 - bitpos
  {
    hide Place, Varint;
    PlaceSplits(w, bitpos, result);
    VarintFront(w, rest);
    var s := Varint(w) + rest;
    if w >= 128 {
      MoreBitsRead(w / 128, bitpos + 7, result + Place(w % 128, bitpos), rest);
    }
  }

  /** The first byte of a varint, and what follows it. */
  lemma VarintFront(w: nat, rest: Bytes)
    ensures var s := Varint(w) + rest;
            && s != [] && s[0] as nat == (if w < 128 then w else w % 128 + 128)
            && s[1..] == if w < 128 then rest else Varint(w / 128) + rest
  {
    if w >= 128 {
      BytesFront((w % 128 + 128) as byte, Varint(w / 128), rest);
    }
  }

  lemma BytesFront(b: byte, tail: Bytes, rest: Bytes)
    ensures var s := [b] + tail + rest; s != [] && s[0] == b && s[1..] == tail + rest
  {
  }

  lemma PlaceSplits(w: nat, bitpos: nat, result: nat)
    requires Reached(bitpos, result) && bitpos <= 28 && result + Place(w, bitpos) < TWO32
    ensures bitpos == 28 ==> w < 16
    ensures w >= 128 ==> Place(w, bitpos) == Place(w % 128, bitpos) + Place(w / 128, bitpos + 7)
    ensures w >= 128 ==> Reached(bitpos + 7, result + Place(w % 128, bitpos))
  {
    assert w == w / 128 * 128 + w % 128;
  }
}
