/** Variable-length numbers and length-prefixed strings (util/coding.cc). */
module Coding {
  import opened InternalKeys
  import opened Masking

  const TWO64: nat := 0x1_0000_0000_0000_0000

  /** Seven bits a byte, the lowest first; the high bit says that more follow. */
  function Varint(v: nat): (b: Bytes)
    ensures |b| >= 1
    ensures v < 128 ==> |b| == 1
  {
    if v < 128 then [v as byte] else [(v % 128 + 128) as byte] + Varint(v / 128)
  }

  datatype Parsed = Parsed(value: nat, rest: Bytes)

  /** A number of at most `groups` bytes at the front of `s`. */
  function Groups(s: Bytes, groups: nat): (r: Option<Parsed>)
    ensures r.Some? ==> |r.value.rest| < |s|
    decreases groups
  {
    if groups == 0 || s == [] then None
    else if s[0] < 128 then Some(Parsed(s[0] as nat, s[1..]))
    else
      var r := Groups(s[1..], groups - 1);
      if r.None? then None else Some(Parsed(r.value.value * 128 + (s[0] as nat - 128), r.value.rest))
  }

  lemma {:induction false} GroupsOfVarint(v: nat, rest: Bytes, groups: nat)
    requires |Varint(v)| <= groups
    ensures Groups(Varint(v) + rest, groups) == Some(Parsed(v, rest))
    decreases v
  {
    var s := Varint(v) + rest;
    if v < 128 {
      assert s[1..] == rest;
    } else {
      assert s[1..] == Varint(v / 128) + rest;
      GroupsOfVarint(v / 128, rest, groups - 1);
    }
  }

  /** More bytes behind a number do not change it. */
  lemma {:induction false} GroupsFront(s: Bytes, n: nat, t: Bytes)
    requires Groups(s, n).Some?
    ensures Groups(s + t, n) == Some(Parsed(Groups(s, n).value.value, Groups(s, n).value.rest + t))
    decreases n
  {
    assert (s + t)[0] == s[0] && (s + t)[1..] == s[1..] + t;
    if s[0] >= 128 {
      GroupsFront(s[1..], n - 1, t);
    }
  }

  lemma VarintSize(v: nat)
    ensures v < TWO32 ==> |Varint(v)| <= 5
    ensures v < TWO64 ==> |Varint(v)| <= 10
  {
    var a, b := v / 128, v / 128 / 128;
    var c := b / 128;
    var d := c / 128;
    Longer(v);
    Longer(a);
    Longer(b);
    Longer(c);
    assert v < TWO32 ==> d < 128;
    assert v < TWO64 ==> d < 0x1_0000_0000_0;
    var e := d / 128;
    var f := e / 128;
    var g := f / 128;
    var h := g / 128;
    Longer(d);
    Longer(e);
    Longer(f);
    Longer(g);
    Longer(h);
  }

  lemma Longer(v: nat)
    ensures |Varint(v)| <= 1 + |Varint(v / 128)|
    ensures v < 128 ==> |Varint(v)| == 1
  {
  }

  function GetVarint32(s: Bytes): (r: Option<Parsed>)
    ensures r.Some? ==> |r.value.rest| < |s|
  {
    var r := Groups(s, 5);
    if r.None? then None else Some(Parsed(r.value.value % TWO32, r.value.rest))
  }

  function GetVarint64(s: Bytes): (r: Option<Parsed>)
    ensures r.Some? ==> |r.value.rest| < |s|
  {
    var r := Groups(s, 10);
    if r.None? then None else Some(Parsed(r.value.value % TWO64, r.value.rest))
  }

  lemma Varint32RoundTrip(v: nat, rest: Bytes)
    requires v < TWO32
    ensures GetVarint32(Varint(v) + rest) == Some(Parsed(v, rest))
  {
    hide Varint, Groups;
    VarintSize(v);
    GroupsOfVarint(v, rest, 5);
  }

  lemma Varint64RoundTrip(v: nat, rest: Bytes)
    requires v < TWO64
    ensures GetVarint64(Varint(v) + rest) == Some(Parsed(v, rest))
  {
    hide Varint, Groups;
    VarintSize(v);
    GroupsOfVarint(v, rest, 10);
  }

  /** The decoding loop, with the shift as a power of 128. */
  method DecodeVarint(s: Bytes, groups: nat) returns (r: Option<Parsed>)
    ensures r == Groups(s, groups)
  {
    var result, scale, p, n := 0, 1, s, groups;
    while n > 0 && |p| > 0
      invariant 0 <= n <= groups
      invariant Groups(s, groups) == Extend(Groups(p, n), scale, result)
      decreases n
    {
      var b := p[0] as nat;
      ghost var before := Groups(p, n);
      p := p[1..];
      n := n - 1;
      if b >= 128 {
        ExtendMore(Groups(p, n), scale, result, b - 128);
        result := result + (b - 128) * scale;
        scale := scale * 128;
      } else {
        result := result + b * scale;
        return Some(Parsed(result, p));
      }
    }
    return None;
  }

  /** A decoded number placed above the `result` of the groups before it. */
  function Extend(r: Option<Parsed>, scale: nat, result: nat): Option<Parsed> {
    if r.None? then None else Some(Parsed(result + r.value.value * scale, r.value.rest))
  }

  lemma ExtendMore(r: Option<Parsed>, scale: nat, result: nat, b: nat)
    ensures r.Some? ==> Extend(Some(Parsed(r.value.value * 128 + b, r.value.rest)), scale, result)
                        == Extend(r, scale * 128, result + b * scale)
  {
    if r.Some? {
      var v := r.value.value;
      assert (v * 128 + b) * scale == v * (scale * 128) + b * scale;
    }
  }

  // ---------- length-prefixed strings ----------

  datatype ParsedSlice = ParsedSlice(value: Bytes, rest: Bytes)

  function PutSlice(value: Bytes): Bytes {
    Varint(|value|) + value
  }

  function GetSlice(s: Bytes): (r: Option<ParsedSlice>)
    ensures r.Some? ==> |r.value.rest| < |s|
  {
    var n := GetVarint32(s);
    if n.None? || n.value.value > |n.value.rest| then None
    else Some(ParsedSlice(n.value.rest[..n.value.value], n.value.rest[n.value.value..]))
  }

  lemma SliceRoundTrip(value: Bytes, rest: Bytes)
    requires |value| < TWO32
    ensures GetSlice(PutSlice(value) + rest) == Some(ParsedSlice(value, rest))
  {
    hide Varint, GetVarint32;
    assert PutSlice(value) + rest == Varint(|value|) + (value + rest);
    Varint32RoundTrip(|value|, value + rest);
    assert (value + rest)[..|value|] == value && (value + rest)[|value|..] == rest;
  }

  lemma GetSliceAhead(s: Bytes, t: Bytes)
    requires GetSlice(s).Some?
    ensures GetSlice(s + t) == Some(ParsedSlice(GetSlice(s).value.value, GetSlice(s).value.rest + t))
  {
    hide Groups;
    GroupsFront(s, 5, t);
    var n := GetVarint32(s).value;
    assert (n.rest + t)[..n.value] == n.rest[..n.value] && (n.rest + t)[n.value..] == n.rest[n.value..] + t;
  }

  // ---------- arrays of fixed-width numbers ----------

  function FixedAll(rs: seq<nat>): (b: Bytes)
    ensures |b| == 4 * |rs|
  {
    if rs == [] then [] else FixedAll(rs[..|rs| - 1]) + Fixed32(rs[|rs| - 1])
  }

  lemma {:induction false} FixedAllAt(rs: seq<nat>, r: nat, more: Bytes)
    requires r < |rs| && rs[r] < TWO32
    ensures 4 * r + 4 <= |FixedAll(rs)|
    ensures DecodeFixed32((FixedAll(rs) + more)[4 * r..]) == rs[r]
    decreases |rs|
  {
    hide Fixed32, DecodeFixed32;
    var front, last := rs[..|rs| - 1], Fixed32(rs[|rs| - 1]);
    if r == |rs| - 1 {
      assert (FixedAll(rs) + more)[4 * r..] == last + more;
      FixedFront(rs[r], more);
    } else {
      FixedAllAt(front, r, last + more);
      assert FixedAll(rs) + more == FixedAll(front) + (last + more);
    }
  }

  lemma FixedFront(v: nat, more: Bytes)
    requires v < TWO32
    ensures DecodeFixed32(Fixed32(v) + more) == v
  {
    hide Fixed32;
    FixedRoundTrip(v);
    assert DecodeFixed32(Fixed32(v) + more) == DecodeFixed32(Fixed32(v));
  }

  /** Eight bytes, the lowest first. */
  function Fixed64(v: nat): (b: Bytes)
    ensures |b| == 8
  {
    Fixed32(v % TWO32) + Fixed32(v / TWO32)
  }

  function DecodeFixed64(b: Bytes): nat
    requires |b| >= 8
  {
    DecodeFixed32(b) + TWO32 * DecodeFixed32(b[4..])
  }

  lemma Fixed64Front(v: nat, more: Bytes)
    requires v < TWO64
    ensures DecodeFixed64(Fixed64(v) + more) == v
  {
    hide Fixed32, DecodeFixed32;
    var s := Fixed64(v) + more;
    assert s == Fixed32(v % TWO32) + (Fixed32(v / TWO32) + more);
    assert s[4..] == Fixed32(v / TWO32) + more;
    FixedFront(v % TWO32, Fixed32(v / TWO32) + more);
    FixedFront(v / TWO32, more);
  }
}
