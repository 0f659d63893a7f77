/** Bloom filters and the filter block (util/bloom.cc, table/filter_block.cc).  The hash is any function. */
module Filters {
  import opened InternalKeys
  import opened Crc32c
  import opened Masking
  import opened Coding

  // ---------- bits of a byte ----------

  function SetBit(b: nat, i: nat): nat {
    if BitOf(b, i) then b else b + Pow2(i)
  }

  lemma {:induction false} SetBitSets(b: nat, i: nat, j: nat)
    ensures BitOf(SetBit(b, i), j) <==> j == i || BitOf(b, j)
    decreases i
  {
    if i == 0 {
      if !BitOf(b, 0) {
        assert (b + 1) / 2 == b / 2;
      }
    } else {
      if j > 0 {
        SetBitSets(b / 2, i - 1, j - 1);
      }
      if !BitOf(b, i) {
        assert (b + Pow2(i)) / 2 == b / 2 + Pow2(i - 1) && (b + Pow2(i)) % 2 == b % 2;
      }
    }
  }

  lemma {:induction false} NoBits(i: nat)
    ensures !BitOf(0, i)
  {
    if i > 0 {
      NoBits(i - 1);
    }
  }

  lemma {:induction false} SetBitBounded(b: nat, i: nat, n: nat)
    requires b < Pow2(n) && i < n
    ensures SetBit(b, i) < Pow2(n)
    decreases i
  {
    var half := Pow2(n - 1);
    assert Pow2(n) == 2 * half && b / 2 < half;
    if i > 0 {
      SetBitBounded(b / 2, i - 1, n - 1);
      SetBitHalf(b, i);
    } else if b % 2 == 0 {
      assert b < 2 * half - 1;
    }
  }

  lemma SetBitHalf(b: nat, i: nat)
    requires i > 0
    ensures SetBit(b, i) == 2 * SetBit(b / 2, i - 1) + b % 2
  {
    assert Pow2(i) == 2 * Pow2(i - 1);
  }

  function SetByte(b: byte, i: nat): byte
    requires i < 8
  {
    Eight();
    SetBitBounded(b as nat, i, 8);
    SetBit(b as nat, i) as byte
  }

  lemma Eight()
    ensures Pow2(8) == 256
  {
    assert Pow2(4) == 16;
  }

  // ---------- the filter of one list of keys ----------

  /** Bit `p` of a byte array. */
  predicate Marked(bits: Bytes, p: nat)
    requires p < 8 * |bits|
  {
    BitOf(bits[p / 8] as nat, p % 8)
  }

  function Mark(bits: Bytes, p: nat): (r: Bytes)
    requires p < 8 * |bits|
    ensures |r| == |bits|
  {
    bits[p / 8 := SetByte(bits[p / 8], p % 8)]
  }

  lemma MarkMarks(bits: Bytes, p: nat, q: nat)
    requires p < 8 * |bits| && q < 8 * |bits|
    ensures Marked(Mark(bits, p), q) <==> q == p || Marked(bits, q)
  {
    hide BitOf, SetBit;
    SetBitSets(bits[p / 8] as nat, p % 8, q % 8);
  }

  /** Rotation of a 32-bit number to the right by 17. */
  function Rotate17(h: nat): nat {
    (h / 0x2_0000 + h * 0x8000) % TWO32
  }

  lemma RotatesBy17(h: nat)
    requires h < TWO32
    ensures Rotate17(h) == Num(RotateRight(Digits(h, 32), 17))
  {
    hide Num, Digits, Pow2;
    Pow32();
    NumOfDigits(h, 32);
    var w := Digits(h, 32);
    var low, high := w[..17], w[17..];
    assert w == low + high;
    NumOfParts(low, high);
    NumOfParts(high, low);
    DigitsOfNum(low);
    DigitsOfNum(high);
    Powers();
    HalvesSwap(h, Num(low), Num(high));
  }

  lemma Powers()
    ensures Pow2(17) == 0x2_0000 && Pow2(15) == 0x8000
  {
    assert Pow2(8) == 256;
    assert Pow2(12) == 4096;
    assert Pow2(15) == 0x8000;
  }

  lemma HalvesSwap(h: nat, low: nat, high: nat)
    requires h == low + 0x2_0000 * high && low < 0x2_0000 && high < 0x8000
    ensures Rotate17(h) == high + 0x8000 * low
  {
    assert h / 0x2_0000 == high;
    assert h * 0x8000 == low * 0x8000 + TWO32 * high;
  }

  /** The `j`-th probe of a key with hash `h`. */
  function Probe(h: nat, delta: nat, j: nat): nat
    decreases j
  {
    if j == 0 then h else Probe((h + delta) % TWO32, delta, j - 1)
  }

  lemma {:induction false} ProbeLast(h: nat, delta: nat, j: nat)
    ensures Probe(h, delta, j + 1) == (Probe(h, delta, j) + delta) % TWO32
    decreases j
  {
    if j > 0 {
      ProbeLast((h + delta) % TWO32, delta, j - 1);
    }
  }

  /** All probes of a hash are marked. */
  predicate AllMarked(bits: Bytes, h: nat, k: nat) {
    |bits| > 0 && forall j :: 0 <= j < k ==> Marked(bits, Probe(h, Rotate17(h), j) % (8 * |bits|))
  }

  /** Position `q` is one of the `k` probes of a hash in `n` bits. */
  ghost predicate Probed(h: nat, k: nat, n: nat, q: nat) {
    n > 0 && exists j :: 0 <= j < k && q == Probe(h, Rotate17(h), j) % n
  }

  /** The marked bits are those that the hashes probe, and no others. */
  ghost predicate MarksOf(bits: Bytes, hashes: seq<nat>, k: nat) {
    |bits| > 0 && forall q: nat :: q < 8 * |bits| ==>
      (Marked(bits, q) <==> exists i :: 0 <= i < |hashes| && Probed(hashes[i], k, 8 * |bits|, q))
  }

  lemma MarksAll(bits: Bytes, hashes: seq<nat>, k: nat, i: nat)
    requires MarksOf(bits, hashes, k) && i < |hashes|
    ensures AllMarked(bits, hashes[i], k)
  {
    hide Marked, Probe, Rotate17;
    forall j | 0 <= j < k ensures Marked(bits, Probe(hashes[i], Rotate17(hashes[i]), j) % (8 * |bits|)) {
      assert Probed(hashes[i], k, 8 * |bits|, Probe(hashes[i], Rotate17(hashes[i]), j) % (8 * |bits|));
    }
  }

  lemma NothingMarked(bits: Bytes, k: nat)
    requires |bits| > 0 && forall i :: 0 <= i < |bits| ==> bits[i] == 0
    ensures MarksOf(bits, [], k)
  {
    forall q: nat | q < 8 * |bits| ensures !Marked(bits, q) {
      NoBits(q % 8);
    }
  }

  lemma MarksMore(bits: Bytes, hashes: seq<nat>, k: nat, h: nat, more: Bytes)
    requires MarksOf(bits, hashes, k) && |more| == |bits|
    requires forall q: nat :: q < 8 * |bits| ==> (Marked(more, q) <==> Marked(bits, q) || Probed(h, k, 8 * |bits|, q))
    ensures MarksOf(more, hashes + [h], k)
  {
    hide Marked, Probed;
    var all := hashes + [h];
    forall q: nat | q < 8 * |bits|
      ensures Marked(more, q) <==> exists i :: 0 <= i < |all| && Probed(all[i], k, 8 * |bits|, q)
    {
      if Marked(more, q) {
        if Probed(h, k, 8 * |bits|, q) {
          assert all[|hashes|] == h;
        } else {
          var i :| 0 <= i < |hashes| && Probed(hashes[i], k, 8 * |bits|, q);
          assert all[i] == hashes[i];
        }
      }
      if i :| 0 <= i < |all| && Probed(all[i], k, 8 * |bits|, q) {
        assert i < |hashes| ==> all[i] == hashes[i];
      }
    }
  }

  /** Whether a filter may hold a key: the number of probes is its last byte, and more than 30 means always. */
  method KeyMayMatch(h: nat, filter: Bytes) returns (b: bool)
    requires h < TWO32
    ensures b <==> MayMatch(h, filter)
  {
    hide Marked, Probe;
    var len := |filter|;
    if len < 2 {
      return false;
    }
    var bits := filter[..len - 1];
    var k := filter[len - 1] as nat;
    if k > 30 {
      return true;
    }
    var x, delta, j := h, Rotate17(h), 0;
    assert Probe(h, delta, 0) == h by { ProbeZero(h, delta); }
    while j < k
      invariant 0 <= j <= k && x == Probe(h, delta, j)
      invariant forall i :: 0 <= i < j ==> Marked(bits, Probe(h, delta, i) % (8 * |bits|))
    {
      if !Marked(bits, x % (8 * |bits|)) {
        return false;
      }
      ProbeLast(h, delta, j);
      x := (x + delta) % TWO32;
      j := j + 1;
    }
    return true;
  }

  predicate MayMatch(h: nat, filter: Bytes) {
    && |filter| >= 2
    && (filter[|filter| - 1] > 30 || AllMarked(filter[..|filter| - 1], h, filter[|filter| - 1] as nat))
  }

  lemma ProbeZero(h: nat, delta: nat)
    ensures Probe(h, delta, 0) == h
  {
  }

  /** Marks the probes of one key. */
  method MarkKey(bits: Bytes, h: nat, k: nat) returns (r: Bytes)
    requires |bits| > 0 && h < TWO32
    ensures |r| == |bits|
    ensures forall q: nat :: q < 8 * |bits| ==> (Marked(r, q) <==> Marked(bits, q) || Probed(h, k, 8 * |bits|, q))
  {
    hide Marked, Probe, Mark, Rotate17;
    r := bits;
    var x, delta, j := h, Rotate17(h), 0;
    ProbeZero(h, delta);
    while j < k
      invariant 0 <= j <= k && x == Probe(h, delta, j) && |r| == |bits|
      invariant forall q: nat :: q < 8 * |bits| ==> (Marked(r, q) <==> Marked(bits, q) || Probed(h, j, 8 * |bits|, q))
    {
      var p := x % (8 * |r|);
      forall q: nat | q < 8 * |r|
        ensures Marked(Mark(r, p), q) <==> q == p || Marked(r, q)
        ensures Probed(h, j + 1, 8 * |r|, q) <==> q == p || Probed(h, j, 8 * |r|, q)
      {
        MarkMarks(r, p, q);
        OneMoreProbe(h, j, 8 * |r|, q);
      }
      r := Mark(r, p);
      ProbeLast(h, delta, j);
      x := (x + delta) % TWO32;
      j := j + 1;
    }
  }

  lemma OneMoreProbe(h: nat, j: nat, n: nat, q: nat)
    requires n > 0
    ensures Probed(h, j + 1, n, q) <==> q == Probe(h, Rotate17(h), j) % n || Probed(h, j, n, q)
  {
    hide Probe, Rotate17;
  }

  /** The filter of some hashes: as many bits as they ask for, but at least 64, in whole bytes, of which those are
      marked that they probe; and the number of probes. */
  ghost predicate IsBloom(hashes: seq<nat>, bitsPerKey: nat, k: nat, filter: Bytes) {
    && |filter| == (if |hashes| * bitsPerKey < 64 then 8 else (|hashes| * bitsPerKey + 7) / 8) + 1
    && filter[|filter| - 1] as nat == k && MarksOf(filter[..|filter| - 1], hashes, k)
  }

  lemma BloomAdmits(hashes: seq<nat>, bitsPerKey: nat, k: nat, filter: Bytes, i: nat)
    requires IsBloom(hashes, bitsPerKey, k, filter) && i < |hashes|
    ensures MayMatch(hashes[i], filter)
  {
    hide AllMarked, MarksOf;
    MarksAll(filter[..|filter| - 1], hashes, k, i);
  }

  /** A filter over the hashes of some keys: it marks what they probe and nothing else, so each of them may match. */
  method CreateFilter(hashes: seq<nat>, bitsPerKey: nat, k: nat) returns (filter: Bytes)
    requires forall h :: h in hashes ==> h < TWO32
    requires 1 <= k <= 30
    ensures IsBloom(hashes, bitsPerKey, k, filter)
    ensures forall h :: h in hashes ==> MayMatch(h, filter)
  {
    hide AllMarked, MarksOf, Marked, Probed;
    var bits := |hashes| * bitsPerKey;
    if bits < 64 {
      bits := 64;
    }
    var bytes := (bits + 7) / 8;
    var a: Bytes := seq(bytes, _ => 0);
    NothingMarked(a, k);
    assert hashes[..0] == [];
    var i := 0;
    while i < |hashes|
      invariant 0 <= i <= |hashes| && |a| == bytes && MarksOf(a, hashes[..i], k)
    {
      ghost var was := a;
      assert hashes[i] in hashes;
      a := MarkKey(a, hashes[i], k);
      MarksMore(was, hashes[..i], k, hashes[i], a);
      assert hashes[..i + 1] == hashes[..i] + [hashes[i]];
      i := i + 1;
    }
    filter := a + [k as byte];
    assert filter[..|filter| - 1] == a && hashes[..i] == hashes;
    forall h | h in hashes ensures MayMatch(h, filter) {
      var j :| 0 <= j < |hashes| && hashes[j] == h;
      BloomAdmits(hashes, bitsPerKey, k, filter, j);
    }
  }

  // ---------- the filter block ----------

  const BASE_LG: byte := 11
  const FILTER_BASE: nat := 2048

  /** The filter policy: a hash with 32-bit values, bits per key, and the number of probes. */
  datatype Policy = Policy(hash: Bytes -> nat, bitsPerKey: nat, probes: nat)

  ghost predicate PolicyOk(p: Policy) {
    1 <= p.probes <= 30 && forall k :: p.hash(k) < TWO32
  }

  /** The filter of some keys; there is none for no keys. */
  ghost predicate FilterOf(p: Policy, keys: seq<Bytes>, filter: Bytes) {
    if keys == [] then filter == [] else IsBloom(Hashes(p, keys), p.bitsPerKey, p.probes, filter)
  }

  lemma FilterAdmits(p: Policy, keys: seq<Bytes>, filter: Bytes, key: Bytes)
    requires FilterOf(p, keys, filter) && key in keys
    ensures MayMatch(p.hash(key), filter)
  {
    hide IsBloom, MayMatch;
    var i :| 0 <= i < |keys| && keys[i] == key;
    BloomAdmits(Hashes(p, keys), p.bitsPerKey, p.probes, filter, i);
  }

  ghost predicate AllCovered(p: Policy, lists: seq<seq<Bytes>>, filters: seq<Bytes>) {
    |filters| == |lists| && forall i :: 0 <= i < |lists| ==> FilterOf(p, lists[i], filters[i])
  }

  /** Filters one after another. */
  function Flat(filters: seq<Bytes>): Bytes {
    if filters == [] then [] else Flat(filters[..|filters| - 1]) + filters[|filters| - 1]
  }

  ghost predicate OffsetsOf(filters: seq<Bytes>, offsets: seq<nat>) {
    |offsets| == |filters| && forall i :: 0 <= i < |filters| ==> offsets[i] == |Flat(filters[..i])|
  }

  function Hashes(p: Policy, keys: seq<Bytes>): (hs: seq<nat>)
    ensures |hs| == |keys| && forall i :: 0 <= i < |keys| ==> hs[i] == p.hash(keys[i])
  {
    seq(|keys|, i requires 0 <= i < |keys| => p.hash(keys[i]))
  }

  method FilterFor(p: Policy, keys: seq<Bytes>) returns (filter: Bytes)
    requires PolicyOk(p) && keys != []
    ensures FilterOf(p, keys, filter)
  {
    hide MayMatch, IsBloom;
    filter := CreateFilter(Hashes(p, keys), p.bitsPerKey, p.probes);
  }

  function NoLists(n: nat): (lists: seq<seq<Bytes>>)
    ensures |lists| == n && forall i :: 0 <= i < n ==> lists[i] == []
  {
    seq(n, _ => [])
  }

  class FilterBlockBuilder {
    const policy: Policy
    var keys: seq<Bytes>
    var result: Bytes
    var offsets: seq<nat>
    /** The filters made so far, and the keys of each. */
    ghost var filters: seq<Bytes>
    ghost var lists: seq<seq<Bytes>>

    ghost predicate Ok()
      reads this
    {
      PolicyOk(policy) && result == Flat(filters) && OffsetsOf(filters, offsets) && AllCovered(policy, lists, filters)
    }

    constructor (p: Policy)
      requires PolicyOk(p)
      ensures Ok() && policy == p && keys == [] && lists == []
    {
      policy, keys, result, offsets := p, [], [], [];
      filters, lists := [], [];
    }

    method GenerateFilter()
      requires Ok()
      modifies this
      ensures Ok() && keys == [] && lists == old(lists) + [old(keys)]
    {
      hide Flat, OffsetsOf, IsBloom;
      var filter: Bytes := [];
      if keys != [] {
        filter := FilterFor(policy, keys);
      }
      FlatMore(filters, offsets, filter);
      offsets := offsets + [|result|];
      result := result + filter;
      lists := lists + [keys];
      filters := filters + [filter];
      keys := [];
    }

    /** From here on keys go into the filter of the 2 KB range that `blockOffset` lies in. */
    method StartBlock(blockOffset: nat)
      requires Ok() && |lists| <= blockOffset / FILTER_BASE
      modifies this
      ensures Ok() && |lists| == blockOffset / FILTER_BASE
      ensures |lists| == |old(lists)| ==> lists == old(lists) && keys == old(keys)
      ensures |lists| > |old(lists)| ==>
                keys == [] && lists == old(lists) + [old(keys)] + NoLists(|lists| - |old(lists)| - 1)
    {
      var index := blockOffset / FILTER_BASE;
      while index > |offsets|
        invariant Ok() && |lists| <= index
        invariant |lists| >= |old(lists)|
        invariant |lists| == |old(lists)| ==> lists == old(lists) && keys == old(keys)
        invariant |lists| > |old(lists)| ==>
                    keys == [] && lists == old(lists) + [old(keys)] + NoLists(|lists| - |old(lists)| - 1)
        decreases index - |offsets|
      {
        GenerateFilter();
        assert NoLists(|lists| - |old(lists)| - 1) == if |lists| == |old(lists)| + 1 then []
                                                       else NoLists(|lists| - |old(lists)| - 2) + [[]];
      }
    }

    method AddKey(key: Bytes)
      requires Ok()
      modifies this`keys
      ensures Ok() && keys == old(keys) + [key]
    {
      keys := keys + [key];
    }

    /** The last filter, the array of offsets, its own offset and the base. */
    method Finish() returns (contents: Bytes)
      requires Ok()
      modifies this
      ensures Ok() && lists == (if old(keys) == [] then old(lists) else old(lists) + [old(keys)])
      ensures IsFilterBlock(policy, lists, contents)
    {
      hide FixedAll, Flat;
      if keys != [] {
        GenerateFilter();
      }
      contents := result + FixedAll(offsets) + Fixed32(|result|) + [BASE_LG];
      assert Packed(filters, offsets, contents);
    }
  }

  lemma FlatMore(filters: seq<Bytes>, offsets: seq<nat>, filter: Bytes)
    requires OffsetsOf(filters, offsets)
    ensures OffsetsOf(filters + [filter], offsets + [|Flat(filters)|])
    ensures Flat(filters + [filter]) == Flat(filters) + filter
  {
    var all := filters + [filter];
    assert all[..|filters|] == filters;
    assert forall i :: 0 <= i < |filters| ==> all[..i] == filters[..i];
  }

  ghost predicate Packed(filters: seq<Bytes>, offsets: seq<nat>, contents: Bytes) {
    OffsetsOf(filters, offsets) && contents == Flat(filters) + FixedAll(offsets) + Fixed32(|Flat(filters)|) + [BASE_LG]
  }

  ghost predicate IsFilterBlock(p: Policy, lists: seq<seq<Bytes>>, contents: Bytes) {
    exists filters, offsets :: AllCovered(p, lists, filters) && Packed(filters, offsets, contents)
  }

  /** `FilterBlockReader::KeyMayMatch`: whether the block at an offset may hold a key. */
  function FilterMayMatch(p: Policy, contents: Bytes, blockOffset: nat, key: Bytes): bool {
    var n := |contents|;
    if n < 5 then true
    else
      var last := DecodeFixed32(contents[n - 5..]);
      if last > n - 5 then true
      else
        var index := blockOffset / Pow2(contents[n - 1] as nat);
        if index < (n - 5 - last) / 4 then AskFilter(p, contents, last, index, key) else true
  }

  /** Asks the filter between two offsets; broken offsets count as a match, an empty filter never matches. */
  function AskFilter(p: Policy, contents: Bytes, last: nat, index: nat, key: Bytes): bool
    requires last + 4 * index + 8 <= |contents|
  {
    var start := DecodeFixed32(contents[last + 4 * index..]);
    var limit := DecodeFixed32(contents[last + 4 * index + 4..]);
    if start <= limit <= last then MayMatch(p.hash(key), contents[start..limit])
    else start != limit
  }

  lemma {:induction false} FlatAt(filters: seq<Bytes>, i: nat)
    requires i < |filters|
    ensures |Flat(filters[..i])| <= |Flat(filters[..i + 1])| <= |Flat(filters)|
    ensures Flat(filters)[|Flat(filters[..i])|..|Flat(filters[..i + 1])|] == filters[i]
    decreases |filters|
  {
    var front := filters[..|filters| - 1];
    if i == |filters| - 1 {
      assert filters[..i + 1] == filters && filters[..i] == front;
    } else {
      FlatAt(front, i);
      assert front[..i] == filters[..i] && front[..i + 1] == filters[..i + 1] && front[i] == filters[i];
    }
  }

  /** Offsets and the offset of their array, as one array of words. */
  ghost predicate Words(filters: seq<Bytes>, words: seq<nat>, contents: Bytes) {
    && |words| == |filters| + 1 && (forall i :: 0 <= i <= |filters| ==> words[i] == |Flat(filters[..i])|)
    && contents == Flat(filters) + FixedAll(words) + [BASE_LG]
  }

  lemma FilterWords(filters: seq<Bytes>, offsets: seq<nat>, contents: Bytes) returns (words: seq<nat>)
    requires Packed(filters, offsets, contents)
    ensures Words(filters, words, contents)
  {
    hide Flat, Fixed32;
    words := offsets + [|Flat(filters)|];
    assert words[..|words| - 1] == offsets;
    assert filters[..|filters|] == filters;
  }

  /** What the reader takes out of a filter block. */
  lemma FilterParts(filters: seq<Bytes>, contents: Bytes, words: seq<nat>)
    requires Words(filters, words, contents) && |contents| < TWO32
    ensures var flat := |Flat(filters)|;
            && |contents| == flat + 4 * |words| + 1 && contents[|contents| - 1] == BASE_LG
            && words[|filters|] == flat && DecodeFixed32(contents[|contents| - 5..]) == flat
  {
    hide Flat, FixedAll, DecodeFixed32;
    var flat, n := Flat(filters), |filters|;
    assert filters[..n] == filters;
    FixedAllAt(words, n, [BASE_LG]);
    assert contents[|contents| - 5..] == (FixedAll(words) + [BASE_LG])[4 * n..];
  }

  /** Asking for filter `i` asks the filter that was made. */
  lemma AskRight(p: Policy, filters: seq<Bytes>, contents: Bytes, words: seq<nat>, i: nat, key: Bytes)
    requires Words(filters, words, contents) && |contents| < TWO32 && i < |filters|
    requires MayMatch(p.hash(key), filters[i])
    ensures |Flat(filters)| + 4 * i + 8 <= |contents|
    ensures AskFilter(p, contents, |Flat(filters)|, i, key)
  {
    hide Flat, FixedAll, DecodeFixed32, MayMatch;
    var flat := Flat(filters);
    FlatAt(filters, i);
    FixedAllAt(words, i, [BASE_LG]);
    FixedAllAt(words, i + 1, [BASE_LG]);
    assert contents[|flat| + 4 * i..] == (FixedAll(words) + [BASE_LG])[4 * i..];
    assert contents[|flat| + 4 * i + 4..] == (FixedAll(words) + [BASE_LG])[4 * (i + 1)..];
    assert contents[words[i]..words[i + 1]] == flat[words[i]..words[i + 1]];
  }

  /** No key added for a block is denied when that block is asked for it. */
  lemma FilterDeniesNoKey(p: Policy, lists: seq<seq<Bytes>>, contents: Bytes, blockOffset: nat, key: Bytes)
    requires IsFilterBlock(p, lists, contents) && |contents| < TWO32
    requires blockOffset / FILTER_BASE < |lists| ==> key in lists[blockOffset / FILTER_BASE]
    ensures FilterMayMatch(p, contents, blockOffset, key)
  {
    hide Flat, DecodeFixed32, Words, AskFilter, Packed, MayMatch, Pow2;
    var filters, offsets :| AllCovered(p, lists, filters) && Packed(filters, offsets, contents);
    var words := FilterWords(filters, offsets, contents);
    FilterParts(filters, contents, words);
    Eleven();
    WordCount(filters, contents, words);
    var i := blockOffset / FILTER_BASE;
    if i < |lists| {
      FilterAdmits(p, lists[i], filters[i], key);
      AskRight(p, filters, contents, words, i, key);
    }
  }

  lemma WordCount(filters: seq<Bytes>, contents: Bytes, words: seq<nat>)
    requires Words(filters, words, contents)
    ensures |words| == |filters| + 1
  {
  }

  lemma Eleven()
    ensures Pow2(BASE_LG as nat) == FILTER_BASE
  {
    Eight();
    assert Pow2(11) == 8 * Pow2(8);
  }
}
