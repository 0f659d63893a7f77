/** Blocks of a table: prefix-compressed entries with restart points (table/block_builder.cc, table/block.cc). */
module Blocks {
  import opened InternalKeys
  import opened Masking
  import opened Coding

  /** An entry and how many bytes of its key it shares with the key before. */
  datatype Item = Item(key: Bytes, value: Bytes, shared: nat)

  function Delta(it: Item): Bytes {
    if it.shared <= |it.key| then it.key[it.shared..] else []
  }

  function EntryBytes(it: Item): Bytes {
    Varint(it.shared) + Varint(|Delta(it)|) + Varint(|it.value|) + Delta(it) + it.value
  }

  /** Entries `n` and following. */
  function Tail(items: seq<Item>, n: nat): Bytes
    decreases |items| - n
  {
    if n >= |items| then [] else EntryBytes(items[n]) + Tail(items, n + 1)
  }

  function Body(items: seq<Item>): Bytes {
    Tail(items, 0)
  }

  /** Where entry `n` starts. */
  function Off(items: seq<Item>, n: nat): nat {
    TailIsSuffix(items, 0, n);
    |Body(items)| - |Tail(items, n)|
  }

  /** What is shared is really there in the key before. */
  ghost predicate Chain(items: seq<Item>) {
    && (forall i :: 0 <= i < |items| ==> items[i].shared <= |items[i].key|)
    && (items != [] ==> items[0].shared == 0)
    && (forall i, j :: 0 <= i && j == i + 1 && j < |items| ==> Follows(items[i].key, items[j]))
  }

  ghost predicate Follows(before: Bytes, it: Item) {
    it.shared <= |before| && it.shared <= |it.key| && before[..it.shared] == it.key[..it.shared]
  }

  lemma EntrySize(it: Item)
    ensures |EntryBytes(it)| >= 3 + |Delta(it)| + |it.value|
  {
  }

  lemma {:induction false} TailIsSuffix(items: seq<Item>, n: nat, m: nat)
    requires n <= m
    ensures |Tail(items, m)| <= |Tail(items, n)|
    ensures Tail(items, n)[|Tail(items, n)| - |Tail(items, m)|..] == Tail(items, m)
    decreases m - n
  {
    hide EntryBytes;
    if n < m && n < |items| {
      TailIsSuffix(items, n + 1, m);
      var e, t := EntryBytes(items[n]), Tail(items, n + 1);
      assert Tail(items, n) == e + t;
      var k := |t| - |Tail(items, m)|;
      assert (e + t)[|e| + k..] == t[k..];
    } else if n >= |items| {
      assert Tail(items, n) == [] && Tail(items, m) == [];
    }
  }

  /** Offsets grow by at least three bytes an entry. */
  lemma OffNext(items: seq<Item>, n: nat)
    requires n < |items|
    ensures 0 <= Off(items, n) && Off(items, n) + |EntryBytes(items[n])| == Off(items, n + 1) <= |Body(items)|
    ensures Off(items, n) + 3 <= Off(items, n + 1)
  {
    hide EntryBytes;
    TailIsSuffix(items, 0, n);
    EntrySize(items[n]);
    assert Tail(items, n) == EntryBytes(items[n]) + Tail(items, n + 1);
  }

  lemma {:induction false} OffGrows(items: seq<Item>, n: nat, m: nat)
    requires n <= m <= |items|
    ensures 0 <= Off(items, n) <= Off(items, m) <= |Body(items)|
    ensures n < m ==> Off(items, n) < Off(items, m)
    decreases m - n
  {
    hide EntryBytes, Off;
    if n < m {
      OffNext(items, n);
      OffGrows(items, n + 1, m);
    } else {
      OffEdge(items, n);
    }
  }

  lemma OffEdge(items: seq<Item>, n: nat)
    ensures 0 <= Off(items, n) <= |Body(items)|
    ensures Off(items, 0) == 0
    ensures n >= |items| ==> Off(items, n) == |Body(items)|
  {
    TailIsSuffix(items, 0, n);
  }

  lemma {:induction false} TailAppend(items: seq<Item>, it: Item, n: nat)
    requires n <= |items|
    ensures Tail(items + [it], n) == Tail(items, n) + EntryBytes(it)
    decreases |items| - n
  {
    hide EntryBytes;
    var all := items + [it];
    if n < |items| {
      TailAppend(items, it, n + 1);
      assert all[n] == items[n];
      Associate(EntryBytes(items[n]), Tail(items, n + 1), EntryBytes(it));
    } else {
      assert all[n] == it && Tail(all, n + 1) == [];
      Associate([], EntryBytes(it), []);
    }
  }

  lemma Associate(a: Bytes, b: Bytes, c: Bytes)
    ensures a + (b + c) == a + b + c && b + [] == b && [] + b == b
  {
  }

  /** Adding an entry moves none of those before it. */
  lemma OffAppend(items: seq<Item>, it: Item, n: nat)
    requires n <= |items|
    ensures Off(items + [it], n) == Off(items, n)
    ensures Body(items + [it]) == Body(items) + EntryBytes(it)
  {
    hide EntryBytes, Tail;
    TailAppend(items, it, n);
    TailAppend(items, it, 0);
  }

  // ---------- decoding one entry ----------

  datatype Header = Header(shared: nat, nonShared: nat, valueLength: nat, rest: Bytes)

  /** The three lengths at the front of `s`, and what follows them; the sum of the two lengths must be there.  Both
      sides of that comparison are 32-bit numbers. */
  function DecodeEntry(s: Bytes): (r: Option<Header>)
    ensures r.Some? ==> |r.value.rest| + 3 <= |s| && r.value.nonShared < TWO32 && r.value.valueLength < TWO32
  {
    if |s| < 3 then None
    else
      var h := if s[0] < 128 && s[1] < 128 && s[2] < 128
               then Some(Header(s[0] as nat, s[1] as nat, s[2] as nat, s[3..]))
               else DecodeLengths(s);
      if h.None? || |h.value.rest| % TWO32 < (h.value.nonShared + h.value.valueLength) % TWO32 then None else h
  }

  /** An entry that decodes although its key and value are longer than what follows. */
  predicate Overruns(h: Header) {
    |h.rest| < h.nonShared + h.valueLength
  }

  /** In a block below 4 GB an entry that decodes runs past the end exactly when the sum of its lengths wraps around. */
  lemma OverrunsIff(s: Bytes)
    requires |s| < TWO32 && DecodeEntry(s).Some?
    ensures var h := DecodeEntry(s).value; Overruns(h) <==> h.nonShared + h.valueLength >= TWO32
  {
    hide DecodeLengths;
    var h := DecodeEntry(s).value;
    if h.nonShared + h.valueLength >= TWO32 {
      assert (h.nonShared + h.valueLength) % TWO32 == h.nonShared + h.valueLength - TWO32;
    }
  }

  /** Seven bytes for a key of 2^32 - 1 bytes and a value of one byte, none of which are there. */
  const WRAPPED: Bytes := [0, 255, 255, 255, 255, 15, 1]

  /** The check of the lengths accepts it. */
  lemma WrappedIsAccepted()
    ensures DecodeEntry(WRAPPED) == Some(Header(0, 0xffff_ffff, 1, [])) && Overruns(DecodeEntry(WRAPPED).value)
  {
    var s := WRAPPED;
    WrappedBytes();
    hide Varint, GetVarint32;
    Varint32RoundTrip(0, Varint(0xffff_ffff) + (Varint(1) + []));
    Varint32RoundTrip(0xffff_ffff, Varint(1) + []);
    Varint32RoundTrip(1, []);
  }

  lemma WrappedBytes()
    ensures WRAPPED == Varint(0) + (Varint(0xffff_ffff) + (Varint(1) + []))
  {
    assert Varint(0xf) == [15] && Varint(0x7ff) == [255] + Varint(0xf);
    assert Varint(0x3_ffff) == [255] + Varint(0x7ff);
    assert Varint(0x1ff_ffff) == [255] + Varint(0x3_ffff);
    assert Varint(0xffff_ffff) == [255] + Varint(0x1ff_ffff);
  }

  function DecodeLengths(s: Bytes): (r: Option<Header>)
    ensures r.Some? ==> |r.value.rest| + 3 <= |s| && r.value.nonShared < TWO32 && r.value.valueLength < TWO32
  {
    var a := GetVarint32(s);
    if a.None? then None else
    var b := GetVarint32(a.value.rest);
    if b.None? then None else
    var c := GetVarint32(b.value.rest);
    if c.None? then None else Some(Header(a.value.value, b.value.value, c.value.value, c.value.rest))
  }

  ghost predicate Small(it: Item) {
    it.shared < TWO32 && |it.key| < TWO32 && |it.value| < TWO32
  }

  /** An entry decodes to its lengths, on the short path as on the long one. */
  lemma DecodeEntryOf(it: Item, more: Bytes)
    requires Small(it) && |EntryBytes(it)| + |more| < TWO32
    ensures DecodeEntry(EntryBytes(it) + more)
             == Some(Header(it.shared, |Delta(it)|, |it.value|, Delta(it) + it.value + more))
  {
    hide Varint, GetVarint32;
    var a, b, c := Varint(it.shared), Varint(|Delta(it)|), Varint(|it.value|);
    var rest := Delta(it) + it.value + more;
    var s := EntryBytes(it) + more;
    assert s == a + (b + (c + rest));
    Varint32RoundTrip(it.shared, b + (c + rest));
    Varint32RoundTrip(|Delta(it)|, c + rest);
    Varint32RoundTrip(|it.value|, rest);
    FirstByte(it.shared);
    FirstByte(|Delta(it)|);
    FirstByte(|it.value|);
    if s[0] < 128 && s[1] < 128 && s[2] < 128 {
      assert s[0] == a[0] && a == [a[0]];
      assert s[1] == b[0] && b == [b[0]];
      assert s[2] == c[0] && c == [c[0]];
      assert s[3..] == rest;
    }
  }

  /** A first byte below 128 is the whole number. */
  lemma FirstByte(v: nat)
    ensures Varint(v)[0] < 128 <==> v < 128
    ensures v < 128 ==> Varint(v) == [v as byte]
  {
  }

  // ---------- finished blocks ----------

  /** Offset of a restart point, from the array behind the entries. */
  function RestartPoint(data: Bytes, restarts: nat, r: nat): nat
    requires restarts + 4 * r + 4 <= |data|
  {
    DecodeFixed32(data[restarts + 4 * r..])
  }

  /** Restart points: the first entry, and later ones in order, none of which shares anything. */
  ghost predicate StartsOk(items: seq<Item>, starts: seq<nat>) {
    && |starts| > 0 && starts[0] == 0
    && (forall r :: 0 < r < |starts| ==> starts[r] < |items|)
    && (forall r, t :: 0 <= r < t < |starts| ==> starts[r] < starts[t])
    && (forall r :: 0 <= r < |starts| && starts[r] < |items| ==> items[starts[r]].shared == 0)
  }

  function Offsets(items: seq<Item>, starts: seq<nat>): (rs: seq<nat>)
    requires forall r :: 0 <= r < |starts| ==> starts[r] <= |items|
    ensures |rs| == |starts| && forall r :: 0 <= r < |starts| ==> rs[r] == Off(items, starts[r])
  {
    seq(|starts|, r requires 0 <= r < |starts| => Off(items, starts[r]))
  }

  /** The block that holds `items` with restart points at `starts`. */
  ghost predicate IsBlock(data: Bytes, items: seq<Item>, starts: seq<nat>) {
    && Chain(items) && StartsOk(items, starts)
    && data == Body(items) + FixedAll(Offsets(items, starts)) + Fixed32(|starts|)
  }

  lemma StartsInside(items: seq<Item>, starts: seq<nat>)
    requires StartsOk(items, starts)
    ensures |starts| > 0 && forall r :: 0 <= r < |starts| ==> starts[r] <= |items|
  {
  }

  /** What a reader finds in a block: the entries, then the restart array. */
  lemma BlockParts(data: Bytes, items: seq<Item>, starts: seq<nat>)
    requires IsBlock(data, items, starts) && |data| < TWO32
    ensures |data| == |Body(items)| + 4 * |starts| + 4
    ensures data[..|Body(items)|] == Body(items)
    ensures DecodeFixed32(data[|data| - 4..]) == |starts|
    ensures forall r :: 0 <= r < |starts| ==> RestartPoint(data, |Body(items)|, r) == Off(items, starts[r])
  {
    hide Body, Off, FixedAll, Fixed32, DecodeFixed32, Chain;
    var body, rs, n := Body(items), Offsets(items, starts), Fixed32(|starts|);
    assert data == body + (FixedAll(rs) + n);
    assert data[|data| - 4..] == n;
    FixedRoundTrip(|starts|);
    forall r | 0 <= r < |starts| ensures RestartPoint(data, |body|, r) == Off(items, starts[r]) {
      OffEdge(items, starts[r]);
      FixedAllAt(rs, r, n);
      assert data[|body| + 4 * r..] == (FixedAll(rs) + n)[4 * r..];
    }
  }

  // ---------- BlockBuilder ----------

  /** Length of the longest common prefix. */
  ghost predicate LongestShared(a: Bytes, b: Bytes, n: nat) {
    && n <= |a| && n <= |b| && a[..n] == b[..n]
    && (n < |a| && n < |b| ==> a[n] != b[n])
  }

  function SharedLength(a: Bytes, b: Bytes): (n: nat)
    ensures LongestShared(a, b, n)
  {
    if a == [] || b == [] || a[0] != b[0] then 0
    else
      var n := SharedLength(a[1..], b[1..]);
      assert a[..n + 1] == [a[0]] + a[1..][..n] && b[..n + 1] == [b[0]] + b[1..][..n];
      n + 1
  }

  lemma {:induction false} OneLongest(a: Bytes, b: Bytes, n: nat)
    requires LongestShared(a, b, n)
    ensures n == SharedLength(a, b)
  {
    assert n > 0 ==> a[..n][0] == a[0] && b[..n][0] == b[0];
    if a != [] && b != [] && a[0] == b[0] {
      assert a[1..][..n - 1] == a[..n][1..] && b[1..][..n - 1] == b[..n][1..];
      OneLongest(a[1..], b[1..], n - 1);
    }
  }

  ghost predicate Spaced(starts: seq<nat>, interval: nat) {
    forall r, t :: 0 <= r && t == r + 1 && t < |starts| ==> starts[t] == starts[r] + interval
  }

  method CommonPrefix(a: Bytes, b: Bytes) returns (shared: nat)
    ensures LongestShared(a, b, shared)
  {
    var minLength := if |a| < |b| then |a| else |b|;
    shared := 0;
    while shared < minLength && a[shared] == b[shared]
      invariant 0 <= shared <= minLength && a[..shared] == b[..shared]
    {
      shared := shared + 1;
    }
  }

  class BlockBuilder {
    const interval: nat
    var buffer: Bytes
    var restarts: seq<nat>
    var counter: nat
    var finished: bool
    var lastKey: Bytes
    ghost var items: seq<Item>
    ghost var starts: seq<nat>

    /** Restart points lie `interval` entries apart, and the last one at most that far back. */
    ghost predicate Ok()
      reads this
    {
      && interval >= 1 && !finished
      && Chain(items) && StartsOk(items, starts)
      && buffer == Body(items) && restarts == Offsets(items, starts)
      && lastKey == (if items == [] then [] else items[|items| - 1].key)
      && counter == |items| - starts[|starts| - 1] <= interval
      && Spaced(starts, interval)
    }

    constructor (restartInterval: nat)
      requires restartInterval >= 1
      ensures Ok() && items == [] && interval == restartInterval
    {
      interval, buffer, restarts, counter, finished, lastKey := restartInterval, [], [0], 0, false, [];
      items, starts := [], [0];
    }

    /** Empties the builder for the next block. */
    method Reset()
      requires interval >= 1
      modifies this
      ensures Ok() && items == []
    {
      buffer, restarts, counter, finished, lastKey := [], [0], 0, false, [];
      items, starts := [], [0];
    }

    function CurrentSizeEstimate(): nat
      reads this
    {
      |buffer| + 4 * |restarts| + 4
    }

    /** The estimate with one more entry. */
    ghost function SizeWith(key: Bytes, value: Bytes): nat
      reads this
    {
      var shared := if counter < interval then SharedLength(lastKey, key) else 0;
      CurrentSizeEstimate() + |EntryBytes(Item(key, value, shared))| + (if counter < interval then 0 else 4)
    }

    /** Adds an entry: compressed against the last key as far as possible, or as a restart point. */
    method Add(key: Bytes, value: Bytes)
      requires Ok()
      modifies this
      ensures Ok() && |items| == |old(items)| + 1 && items[..|old(items)|] == old(items)
      ensures items[|items| - 1].key == key && items[|items| - 1].value == value
      ensures old(counter) < interval ==>
                starts == old(starts) && LongestShared(old(lastKey), key, items[|items| - 1].shared)
      ensures old(counter) == interval ==> starts == old(starts) + [|old(items)|]
      ensures CurrentSizeEstimate() == old(SizeWith(key, value))
    {
      hide SharedLength;
      hide Body, Off, EntryBytes, Chain, StartsOk, Spaced, Offsets, EntryOf;
      ghost var items0, starts0 := items, starts;
      StartsInside(items, starts);
      var shared := 0;
      if counter < interval {
        shared := CommonPrefix(lastKey, key);
        OneLongest(lastKey, key, shared);
      } else {
        assert |items| >= counter >= 1;
        restarts := restarts + [|buffer|];
        counter := 0;
        starts := starts + [|items|];
        OffEdge(items, |items|);
        OneMoreStart(items, starts0, interval);
      }
      ghost var it := Item(key, value, shared);
      Resized(lastKey, key, shared);
      buffer := buffer + EntryOf(shared, key, value);
      lastKey := lastKey[..shared] + key[shared..];
      items := items + [it];
      counter := counter + 1;
      EntryOfIs(it);
      OffAppend(items0, it, 0);
      ChainAppend(items0, it);
      StartsAppend(items0, starts0, starts, it);
    }

    /** Appends the restart array.  The block then holds the entries as long as its offsets fit 32 bits. */
    method Finish() returns (data: Bytes)
      requires Ok()
      modifies this
      ensures finished && items == old(items) && starts == old(starts)
      ensures data == buffer && IsBlock(data, items, starts) && |data| == old(CurrentSizeEstimate())
    {
      hide Body, Off, Fixed32, Chain;
      ghost var body, offsets := buffer, restarts;
      var i := 0;
      while i < |restarts|
        invariant 0 <= i <= |restarts| && restarts == offsets && items == old(items) && starts == old(starts)
        invariant buffer == body + FixedAll(restarts[..i])
      {
        assert restarts[..i + 1][..i] == restarts[..i];
        buffer := buffer + Fixed32(restarts[i]);
        i := i + 1;
      }
      assert restarts[..|restarts|] == restarts;
      buffer := buffer + Fixed32(|restarts|);
      finished := true;
      data := buffer;
    }
  }

  function EntryOf(shared: nat, key: Bytes, value: Bytes): Bytes
    requires shared <= |key|
  {
    Varint(shared) + Varint(|key| - shared) + Varint(|value|) + key[shared..] + value
  }

  lemma EntryOfIs(it: Item)
    requires it.shared <= |it.key|
    ensures EntryOf(it.shared, it.key, it.value) == EntryBytes(it)
  {
  }

  lemma Resized(last: Bytes, key: Bytes, n: nat)
    requires n <= |last| && n <= |key| && last[..n] == key[..n]
    ensures last[..n] + key[n..] == key
  {
  }

  lemma OneMoreStart(items: seq<Item>, starts: seq<nat>, interval: nat)
    requires StartsOk(items, starts) && Spaced(starts, interval) && |items| == starts[|starts| - 1] + interval
    ensures Spaced(starts + [|items|], interval)
    ensures forall r :: 0 <= r < |starts| + 1 ==> (starts + [|items|])[r] <= |items|
    ensures Offsets(items, starts + [|items|]) == Offsets(items, starts) + [Off(items, |items|)]
  {
    hide Off;
  }

  lemma ChainAppend(items: seq<Item>, it: Item)
    requires Chain(items) && it.shared <= |it.key|
    requires if items == [] then it.shared == 0 else Follows(items[|items| - 1].key, it)
    ensures Chain(items + [it])
  {
  }

  lemma StartsAppend(items: seq<Item>, starts0: seq<nat>, starts: seq<nat>, it: Item)
    requires StartsOk(items, starts0)
    requires starts == starts0 || (starts == starts0 + [|items|] && it.shared == 0 && items != [])
    requires items == [] ==> it.shared == 0
    ensures StartsOk(items + [it], starts)
    ensures forall r :: 0 <= r < |starts| ==> starts[r] <= |items|
    ensures Offsets(items + [it], starts) == Offsets(items, starts)
  {
    hide Off;
    forall r | 0 <= r < |starts| ensures Off(items + [it], starts[r]) == Off(items, starts[r]) {
      OffAppend(items, it, starts[r]);
    }
  }
}
