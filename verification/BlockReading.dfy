/** `Block::Iter`: a cursor over a block (table/block.cc).  On a block that `BlockBuilder` made it walks
    the entries.  On any other bytes it moves on or stops, unless it meets an entry whose lengths wrap around. */
module BlockReading {
  import opened InternalKeys
  import opened Masking
  import opened Coding
  import opened Blocks

  /** The iterator stands on entry `i`: its key and value, and the restart point at or before it. */
  ghost predicate Stands(data: Bytes, items: seq<Item>, starts: seq<nat>,
                         current: nat, ri: nat, key: Bytes, valueAt: nat, valueLength: nat, i: nat) {
    && i < |items| && current == Off(items, i) && key == items[i].key
    && valueAt + valueLength == Off(items, i + 1) <= |data|
    && data[valueAt..valueAt + valueLength] == items[i].value
    && ri < |starts| && starts[ri] <= i && (ri + 1 < |starts| ==> i <= starts[ri + 1])
  }

  /** The next entry to parse is `n`, and the key buffer holds what it shares. */
  ghost predicate Primed(items: seq<Item>, starts: seq<nat>, next: nat, ri: nat, key: Bytes, n: nat) {
    && n <= |items| && next == Off(items, n)
    && ri < |starts| && starts[ri] <= n
    && (n < |items| ==> Follows(key, items[n]))
  }

  ghost predicate IsGood(data: Bytes, restarts: nat, numRestarts: nat, items: seq<Item>, starts: seq<nat>) {
    IsBlock(data, items, starts) && |data| < TWO32 && restarts == |Body(items)| && numRestarts == |starts|
  }

  lemma StandsPrimed(data: Bytes, items: seq<Item>, starts: seq<nat>,
                     current: nat, ri: nat, key: Bytes, valueAt: nat, valueLength: nat, i: nat)
    requires Chain(items) && Stands(data, items, starts, current, ri, key, valueAt, valueLength, i)
    ensures Primed(items, starts, valueAt + valueLength, ri, key, i + 1)
  {
    hide Off;
  }

  lemma RestartPrimed(items: seq<Item>, starts: seq<nat>, r: nat)
    requires StartsOk(items, starts) && r < |starts|
    ensures Primed(items, starts, Off(items, starts[r]), r, [], starts[r])
  {
    hide Off;
    StartsInside(items, starts);
  }

  /** No key is longer than the block up to its end. */
  lemma {:induction false} KeyBounded(items: seq<Item>, n: nat)
    requires Chain(items) && n < |items|
    ensures |items[n].key| <= Off(items, n + 1)
  {
    hide Off, EntryBytes;
    OffNext(items, n);
    EntrySize(items[n]);
    if n > 0 {
      KeyBounded(items, n - 1);
      assert Follows(items[n - 1].key, items[n]);
    }
  }

  /** The entries part of a block from entry `n` on. */
  lemma BodyFrom(data: Bytes, restarts: nat, numRestarts: nat, items: seq<Item>, starts: seq<nat>, n: nat)
    requires IsGood(data, restarts, numRestarts, items, starts) && n <= |items|
    ensures Chain(items) && Off(items, n) <= restarts <= |data| < TWO32
    ensures data[Off(items, n)..restarts] == Tail(items, n)
  {
    hide EntryBytes, FixedAll, Fixed32, StartsOk, Chain, Tail;
    TailIsSuffix(items, 0, n);
    StartsInside(items, starts);
    assert data[..restarts] == Body(items);
    Slices(data, Off(items, n), restarts);
  }

  lemma Slices(s: Bytes, a: nat, b: nat)
    requires a <= b <= |s|
    ensures s[a..b] == s[..b][a..]
    ensures forall n :: 0 <= n <= b - a ==> s[a..b][..n] == s[a..a + n]
    ensures forall n :: 0 <= n <= b - a ==> s[a..b][n..] == s[a + n..b]
  {
  }

  /** The bytes from entry `n` on decode to that entry. */
  lemma ParseRight(data: Bytes, restarts: nat, numRestarts: nat, items: seq<Item>, starts: seq<nat>, n: nat)
    requires IsGood(data, restarts, numRestarts, items, starts) && n < |items|
    ensures 0 <= Off(items, n) < restarts <= |data|
    ensures var it := items[n];
            DecodeEntry(data[Off(items, n)..restarts])
              == Some(Header(it.shared, |Delta(it)|, |it.value|, Delta(it) + it.value + Tail(items, n + 1)))
  {
    hide EntryBytes, DecodeEntry, IsBlock, Delta;
    OffNext(items, n);
    BodyFrom(data, restarts, numRestarts, items, starts, n);
    hide Off;
    KeyBounded(items, n);
    EntrySize(items[n]);
    DecodeEntryOf(items[n], Tail(items, n + 1));
  }

  lemma OffIs(items: seq<Item>, n: nat)
    ensures Off(items, n) == |Body(items)| - |Tail(items, n)|
  {
  }

  /** Key and value that the parsed entry gives. */
  lemma ParsedEntry(data: Bytes, restarts: nat, numRestarts: nat, items: seq<Item>, starts: seq<nat>, key: Bytes,
                    n: nat)
    requires IsGood(data, restarts, numRestarts, items, starts) && n < |items| && Follows(key, items[n])
    ensures var h := DecodeEntry(data[Off(items, n)..restarts]);
            var it := items[n];
            && h.Some? && h.value.nonShared + h.value.valueLength <= |h.value.rest|
            && h.value.shared == it.shared <= |key|
               && key[..h.value.shared] + h.value.rest[..h.value.nonShared] == it.key
            && h.value.nonShared == |Delta(it)|
            && (var v := restarts - |h.value.rest| + h.value.nonShared;
                && 0 <= v && v + h.value.valueLength == Off(items, n + 1) <= |data|
                && data[v..v + h.value.valueLength] == it.value)
  {
    hide EntryBytes, DecodeEntry, FixedAll, Fixed32, StartsOk, Off, Tail;
    OffIs(items, n + 1);
    ParseRight(data, restarts, numRestarts, items, starts, n);
    OffNext(items, n);
    var it := items[n];
    var off, t := Off(items, n), Tail(items, n + 1);
    var rest := Delta(it) + it.value + t;
    assert rest[..|Delta(it)|] == Delta(it);
    assert key[..it.shared] + Delta(it) == it.key;
    var v := restarts - |rest| + |Delta(it)|;
    assert v + |it.value| == restarts - |t| == Off(items, n + 1);
    ValueThere(data, restarts, numRestarts, items, starts, n);
  }

  lemma ValueThere(data: Bytes, restarts: nat, numRestarts: nat, items: seq<Item>, starts: seq<nat>, n: nat)
    requires IsGood(data, restarts, numRestarts, items, starts) && n < |items|
    ensures |items[n].value| <= Off(items, n + 1) <= |data|
    ensures data[Off(items, n + 1) - |items[n].value|..Off(items, n + 1)] == items[n].value
  {
    hide IsBlock, Off, Varint, Delta;
    OffNext(items, n);
    BodyFrom(data, restarts, numRestarts, items, starts, n);
    var it := items[n];
    var e := EntryBytes(it);
    var a, b := Off(items, n), Off(items, n + 1);
    Slices(data, a, restarts);
    assert data[a..b] == Tail(items, n)[..b - a] == e;
    Slices(data, a, b);
    ValueLast(it);
  }

  lemma ValueLast(it: Item)
    ensures |it.value| <= |EntryBytes(it)| && EntryBytes(it)[|EntryBytes(it)| - |it.value|..] == it.value
  {
    hide Varint, Delta;
  }

  /** `Block` and `NewIterator`: where the restart array of a block starts and how many points it has; nothing for
      contents too short to hold them, or without any restart point. */
  function OpenBlock(data: Bytes): Option<(nat, nat)> {
    if |data| < 4 then None
    else
      var n := DecodeFixed32(data[|data| - 4..]);
      if n > (|data| - 4) / 4 || n == 0 then None else Some((|data| - (1 + n) * 4, n))
  }

  lemma OpenBuilt(data: Bytes, items: seq<Item>, starts: seq<nat>)
    requires IsBlock(data, items, starts) && |data| < TWO32
    ensures OpenBlock(data) == Some((|Body(items)|, |starts|))
    ensures IsGood(data, |Body(items)|, |starts|, items, starts)
  {
    hide Body, Chain, FixedAll, Fixed32, DecodeFixed32;
    BlockParts(data, items, starts);
  }

  /** An entry decodes, and its lengths wrap around. */
  predicate Wraps(s: Bytes) {
    DecodeEntry(s).Some? && DecodeEntry(s).value.nonShared + DecodeEntry(s).value.valueLength >= TWO32
  }

  class BlockIter {
    const data: Bytes
    const restarts: nat
    const numRestarts: nat
    const lt: (Bytes, Bytes) -> bool
    var current: nat
    var restartIndex: nat
    var key: Bytes
    var valueAt: nat
    var valueLength: nat
    var corrupt: bool
    /** An entry was accepted that runs past the end of the block.  What the source does with it is undefined; here
        the iterator stops. */
    var overrun: bool
    /** The entries of a well-formed block, and the one the iterator stands on; all of them when it is not valid. */
    ghost const items: seq<Item>
    ghost const starts: seq<nat>
    ghost var at: nat

    ghost predicate Safe()
      reads this
    {
      && numRestarts > 0 && restarts + 4 * numRestarts + 4 <= |data|
      && current <= restarts && (current < restarts ==> restartIndex < numRestarts)
    }

    ghost predicate Good() {
      IsGood(data, restarts, numRestarts, items, starts)
    }

    /** From no offset does an entry decode whose lengths add up to 2^32 or more. */
    ghost predicate Tame() {
      restarts <= |data| && forall p :: 0 <= p <= restarts ==> !Wraps(data[p..restarts])
    }

    predicate Valid()
      reads this
    {
      current < restarts
    }

    ghost predicate At(i: nat)
      reads this
    {
      Stands(data, items, starts, current, restartIndex, key, valueAt, valueLength, i)
    }

    ghost predicate Ok()
      reads this
    {
      && Safe()
      && (Good() ==>
            && at <= |items| && (Valid() <==> at < |items|) && (at < |items| ==> At(at)))
    }

    function Next0(): nat
      reads this
    {
      valueAt + valueLength
    }

    constructor (block: Bytes, restartOffset: nat, count: nat, less: (Bytes, Bytes) -> bool, ghost its: seq<Item>,
                 ghost sts: seq<nat>)
      requires count > 0 && restartOffset + 4 * count + 4 <= |block|
      ensures Ok() && data == block && restarts == restartOffset && numRestarts == count && lt == less
      ensures items == its && starts == sts && !Valid() && !corrupt && !overrun
    {
      data, restarts, numRestarts, lt := block, restartOffset, count, less;
      current, restartIndex, key, valueAt, valueLength, corrupt, overrun :=
        restartOffset, count, [], 0, 0, false, false;
      items, starts, at := its, sts, |its|;
    }

    method CorruptionError()
      requires numRestarts > 0 && restarts + 4 * numRestarts + 4 <= |data|
      modifies this`current, this`restartIndex, this`key, this`valueAt, this`valueLength, this`corrupt
      ensures Safe() && !Valid() && corrupt
    {
      current, restartIndex, corrupt, key, valueAt, valueLength := restarts, numRestarts, true, [], 0, 0;
    }

    /** The iterator stops at an entry that runs past the end. */
    method Overrun()
      requires numRestarts > 0 && restarts + 4 * numRestarts + 4 <= |data|
      modifies this`current, this`restartIndex, this`overrun
      ensures Safe() && !Valid() && overrun
    {
      current, restartIndex, overrun := restarts, numRestarts, true;
    }

    method SeekToRestartPoint(r: nat)
      requires Safe() && r < numRestarts
      modifies this`key, this`restartIndex, this`valueAt, this`valueLength
      ensures Safe() && restartIndex == r
      ensures Good() ==> r < |starts| && Primed(items, starts, Next0(), restartIndex, key, starts[r])
    {
      hide IsBlock, Off, Body, RestartPoint, Primed;
      key := [];
      restartIndex := r;
      valueAt, valueLength := RestartPoint(data, restarts, r), 0;
      if Good() {
        GoodParts(data, restarts, numRestarts, items, starts);
        RestartPrimed(items, starts, r);
      }
    }

    /** Parses the entry that follows.  In a well-formed block that is entry `n`, if there is one.  It goes past the
        end of the block exactly when the entry decodes and its lengths wrap around. */
    method ParseNextKey(ghost n: nat) returns (ok: bool)
      requires Safe() && restartIndex < numRestarts && |data| < TWO32
      modifies this`current, this`restartIndex, this`key, this`valueAt, this`valueLength, this`corrupt, this`overrun
      ensures Safe() && ok == Valid()
      ensures overrun <==> old(overrun) || old(Next0() < restarts && Wraps(data[Next0()..restarts])
                                                && DecodeEntry(data[Next0()..restarts]).value.shared <= |key|)
      ensures Tame() ==> overrun == old(overrun)
      ensures ok ==> old(Next0()) < Next0() <= restarts
      ensures Good() && old(Primed(items, starts, Next0(), restartIndex, key, n)) ==>
                (ok <==> n < |items|) && (ok ==> At(n)) && corrupt == old(corrupt) && overrun == old(overrun)
    {
      hide IsGood, DecodeEntry, Off, Body, RestartPoint, Chain, StartsOk, Follows, Delta;
      ghost var good := Good() && Primed(items, starts, Next0(), restartIndex, key, n);
      if good {
        GoodParts(data, restarts, numRestarts, items, starts);
        OffEdge(items, n);
      }
      current := Next0();
      if current >= restarts {
        current := restarts;
        restartIndex := numRestarts;
        if good && n < |items| {
          OffNext(items, n);
        }
        return false;
      }
      if good {
        assert n < |items|;
        ParsedEntry(data, restarts, numRestarts, items, starts, key, n);
      }
      var h := DecodeEntry(data[current..restarts]);
      if h.None? || |key| < h.value.shared {
        CorruptionError();
        return false;
      }
      OverrunsIff(data[current..restarts]);
      if h.value.nonShared + h.value.valueLength > |h.value.rest| {
        Overrun();
        return false;
      }
      key := key[..h.value.shared] + h.value.rest[..h.value.nonShared];
      valueAt := restarts - |h.value.rest| + h.value.nonShared;
      valueLength := h.value.valueLength;
      AdvanceRestart(n, good);
      ok := true;
    }

    /** Moves the restart index up to the last restart point before the current entry. */
    method AdvanceRestart(ghost n: nat, ghost good: bool)
      requires numRestarts > 0 && restarts + 4 * numRestarts + 4 <= |data| && restartIndex < numRestarts
      requires good ==>
                 Good() && n <= |items| && current == Off(items, n) && restartIndex < |starts|
                 && starts[restartIndex] <= n
      modifies this`restartIndex
      ensures restartIndex < numRestarts
      ensures good ==> starts[restartIndex] <= n && (restartIndex + 1 < |starts| ==> n <= starts[restartIndex + 1])
    {
      hide IsGood, Off, Body, RestartPoint;
      if good {
        GoodParts(data, restarts, numRestarts, items, starts);
      }
      while restartIndex + 1 < numRestarts && RestartPoint(data, restarts, restartIndex + 1) < current
        invariant restartIndex < numRestarts
        invariant good ==> starts[restartIndex] <= n
        decreases numRestarts - restartIndex
      {
        if good {
          OffOrder(items, starts[restartIndex + 1], n);
        }
        restartIndex := restartIndex + 1;
      }
      if good && restartIndex + 1 < |starts| {
        OffOrder(items, n, starts[restartIndex + 1]);
      }
    }

    method Next()
      requires Ok() && Valid() && |data| < TWO32
      modifies this
      ensures Ok() && (Good() ==> at == old(at) + 1 && corrupt == old(corrupt) && overrun == old(overrun))
      ensures Tame() ==> overrun == old(overrun)
    {
      hide IsGood, Stands, Primed, Off, Body, Chain, StartsOk, RestartPoint, Wraps, DecodeEntry;
      ghost var i := at;
      if Good() {
        GoodParts(data, restarts, numRestarts, items, starts);
        StandsPrimed(data, items, starts, current, restartIndex, key, valueAt, valueLength, i);
        StandsKey(data, items, starts, current, restartIndex, key, valueAt, valueLength, i);
      }
      var ok := ParseNextKey(i + 1);
      at := i + 1;
    }

    method Prev()
      requires Ok() && Valid() && |data| < TWO32
      modifies this
      ensures Ok()
      ensures Good() ==>
                at == (if old(at) == 0 then |items| else old(at) - 1) && corrupt == old(corrupt)
                && overrun == old(overrun)
      ensures Tame() ==> overrun == old(overrun)
    {
      hide IsGood, Off, Body, RestartPoint, Primed, StartsOk, Stands, Chain, BlockIter.Tame, Wraps, DecodeEntry;
      ghost var i, good := at, Good();
      if good {
        GoodParts(data, restarts, numRestarts, items, starts);
        OffEdge(items, i);
        StandsThere(data, items, starts, current, restartIndex, key, valueAt, valueLength, i);
      }
      var original := current;
      while RestartPoint(data, restarts, restartIndex) >= original
        invariant Safe() && restartIndex < numRestarts && at == i && corrupt == old(corrupt) && overrun == old(overrun)
        invariant current == original
        invariant good ==> i < |items| && original == Off(items, i)
        decreases restartIndex
      {
        if restartIndex == 0 {
          if good {
            OffOrder(items, 0, i);
            at := |items|;
          }
          current := restarts;
          restartIndex := numRestarts;
          return;
        }
        restartIndex := restartIndex - 1;
      }
      if good {
        OffOrder(items, starts[restartIndex], i);
      }
      ghost var m: nat := if good then starts[restartIndex] else 0;
      SeekToRestartPoint(restartIndex);
      var ok := ParseNextKey(m);
      while ok && Next0() < original
        invariant Safe() && ok == Valid() && at == i
        invariant Tame() ==> overrun == old(overrun)
        invariant good ==>
                    corrupt == old(corrupt) && overrun == old(overrun) && m < i && i < |items| && ok && At(m)
                    && original == Off(items, i)
        invariant ok ==> Next0() <= restarts
        decreases if ok then |data| - Next0() + 1 else 0
      {
        if good {
          StandsThere(data, items, starts, current, restartIndex, key, valueAt, valueLength, m);
          OffOrder(items, m + 1, i);
          StandsPrimed(data, items, starts, current, restartIndex, key, valueAt, valueLength, m);
        }
        m := m + 1;
        ok := ParseNextKey(m);
      }
      if good {
        StandsThere(data, items, starts, current, restartIndex, key, valueAt, valueLength, m);
        OffOrder(items, i, m + 1);
        at := m;
      } else {
        at := 0;
      }
    }

    /** To the first entry whose key is not below the target. */
    method Seek(target: Bytes)
      requires Ok() && |data| < TWO32
      modifies this
      ensures Ok()
      ensures Good() && Increasing(lt, items) ==>
                BelowUpTo(lt, items, at, target) && (at < |items| ==> !lt(items[at].key, target))
                  && corrupt == old(corrupt) && overrun == old(overrun)
      ensures Tame() ==> overrun == old(overrun)
    {
      hide IsGood, Off, Body, RestartPoint, Primed, Increasing, BelowUpTo, Chain, StartsOk, Stands, DecodeEntry;
      ghost var good := Good() && Increasing(lt, items);
      if Good() {
        GoodParts(data, restarts, numRestarts, items, starts);
        NoneBelow(lt, items, target);
      }
      var left, right := 0, numRestarts - 1;
      while left < right
        invariant 0 <= left <= right < numRestarts && Ok() && at == old(at) && corrupt == old(corrupt)
        invariant overrun == old(overrun)
        invariant good ==> BelowUpTo(lt, items, starts[left], target)
      {
        var mid := (left + right + 1) / 2;
        var region := RestartPoint(data, restarts, mid);
        if good {
          RestartKey(data, restarts, numRestarts, items, starts, mid);
        }
        var h := if region <= restarts then DecodeEntry(data[region..restarts]) else None;
        if h.None? || h.value.shared != 0 {
          CorruptionError();
          at := |items|;
          return;
        }
        OverrunsIff(data[region..restarts]);
        if h.value.nonShared + h.value.valueLength > |h.value.rest| {
          Overrun();
          at := |items|;
          return;
        }
        if lt(h.value.rest[..h.value.nonShared], target) {
          if good {
            BelowOne(lt, items, starts[mid], target);
            BelowFewer(lt, items, starts[mid] + 1, starts[mid], target);
          }
          left := mid;
        } else {
          right := mid - 1;
        }
      }
      SeekToRestartPoint(left);
      ghost var m: nat := if Good() then starts[left] else 0;
      var ok := ParseNextKey(m);
      while ok && lt(key, target)
        invariant Safe() && ok == Valid() && (ok ==> Next0() <= restarts)
        invariant Tame() ==> overrun == old(overrun)
        invariant Good() ==>
                    corrupt == old(corrupt) && overrun == old(overrun) && m <= |items| && (ok <==> m < |items|)
                    && (ok ==> At(m))
        invariant good ==> BelowUpTo(lt, items, m, target)
        decreases if ok then |data| - Next0() + 1 else 0
      {
        if Good() {
          StandsPrimed(data, items, starts, current, restartIndex, key, valueAt, valueLength, m);
        }
        if good {
          StandsKey(data, items, starts, current, restartIndex, key, valueAt, valueLength, m);
          BelowOne(lt, items, m, target);
        }
        m := m + 1;
        ok := ParseNextKey(m);
      }
      if good && ok {
        StandsKey(data, items, starts, current, restartIndex, key, valueAt, valueLength, m);
      }
      at := m;
    }

    method SeekToFirst()
      requires Ok() && |data| < TWO32
      modifies this
      ensures Ok() && (Good() ==> at == 0 && corrupt == old(corrupt) && overrun == old(overrun))
      ensures Tame() ==> overrun == old(overrun)
    {
      hide IsGood, Stands, Primed, Off, Body, Chain, StartsOk, RestartPoint, Wraps, DecodeEntry;
      SeekToRestartPoint(0);
      var ok := ParseNextKey(0);
      if Good() {
        GoodParts(data, restarts, numRestarts, items, starts);
        at := 0;
      }
    }

    method SeekToLast()
      requires Ok() && |data| < TWO32
      modifies this
      ensures Ok() && (Good() ==>
                at == (if items == [] then 0 else |items| - 1) && corrupt == old(corrupt)
                && overrun == old(overrun))
      ensures Tame() ==> overrun == old(overrun)
    {
      hide IsGood, Off, Body, Primed, Stands, Chain, StartsOk, RestartPoint, BlockIter.Tame, Wraps, DecodeEntry;
      ghost var good := Good();
      if good {
        GoodParts(data, restarts, numRestarts, items, starts);
      }
      SeekToRestartPoint(numRestarts - 1);
      ghost var m: nat := if good then starts[numRestarts - 1] else 0;
      var ok := ParseNextKey(m);
      while ok && Next0() < restarts
        invariant Safe() && ok == Valid()
        invariant Tame() ==> overrun == old(overrun)
        invariant good ==>
                    corrupt == old(corrupt) && overrun == old(overrun) && (ok <==> m < |items|) && (ok ==> At(m))
                    && (items == [] ==> !ok)
        invariant good && items != [] ==> ok
        invariant ok ==> Next0() <= restarts
        decreases if ok then |data| - Next0() + 1 else 0
      {
        if good {
          StandsThere(data, items, starts, current, restartIndex, key, valueAt, valueLength, m);
          OffEdge(items, m + 1);
          StandsPrimed(data, items, starts, current, restartIndex, key, valueAt, valueLength, m);
        }
        m := m + 1;
        ok := ParseNextKey(m);
      }
      if good {
        if ok {
          StandsThere(data, items, starts, current, restartIndex, key, valueAt, valueLength, m);
          OffOrder(items, |items|, m + 1);
          OffEdge(items, |items|);
        }
        at := if items == [] then 0 else m;
      }
    }
  }

  /** The keys increase in an order that is transitive. */
  ghost predicate Increasing(lt: (Bytes, Bytes) -> bool, items: seq<Item>) {
    && (forall a, b, c :: lt(a, b) && lt(b, c) ==> lt(a, c))
    && (forall i, j :: 0 <= i < j < |items| ==> lt(items[i].key, items[j].key))
  }

  /** All entries before `n` have keys below the target. */
  ghost predicate BelowUpTo(lt: (Bytes, Bytes) -> bool, items: seq<Item>, n: nat, target: Bytes) {
    n <= |items| && forall i :: 0 <= i < n ==> lt(items[i].key, target)
  }

  lemma BelowOne(lt: (Bytes, Bytes) -> bool, items: seq<Item>, n: nat, target: Bytes)
    requires Increasing(lt, items) && n < |items| && lt(items[n].key, target)
    ensures BelowUpTo(lt, items, n + 1, target)
  {
    forall i | 0 <= i < n + 1 ensures lt(items[i].key, target) {
      assert i < n ==> lt(items[i].key, items[n].key);
    }
  }

  /** The key at a restart point stands there in full. */
  lemma RestartKey(data: Bytes, restarts: nat, numRestarts: nat, items: seq<Item>, starts: seq<nat>, r: nat)
    requires IsGood(data, restarts, numRestarts, items, starts) && 0 < r < |starts|
    ensures starts[r] < |items| && Off(items, starts[r]) <= restarts <= |data|
    ensures var h := DecodeEntry(data[Off(items, starts[r])..restarts]);
            h.Some? && h.value.nonShared + h.value.valueLength <= |h.value.rest|
            && h.value.shared == 0 && h.value.rest[..h.value.nonShared] == items[starts[r]].key
  {
    hide IsGood, DecodeEntry, Off, Body, RestartPoint, Chain;
    GoodParts(data, restarts, numRestarts, items, starts);
    var n := starts[r];
    ParseRight(data, restarts, numRestarts, items, starts, n);
    var it := items[n];
    assert it.shared == 0;
    assert Delta(it) == it.key;
    assert (Delta(it) + it.value + Tail(items, n + 1))[..|Delta(it)|] == Delta(it);
  }

  /** What a reader needs of a well-formed block. */
  lemma GoodParts(data: Bytes, restarts: nat, numRestarts: nat, items: seq<Item>, starts: seq<nat>)
    requires IsGood(data, restarts, numRestarts, items, starts)
    ensures Chain(items) && StartsOk(items, starts) && numRestarts == |starts| > 0 && starts[0] == 0
    ensures restarts == |Body(items)| && |data| == restarts + 4 * numRestarts + 4
    ensures forall r :: 0 <= r < |starts| ==>
              starts[r] <= |items| && RestartPoint(data, restarts, r) == Off(items, starts[r])
    ensures forall r :: 0 < r < |starts| ==> starts[r] < |items|
  {
    hide Body, Off, FixedAll, Fixed32, Chain, RestartPoint;
    BlockParts(data, items, starts);
    StartsInside(items, starts);
  }

  lemma StandsThere(data: Bytes, items: seq<Item>, starts: seq<nat>,
                    current: nat, ri: nat, key: Bytes, valueAt: nat, valueLength: nat, i: nat)
    requires Stands(data, items, starts, current, ri, key, valueAt, valueLength, i)
    ensures i < |items| && current == Off(items, i) && valueAt + valueLength == Off(items, i + 1)
  {
  }

  lemma StandsKey(data: Bytes, items: seq<Item>, starts: seq<nat>,
                  current: nat, ri: nat, key: Bytes, valueAt: nat, valueLength: nat, i: nat)
    requires Stands(data, items, starts, current, ri, key, valueAt, valueLength, i)
    ensures i < |items| && key == items[i].key
  {
  }

  lemma NoneBelow(lt: (Bytes, Bytes) -> bool, items: seq<Item>, target: Bytes)
    ensures BelowUpTo(lt, items, 0, target)
  {
  }

  lemma BelowFewer(lt: (Bytes, Bytes) -> bool, items: seq<Item>, n: nat, m: nat, target: Bytes)
    requires BelowUpTo(lt, items, n, target) && m <= n
    ensures BelowUpTo(lt, items, m, target)
  {
  }

  /** Offsets are in the order of the entries. */
  lemma OffOrder(items: seq<Item>, n: nat, m: nat)
    requires n <= |items| && m <= |items|
    ensures Off(items, n) < Off(items, m) <==> n < m
    ensures Off(items, n) <= Off(items, m) <==> n <= m
  {
    hide Off, Body;
    if n <= m {
      OffGrows(items, n, m);
    } else {
      OffGrows(items, m, n);
    }
  }
}
