/** `TwoLevelIterator`: a cursor over the blocks that an index names, as over one run (table/two_level_iterator.cc).
    Tables use it over their blocks, and a sorted level over its files (db/version_set.cc). */
module TwoLevel {
  import opened InternalKeys
  import opened Files
  import opened Runs
  import opened Iterators

  /** Where block `i` starts in the run of all blocks. */
  function Start(blocks: seq<seq<Entry>>, i: nat): nat
    requires i <= |blocks|
  {
    if i == 0 then 0 else Start(blocks, i - 1) + |blocks[i - 1]|
  }

  lemma {:induction false} StartTail(blocks: seq<seq<Entry>>, i: nat)
    requires 0 < i <= |blocks|
    ensures Start(blocks, i) == |blocks[0]| + Start(blocks[1..], i - 1)
  {
    if i > 1 {
      StartTail(blocks, i - 1);
    }
  }

  lemma {:induction false} WholeSize(blocks: seq<seq<Entry>>)
    ensures |Concat(blocks)| == Start(blocks, |blocks|)
  {
    if blocks != [] {
      WholeSize(blocks[1..]);
      StartTail(blocks, |blocks|);
    }
  }

  lemma {:induction false} WholeAt(blocks: seq<seq<Entry>>, i: nat, j: nat)
    requires i < |blocks| && j < |blocks[i]|
    ensures Start(blocks, i) + j < |Concat(blocks)| && Concat(blocks)[Start(blocks, i) + j] == blocks[i][j]
    decreases i
  {
    if i > 0 {
      WholeAt(blocks[1..], i - 1, j);
      StartTail(blocks, i);
    }
  }

  /** Every position of the whole run lies in one block. */
  lemma {:induction false} BlockOf(blocks: seq<seq<Entry>>, n: nat, x: nat) returns (i: nat)
    requires n <= |blocks| && x < Start(blocks, n)
    ensures i < n && Start(blocks, i) <= x < Start(blocks, i + 1)
  {
    if x >= Start(blocks, n - 1) {
      i := n - 1;
    } else {
      i := BlockOf(blocks, n - 1, x);
    }
  }

  lemma {:induction false} StartGrows(blocks: seq<seq<Entry>>, i: nat, j: nat)
    requires i <= j <= |blocks|
    ensures Start(blocks, i) <= Start(blocks, j)
    decreases j
  {
    if i < j {
      StartGrows(blocks, i, j - 1);
    }
  }

  /** Index keys separate: at or after every key of their block, before every key of later ones. */
  ghost predicate Separated(blocks: seq<seq<Entry>>, index: seq<InternalKey>) {
    && |index| == |blocks|
    && (forall i, e :: 0 <= i < |blocks| && e in blocks[i] ==> LessEq(e.key, index[i]))
    && (forall i, m, e :: 0 <= i < m < |blocks| && e in blocks[m] ==> Less(index[i], e.key))
  }

  /** The first index key at or after `k`. */
  function SeekIndex(index: seq<InternalKey>, k: InternalKey, i: nat): (r: nat)
    requires i <= |index|
    ensures i <= r <= |index|
    ensures forall j :: i <= j < r ==> Less(index[j], k)
    ensures r < |index| ==> !Less(index[r], k)
    decreases |index| - i
  {
    if i == |index| || !Less(index[i], k) then i else SeekIndex(index, k, i + 1)
  }

  lemma SeekIs(es: seq<Entry>, k: InternalKey, n: nat)
    requires n <= |es| && (forall j :: 0 <= j < n ==> Less(es[j].key, k)) && (n < |es| ==> !Less(es[n].key, k))
    ensures Seek(es, k) == n
  {
  }

  /** A seek in the index and one in the block it names are a seek in the whole run. */
  lemma SeekSplits(blocks: seq<seq<Entry>>, index: seq<InternalKey>, k: InternalKey)
    requires Separated(blocks, index)
    ensures var i := SeekIndex(index, k, 0);
            Seek(Concat(blocks), k) == if i < |blocks| then Start(blocks, i) + Seek(blocks[i], k) else |Concat(blocks)|
  {
    hide Seek, Concat, Start;
    var whole, i := Concat(blocks), SeekIndex(index, k, 0);
    WholeSize(blocks);
    var j := if i < |blocks| then Seek(blocks[i], k) else 0;
    var n := Start(blocks, i) + j;
    StartLast(blocks, i);
    forall x | 0 <= x < n ensures x < |whole| && Less(whole[x].key, k) {
      LessBefore(blocks, index, k, i, j, x);
    }
    if n < |whole| {
      NotLessAt(blocks, index, k, i, j);
    }
    SeekIs(whole, k, n);
  }

  lemma StartLast(blocks: seq<seq<Entry>>, i: nat)
    requires i <= |blocks|
    ensures Start(blocks, i) <= Start(blocks, |blocks|)
    ensures i < |blocks| ==> Start(blocks, i + 1) == Start(blocks, i) + |blocks[i]| <= Start(blocks, |blocks|)
  {
    StartGrows(blocks, i, |blocks|);
    if i < |blocks| {
      StartGrows(blocks, i + 1, |blocks|);
    }
  }

  lemma LessBefore(blocks: seq<seq<Entry>>, index: seq<InternalKey>, k: InternalKey, i: nat, j: nat, x: nat)
    requires Separated(blocks, index) && i == SeekIndex(index, k, 0)
    requires j == (if i < |blocks| then Seek(blocks[i], k) else 0) && x < Start(blocks, i) + j
    ensures x < |Concat(blocks)| && Less(Concat(blocks)[x].key, k)
  {
    hide Seek, Concat, Start;
    if x >= Start(blocks, i) {
      WholeAt(blocks, i, x - Start(blocks, i));
    } else {
      var m := BlockOf(blocks, i, x);
      StartLast(blocks, m);
      var y := x - Start(blocks, m);
      WholeAt(blocks, m, y);
      assert blocks[m][y] in blocks[m];
    }
  }

  lemma NotLessAt(blocks: seq<seq<Entry>>, index: seq<InternalKey>, k: InternalKey, i: nat, j: nat)
    requires Separated(blocks, index) && i == SeekIndex(index, k, 0)
    requires j == (if i < |blocks| then Seek(blocks[i], k) else 0) && Start(blocks, i) + j < |Concat(blocks)|
    ensures !Less(Concat(blocks)[Start(blocks, i) + j].key, k)
  {
    hide Seek, Concat, Start;
    var x := Start(blocks, i) + j;
    WholeSize(blocks);
    var m := BlockOf(blocks, |blocks|, x);
    StartLast(blocks, m);
    StartLast(blocks, i);
    var y := x - Start(blocks, m);
    WholeAt(blocks, m, y);
    var e := blocks[m][y];
    assert e in blocks[m];
    if m < i {
      StartGrows(blocks, m + 1, i);
    }
    if m == i {
      assert y == j;
    } else {
      assert Less(index[i], e.key);
    }
  }

  class TwoLevelIterator {
    const blocks: seq<seq<Entry>>
    const index: seq<InternalKey>
    var indexPos: nat
    var data: Option<Cursor>
    var dataBlock: nat
    /** The position in the whole run. */
    ghost var at: nat

    /** A block is open and its cursor valid, or none is open. */
    ghost predicate Ok()
      reads this
    {
      && Separated(blocks, index)
      && if data.Some? then indexPos == dataBlock && Inside() && at == Start(blocks, indexPos) + data.value.pos
         else at == |Concat(blocks)|
    }

    ghost predicate Inside()
      reads this
    {
      data.Some? && indexPos < |blocks| && data.value.run == blocks[indexPos] && Valid(data.value)
    }

    /** The one cursor this iterator stands for. */
    ghost function Whole(): Cursor
      reads this
    {
      Cursor(Concat(blocks), at)
    }

    constructor (bs: seq<seq<Entry>>, ks: seq<InternalKey>)
      requires Separated(bs, ks)
      ensures Ok() && Whole() == Cursor(Concat(bs), |Concat(bs)|) && blocks == bs && index == ks
    {
      blocks, index, indexPos, data, dataBlock := bs, ks, |bs|, None, 0;
      at := |Concat(bs)|;
    }

    /** Key and value are those of the one cursor. */
    method Read() returns (e: Option<Entry>)
      requires Ok()
      ensures e == if Valid(Whole()) then Some(Whole().run[at]) else None
    {
      if data.None? {
        return None;
      }
      WholeAt(blocks, indexPos, data.value.pos);
      return Some(data.value.run[data.value.pos]);
    }

    /** A cursor over the block the index stands at; the open one is kept if it is for that block. */
    method InitDataBlock()
      requires data.Some? ==> dataBlock < |blocks| && data.value.run == blocks[dataBlock]
      modifies this`data, this`dataBlock
      ensures data.Some? == (indexPos < |blocks|)
      ensures data.Some? ==> dataBlock == indexPos && data.value.run == blocks[indexPos]
    {
      if indexPos >= |blocks| {
        data := None;
      } else if data.None? || dataBlock != indexPos {
        dataBlock := indexPos;
        data := Some(Cursor(blocks[indexPos], |blocks[indexPos]|));
      }
    }

    /** The open block belongs to the index position. */
    ghost predicate Opened()
      reads this
    {
      && data.Some? == (indexPos < |blocks|)
      && (data.Some? ==> dataBlock == indexPos && data.value.run == blocks[indexPos])
    }

    /** Goes on to the first entry at or after position `p` of the whole run. */
    method SkipEmptyDataBlocksForward(ghost p: nat)
      requires Separated(blocks, index) && Opened()
      requires p == if indexPos >= |blocks| then |Concat(blocks)|
                    else if Valid(data.value) then Start(blocks, indexPos) + data.value.pos
                    else Start(blocks, indexPos + 1)
      modifies this
      ensures Ok() && at == p
    {
      hide Concat, Start, Separated;
      WholeSize(blocks);
      while data.None? || !Valid(data.value)
        invariant Opened() && Separated(blocks, index)
        invariant p == if indexPos >= |blocks| then |Concat(blocks)|
                       else if Valid(data.value) then Start(blocks, indexPos) + data.value.pos
                       else Start(blocks, indexPos + 1)
        decreases |blocks| - indexPos, data.Some?
      {
        if indexPos >= |blocks| {
          data, at := None, p;
          return;
        }
        indexPos := indexPos + 1;
        InitDataBlock();
        if data.Some? {
          data := Some(ToFirst(data.value));
          StartLast(blocks, indexPos);
        }
      }
      at := p;
    }

    /** Goes back to the last entry before position `p`. */
    method SkipEmptyDataBlocksBackward(ghost p: nat)
      requires Separated(blocks, index) && Opened()
      requires p == if indexPos >= |blocks| then 0
                    else if Valid(data.value) then Start(blocks, indexPos) + data.value.pos + 1
                    else Start(blocks, indexPos)
      modifies this
      ensures Ok() && at == if p == 0 then |Concat(blocks)| else p - 1
    {
      hide Concat, Start, Separated;
      StartZero(blocks);
      while data.None? || !Valid(data.value)
        invariant Opened() && Separated(blocks, index)
        invariant p == if indexPos >= |blocks| then 0
                       else if Valid(data.value) then Start(blocks, indexPos) + data.value.pos + 1
                       else Start(blocks, indexPos)
        decreases if indexPos < |blocks| then indexPos + 1 else 0
      {
        if indexPos >= |blocks| {
          data, at := None, |Concat(blocks)|;
          return;
        }
        StartLast(blocks, if indexPos == 0 then 0 else indexPos - 1);
        indexPos := if indexPos == 0 then |blocks| else indexPos - 1;
        InitDataBlock();
        if data.Some? {
          data := Some(ToLast(data.value));
        }
      }
      at := p - 1;
    }

    method SeekTo(k: InternalKey)
      requires Ok()
      modifies this
      ensures Ok() && Whole() == ToKey(old(Whole()), k)
    {
      hide Concat, Start, Separated, Seek;
      SeekSplits(blocks, index, k);
      indexPos := SeekIndex(index, k, 0);
      SameLength(blocks, index);
      InitDataBlock();
      if data.Some? {
        data := Some(ToKey(data.value, k));
        StartLast(blocks, indexPos);
      }
      SkipEmptyDataBlocksForward(Seek(Concat(blocks), k));
    }

    method SeekToFirst()
      requires Ok()
      modifies this
      ensures Ok() && Whole() == ToFirst(old(Whole()))
    {
      hide Concat, Start, Separated;
      StartZero(blocks);
      WholeSize(blocks);
      indexPos := 0;
      InitDataBlock();
      if data.Some? {
        data := Some(ToFirst(data.value));
        StartLast(blocks, 0);
      }
      SkipEmptyDataBlocksForward(0);
    }

    method SeekToLast()
      requires Ok()
      modifies this
      ensures Ok() && Whole() == ToLast(old(Whole()))
    {
      hide Concat, Start, Separated;
      StartZero(blocks);
      WholeSize(blocks);
      indexPos := if blocks == [] then 0 else |blocks| - 1;
      InitDataBlock();
      if data.Some? {
        data := Some(ToLast(data.value));
        StartLast(blocks, indexPos);
      }
      SkipEmptyDataBlocksBackward(|Concat(blocks)|);
    }

    method Next()
      requires Ok() && Valid(Whole())
      modifies this
      ensures Ok() && Whole() == Forth(old(Whole()))
    {
      hide Concat, Start, Separated;
      data := Some(Forth(data.value));
      StartLast(blocks, indexPos);
      SkipEmptyDataBlocksForward(at + 1);
    }

    method Prev()
      requires Ok() && Valid(Whole())
      modifies this
      ensures Ok() && Whole() == Back(old(Whole()))
    {
      hide Concat, Start, Separated;
      data := Some(Back(data.value));
      SkipEmptyDataBlocksBackward(at);
    }
  }

  lemma StartZero(blocks: seq<seq<Entry>>)
    ensures Start(blocks, 0) == 0
  {
  }

  lemma SameLength(blocks: seq<seq<Entry>>, index: seq<InternalKey>)
    requires Separated(blocks, index)
    ensures |index| == |blocks|
  {
  }

  /** The largest keys of the files of a sorted level are such an index, so the concatenating iterator of a level is a
      cursor over the one run of all its entries. */
  lemma LevelSeparated(files: seq<FileMeta>)
    requires ValidFiles(files) && SortedLevel(files)
    ensures Separated(EntriesOf(files), seq(|files|, i requires 0 <= i < |files| => files[i].largest))
  {
    var blocks := EntriesOf(files);
    forall i, e: Entry | 0 <= i < |blocks| && e in blocks[i] ensures LessEq(e.key, files[i].largest) {
      EntryInRange(files[i], e);
    }
    forall i, m, e: Entry | 0 <= i < m < |blocks| && e in blocks[m] ensures Less(files[i].largest, e.key) {
      EntryInRange(files[m], e);
    }
  }
}
