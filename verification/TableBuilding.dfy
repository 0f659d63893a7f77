/** `TableBuilder`: sorted records into the bytes of a table file (table/table_builder.cc). */
module TableBuilding {
  import opened InternalKeys
  import opened Masking
  import opened Coding
  import opened Separators
  import opened Filters
  import opened Tables
  import opened Blocks
  import opened TableFormat
  import opened TableFiles

  /** The user keys of a block at `offset` are in its filter, made or still collecting. */
  ghost predicate Collected(lists: seq<seq<Bytes>>, keys: seq<Bytes>, b: DataBlock) {
    var i := b.offset / FILTER_BASE;
    && i <= |lists|
    && forall r :: r in b.records ==> r.key.user in (if i < |lists| then lists[i] else keys)
  }

  ghost predicate AllCollected(lists: seq<seq<Bytes>>, keys: seq<Bytes>, blocks: seq<DataBlock>) {
    forall i :: 0 <= i < |blocks| ==> Collected(lists, keys, blocks[i])
  }

  /** Lists and keys change only by more keys, or by closing the list being collected. */
  ghost predicate Carried(lists: seq<seq<Bytes>>, keys: seq<Bytes>, lists': seq<seq<Bytes>>, keys': seq<Bytes>) {
    || (lists' == lists && keys <= keys')
    || (lists + [keys] <= lists')
  }

  lemma CollectedStays(lists: seq<seq<Bytes>>, keys: seq<Bytes>, lists': seq<seq<Bytes>>, keys': seq<Bytes>,
                       b: DataBlock)
    requires Collected(lists, keys, b) && Carried(lists, keys, lists', keys')
    ensures Collected(lists', keys', b)
  {
    var i := b.offset / FILTER_BASE;
    if lists' == lists {
      forall r | r in b.records ensures r.key.user in (if i < |lists| then lists[i] else keys') {
      }
    } else {
      assert (lists + [keys])[i] == lists'[i];
      assert i < |lists| ==> (lists + [keys])[i] == lists[i];
    }
  }

  lemma AllCollectedStays(lists: seq<seq<Bytes>>, keys: seq<Bytes>, lists': seq<seq<Bytes>>, keys': seq<Bytes>,
                          blocks: seq<DataBlock>)
    requires AllCollected(lists, keys, blocks) && Carried(lists, keys, lists', keys')
    ensures AllCollected(lists', keys', blocks)
  {
    hide Collected, Carried;
    forall i | 0 <= i < |blocks| ensures Collected(lists', keys', blocks[i]) {
      CollectedStays(lists, keys, lists', keys', blocks[i]);
    }
  }

  /** Everything added so far: finished blocks, then the block being filled. */
  ghost predicate AllAre(all: seq<TableRecord>, blocks: seq<DataBlock>, current: seq<TableRecord>) {
    forall e :: e in all <==> (exists i :: 0 <= i < |blocks| && e in blocks[i].records) || e in current
  }

  ghost predicate Shaped(blocks: seq<DataBlock>, current: seq<TableRecord>) {
    && BlocksInOrder(blocks) && InOrder(current)
    && forall i :: 0 <= i < |blocks| ==> AllPrecede(blocks[i].records, current)
  }

  lemma ShapedMore(blocks: seq<DataBlock>, current: seq<TableRecord>, all: seq<TableRecord>, r: TableRecord)
    requires Shaped(blocks, current) && AllAre(all, blocks, current) && forall x :: x in all ==> Precedes(x.key, r.key)
    ensures Shaped(blocks, current + [r]) && AllAre(all + [r], blocks, current + [r])
  {
    hide Precedes, BlocksInOrder;
    forall i | 0 <= i < |current| ensures Precedes(current[i].key, r.key) {
      assert current[i] in current;
    }
    forall i | 0 <= i < |blocks| ensures AllPrecede(blocks[i].records, current + [r]) {
      forall x, y | x in blocks[i].records && y in current + [r] ensures Precedes(x.key, y.key) {
        assert x in all;
        assert AllPrecede(blocks[i].records, current);
      }
    }
  }

  lemma ShapedFlush(blocks: seq<DataBlock>, current: seq<TableRecord>, all: seq<TableRecord>, offset: nat)
    requires Shaped(blocks, current) && AllAre(all, blocks, current) && current != []
    ensures Shaped(blocks + [DataBlock(offset, current)], []) && AllAre(all, blocks + [DataBlock(offset, current)], [])
  {
    hide Precedes;
    var b := DataBlock(offset, current);
    var now := blocks + [b];
    forall e ensures e in all <==> exists i :: 0 <= i < |now| && e in now[i].records {
      if i :| 0 <= i < |blocks| && e in blocks[i].records {
        assert e in now[i].records;
      }
      if e in current {
        assert e in now[|blocks|].records;
      }
      if i :| 0 <= i < |now| && e in now[i].records {
        assert i < |blocks| ==> e in blocks[i].records;
      }
    }
  }

  /** The keys of the finished blocks' index so far, the last one still to come while it is pending. */
  ghost predicate Indexed(blocks: seq<DataBlock>, index: seq<TableKey>, current: seq<TableRecord>, pending: bool) {
    && |index| == |blocks| - (if pending then 1 else 0)
    && (pending ==> current == [] && blocks != [])
    && IndexRight(blocks, index, |index|)
    && (!pending && blocks != [] && current != [] ==> SeparatedFrom(blocks, index, current[0].key))
    && (!pending && blocks != [] ==> current != [])
  }

  /** The last index key lies before `next`. */
  ghost predicate SeparatedFrom(blocks: seq<DataBlock>, index: seq<TableKey>, next: TableKey) {
    && |index| == |blocks| > 0 && blocks[|blocks| - 1].records != []
    && Separates(LastKey(blocks[|blocks| - 1]), index[|index| - 1], next)
  }

  lemma IndexedFlush(blocks: seq<DataBlock>, index: seq<TableKey>, current: seq<TableRecord>, offset: nat)
    requires Indexed(blocks, index, current, false) && current != []
    ensures Indexed(blocks + [DataBlock(offset, current)], index, [], true)
  {
    hide Below;
    var now := blocks + [DataBlock(offset, current)];
    forall i | 0 <= i < |index| ensures now[i].records != [] && IndexKey(now, i, index[i]) {
      assert IndexKey(blocks, i, index[i]);
    }
  }

  lemma IndexedNext(blocks: seq<DataBlock>, index: seq<TableKey>, sep: TableKey, r: TableRecord)
    requires Indexed(blocks, index, [], true) && blocks[|blocks| - 1].records != []
    requires Separates(LastKey(blocks[|blocks| - 1]), sep, r.key)
    ensures Indexed(blocks, index + [sep], [r], false)
  {
    hide Below;
    var now := index + [sep];
    forall i | 0 <= i < |now| ensures blocks[i].records != [] && IndexKey(blocks, i, now[i]) {
      if i < |index| {
        assert IndexKey(blocks, i, index[i]);
      }
    }
  }

  lemma IndexedLast(blocks: seq<DataBlock>, index: seq<TableKey>, sep: TableKey)
    requires Indexed(blocks, index, [], true) && blocks[|blocks| - 1].records != []
    requires sep == LastKey(blocks[|blocks| - 1]) || Below(LastKey(blocks[|blocks| - 1]).user, sep.user)
    ensures |index| + 1 == |blocks| && IndexRight(blocks, index + [sep], |blocks|)
  {
    hide Below;
    var now := index + [sep];
    forall i | 0 <= i < |now| ensures blocks[i].records != [] && IndexKey(blocks, i, now[i]) {
      if i < |index| {
        assert IndexKey(blocks, i, index[i]);
      }
    }
  }

  // ---------- what is in the file ----------

  ghost predicate AllData(file: Bytes, handles: seq<Handle>, blocks: seq<DataBlock>) {
    |handles| == |blocks| && forall i :: 0 <= i < |blocks| ==> DataAt(file, handles[i], blocks[i])
  }

  lemma DataStays(file: Bytes, now: Bytes, handles: seq<Handle>, blocks: seq<DataBlock>)
    requires AllData(file, handles, blocks) && file <= now
    ensures AllData(now, handles, blocks)
  {
    hide ReadBlock, IsBlock, ItemsAre, BlockAt;
    forall i | 0 <= i < |blocks| ensures DataAt(now, handles[i], blocks[i]) {
      assert DataAt(file, handles[i], blocks[i]);
      var items :| BlockAt(file, handles[i], items) && ItemsAre(items, blocks[i].records);
      BlockStays(file, now, handles[i], items);
    }
  }

  lemma BlockStays(file: Bytes, now: Bytes, h: Handle, items: seq<Item>)
    requires BlockAt(file, h, items) && file <= now
    ensures BlockAt(now, h, items)
  {
    hide ReadBlock, IsBlock;
    assert now == file + now[|file|..];
    ReadStays(file, now[|file|..], h);
    var starts :| IsBlock(ReadBlock(file, h).value, items, starts);
    assert IsBlock(ReadBlock(now, h).value, items, starts);
  }

  lemma BlockWritten(file: Bytes, raw: Bytes, items: seq<Item>, starts: seq<nat>)
    requires IsBlock(raw, items, starts)
    ensures BlockAt(file + RawBlock(raw), Handle(|file|, |raw|), items)
  {
    hide ReadBlock, IsBlock, RawBlock;
    RawBlockReads(file, raw, []);
    assert file + RawBlock(raw) + [] == file + RawBlock(raw);
  }

  /** A flushed block joins those in the file. */
  lemma DataWritten(file: Bytes, handles: seq<Handle>, blocks: seq<DataBlock>, raw: Bytes, items: seq<Item>,
                    starts: seq<nat>, rs: seq<TableRecord>)
    requires AllData(file, handles, blocks) && IsBlock(raw, items, starts) && ItemsAre(items, rs)
    requires |file| + |raw| < TWO64
    ensures AllData(file + RawBlock(raw), handles + [Handle(|file|, |raw|)], blocks + [DataBlock(|file|, rs)])
  {
    hide ReadBlock, IsBlock, RawBlock, ItemsAre, BlockAt;
    DataStays(file, file + RawBlock(raw), handles, blocks);
    BlockWritten(file, raw, items, starts);
    var h, b := Handle(|file|, |raw|), DataBlock(|file|, rs);
    assert DataAt(file + RawBlock(raw), h, b);
    forall i | 0 <= i < |blocks| + 1 ensures DataAt(file + RawBlock(raw), (handles + [h])[i], (blocks + [b])[i]) {
      assert i < |blocks| ==> DataAt(file + RawBlock(raw), handles[i], blocks[i]);
    }
  }

  lemma ItemsMore(items: seq<Item>, rs: seq<TableRecord>, items': seq<Item>, r: TableRecord)
    requires ItemsAre(items, rs) && |items'| == |items| + 1 && items'[..|items|] == items && r.key.tag < TWO64
    requires items'[|items|].key == EncodeKey(r.key) && items'[|items|].value == r.value
    ensures ItemsAre(items', rs + [r])
  {
    hide EncodeKey;
    forall i | 0 <= i < |items| ensures items'[i] == items[i] {
      assert items'[..|items|][i] == items'[i];
    }
  }

  lemma IndexMore(items: seq<Item>, index: seq<TableKey>, handles: seq<Handle>, items': seq<Item>, sep: TableKey)
    requires IndexItems(items, index, handles) && |items'| == |items| + 1 && items'[..|items|] == items
    requires sep.tag < TWO64
    requires |handles| == |index| + 1 && HandleOk(handles[|index|])
    requires items'[|items|].key == EncodeKey(sep) && items'[|items|].value == HandleBytes(handles[|index|])
    ensures IndexItems(items', index + [sep], handles)
  {
    hide EncodeKey, HandleBytes;
    forall i | 0 <= i < |items| ensures items'[i] == items[i] {
      assert items'[..|items|][i] == items'[i];
    }
  }

  lemma IndexLater(items: seq<Item>, index: seq<TableKey>, handles: seq<Handle>, h: Handle)
    requires IndexItems(items, index, handles)
    ensures IndexItems(items, index, handles + [h])
  {
    hide EncodeKey, HandleBytes;
  }

  lemma RecordCount(items: seq<Item>, rs: seq<TableRecord>)
    requires ItemsAre(items, rs)
    ensures |items| == |rs|
  {
  }

  lemma NoItems()
    ensures ItemsAre([], []) && IndexItems([], [], []) && AllData([], [], [])
  {
  }

  lemma HandleThere(file: Bytes, handles: seq<Handle>, blocks: seq<DataBlock>, i: nat)
    requires AllData(file, handles, blocks) && i < |handles|
    ensures HandleOk(handles[i])
  {
    hide BlockAt, ItemsAre;
    assert DataAt(file, handles[i], blocks[i]);
  }

  lemma IndexCount(items: seq<Item>, index: seq<TableKey>, handles: seq<Handle>)
    requires IndexItems(items, index, handles)
    ensures |items| == |index|
  {
  }

  /** A block builder's buffer is empty exactly when it has no entries. */
  lemma BufferIs(b: BlockBuilder)
    requires b.Ok()
    ensures b.interval >= 1 && (b.buffer == [] <==> b.items == [])
  {
    hide EntryBytes, Chain, StartsOk, Spaced, Offsets;
    if b.items != [] {
      EntrySize(b.items[0]);
    }
  }

  // ---------- the end of the file ----------

  ghost predicate MetaItems(items: seq<Item>, filterKey: Bytes, filter: Handle) {
    |items| == 1 && items[0].key == filterKey && items[0].value == HandleBytes(filter)
  }

  /** Everything but the footer is in the file. */
  ghost predicate FileParts(file: Bytes, t: Table, plan: Plan, filterKey: Bytes, meta: seq<Item>, index: seq<Item>) {
    && HandleOk(plan.filter) && HandleOk(plan.meta) && HandleOk(plan.index)
    && AllData(file, plan.handles, t.blocks)
    && BlockAt(file, plan.index, index) && IndexItems(index, t.index, plan.handles)
    && BlockAt(file, plan.meta, meta) && MetaItems(meta, filterKey, plan.filter)
    && t.filter.Some? && ReadBlock(file, plan.filter) == t.filter
  }

  lemma FooterLast(file: Bytes, t: Table, plan: Plan, filterKey: Bytes, meta: seq<Item>, index: seq<Item>)
    requires FileParts(file, t, plan, filterKey, meta, index)
    ensures IsTableFile(file + FooterBytes(plan.meta, plan.index), t, plan, filterKey)
  {
    hide ReadBlock, BlockAt, IndexItems, FooterBytes, HandleBytes, DataAt;
    var footer := FooterBytes(plan.meta, plan.index);
    var now := file + footer;
    DataStays(file, now, plan.handles, t.blocks);
    BlockStays(file, now, plan.index, index);
    BlockStays(file, now, plan.meta, meta);
    ReadStays(file, footer, plan.filter);
    assert now[|now| - FOOTER..] == footer;
  }

  // ---------- the records so far ----------

  /** A table being built: all records, the finished blocks and their index keys, the records of the block being filled,
      whether the last finished block is still without an index key, the last key, the length of the file, and the keys
      of the filters made and of the next one. */
  datatype Draft = Draft(all: seq<TableRecord>, blocks: seq<DataBlock>, index: seq<TableKey>, current: seq<TableRecord>,
                         pending: bool, lastKey: TableKey, offset: nat, lists: seq<seq<Bytes>>, keys: seq<Bytes>)

  ghost predicate DraftOk(d: Draft) {
    && Shaped(d.blocks, d.current) && AllAre(d.all, d.blocks, d.current)
    && Indexed(d.blocks, d.index, d.current, d.pending)
    && |d.lists| == d.offset / FILTER_BASE
    && AllCollected(d.lists, d.keys, d.blocks) && Collected(d.lists, d.keys, DataBlock(d.offset, d.current))
    && (d.all != [] ==> d.lastKey == d.all[|d.all| - 1].key)
    && (d.pending ==>
          d.all != [] && d.blocks[|d.blocks| - 1].records != [] && d.lastKey == LastKey(d.blocks[|d.blocks| - 1]))
    && (d.current != [] ==> d.lastKey == d.current[|d.current| - 1].key)
  }

  lemma NothingYet(d: Draft)
    requires d == Draft([], [], [], [], false, d.lastKey, 0, [], [])
    ensures DraftOk(d)
  {
  }

  /** A record joins the block being filled; `sep` is the index key of the block before, if that was pending. */
  lemma DraftAdd(d: Draft, r: TableRecord, sep: TableKey)
    requires DraftOk(d) && forall x :: x in d.all ==> Precedes(x.key, r.key)
    requires d.pending ==> Separates(d.lastKey, sep, r.key)
    ensures DraftOk(Draft(d.all + [r], d.blocks, if d.pending then d.index + [sep] else d.index, d.current + [r], false,
                          r.key, d.offset, d.lists, d.keys + [r.key.user]))
  {
    hide Precedes, Below, Shaped, AllAre, IndexRight, AllCollected;
    AllCollectedStays(d.lists, d.keys, d.lists, d.keys + [r.key.user], d.blocks);
    ShapedMore(d.blocks, d.current, d.all, r);
    if d.pending {
      IndexedNext(d.blocks, d.index, sep, r);
    }
  }

  /** The block being filled is finished. */
  lemma DraftFlush(d: Draft, d': Draft)
    requires DraftOk(d) && d.current != []
    requires |d'.lists| == d'.offset / FILTER_BASE && Carried(d.lists, d.keys, d'.lists, d'.keys)
    requires d' == Draft(d.all, d.blocks + [DataBlock(d.offset, d.current)], d.index, [], true, d.lastKey, d'.offset,
                         d'.lists, d'.keys)
    ensures DraftOk(d')
  {
    hide Precedes, Below, Shaped, AllAre, IndexRight, AllCollected;
    var b := DataBlock(d.offset, d.current);
    SomeAdded(d.all, d.blocks, d.current);
    ShapedFlush(d.blocks, d.current, d.all, d.offset);
    IndexedFlush(d.blocks, d.index, d.current, d.offset);
    CollectedMore(d.lists, d.keys, d.blocks, b);
    AllCollectedStays(d.lists, d.keys, d'.lists, d'.keys, d.blocks + [b]);
  }

  lemma BlocksPend(d: Draft)
    requires DraftOk(d) && d.current == []
    ensures d.blocks != [] ==> d.pending
  {
    hide Shaped, AllAre, AllCollected, Collected, IndexRight;
  }

  /** With the last index key the table is complete. */
  lemma DraftEnd(d: Draft, lists: seq<seq<Bytes>>, succ: TableKey, p: Policy, t: Table)
    requires DraftOk(d) && d.current == []
    requires d.pending ==> succ == d.lastKey || Below(d.lastKey.user, succ.user)
    requires lists == if d.keys == [] then d.lists else d.lists + [d.keys]
    requires t.blocks == d.blocks && t.index == (if d.pending then d.index + [succ] else d.index)
    requires t.filter.Some? && IsFilterBlock(p, lists, t.filter.value)
    ensures forall e :: InTable(t, e) <==> e in d.all
    ensures |t.filter.value| < TWO32 ==> TableOk(p, t)
  {
    hide Precedes, Below, Collected, IndexRight, BlocksInOrder, IsFilterBlock, FilterMayMatch;
    if d.pending {
      IndexedLast(d.blocks, d.index, succ);
    }
    assert lists + [] == lists;
    AllCollectedStays(d.lists, d.keys, lists, d.keys, d.blocks);
    if |t.filter.value| < TWO32 {
      FilterHolds(p, lists, d.keys, t);
    }
  }

  /** The builder's `Rep`: the file, the block being filled, the index block, the filter. */
  class TableBuilder {
    const blockSize: nat
    const filterKey: Bytes
    const filter: FilterBlockBuilder
    const dataBlock: BlockBuilder
    const indexBlock: BlockBuilder
    var file: Bytes
    var pendingIndex: bool
    var pendingHandle: Handle
    var lastKey: TableKey
    /** The table so far: finished blocks and their handles, index keys, records of the block being filled, and all
        records in order. */
    ghost var blocks: seq<DataBlock>
    ghost var handles: seq<Handle>
    ghost var index: seq<TableKey>
    ghost var current: seq<TableRecord>
    ghost var all: seq<TableRecord>

    ghost function Now(): Draft
      reads this, filter
    {
      Draft(all, blocks, index, current, pendingIndex, lastKey, |file|, filter.lists, filter.keys)
    }

    ghost predicate Shape()
      reads this, filter
    {
      filter.Ok() && DraftOk(Now())
    }

    /** What is in the file, as long as that is below 4 GB, and in the two block builders. */
    ghost predicate Bytewise()
      reads this, dataBlock, indexBlock
    {
      && dataBlock.Ok() && indexBlock.Ok() && dataBlock != indexBlock
      && lastKey.tag < TWO64 && ItemsAre(dataBlock.items, current)
      && |handles| == |blocks| && |index| == |handles| - (if pendingIndex then 1 else 0)
      && (pendingIndex ==> pendingHandle == handles[|handles| - 1])
      && (|file| < TWO32 ==> AllData(file, handles, blocks) && IndexItems(indexBlock.items, index, handles))
    }

    ghost predicate Ok()
      reads this, filter, dataBlock, indexBlock
    {
      Shape() && Bytewise()
    }

    constructor (p: Policy, key: Bytes, size: nat, interval: nat)
      requires PolicyOk(p) && interval >= 1
      ensures Ok() && all == [] && filter.policy == p && filterKey == key && fresh(filter) && fresh(dataBlock)
      ensures fresh(indexBlock)
    {
      hide FilterBlockBuilder.Ok, BlockBuilder.Ok, DraftOk, AllData, ItemsAre, IndexItems;
      blockSize, filterKey := size, key;
      filter := new FilterBlockBuilder(p);
      dataBlock := new BlockBuilder(interval);
      indexBlock := new BlockBuilder(1);
      file, pendingIndex, pendingHandle, lastKey := [], false, Handle(0, 0), TableKey([], 0);
      blocks, handles, index, current, all := [], [], [], [], [];
      new;
      NoItems();
      NothingYet(Now());
    }

    /** Gives the last finished block its index entry. */
    method AddIndex(sep: TableKey)
      requires Bytewise() && pendingIndex && sep.tag < TWO64
      modifies this`pendingIndex, this`index, indexBlock
      ensures Bytewise() && !pendingIndex && index == old(index) + [sep]
    {
      hide EncodeKey, HandleBytes, BlockBuilder.Ok, AllData, ItemsAre, IndexItems;
      ghost var items := indexBlock.items;
      indexBlock.Add(EncodeKey(sep), HandleBytes(pendingHandle));
      if |file| < TWO32 {
        HandleThere(file, handles, blocks, |index|);
        IndexCount(items, index, handles);
        IndexMore(items, index, handles, indexBlock.items, sep);
      }
      index := index + [sep];
      pendingIndex := false;
    }

    /** Adds a record greater than all before, and ends the block when it has reached the block size. */
    method Add(key: TableKey, value: Bytes)
      requires Ok() && key.tag < TWO64 && forall x :: x in all ==> Precedes(x.key, key)
      modifies this, filter, dataBlock, indexBlock
      ensures Ok() && all == old(all) + [TableRecord(key, value)] && old(file) <= file
      ensures if old(pendingIndex) then exists s :: ShortSeparator(old(lastKey), key, s) && index == old(index) + [s]
              else index == old(index)
      ensures var more := old(current) + [TableRecord(key, value)];
              if old(dataBlock.SizeWith(EncodeKey(key), value)) >= blockSize
              then current == [] && blocks == old(blocks) + [DataBlock(|old(file)|, more)]
              else current == more && blocks == old(blocks) && file == old(file)
    {
      hide Precedes, Below, DraftOk, FilterBlockBuilder.Ok, BlockBuilder.Ok, EncodeKey, AllData, IndexItems, ItemsAre;
      ghost var sep := lastKey;
      if pendingIndex {
        var s := FindInternalSeparator(lastKey, key);
        sep := s;
        AddIndex(s);
      }
      filter.AddKey(key.user);
      AddToBlock(key, value);
      ghost var r := TableRecord(key, value);
      DraftAdd(old(Now()), r, sep);
      all := all + [r];
      if dataBlock.CurrentSizeEstimate() >= blockSize {
        Flush();
      }
    }

    method AddToBlock(key: TableKey, value: Bytes)
      requires Bytewise() && !pendingIndex && key.tag < TWO64
      modifies this`lastKey, this`current, dataBlock
      ensures Bytewise() && lastKey == key && current == old(current) + [TableRecord(key, value)]
      ensures dataBlock.CurrentSizeEstimate() == old(dataBlock.SizeWith(EncodeKey(key), value))
    {
      hide BlockBuilder.Ok, EncodeKey, AllData, IndexItems, ItemsAre;
      lastKey := key;
      ghost var items := dataBlock.items;
      dataBlock.Add(EncodeKey(key), value);
      RecordCount(items, current);
      ItemsMore(items, current, dataBlock.items, TableRecord(key, value));
      current := current + [TableRecord(key, value)];
    }

    /** A block with its type and checksum. */
    method WriteRawBlock(raw: Bytes) returns (h: Handle)
      modifies this`file
      ensures h == Handle(|old(file)|, |raw|) && file == old(file) + RawBlock(raw)
    {
      hide Crc32c.Extend, Crc32c.Checksum, Mask, Fixed32;
      h := Handle(|file|, |raw|);
      file := file + raw;
      var crc := Crc32c.Extend(Crc32c.Checksum(raw), [NO_COMPRESSION]);
      file := file + ([NO_COMPRESSION] + Fixed32(Mask(crc)));
    }

    /** Ends the current block, if it has records. */
    method Flush()
      requires Ok()
      modifies this, filter, dataBlock
      ensures Ok() && all == old(all) && current == [] && old(file) <= file && lastKey == old(lastKey)
      ensures index == old(index)
      ensures blocks == if old(current) == [] then old(blocks) else old(blocks) + [DataBlock(|old(file)|, old(current))]
    {
      hide DraftOk, FilterBlockBuilder.Ok, BlockBuilder.Ok, AllData, IndexItems, ItemsAre;
      RecordCount(dataBlock.items, current);
      BufferIs(dataBlock);
      if dataBlock.buffer == [] {
        return;
      }
      NotPending(Now());
      WriteDataBlock();
      LongerFile(|old(file)|, |file|);
      filter.StartBlock(|file|);
      DraftFlush(old(Now()), Now());
    }

    /** The current block, its type and its checksum go to the file. */
    method WriteDataBlock()
      requires Bytewise() && current != [] && !pendingIndex
      modifies this`file, this`pendingHandle, this`pendingIndex, this`blocks, this`handles, this`current, dataBlock
      ensures Bytewise() && pendingIndex && current == [] && old(file) <= file
      ensures blocks == old(blocks) + [DataBlock(|old(file)|, old(current))]
    {
      hide BlockBuilder.Ok, IsBlock, RawBlock, AllData, IndexItems, ItemsAre;
      BufferIs(dataBlock);
      ghost var items, file0, handles0 := dataBlock.items, file, handles;
      var raw := dataBlock.Finish();
      ghost var starts := dataBlock.starts;
      pendingHandle := WriteRawBlock(raw);
      if |file| < TWO32 {
        DataWritten(file0, handles0, blocks, raw, items, starts, current);
        IndexLater(indexBlock.items, index, handles0, pendingHandle);
      }
      dataBlock.Reset();
      NoItems();
      blocks, handles := blocks + [DataBlock(|file0|, current)], handles + [pendingHandle];
      pendingIndex := true;
      current := [];
    }

    /** The file of everything added: filter, meta-index, index and footer follow the data blocks.  It holds the table
        as long as it is below 4 GB. */
    method Finish() returns (ghost t: Table, ghost plan: Plan)
      requires Ok()
      modifies this, filter, dataBlock, indexBlock
      ensures forall e :: InTable(t, e) <==> e in old(all)
      ensures t.blocks == if old(current) == [] then old(blocks)
                          else old(blocks) + [DataBlock(|old(file)|, old(current))]
      ensures t.blocks != [] ==> exists succ :: ShortSuccessor(old(lastKey), succ) && t.index == old(index) + [succ]
      ensures |file| < TWO32 ==> TableOk(filter.policy, t) && IsTableFile(file, t, plan, filterKey)
    {
      hide DraftOk, FilterBlockBuilder.Ok, IsFilterBlock, BlockBuilder.Ok, AllData, IndexItems, ItemsAre, FileParts;
      hide FooterBytes, Below, ShortSuccessor;
      Flush();
      assert blocks != [] ==> pendingIndex by { BlocksPend(Now()); }
      ghost var draft := Now();
      var contents := filter.Finish();
      ghost var front, meta, indexItems, succ;
      front, plan, meta, indexItems, succ := WriteParts(contents);
      t := Table(blocks, index, Some(contents));
      DraftEnd(draft, filter.lists, succ, filter.policy, t);
      if |file| < TWO32 {
        FooterLast(front, t, plan, filterKey, meta, indexItems);
      }
    }

    /** The filter block, the meta-index block, the index block with its last entry, and the footer. */
    method WriteParts(contents: Bytes)
      returns (ghost front: Bytes, ghost plan: Plan, ghost meta: seq<Item>, ghost indexItems: seq<Item>,
               ghost succ: TableKey)
      requires Bytewise()
      modifies this`file, this`index, this`pendingIndex, indexBlock
      ensures index == if old(pendingIndex) then old(index) + [succ] else old(index)
      ensures old(pendingIndex) ==> succ == lastKey || Below(lastKey.user, succ.user)
      ensures old(pendingIndex) ==> ShortSuccessor(lastKey, succ)
      ensures file == front + FooterBytes(plan.meta, plan.index) && |contents| <= |front|
      ensures |file| < TWO32 ==>
                FileParts(front, Table(blocks, index, Some(contents)), plan, filterKey, meta, indexItems)
    {
      hide Below, BlockBuilder.Ok, IsBlock, RawBlock, AllData, IndexItems, ItemsAre, ReadBlock, BlockAt, HandleBytes;
      hide FooterBytes, MetaItems, ShortSuccessor;
      var filterHandle, metaHandle;
      filterHandle, metaHandle, meta := WriteMeta(contents);
      ghost var withMeta := file;
      succ := lastKey;
      if pendingIndex {
        var next := FindInternalSuccessor(lastKey);
        succ := next;
        AddIndex(next);
      }
      indexItems := indexBlock.items;
      var raw := indexBlock.Finish();
      var indexHandle := WriteRawBlock(raw);
      BlockWritten(withMeta, raw, indexItems, indexBlock.starts);
      front := file;
      plan := Plan(handles, filterHandle, metaHandle, indexHandle);
      if |front| < TWO32 {
        DataStays(withMeta, front, handles, blocks);
        BlockStays(withMeta, front, metaHandle, meta);
        ReadStays(withMeta, RawBlock(raw), filterHandle);
      }
      file := file + FooterBytes(metaHandle, indexHandle);
    }

    /** The filter block and the meta-index block, which names it. */
    method WriteMeta(contents: Bytes) returns (filterHandle: Handle, metaHandle: Handle, ghost meta: seq<Item>)
      requires Bytewise()
      modifies this`file
      ensures Bytewise() && old(file) <= file && |contents| <= |file|
      ensures filterHandle.offset + filterHandle.size <= |file| && metaHandle.offset + metaHandle.size <= |file|
      ensures ReadBlock(file, filterHandle) == Some(contents)
      ensures BlockAt(file, metaHandle, meta) && MetaItems(meta, filterKey, filterHandle)
    {
      hide BlockBuilder.Ok, IsBlock, RawBlock, AllData, IndexItems, ItemsAre, ReadBlock, BlockAt, HandleBytes;
      ghost var data := file;
      filterHandle := WriteRawBlock(contents);
      RawBlockReads(data, contents, []);
      assert data + RawBlock(contents) + [] == file;
      ghost var filtered := file;
      var metaBlock := new BlockBuilder(1);
      metaBlock.Add(filterKey, HandleBytes(filterHandle));
      var raw := metaBlock.Finish();
      meta := metaBlock.items;
      metaHandle := WriteRawBlock(raw);
      BlockWritten(filtered, raw, meta, metaBlock.starts);
      ReadStays(filtered, RawBlock(raw), filterHandle);
      if |file| < TWO32 {
        DataStays(data, file, handles, blocks);
      }
    }
  }

  lemma NotPending(d: Draft)
    requires DraftOk(d) && d.current != []
    ensures !d.pending && |d.lists| == d.offset / FILTER_BASE
  {
    hide Shaped, AllAre, IndexRight, AllCollected, Collected;
  }

  lemma SomeAdded(all: seq<TableRecord>, blocks: seq<DataBlock>, current: seq<TableRecord>)
    requires AllAre(all, blocks, current) && current != []
    ensures all != []
  {
    assert current[0] in all;
  }

  lemma CollectedMore(lists: seq<seq<Bytes>>, keys: seq<Bytes>, blocks: seq<DataBlock>, b: DataBlock)
    requires AllCollected(lists, keys, blocks) && Collected(lists, keys, b)
    ensures AllCollected(lists, keys, blocks + [b])
  {
    hide Collected;
  }

  lemma LongerFile(a: nat, b: nat)
    requires a <= b
    ensures a / FILTER_BASE <= b / FILTER_BASE
  {
  }

  lemma FilterHolds(p: Policy, lists: seq<seq<Bytes>>, keys: seq<Bytes>, t: Table)
    requires AllCollected(lists, keys, t.blocks) && t.filter.Some?
    requires IsFilterBlock(p, lists, t.filter.value) && |t.filter.value| < TWO32
    ensures FilterRight(p, t)
  {
    hide IsFilterBlock, FilterMayMatch;
    forall i, r | 0 <= i < |t.blocks| && r in t.blocks[i].records
      ensures FilterMayMatch(p, t.filter.value, t.blocks[i].offset, r.key.user)
    {
      assert Collected(lists, keys, t.blocks[i]);
      FilterDeniesNoKey(p, lists, t.filter.value, t.blocks[i].offset, r.key.user);
    }
  }
}
