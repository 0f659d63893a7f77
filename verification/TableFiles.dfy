/** Reading a table file: opening it by its footer, and a point lookup on its bytes (table/table.cc). */
module TableFiles {
  import opened InternalKeys
  import opened Masking
  import opened Coding
  import opened Separators
  import opened Filters
  import opened Tables
  import opened Blocks
  import opened BlockReading
  import opened TableFormat

  /** The entries of a data block are these records. */
  ghost predicate ItemsAre(items: seq<Item>, rs: seq<TableRecord>) {
    && |items| == |rs|
    && forall i :: 0 <= i < |rs| ==>
         items[i].key == EncodeKey(rs[i].key) && items[i].value == rs[i].value && rs[i].key.tag < TWO64
  }

  /** The entries of the index block give every index key the handle of its block. */
  ghost predicate IndexItems(items: seq<Item>, index: seq<TableKey>, handles: seq<Handle>) {
    && |items| == |index| <= |handles|
    && forall i :: 0 <= i < |index| ==>
         items[i].key == EncodeKey(index[i]) && items[i].value == HandleBytes(handles[i]) && index[i].tag < TWO64
           && HandleOk(handles[i])
  }

  /** A block with these entries can be read at the handle. */
  ghost predicate BlockAt(file: Bytes, h: Handle, items: seq<Item>) {
    exists starts :: ReadBlock(file, h).Some? && IsBlock(ReadBlock(file, h).value, items, starts)
  }

  ghost predicate DataAt(file: Bytes, h: Handle, b: DataBlock) {
    h.offset == b.offset && HandleOk(h) && exists items: seq<Item> ::
      BlockAt(file, h, items) && ItemsAre(items, b.records)
  }

  /** Where the parts of a table are in its file. */
  datatype Plan = Plan(handles: seq<Handle>, filter: Handle, meta: Handle, index: Handle)

  /** The file holds the table: data blocks, filter, a meta-index that names the filter, index, and footer. */
  ghost predicate IsTableFile(file: Bytes, t: Table, plan: Plan, filterKey: Bytes) {
    && HandleOk(plan.filter) && HandleOk(plan.meta) && HandleOk(plan.index)
    && |file| >= FOOTER && file[|file| - FOOTER..] == FooterBytes(plan.meta, plan.index)
    && |plan.handles| == |t.blocks|
    && (forall i :: 0 <= i < |t.blocks| ==> DataAt(file, plan.handles[i], t.blocks[i]))
    && (exists items: seq<Item> :: BlockAt(file, plan.index, items) && IndexItems(items, t.index, plan.handles))
    && (exists items: seq<Item> ::
          && BlockAt(file, plan.meta, items) && |items| == 1 && items[0].key == filterKey
          && items[0].value == HandleBytes(plan.filter))
    && t.filter.Some? && ReadBlock(file, plan.filter) == t.filter
  }

  // ---------- one block ----------

  /** What a seek finds in a block: the first entry whose key is not below the target. */
  ghost predicate FoundAt(lt: (Bytes, Bytes) -> bool, items: seq<Item>, target: Bytes, at: nat) {
    BelowUpTo(lt, items, at, target) && (at < |items| ==> !lt(items[at].key, target))
  }

  /** A new iterator over a block, one seek, and what it stands on. */
  method SeekBlock(b: Bytes, lt: (Bytes, Bytes) -> bool, target: Bytes, ghost items: seq<Item>, ghost starts: seq<nat>)
    returns (r: Option<(Bytes, Bytes)>, ghost at: nat)
    requires |b| < TWO32
    ensures IsBlock(b, items, starts) && Increasing(lt, items) ==>
              FoundAt(lt, items, target, at)
                && r == if at < |items| then Some((items[at].key, items[at].value)) else None
  {
    hide IsBlock, Increasing, BelowUpTo;
    if IsBlock(b, items, starts) {
      OpenBuilt(b, items, starts);
    }
    var o := OpenBlock(b);
    if o.None? {
      return None, 0;
    }
    OpenFits(b);
    var (restarts, count) := o.value;
    var iter := new BlockIter(b, restarts, count, lt, items, starts);
    iter.Seek(target);
    at := iter.at;
    r := None;
    if iter.Valid() {
      var end := iter.valueAt + iter.valueLength;
      r := Some((iter.key, if end <= |b| then b[iter.valueAt..end] else []));
    }
  }

  lemma OpenFits(b: Bytes)
    requires OpenBlock(b).Some?
    ensures var (restarts, count) := OpenBlock(b).value; count > 0 && restarts + 4 * count + 4 <= |b|
  {
    hide DecodeFixed32;
  }

  // ---------- opening ----------

  /** An open table: its file, the index block, and the filter block if there is one. */
  datatype OpenTable = OpenTable(file: Bytes, index: Bytes, filter: Option<Bytes>)

  /** The index block of a file: its footer can be read, and the block it names is whole. */
  function IndexOf(file: Bytes): Option<Bytes> {
    if |file| < FOOTER then None
    else
      var footer := DecodeFooter(file[|file| - FOOTER..]);
      if footer.None? then None else ReadBlock(file, footer.value.1)
  }

  /** `Table::Open`, `ReadMeta` and `ReadFilter`. */
  method Open(file: Bytes, filterKey: Bytes, ghost t: Table, ghost plan: Plan) returns (r: Option<OpenTable>)
    requires |file| < TWO32
    ensures r.Some? <==> IndexOf(file).Some?
    ensures r.Some? ==> r.value.file == file && r.value.index == IndexOf(file).value
    ensures IsTableFile(file, t, plan, filterKey) ==>
              r.Some? && ReadBlock(file, plan.index) == Some(r.value.index) && r.value.filter == t.filter
  {
    hide BlockAt, DataAt, FooterBytes, DecodeFooter, ReadBlock, HandleBytes, DecodeHandle, Increasing, IndexItems;
    hide IsBlock, FoundAt;
    ghost var good := IsTableFile(file, t, plan, filterKey);
    if good {
      FooterRoundTrip(plan.meta, plan.index);
    }
    if |file| < FOOTER {
      return None;
    }
    var footer := DecodeFooter(file[|file| - FOOTER..]);
    if footer.None? {
      return None;
    }
    var (metaHandle, indexHandle) := footer.value;
    if good {
      IndexThere(file, t, plan, filterKey);
    }
    var index := ReadBlock(file, indexHandle);
    if index.None? {
      return None;
    }
    var filter: Option<Bytes> := None;
    ghost var items, starts: seq<nat> := [], [];
    if good {
      items, starts := MetaThere(file, t, plan, filterKey);
    }
    var meta := ReadBlock(file, metaHandle);
    if meta.Some? {
      ReadFits(file, metaHandle);
      var found, at := SeekBlock(meta.value, Below, filterKey, items, starts);
      if good {
        OneItem(items, filterKey, at);
      }
      if found.Some? && found.value.0 == filterKey {
        var h := DecodeHandle(found.value.1);
        if good {
          HandleRoundTrip(plan.filter, []);
          assert HandleBytes(plan.filter) + [] == HandleBytes(plan.filter);
        }
        if h.Some? {
          filter := ReadBlock(file, h.value.handle);
        }
      }
    }
    r := Some(OpenTable(file, index.value, filter));
  }

  lemma IndexThere(file: Bytes, t: Table, plan: Plan, filterKey: Bytes)
    requires IsTableFile(file, t, plan, filterKey)
    ensures ReadBlock(file, plan.index).Some?
  {
    hide IsBlock, ReadBlock, DataAt;
  }

  lemma MetaThere(file: Bytes, t: Table, plan: Plan, filterKey: Bytes) returns (items: seq<Item>, starts: seq<nat>)
    requires IsTableFile(file, t, plan, filterKey)
    ensures ReadBlock(file, plan.meta).Some? && IsBlock(ReadBlock(file, plan.meta).value, items, starts)
    ensures |items| == 1 && items[0].key == filterKey && items[0].value == HandleBytes(plan.filter)
    ensures Increasing(Below, items)
  {
    hide IsBlock, ReadBlock, DataAt, Below, IndexItems;
    items :| BlockAt(file, plan.meta, items) && |items| == 1 && items[0].key == filterKey
      && items[0].value == HandleBytes(plan.filter);
    starts :| IsBlock(ReadBlock(file, plan.meta).value, items, starts);
    forall a, b, c | Below(a, b) && Below(b, c) ensures Below(a, c) {
      BelowTransitive(a, b, c);
    }
  }

  lemma OneItem(items: seq<Item>, key: Bytes, at: nat)
    requires |items| == 1 && items[0].key == key && FoundAt(Below, items, key, at)
    ensures at == 0
  {
    hide Below;
    BelowTotal(key, key);
  }

  lemma ReadFits(file: Bytes, h: Handle)
    requires ReadBlock(file, h).Some?
    ensures |ReadBlock(file, h).value| <= |file|
  {
    hide Unmask, DecodeFixed32;
  }

  // ---------- lookup ----------

  /** Index keys increase. */
  lemma IndexIncreases(p: Policy, t: Table, i: nat, j: nat)
    requires TableOk(p, t) && i < j < |t.index|
    ensures Precedes(t.index[i], t.index[j])
  {
    hide Precedes, Below, FilterRight;
    TableParts(p, t);
    assert t.blocks[j].records != [];
    var e := t.blocks[j].records[0];
    assert e in t.blocks[j].records;
    UnderIndex(p, t, j, e);
    if !Precedes(t.index[i], e.key) {
      BeforeNext(p, t, i, j);
      assert false;
    }
    if e.key != t.index[j] {
      PrecedesTransitive(t.index[i], e.key, t.index[j]);
    }
  }

  /** An index key lies before every later block. */
  lemma BeforeNext(p: Policy, t: Table, i: nat, j: nat)
    requires TableOk(p, t) && i < j < |t.blocks|
    ensures |t.index| == |t.blocks| && t.blocks[j].records != [] && Precedes(t.index[i], t.blocks[j].records[0].key)
  {
    hide Below, FilterRight, FilterMayMatch;
    TableParts(p, t);
    assert IndexKey(t.blocks, i, t.index[i]);
    assert t.blocks[i + 1].records != [] && t.blocks[j].records != [];
    var last, next, e := LastKey(t.blocks[i]), t.blocks[i + 1].records[0], t.blocks[j].records[0];
    assert AllPrecede(t.blocks[i].records, t.blocks[j].records);
    if t.index[i] != last {
      assert Precedes(t.index[i], next.key);
      if j > i + 1 {
        assert AllPrecede(t.blocks[i + 1].records, t.blocks[j].records);
        PrecedesTransitive(t.index[i], next.key, e.key);
      }
    }
  }

  /** A seek among encoded keys finds what a seek among the keys finds. */
  lemma FoundIsSeek(items: seq<Item>, keys: seq<TableKey>, k: TableKey, at: nat)
    requires |items| == |keys| && k.tag < TWO64 && FoundAt(KeyLess, items, EncodeKey(k), at)
    requires forall i :: 0 <= i < |keys| ==> items[i].key == EncodeKey(keys[i]) && keys[i].tag < TWO64
    ensures at == SeekKey(keys, k)
  {
    hide Precedes, EncodeKey, DecodeKey, SeekKey;
    KeyRoundTrip(k);
    forall i | 0 <= i < |keys| ensures KeyLess(items[i].key, EncodeKey(k)) <==> Precedes(keys[i], k) {
      KeyRoundTrip(keys[i]);
    }
  }

  lemma EncodedIncrease(items: seq<Item>, keys: seq<TableKey>)
    requires |items| == |keys| && forall i, j :: 0 <= i < j < |keys| ==> Precedes(keys[i], keys[j])
    requires forall i :: 0 <= i < |keys| ==> items[i].key == EncodeKey(keys[i]) && keys[i].tag < TWO64
    ensures Increasing(KeyLess, items)
  {
    hide Precedes, EncodeKey, DecodeKey;
    KeyLessTransitive();
    forall i, j | 0 <= i < j < |items| ensures KeyLess(items[i].key, items[j].key) {
      KeyRoundTrip(keys[i]);
      KeyRoundTrip(keys[j]);
    }
  }

  lemma IndexSeeks(p: Policy, t: Table, plan: Plan, file: Bytes, filterKey: Bytes)
    returns (items: seq<Item>, starts: seq<nat>)
    requires IsTableFile(file, t, plan, filterKey) && TableOk(p, t)
    ensures ReadBlock(file, plan.index).Some? && IsBlock(ReadBlock(file, plan.index).value, items, starts)
    ensures Increasing(KeyLess, items) && IndexItems(items, t.index, plan.handles)
  {
    hide IsBlock, ReadBlock, DataAt, TableOk, Increasing, Precedes, HandleBytes, EncodeKey;
    items :| BlockAt(file, plan.index, items) && IndexItems(items, t.index, plan.handles);
    starts :| IsBlock(ReadBlock(file, plan.index).value, items, starts);
    forall i, j | 0 <= i < j < |t.index| ensures Precedes(t.index[i], t.index[j]) {
      IndexIncreases(p, t, i, j);
    }
    EncodedIncrease(items, t.index);
  }

  lemma DataSeeks(p: Policy, t: Table, plan: Plan, file: Bytes, filterKey: Bytes, i: nat)
    returns (items: seq<Item>, starts: seq<nat>)
    requires IsTableFile(file, t, plan, filterKey) && TableOk(p, t) && i < |t.blocks|
    ensures ReadBlock(file, plan.handles[i]).Some? && IsBlock(ReadBlock(file, plan.handles[i]).value, items, starts)
    ensures Increasing(KeyLess, items) && ItemsAre(items, t.blocks[i].records)
  {
    hide IsBlock, ReadBlock, Increasing, Precedes, HandleBytes, EncodeKey, IndexItems, FilterRight;
    assert DataAt(file, plan.handles[i], t.blocks[i]);
    items :| BlockAt(file, plan.handles[i], items) && ItemsAre(items, t.blocks[i].records);
    starts :| IsBlock(ReadBlock(file, plan.handles[i]).value, items, starts);
    assert InOrder(t.blocks[i].records);
    EncodedIncrease(items, Keys(t.blocks[i].records));
  }

  /** `Table::InternalGet` on the bytes of the file: a seek in the index block, a question to the filter block, a seek
      in one data block.  It hands back the first record at or after the key whenever that has the key's user key. */
  method InternalGet(o: OpenTable, p: Policy, k: TableKey, ghost t: Table, ghost plan: Plan, ghost filterKey: Bytes)
    returns (r: Option<TableRecord>)
    requires IsTableFile(o.file, t, plan, filterKey) && TableOk(p, t) && |o.file| < TWO32 && k.tag < TWO64
    requires ReadBlock(o.file, plan.index) == Some(o.index) && o.filter == t.filter
    ensures r.Some? ==> IsFirst(t, k, r.value)
    ensures forall e :: IsFirst(t, k, e) && e.key.user == k.user ==> r == Some(e)
    ensures LookedUp(p, t, k, r)
  {
    hide Precedes, Below, FilterMayMatch, TableOk, SeekKey, IsFirst, IsTableFile, ReadBlock, IsBlock, Increasing;
    hide FoundAt, EncodeKey, DecodeKey;
    hide HandleBytes, DecodeHandle;
    TableParts(p, t);
    r := None;
    ghost var items, starts := IndexSeeks(p, t, plan, o.file, filterKey);
    ReadFits(o.file, plan.index);
    var entry, at := SeekBlock(o.index, KeyLess, EncodeKey(k), items, starts);
    FoundIsSeek(items, t.index, k, at);
    forall e | IsFirst(t, k, e) && e.key.user == k.user ensures at < |t.blocks| && e in t.blocks[at].records {
      HomeBlock(p, t, k, at, e);
    }
    if entry.Some? {
      HandleRoundTrip(plan.handles[at], []);
      assert HandleBytes(plan.handles[at]) + [] == entry.value.1;
      var h := DecodeHandle(entry.value.1).value.handle;
      OffsetIs(o.file, t, plan, filterKey, at);
      if o.filter.Some? && !FilterMayMatch(p, o.filter.value, h.offset, k.user) {
        Admitted(p, t, at);
      } else {
        r := GetFromBlock(o, p, k, h, t, plan, filterKey, at);
      }
    }
  }

  lemma OffsetIs(file: Bytes, t: Table, plan: Plan, filterKey: Bytes, i: nat)
    requires IsTableFile(file, t, plan, filterKey) && i < |t.blocks|
    ensures |plan.handles| == |t.blocks| && plan.handles[i].offset == t.blocks[i].offset
  {
    hide BlockAt, IndexItems, FooterBytes;
    assert DataAt(file, plan.handles[i], t.blocks[i]);
  }

  /** The block named by the index. */
  method GetFromBlock(o: OpenTable, p: Policy, k: TableKey, h: Handle, ghost t: Table, ghost plan: Plan,
                      ghost filterKey: Bytes, ghost i: nat)
    returns (r: Option<TableRecord>)
    requires IsTableFile(o.file, t, plan, filterKey) && TableOk(p, t) && |o.file| < TWO32 && k.tag < TWO64
    requires i == SeekKey(t.index, k) < |t.blocks| == |plan.handles| && h == plan.handles[i]
    ensures r.Some? ==> IsFirst(t, k, r.value) && r.value in t.blocks[i].records
    ensures forall e :: IsFirst(t, k, e) && e in t.blocks[i].records ==> r == Some(e)
  {
    hide Precedes, Below, TableOk, SeekKey, IsFirst, IsTableFile, ReadBlock, IsBlock, Increasing, FoundAt, EncodeKey;
    hide DecodeKey;
    r := None;
    ghost var rs := t.blocks[i].records;
    ghost var items, starts := DataSeeks(p, t, plan, o.file, filterKey, i);
    ReadFits(o.file, h);
    var b := ReadBlock(o.file, h);
    var entry, j := SeekBlock(b.value, KeyLess, EncodeKey(k), items, starts);
    FoundIsSeek(items, Keys(rs), k, j);
    if entry.Some? {
      r := Some(TableRecord(DecodeKey(entry.value.0), entry.value.1));
      KeyRoundTrip(rs[j].key);
      assert r == Some(rs[j]);
      FoundFirst(p, t, k, i, j);
      forall e | IsFirst(t, k, e) ensures r == Some(e) {
        OneFirst(t, k, e, rs[j]);
      }
    } else {
      AllBelow(rs, k);
      FirstNotBelow(t, k);
    }
  }
}
