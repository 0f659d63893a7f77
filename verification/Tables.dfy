/** Tables: data blocks, an index of shortened separators, a filter; point lookup (table/table_builder.cc,
    table/table.cc). */
module Tables {
  import opened InternalKeys
  import opened Separators
  import opened Filters

  datatype TableRecord = TableRecord(key: TableKey, value: Bytes)

  datatype DataBlock = DataBlock(offset: nat, records: seq<TableRecord>)

  datatype Table = Table(blocks: seq<DataBlock>, index: seq<TableKey>, filter: Option<Bytes>)

  ghost predicate InOrder(rs: seq<TableRecord>) {
    forall i, j :: 0 <= i < j < |rs| ==> Precedes(rs[i].key, rs[j].key)
  }

  ghost predicate BlocksInOrder(blocks: seq<DataBlock>) {
    && (forall i :: 0 <= i < |blocks| ==> blocks[i].records != [] && InOrder(blocks[i].records))
    && (forall i, j :: 0 <= i < j < |blocks| ==> AllPrecede(blocks[i].records, blocks[j].records))
  }

  ghost predicate AllPrecede(a: seq<TableRecord>, b: seq<TableRecord>) {
    forall x, y :: x in a && y in b ==> Precedes(x.key, y.key)
  }

  function LastKey(b: DataBlock): TableKey
    requires b.records != []
  {
    b.records[|b.records| - 1].key
  }

  /** An index key at or after the last key of its block, before the next block even by user key. */
  ghost predicate IndexKey(blocks: seq<DataBlock>, i: nat, sep: TableKey)
    requires i < |blocks| && blocks[i].records != []
  {
    || sep == LastKey(blocks[i])
    || (Below(LastKey(blocks[i]).user, sep.user)
        && (i + 1 < |blocks| && blocks[i + 1].records != [] ==> Below(sep.user, blocks[i + 1].records[0].key.user)))
  }

  ghost predicate IndexRight(blocks: seq<DataBlock>, index: seq<TableKey>, n: nat) {
    && n <= |blocks| && n <= |index|
    && forall i :: 0 <= i < n ==> blocks[i].records != [] && IndexKey(blocks, i, index[i])
  }

  /** The filter, if it can be read at all, denies no user key of a block. */
  ghost predicate FilterRight(p: Policy, t: Table) {
    t.filter.Some? ==>
      forall i, r :: 0 <= i < |t.blocks| && r in t.blocks[i].records ==>
        FilterMayMatch(p, t.filter.value, t.blocks[i].offset, r.key.user)
  }

  ghost predicate TableOk(p: Policy, t: Table) {
    BlocksInOrder(t.blocks) && |t.index| == |t.blocks| && IndexRight(t.blocks, t.index, |t.index|) && FilterRight(p, t)
  }

  ghost predicate InTable(t: Table, e: TableRecord) {
    exists i :: 0 <= i < |t.blocks| && e in t.blocks[i].records
  }

  /** The first record at or after `k`. */
  ghost predicate IsFirst(t: Table, k: TableKey, e: TableRecord) {
    && InTable(t, e) && !Precedes(e.key, k)
    && forall x :: InTable(t, x) && !Precedes(x.key, k) ==> x == e || Precedes(e.key, x.key)
  }

  // ---------- lookup ----------

  /** What a block iterator's seek finds. */
  function SeekKey(keys: seq<TableKey>, k: TableKey): (i: nat)
    ensures i <= |keys|
    ensures forall j :: 0 <= j < i ==> Precedes(keys[j], k)
    ensures i < |keys| ==> !Precedes(keys[i], k)
  {
    if keys == [] || !Precedes(keys[0], k) then 0
    else
      var i := SeekKey(keys[1..], k);
      assert forall j :: 1 <= j < i + 1 ==> keys[j] == keys[1..][j - 1];
      i + 1
  }

  function Keys(rs: seq<TableRecord>): (ks: seq<TableKey>)
    ensures |ks| == |rs| && forall i :: 0 <= i < |rs| ==> ks[i] == rs[i].key
  {
    seq(|rs|, i requires 0 <= i < |rs| => rs[i].key)
  }

  /** Where a lookup looks: nowhere behind the last index key, or if the filter denies the user key for the block the
      index names; else in that block. */
  ghost predicate LookedUp(p: Policy, t: Table, k: TableKey, r: Option<TableRecord>) {
    var i := SeekKey(t.index, k);
    if i >= |t.blocks| || (t.filter.Some? && !FilterMayMatch(p, t.filter.value, t.blocks[i].offset, k.user)) then
      r == None
    else
      && (r.Some? ==> r.value in t.blocks[i].records)
      && forall e :: IsFirst(t, k, e) && e in t.blocks[i].records ==> r == Some(e)
  }

  /** `Table::InternalGet`: one seek in the index, a question to the filter, one seek in one block.  What it hands
      back is the first record at or after the key, and it hands it back whenever that has the key's user key. */
  method InternalGet(p: Policy, t: Table, k: TableKey) returns (r: Option<TableRecord>)
    requires TableOk(p, t)
    ensures r.Some? ==> IsFirst(t, k, r.value)
    ensures forall e :: IsFirst(t, k, e) && e.key.user == k.user ==> r == Some(e)
    ensures LookedUp(p, t, k, r)
  {
    hide Precedes, Below, FilterMayMatch, TableOk, SeekKey, IsFirst;
    TableParts(p, t);
    r := None;
    var i := SeekKey(t.index, k);
    forall e | IsFirst(t, k, e) && e.key.user == k.user ensures i < |t.blocks| && e in t.blocks[i].records {
      HomeBlock(p, t, k, i, e);
    }
    if i < |t.index| {
      if t.filter.Some? && !FilterMayMatch(p, t.filter.value, t.blocks[i].offset, k.user) {
        Admitted(p, t, i);
      } else {
        var rs := t.blocks[i].records;
        var j := SeekKey(Keys(rs), k);
        if j < |rs| {
          r := Some(rs[j]);
          FoundFirst(p, t, k, i, j);
          forall e | IsFirst(t, k, e) ensures r == Some(e) {
            OneFirst(t, k, e, rs[j]);
          }
        } else {
          AllBelow(rs, k);
          FirstNotBelow(t, k);
        }
      }
    }
  }

  lemma TableParts(p: Policy, t: Table)
    requires TableOk(p, t)
    ensures |t.index| == |t.blocks|
  {
  }

  lemma OneFirst(t: Table, k: TableKey, a: TableRecord, b: TableRecord)
    requires IsFirst(t, k, a) && IsFirst(t, k, b)
    ensures a == b
  {
    hide Precedes;
    PrecedesTotal(a.key, b.key);
  }

  /** A seek past the end: every record precedes the key. */
  lemma AllBelow(rs: seq<TableRecord>, k: TableKey)
    requires SeekKey(Keys(rs), k) == |rs|
    ensures forall e :: e in rs ==> Precedes(e.key, k)
  {
    hide Precedes, SeekKey;
    forall e | e in rs ensures Precedes(e.key, k) {
      var x :| 0 <= x < |rs| && rs[x] == e;
      assert Keys(rs)[x] == e.key;
    }
  }

  lemma FirstNotBelow(t: Table, k: TableKey)
    ensures forall e :: IsFirst(t, k, e) ==> !Precedes(e.key, k)
  {
  }

  /** The filter admits every user key of a block. */
  lemma Admitted(p: Policy, t: Table, i: nat)
    requires TableOk(p, t) && i < |t.blocks| && t.filter.Some?
    ensures forall e :: e in t.blocks[i].records ==> FilterMayMatch(p, t.filter.value, t.blocks[i].offset, e.key.user)
  {
    hide FilterMayMatch, BlocksInOrder, IndexRight;
  }

  /** Records do not come after the index key of their block. */
  lemma UnderIndex(p: Policy, t: Table, i: nat, e: TableRecord)
    requires TableOk(p, t) && i < |t.blocks| && e in t.blocks[i].records
    ensures e.key == t.index[i] || Precedes(e.key, t.index[i])
  {
    hide Below, FilterRight;
    var rs := t.blocks[i].records;
    var last := LastKey(t.blocks[i]);
    assert IndexKey(t.blocks, i, t.index[i]);
    var x :| 0 <= x < |rs| && rs[x] == e;
    assert e.key == last || Precedes(e.key, last);
    if t.index[i] != last && e.key != last {
      assert Precedes(last, t.index[i]);
      PrecedesTransitive(e.key, last, t.index[i]);
    }
  }

  /** Blocks in front of the one the index names hold only smaller keys. */
  lemma EarlierBlocks(p: Policy, t: Table, k: TableKey, j: nat, e: TableRecord)
    requires TableOk(p, t) && j < |t.blocks| && e in t.blocks[j].records && Precedes(t.index[j], k)
    ensures Precedes(e.key, k)
  {
    hide Below, FilterRight, Precedes;
    UnderIndex(p, t, j, e);
    if e.key != t.index[j] {
      PrecedesTransitive(e.key, t.index[j], k);
    }
  }

  /** The first record at or after `k`, if of `k`'s user key, lies in the block the index names. */
  lemma HomeBlock(p: Policy, t: Table, k: TableKey, i: nat, e: TableRecord)
    requires TableOk(p, t) && i == SeekKey(t.index, k)
    requires IsFirst(t, k, e) && e.key.user == k.user
    ensures i < |t.blocks| && e in t.blocks[i].records
  {
    hide Below, FilterRight, Precedes, SeekKey, BlocksInOrder, IndexRight;
    var j :| 0 <= j < |t.blocks| && e in t.blocks[j].records;
    if j < i {
      EarlierBlocks(p, t, k, j, e);
    }
    assert i <= j;
    if i < j {
      LastBelow(p, t, k, i, j, e);
      LaterBlocks(p, t, k, i, j, e);
    }
  }

  /** If the first record lies in a later block, block `i` ends before `k`. */
  lemma LastBelow(p: Policy, t: Table, k: TableKey, i: nat, j: nat, e: TableRecord)
    requires TableOk(p, t) && i < j < |t.blocks| && IsFirst(t, k, e) && e in t.blocks[j].records
    ensures t.blocks[i].records != [] && Precedes(LastKey(t.blocks[i]), k)
  {
    hide FilterRight, Below, Precedes, IndexRight;
    var b := t.blocks[i];
    var last := b.records[|b.records| - 1];
    assert last in b.records && InTable(t, last);
    assert AllPrecede(b.records, t.blocks[j].records);
    PrecedesTotal(last.key, e.key);
  }

  /** Behind a separator that is not before `k`, in a block that ends before `k`, there are only later user keys. */
  lemma LaterBlocks(p: Policy, t: Table, k: TableKey, i: nat, j: nat, e: TableRecord)
    requires TableOk(p, t) && i < j < |t.blocks| && e in t.blocks[j].records
    requires !Precedes(t.index[i], k) && t.blocks[i].records != [] && Precedes(LastKey(t.blocks[i]), k)
    ensures e.key.user != k.user
  {
    hide FilterRight, Below, InOrder, AllPrecede;
    assert IndexKey(t.blocks, i, t.index[i]);
    var first := t.blocks[i + 1].records[0].key.user;
    assert Below(t.index[i].user, first);
    FirstUser(p, t, i + 1, j, e);
    BelowTotal(k.user, t.index[i].user);
    if first != e.key.user {
      BelowTransitive(t.index[i].user, first, e.key.user);
    }
    BelowTotal(t.index[i].user, e.key.user);
  }

  lemma FirstUser(p: Policy, t: Table, i: nat, j: nat, e: TableRecord)
    requires TableOk(p, t) && i <= j < |t.blocks| && e in t.blocks[j].records
    ensures t.blocks[i].records != []
    ensures t.blocks[i].records[0].key.user == e.key.user || Below(t.blocks[i].records[0].key.user, e.key.user)
  {
    hide FilterRight, Below, IndexRight;
    var first := t.blocks[i].records[0];
    assert first in t.blocks[i].records;
    if i < j {
      assert AllPrecede(t.blocks[i].records, t.blocks[j].records);
    } else {
      var x :| 0 <= x < |t.blocks[j].records| && t.blocks[j].records[x] == e;
    }
  }

  /** The first record at or after `k` in the named block is the first of the table. */
  lemma FoundFirst(p: Policy, t: Table, k: TableKey, i: nat, j: nat)
    requires TableOk(p, t) && i == SeekKey(t.index, k) < |t.blocks|
    requires j == SeekKey(Keys(t.blocks[i].records), k) < |t.blocks[i].records|
    ensures IsFirst(t, k, t.blocks[i].records[j])
  {
    hide FilterRight, Below, Precedes, SeekKey, IndexRight;
    var rs := t.blocks[i].records;
    var e := rs[j];
    assert Keys(rs)[j] == e.key;
    assert e in rs && InTable(t, e);
    forall x | InTable(t, x) && !Precedes(x.key, k) ensures x == e || Precedes(e.key, x.key) {
      var m :| 0 <= m < |t.blocks| && x in t.blocks[m].records;
      if m < i {
        EarlierBlocks(p, t, k, m, x);
      } else if m == i {
        var y :| 0 <= y < |rs| && rs[y] == x;
        assert Keys(rs)[y] == x.key;
      } else {
        assert AllPrecede(rs, t.blocks[m].records);
      }
    }
  }
}
