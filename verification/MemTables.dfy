/** Memtable entries as bytes, and a point read on them (db/memtable.cc, `LookupKey` of db/dbformat.cc). */
module MemTables {
  import opened InternalKeys
  import opened Files
  import opened Masking
  import opened Coding
  import opened Separators
  import opened Tables
  import opened TableFormat
  import opened KeyEmbedding

  /** Length of the internal key, the internal key, length of the value, the value. */
  function MemEntry(r: TableRecord): Bytes {
    PutSlice(EncodeKey(r.key)) + PutSlice(r.value)
  }

  /** `LookupKey::memtable_key`. */
  function MemKey(k: TableKey): Bytes {
    PutSlice(EncodeKey(k))
  }

  predicate RecordFits(r: TableRecord) {
    |r.key.user| + 8 < TWO32 && |r.value| < TWO32 && r.key.tag < TWO64
  }

  /** The internal key in front of an entry. */
  function KeyOfEntry(entry: Bytes): Bytes {
    var k := GetSlice(entry);
    if k.None? then [] else k.value.value
  }

  /** `MemTable::KeyComparator`: entries are compared by their keys, whatever follows. */
  predicate EntryLess(a: Bytes, b: Bytes) {
    KeyLess(KeyOfEntry(a), KeyOfEntry(b))
  }

  lemma EntryReads(r: TableRecord)
    requires RecordFits(r)
    ensures GetSlice(MemEntry(r)) == Some(ParsedSlice(EncodeKey(r.key), PutSlice(r.value)))
    ensures GetSlice(PutSlice(r.value)) == Some(ParsedSlice(r.value, []))
    ensures DecodeKey(KeyOfEntry(MemEntry(r))) == r.key
  {
    hide PutSlice, GetSlice, EncodeKey, DecodeKey;
    SliceRoundTrip(EncodeKey(r.key), PutSlice(r.value));
    SliceRoundTrip(r.value, []);
    assert PutSlice(r.value) + [] == PutSlice(r.value);
    KeyRoundTrip(r.key);
  }

  lemma MemKeyReads(k: TableKey)
    requires |k.user| + 8 < TWO32 && k.tag < TWO64
    ensures DecodeKey(KeyOfEntry(MemKey(k))) == k
  {
    hide PutSlice, GetSlice, EncodeKey, DecodeKey;
    SliceRoundTrip(EncodeKey(k), []);
    assert PutSlice(EncodeKey(k)) + [] == MemKey(k);
    KeyRoundTrip(k);
  }

  ghost predicate AreEntries(table: seq<Bytes>, records: seq<TableRecord>) {
    && |table| == |records|
    && forall i :: 0 <= i < |records| ==> RecordFits(records[i]) && table[i] == MemEntry(records[i])
  }

  lemma InsertedEntries(table: seq<Bytes>, records: seq<TableRecord>, entry: Bytes, r: TableRecord, i: nat)
    requires AreEntries(table, records) && RecordFits(r) && entry == MemEntry(r) && i <= |table|
    ensures AreEntries(table[..i] + [entry] + table[i..], records[..i] + [r] + records[i..])
  {
    hide RecordFits, MemEntry;
  }

  /** The entries in the order of their keys, as the skip list keeps them. */
  class MemTable {
    var table: seq<Bytes>
    ghost var records: seq<TableRecord>

    ghost predicate Valid()
      reads this
    {
      RecordsOk(records) && AreEntries(table, records)
    }

    constructor ()
      ensures Valid() && records == []
    {
      table, records := [], [];
    }

    /** The first entry not before a key. */
    method Find(key: Bytes, ghost k: TableKey) returns (i: nat)
      requires Valid() && DecodeKey(KeyOfEntry(key)) == k
      ensures i <= |records| && forall j :: 0 <= j < i ==> Precedes(records[j].key, k)
      ensures i < |records| ==> !Precedes(records[i].key, k)
    {
      hide Precedes, MemEntry, KeyOfEntry, DecodeKey;
      i := 0;
      while i < |table| && EntryLess(table[i], key)
        invariant i <= |table| && forall j :: 0 <= j < i ==> Precedes(records[j].key, k)
      {
        EntryReads(records[i]);
        i := i + 1;
      }
      if i < |table| {
        EntryReads(records[i]);
      }
    }

    /** `MemTable::Add`: the entry goes where its key belongs. */
    method Add(s: nat, kind: ValueType, user: Bytes, value: Bytes)
      requires Valid() && |user| + 8 < TWO32 && |value| < TWO32 && s <= MAX_SEQUENCE
      requires var tag := s * 256 + (if kind.Value? then 1 else 0);
               forall r :: r in records ==> r.key != TableKey(user, tag)
      modifies this
      ensures Valid()
      ensures var r := TableRecord(TableKey(user, s * 256 + (if kind.Value? then 1 else 0)), value);
              var i := Seek(EntriesOfRecords(old(records)), KeyOf(r.key));
              records == old(records)[..i] + [r] + old(records)[i..]
                && EntryOfRecord(r) == Entry(InternalKey(Embed(user), s, kind), value)
    {
      hide Precedes, MemEntry, EncodeKey, PutSlice, Embed, Less, KeyOfEntry, DecodeKey;
      var k := TableKey(user, s * 256 + (if kind.Value? then 1 else 0));
      ghost var r := TableRecord(k, value);
      MemKeyReads(k);
      var i := Find(MemKey(k), k);
      FoundIsSeekOf(records, k, i);
      var entry := PutSlice(EncodeKey(k)) + PutSlice(value);
      assert entry == MemEntry(r) by { EntryIs(r); }
      InsertedInOrder(records, r, i);
      hide RecordsOk, EntriesOfRecords, Seek, TWO64, TWO32;
      InsertedEntries(table, records, entry, r, i);
      table := table[..i] + [entry] + table[i..];
      records := records[..i] + [r] + records[i..];
    }

    /** `MemTable::Get`: the value of the newest entry at or before `s`, or that it was deleted; nothing if there is no
        such entry.  It is what the engine looks up among the entries. */
    method Get(user: Bytes, s: nat) returns (r: Option<Option<Bytes>>)
      requires Valid() && |user| + 8 < TWO32 && s <= MAX_SEQUENCE
      ensures var e := Lookup(EntriesOfRecords(records), Embed(user), s);
              r == if e.None? then None else Some(if e.value.key.kind.Value? then Some(e.value.value) else None)
    {
      hide Precedes, MemEntry, EncodeKey, PutSlice, GetSlice, Embed, Less, KeyOfEntry, DecodeFixed64;
      var k := ReadKey(user, s);
      MemKeyReads(k);
      var i := Find(MemKey(k), k);
      FoundIsSeekOf(records, k, i);
      assert KeyOf(k) == LookupKey(Embed(user), s);
      r := None;
      if i < |table| {
        var entry := GetSlice(table[i]);
        EntryReads(records[i]);
        EmbedInjective(records[i].key.user, user);
        var key := DecodeKey(entry.value.value);
        assert key == records[i].key by { KeyRoundTrip(records[i].key); }
        if key.user == user {
          assert records[i] in records;
          if key.tag % 256 == 1 {
            var v := GetSlice(entry.value.rest);
            r := Some(Some(v.value.value));
          } else {
            r := Some(None);
          }
        }
      }
    }
  }

  lemma EntryIs(r: TableRecord)
    ensures MemEntry(r) == PutSlice(EncodeKey(r.key)) + PutSlice(r.value)
  {
  }

  /** A seek among the keys is the engine's seek among the entries. */
  lemma FoundIsSeekOf(rs: seq<TableRecord>, k: TableKey, i: nat)
    requires RecordsOk(rs) && TagOk(k.tag) && i <= |rs|
    requires (forall j :: 0 <= j < i ==> Precedes(rs[j].key, k)) && (i < |rs| ==> !Precedes(rs[i].key, k))
    ensures i == Seek(EntriesOfRecords(rs), KeyOf(k))
  {
    hide Precedes, Less, KeyOf;
    var es := EntriesOfRecords(rs);
    forall j | 0 <= j < |rs| ensures Precedes(rs[j].key, k) <==> Less(es[j].key, KeyOf(k)) {
      assert rs[j] in rs;
      KeyOrder(rs[j].key, k);
    }
  }

  lemma InsertedInOrder(rs: seq<TableRecord>, r: TableRecord, i: nat)
    requires RecordsOk(rs) && TagOk(r.key.tag) && i <= |rs| && forall x :: x in rs ==> x.key != r.key
    requires (forall j :: 0 <= j < i ==> Precedes(rs[j].key, r.key)) && (i < |rs| ==> !Precedes(rs[i].key, r.key))
    ensures RecordsOk(rs[..i] + [r] + rs[i..])
  {
    hide Precedes;
    forall j | i <= j < |rs| ensures Precedes(r.key, rs[j].key) {
      assert rs[i] in rs;
      PrecedesTotal(r.key, rs[i].key);
      if j > i {
        PrecedesTransitive(r.key, rs[i].key, rs[j].key);
      }
    }
    var all := rs[..i] + [r] + rs[i..];
    forall a, b | 0 <= a < b < |all| ensures Precedes(all[a].key, all[b].key) {
      assert all[a] == if a < i then rs[a] else if a == i then r else rs[a - 1];
      assert all[b] == if b < i then rs[b] else if b == i then r else rs[b - 1];
    }
  }
}
