/** Byte strings as user keys: the bytewise order is that of some reals, so what is proved of the engine holds of keys
    made of bytes, and a lookup in a table file is a lookup in the entries the engine knows of that file. */
module KeyEmbedding {
  import opened InternalKeys
  import opened Files
  import opened Separators
  import opened Tables

  /** A byte string as a fraction to base 257, the end of the string below every byte. */
  function Embed(b: Bytes): (x: real)
    ensures 0.0 <= x < 1.0
  {
    if b == [] then 0.0 else (b[0] as int as real + 1.0 + Embed(b[1..])) / 257.0
  }

  /** The bytewise order is the order of these reals. */
  lemma {:induction false} EmbedOrder(a: Bytes, b: Bytes)
    ensures Below(a, b) <==> Embed(a) < Embed(b)
    decreases |a|
  {
    if a != [] && b != [] {
      var x, y := Embed(a[1..]), Embed(b[1..]);
      EmbedOrder(a[1..], b[1..]);
      if a[0] < b[0] {
        assert a[0] as int as real + 1.0 <= b[0] as int as real;
        Smaller(a[0] as int as real + 1.0 + x, b[0] as int as real + 1.0 + y);
      } else if b[0] < a[0] {
        assert b[0] as int as real + 1.0 <= a[0] as int as real;
        Smaller(b[0] as int as real + 1.0 + y, a[0] as int as real + 1.0 + x);
      } else {
        Smaller(a[0] as int as real + 1.0 + x, b[0] as int as real + 1.0 + y);
        Smaller(b[0] as int as real + 1.0 + y, a[0] as int as real + 1.0 + x);
      }
    }
  }

  lemma Smaller(x: real, y: real)
    ensures x < y <==> x / 257.0 < y / 257.0
  {
  }

  lemma EmbedInjective(a: Bytes, b: Bytes)
    ensures a == b <==> Embed(a) == Embed(b)
  {
    hide Below, Embed;
    EmbedOrder(a, b);
    EmbedOrder(b, a);
    BelowTotal(a, b);
  }

  // ---------- internal keys ----------

  /** A tag is a sequence number and one of the two types. */
  predicate TagOk(tag: nat) {
    tag % 256 <= 1
  }

  /** The engine's key for a key of a table. */
  function KeyOf(k: TableKey): InternalKey {
    InternalKey(Embed(k.user), k.tag / 256, if k.tag % 256 == 1 then Value else Deletion)
  }

  lemma KeyOfTag(k: TableKey)
    requires TagOk(k.tag)
    ensures Tag(KeyOf(k)) == k.tag
  {
  }

  /** Table keys are ordered as the engine orders its keys. */
  lemma KeyOrder(a: TableKey, b: TableKey)
    requires TagOk(a.tag) && TagOk(b.tag)
    ensures Precedes(a, b) <==> Less(KeyOf(a), KeyOf(b))
    ensures a == b <==> KeyOf(a) == KeyOf(b)
  {
    hide Below, Embed, Tag;
    EmbedOrder(a.user, b.user);
    EmbedInjective(a.user, b.user);
    KeyOfTag(a);
    KeyOfTag(b);
  }

  // ---------- tables ----------

  function EntryOfRecord(r: TableRecord): Entry {
    Entry(KeyOf(r.key), r.value)
  }

  function EntriesOfRecords(rs: seq<TableRecord>): (es: seq<Entry>)
    ensures |es| == |rs| && forall i :: 0 <= i < |rs| ==> es[i] == EntryOfRecord(rs[i])
  {
    seq(|rs|, i requires 0 <= i < |rs| => EntryOfRecord(rs[i]))
  }

  ghost predicate RecordsOk(rs: seq<TableRecord>) {
    InOrder(rs) && forall r :: r in rs ==> TagOk(r.key.tag)
  }

  /** The records of a table, in order, are a sorted run of the engine. */
  lemma RecordsSorted(rs: seq<TableRecord>)
    requires RecordsOk(rs)
    ensures Sorted(EntriesOfRecords(rs))
  {
    hide Precedes, Less, KeyOf;
    var es := EntriesOfRecords(rs);
    forall i, j | 0 <= i < j < |es| ensures Less(es[i].key, es[j].key) {
      assert rs[i] in rs && rs[j] in rs;
      KeyOrder(rs[i].key, rs[j].key);
    }
  }

  /** The table key that a read of `user` at sequence number `s` looks up. */
  function ReadKey(user: Bytes, s: nat): TableKey {
    TableKey(user, s * 256 + 1)
  }

  /** The record handed back by a table lookup, kept if it has the user key that was asked for. */
  function Saved(user: Bytes, r: Option<TableRecord>): Option<Entry> {
    if r.Some? && r.value.key.user == user then Some(EntryOfRecord(r.value)) else None
  }

  /** What a lookup in a table gives is what the engine looks up in the entries of that table. */
  lemma GetIsLookup(t: Table, rs: seq<TableRecord>, user: Bytes, s: nat, r: Option<TableRecord>)
    requires RecordsOk(rs) && forall e :: InTable(t, e) <==> e in rs
    requires r.Some? ==> IsFirst(t, ReadKey(user, s), r.value)
    requires forall e :: IsFirst(t, ReadKey(user, s), e) && e.key.user == user ==> r == Some(e)
    ensures Saved(user, r) == Lookup(EntriesOfRecords(rs), Embed(user), s)
  {
    hide Precedes, Less, Below, Embed, InTable;
    var k := ReadKey(user, s);
    var es := EntriesOfRecords(rs);
    var i := Seek(es, LookupKey(Embed(user), s));
    assert KeyOf(k) == LookupKey(Embed(user), s);
    forall j | 0 <= j < |rs|
      ensures Precedes(rs[j].key, k) <==> Less(es[j].key, KeyOf(k))
      ensures rs[j].key.user == user <==> es[j].key.user == Embed(user)
    {
      assert rs[j] in rs;
      KeyOrder(rs[j].key, k);
      EmbedInjective(rs[j].key.user, user);
    }
    if i < |es| {
      FirstAt(t, rs, k, i);
      assert r.Some? ==> r.value == rs[i] by {
        if r.Some? {
          OneFirst(t, k, r.value, rs[i]);
        }
      }
    }
  }

  lemma FirstAt(t: Table, rs: seq<TableRecord>, k: TableKey, i: nat)
    requires RecordsOk(rs) && (forall e :: InTable(t, e) <==> e in rs) && i < |rs|
    requires !Precedes(rs[i].key, k) && forall j :: 0 <= j < i ==> Precedes(rs[j].key, k)
    ensures IsFirst(t, k, rs[i])
  {
    hide Precedes, InTable;
    assert rs[i] in rs;
    forall x | InTable(t, x) && !Precedes(x.key, k) ensures x == rs[i] || Precedes(rs[i].key, x.key) {
      var j :| 0 <= j < |rs| && rs[j] == x;
    }
  }
}
