/** `LRUCache`: one shard of the block cache, with its two lists and reference counts (util/cache.cc). */
module LruCaches {
  import opened InternalKeys
  import opened HandleTables

  /** `refs` counts clients, and the cache itself while `inCache`. */
  datatype Handle = Handle(key: Bytes, hash: nat, value: nat, charge: nat, inCache: bool, refs: nat)

  /** Live handles by number, the list of unused ones (oldest first), the list of used ones, the sum of the charges
      in the cache, the handles passed to their deleter, and the number of the next handle. */
  datatype Shard = Shard(handles: map<nat, Handle>, lru: seq<nat>, inUse: seq<nat>, usage: int,
                         deleted: seq<nat>, nextId: nat)

  function Without(s: seq<nat>, x: nat): seq<nat> {
    if s == [] then [] else if s[0] == x then Without(s[1..], x) else [s[0]] + Without(s[1..], x)
  }

  /** A client gets hold of a handle. */
  function Ref(s: Shard, id: nat): Shard
    requires id in s.handles
  {
    var h := s.handles[id];
    var t := if h.refs == 1 && h.inCache then s.(lru := Without(s.lru, id), inUse := s.inUse + [id]) else s;
    t.(handles := s.handles[id := h.(refs := h.refs + 1)])
  }

  /** A reference goes away; the last one frees the handle. */
  function Unref(s: Shard, id: nat): Shard
    requires id in s.handles && s.handles[id].refs > 0
  {
    var h := s.handles[id];
    if h.refs == 1 then s.(handles := s.handles - {id}, deleted := s.deleted + [id])
    else
      var t := if h.inCache && h.refs == 2 then s.(inUse := Without(s.inUse, id), lru := s.lru + [id]) else s;
      t.(handles := s.handles[id := h.(refs := h.refs - 1)])
  }

  /** A handle leaves the cache, having left the hash table. */
  function FinishErase(s: Shard, id: nat): Shard
    requires id in s.handles && s.handles[id].refs > 0
  {
    var h := s.handles[id];
    Unref(s.(lru := Without(s.lru, id), inUse := Without(s.inUse, id),
             handles := s.handles[id := h.(inCache := false)], usage := s.usage - h.charge), id)
  }

  /** A new handle, held by the cache and by one client. */
  function AddCached(s: Shard, key: Bytes, hash: nat, value: nat, charge: nat): Shard {
    s.(handles := s.handles[s.nextId := Handle(key, hash, value, charge, true, 2)],
       inUse := s.inUse + [s.nextId], usage := s.usage + charge, nextId := s.nextId + 1)
  }

  function AddUncached(s: Shard, key: Bytes, hash: nat, value: nat, charge: nat): Shard {
    s.(handles := s.handles[s.nextId := Handle(key, hash, value, charge, false, 1)], nextId := s.nextId + 1)
  }

  // ---------- the invariant ----------

  ghost predicate Distinct(s: seq<nat>) {
    forall i, j :: 0 <= i < j < |s| ==> s[i] != s[j]
  }

  function Held(held: map<nat, nat>, id: nat): nat {
    if id in held then held[id] else 0
  }

  function SumOf(handles: map<nat, Handle>, ids: seq<nat>): nat {
    if ids == [] then 0 else SumOf(handles, ids[1..]) + (if ids[0] in handles then handles[ids[0]].charge else 0)
  }

  /** A handle is counted right and is on exactly the list its count says; a freed one is held by nobody. */
  ghost predicate IdOk(s: Shard, held: map<nat, nat>, contents: map<Slot, nat>, id: nat) {
    if id in s.handles then
      var h := s.handles[id];
      && id < s.nextId && id !in s.deleted
      && h.refs == Held(held, id) + (if h.inCache then 1 else 0) && h.refs > 0
      && (id in s.lru <==> h.inCache && h.refs == 1)
      && (id in s.inUse <==> h.inCache && h.refs >= 2)
      && (h.inCache ==> (h.hash, h.key) in contents && contents[(h.hash, h.key)] == id)
    else
      id !in s.lru && id !in s.inUse && Held(held, id) == 0 && (id in s.deleted <==> id < s.nextId)
  }

  /** The table names handles in the cache by their own keys. */
  ghost predicate SlotsOk(s: Shard, contents: map<Slot, nat>) {
    forall slot :: slot in contents ==>
      contents[slot] in s.handles && s.handles[contents[slot]].inCache
        && slot == (s.handles[contents[slot]].hash, s.handles[contents[slot]].key)
  }

  ghost predicate CacheOk(s: Shard, held: map<nat, nat>, contents: map<Slot, nat>) {
    && (forall id :: IdOk(s, held, contents, id))
    && SlotsOk(s, contents)
    && Distinct(s.lru) && Distinct(s.inUse) && Distinct(s.deleted)
    && s.usage == SumOf(s.handles, s.lru) + SumOf(s.handles, s.inUse)
  }

  lemma {:induction false} WithoutIs(s: seq<nat>, x: nat)
    ensures forall y :: y in Without(s, x) <==> y in s && y != x
    ensures Distinct(s) ==> Distinct(Without(s, x))
    ensures x !in s ==> Without(s, x) == s
  {
    if s != [] {
      WithoutIs(s[1..], x);
      assert s == [s[0]] + s[1..];
      if Distinct(s) {
        assert s[0] !in s[1..];
        assert Distinct(s[1..]);
      }
    }
  }

  lemma {:induction false} SumWithout(handles: map<nat, Handle>, s: seq<nat>, x: nat)
    requires Distinct(s)
    ensures SumOf(handles, Without(s, x))
             == SumOf(handles, s) - (if x in s && x in handles then handles[x].charge else 0)
  {
    if s != [] {
      assert s == [s[0]] + s[1..];
      assert Distinct(s[1..]);
      SumWithout(handles, s[1..], x);
      if s[0] == x {
        assert x !in s[1..];
        WithoutIs(s[1..], x);
      } else {
        assert ([s[0]] + Without(s[1..], x))[1..] == Without(s[1..], x);
      }
    }
  }

  lemma {:induction false} SumAppend(handles: map<nat, Handle>, s: seq<nat>, x: nat)
    ensures SumOf(handles, s + [x]) == SumOf(handles, s) + (if x in handles then handles[x].charge else 0)
  {
    if s == [] {
      assert [x][1..] == [];
      assert [] + [x] == [x];
    } else {
      SumAppend(handles, s[1..], x);
      assert (s + [x])[1..] == s[1..] + [x];
    }
  }

  /** Only the charges of the listed handles count. */
  lemma {:induction false} SumSame(a: map<nat, Handle>, b: map<nat, Handle>, s: seq<nat>)
    requires forall x :: x in s ==> (x in a <==> x in b) && (x in a ==> a[x].charge == b[x].charge)
    ensures SumOf(a, s) == SumOf(b, s)
  {
    if s != [] {
      SumSame(a, b, s[1..]);
      assert s[0] in s;
    }
  }

  lemma DistinctMore(s: seq<nat>, x: nat)
    requires Distinct(s) && x !in s
    ensures Distinct(s + [x])
  {
  }

  // ---------- what each operation keeps ----------

  lemma IdAt(s: Shard, held: map<nat, nat>, contents: map<Slot, nat>, id: nat)
    requires CacheOk(s, held, contents)
    ensures IdOk(s, held, contents, id)
  {
  }

  lemma SumsAfter(s: Shard, held: map<nat, nat>, contents: map<Slot, nat>, handles: map<nat, Handle>)
    requires CacheOk(s, held, contents)
    requires forall x :: x in s.handles && s.handles[x].inCache ==>
               x in handles && handles[x].charge == s.handles[x].charge
    ensures SumOf(handles, s.lru) + SumOf(handles, s.inUse) == s.usage
  {
    hide SumOf, SlotsOk, Distinct;
    forall x | x in s.lru || x in s.inUse ensures x in s.handles && s.handles[x].inCache {
      IdAt(s, held, contents, x);
    }
    SumSame(s.handles, handles, s.lru);
    SumSame(s.handles, handles, s.inUse);
  }

  lemma RefOk(s: Shard, held: map<nat, nat>, contents: map<Slot, nat>, id: nat)
    requires CacheOk(s, held, contents) && id in s.handles
    ensures CacheOk(Ref(s, id), held[id := Held(held, id) + 1], contents)
  {
    hide SumOf, Without;
    var t, held' := Ref(s, id), held[id := Held(held, id) + 1];
    IdAt(s, held, contents, id);
    SumsAfter(s, held, contents, t.handles);
    if s.handles[id].refs == 1 && s.handles[id].inCache {
      SumWithout(t.handles, s.lru, id);
      SumAppend(t.handles, s.inUse, id);
      WithoutIs(s.lru, id);
      DistinctMore(s.inUse, id);
    }
    hide Distinct;
    forall x ensures IdOk(t, held', contents, x) {
      IdAt(s, held, contents, x);
    }
  }

  lemma ReleaseOk(s: Shard, held: map<nat, nat>, contents: map<Slot, nat>, id: nat)
    requires CacheOk(s, held, contents) && Held(held, id) > 0
    ensures id in s.handles && s.handles[id].refs > 0
    ensures CacheOk(Unref(s, id), held[id := Held(held, id) - 1], contents)
  {
    hide SumOf, Without;
    IdAt(s, held, contents, id);
    var h := s.handles[id];
    var t, held' := Unref(s, id), held[id := Held(held, id) - 1];
    SumsAfter(s, held, contents, t.handles);
    if h.refs == 1 {
      DistinctMore(s.deleted, id);
    } else if h.inCache && h.refs == 2 {
      SumWithout(t.handles, s.inUse, id);
      SumAppend(t.handles, s.lru, id);
      WithoutIs(s.inUse, id);
      DistinctMore(s.lru, id);
    }
    hide Distinct;
    forall x ensures IdOk(t, held', contents, x) {
      IdAt(s, held, contents, x);
    }
  }

  /** What `FinishErase` leaves, spelled out. */
  lemma Erased(s: Shard, id: nat)
    requires id in s.handles && s.handles[id].refs > 0
    ensures var t := FinishErase(s, id);
            && t.lru == Without(s.lru, id) && t.inUse == Without(s.inUse, id)
            && t.usage == s.usage - s.handles[id].charge && t.nextId == s.nextId
            && (s.handles[id].refs == 1 ==> t.handles == s.handles - {id} && t.deleted == s.deleted + [id])
            && (s.handles[id].refs > 1 ==> t.deleted == s.deleted)
            && (s.handles[id].refs > 1 ==>
                 t.handles == s.handles[id := s.handles[id].(inCache := false, refs := s.handles[id].refs - 1)])
  {
    var h := s.handles[id];
    var mid := s.handles[id := h.(inCache := false)];
    assert mid - {id} == s.handles - {id};
    assert mid[id := h.(inCache := false, refs := h.refs - 1)]
      == s.handles[id := h.(inCache := false, refs := h.refs - 1)];
  }

  lemma EraseOk(s: Shard, held: map<nat, nat>, contents: map<Slot, nat>, slot: Slot)
    requires CacheOk(s, held, contents) && slot in contents
    ensures contents[slot] in s.handles && s.handles[contents[slot]].refs > 0
    ensures CacheOk(FinishErase(s, contents[slot]), held, contents - {slot})
  {
    hide SumOf, Without, FinishErase;
    var id := contents[slot];
    IdAt(s, held, contents, id);
    var t, c := FinishErase(s, id), contents - {slot};
    Erased(s, id);
    EraseSums(s, held, contents, id);
    WithoutIs(s.lru, id);
    WithoutIs(s.inUse, id);
    if s.handles[id].refs == 1 {
      DistinctMore(s.deleted, id);
    }
    hide Distinct;
    forall x ensures IdOk(t, held, c, x) {
      IdAt(s, held, contents, x);
    }
  }

  lemma EraseSums(s: Shard, held: map<nat, nat>, contents: map<Slot, nat>, id: nat)
    requires CacheOk(s, held, contents) && id in s.handles && s.handles[id].inCache && s.handles[id].refs > 0
    ensures var t := FinishErase(s, id); t.usage == SumOf(t.handles, t.lru) + SumOf(t.handles, t.inUse)
  {
    hide SumOf, Without, FinishErase, SlotsOk;
    Erased(s, id);
    var t := FinishErase(s, id);
    IdAt(s, held, contents, id);
    SumWithout(s.handles, s.lru, id);
    SumWithout(s.handles, s.inUse, id);
    WithoutIs(s.lru, id);
    WithoutIs(s.inUse, id);
    SumSame(s.handles, t.handles, t.lru);
    SumSame(s.handles, t.handles, t.inUse);
  }

  lemma AddOk(s: Shard, held: map<nat, nat>, contents: map<Slot, nat>, key: Bytes, hash: nat, value: nat, charge: nat)
    requires CacheOk(s, held, contents) && (hash, key) !in contents
    ensures s.nextId !in s.handles
    ensures CacheOk(AddCached(s, key, hash, value, charge), held[s.nextId := 1], contents[(hash, key) := s.nextId])
  {
    hide SumOf;
    var id := s.nextId;
    IdAt(s, held, contents, id);
    var t := AddCached(s, key, hash, value, charge);
    SumsAfter(s, held, contents, t.handles);
    SumAppend(t.handles, s.inUse, id);
    DistinctMore(s.inUse, id);
    hide Distinct;
    var held', contents' := held[id := 1], contents[(hash, key) := id];
    forall x ensures IdOk(t, held', contents', x) {
      IdAt(s, held, contents, x);
    }
  }

  lemma AddUncachedOk(s: Shard, held: map<nat, nat>, contents: map<Slot, nat>, key: Bytes, hash: nat, value: nat,
                      charge: nat)
    requires CacheOk(s, held, contents)
    ensures CacheOk(AddUncached(s, key, hash, value, charge), held[s.nextId := 1], contents)
  {
    hide SumOf;
    var id := s.nextId;
    IdAt(s, held, contents, id);
    var t := AddUncached(s, key, hash, value, charge);
    SumsAfter(s, held, contents, t.handles);
    hide Distinct;
    var held' := held[id := 1];
    forall x ensures IdOk(t, held', contents, x) {
      IdAt(s, held, contents, x);
    }
  }

  lemma {:induction false} WithoutAppend(s: seq<nat>, x: nat, y: nat)
    requires x != y
    ensures Without(s + [y], x) == Without(s, x) + [y]
  {
    if s == [] {
      assert [] + [y] == [y] && [y][1..] == [];
    } else {
      WithoutAppend(s[1..], x, y);
      assert (s + [y])[1..] == s[1..] + [y];
    }
  }

  /** Adding the new handle before the old one of the same key is erased, as the code does, or after, is the same. */
  lemma AddEraseCommute(s: Shard, id: nat, key: Bytes, hash: nat, value: nat, charge: nat)
    requires id in s.handles && s.handles[id].refs > 0 && s.nextId !in s.handles
    ensures id in AddCached(s, key, hash, value, charge).handles
    ensures AddCached(s, key, hash, value, charge).handles[id].refs > 0
    ensures FinishErase(AddCached(s, key, hash, value, charge), id)
             == AddCached(FinishErase(s, id), key, hash, value, charge)
  {
    hide Without, FinishErase;
    var t := AddCached(s, key, hash, value, charge);
    Erased(s, id);
    Erased(t, id);
    WithoutAppend(s.inUse, id, s.nextId);
    var new_ := Handle(key, hash, value, charge, true, 2);
    var h := s.handles[id].(inCache := false, refs := s.handles[id].refs - 1);
    assert s.handles[s.nextId := new_] - {id} == (s.handles - {id})[s.nextId := new_];
    assert s.handles[s.nextId := new_][id := h] == s.handles[id := h][s.nextId := new_];
  }

  /** The shard after the new handle is in and the old one of its key, if any, is out. */
  ghost function AfterInsert(s: Shard, contents: map<Slot, nat>, key: Bytes, hash: nat, value: nat, charge: nat): Shard
    requires (hash, key) in contents ==> contents[(hash, key)] in s.handles && s.handles[contents[(hash, key)]].refs > 0
  {
    var t := if (hash, key) in contents then FinishErase(s, contents[(hash, key)]) else s;
    AddCached(t, key, hash, value, charge)
  }

  lemma InsertOk(s: Shard, held: map<nat, nat>, contents: map<Slot, nat>, key: Bytes, hash: nat, value: nat,
                 charge: nat)
    requires CacheOk(s, held, contents)
    ensures (hash, key) in contents ==> contents[(hash, key)] in s.handles && s.handles[contents[(hash, key)]].refs > 0
    ensures var t := AddCached(s, key, hash, value, charge);
            && ((hash, key) in contents ==>
                 contents[(hash, key)] in t.handles && t.handles[contents[(hash, key)]].refs > 0)
            && AfterInsert(s, contents, key, hash, value, charge)
               == if (hash, key) in contents then FinishErase(t, contents[(hash, key)]) else t
    ensures CacheOk(AfterInsert(s, contents, key, hash, value, charge), held[s.nextId := 1],
                    contents[(hash, key) := s.nextId])
  {
    hide CacheOk, FinishErase, AddCached;
    var slot := (hash, key);
    if slot in contents {
      var id := contents[slot];
      EraseOk(s, held, contents, slot);
      var t := FinishErase(s, id);
      Erased(s, id);
      AddOk(t, held, contents - {slot}, key, hash, value, charge);
      assert (contents - {slot})[slot := s.nextId] == contents[slot := s.nextId];
      NextIsNew(s, held, contents);
      AddEraseCommute(s, id, key, hash, value, charge);
    } else {
      AddOk(s, held, contents, key, hash, value, charge);
    }
  }

  /** What the lists are then: a replaced handle is freed at once if nobody holds it. */
  lemma ReplacedLists(s: Shard, held: map<nat, nat>, contents: map<Slot, nat>, key: Bytes, hash: nat, value: nat,
                      charge: nat)
    requires CacheOk(s, held, contents)
    requires (hash, key) in contents ==> contents[(hash, key)] in s.handles && s.handles[contents[(hash, key)]].refs > 0
    ensures var t := AfterInsert(s, contents, key, hash, value, charge);
            var replaced := (hash, key) in contents;
            && t.lru == (if replaced then Without(s.lru, contents[(hash, key)]) else s.lru)
            && t.deleted
               == s.deleted + (if replaced && contents[(hash, key)] in s.lru then [contents[(hash, key)]] else [])
            && t.nextId == s.nextId + 1 && s.nextId !in t.lru
            && s.nextId in t.handles && t.handles[s.nextId] == Handle(key, hash, value, charge, true, 2)
  {
    hide FinishErase, Without, SumOf;
    IdAt(s, held, contents, s.nextId);
    if (hash, key) in contents {
      var id := contents[(hash, key)];
      IdAt(s, held, contents, id);
      Erased(s, id);
      WithoutIs(s.lru, id);
    } else {
      assert s.deleted + [] == s.deleted;
    }
  }

  lemma NextIsNew(s: Shard, held: map<nat, nat>, contents: map<Slot, nat>)
    requires CacheOk(s, held, contents)
    ensures s.nextId !in s.handles && s.nextId !in s.lru
  {
    IdAt(s, held, contents, s.nextId);
  }

  /** A handle that a client holds has not been passed to its deleter; one that was freed was so exactly once. */
  lemma HeldIsAlive(s: Shard, held: map<nat, nat>, contents: map<Slot, nat>, id: nat)
    requires CacheOk(s, held, contents)
    ensures Held(held, id) > 0 ==> id in s.handles && id !in s.deleted
    ensures id < s.nextId && id !in s.handles ==> multiset(s.deleted)[id] == 1
    ensures id in s.handles ==> multiset(s.deleted)[id] == 0
  {
    IdAt(s, held, contents, id);
    OnceEach(s.deleted, id);
  }

  lemma {:induction false} OnceEach(ids: seq<nat>, id: nat)
    requires Distinct(ids)
    ensures multiset(ids)[id] == if id in ids then 1 else 0
  {
    if ids != [] {
      var front, last := ids[..|ids| - 1], ids[|ids| - 1];
      assert ids == front + [last];
      OnceEach(front, id);
      assert last !in front;
    }
  }

  function IdsOf(ids: seq<nat>): set<nat> {
    set id | id in ids
  }

  /** The `k` oldest unused handles are freed, and nothing else is. */
  ghost predicate Evicted(s: Shard, contents: map<Slot, nat>, t: Shard, contents': map<Slot, nat>, k: nat) {
    && k <= |s.lru| && t.lru == s.lru[k..] && t.inUse == s.inUse && t.nextId == s.nextId
    && t.deleted == s.deleted + s.lru[..k]
    && t.handles == s.handles - IdsOf(s.lru[..k])
    && t.usage == s.usage - SumOf(s.handles, s.lru[..k])
    && contents' == map slot | slot in contents && contents[slot] !in s.lru[..k] :: contents[slot]
  }

  /** The first `k` victims bring the usage down to the capacity, and fewer do not; or all unused handles are gone. */
  ghost predicate JustEnough(s: Shard, k: nat, capacity: nat)
    requires k <= |s.lru|
  {
    && (k > 0 ==> s.usage - SumOf(s.handles, s.lru[..k - 1]) > capacity)
    && (k < |s.lru| ==> s.usage - SumOf(s.handles, s.lru[..k]) <= capacity)
  }

  lemma NothingEvicted(s: Shard, contents: map<Slot, nat>)
    ensures Evicted(s, contents, s, contents, 0)
  {
    assert s.handles - IdsOf(s.lru[..0]) == s.handles;
    assert s.deleted + s.lru[..0] == s.deleted;
  }

  lemma EvictedOneMore(s: Shard, c: map<Slot, nat>, t: Shard, c': map<Slot, nat>, u: Shard, c'': map<Slot, nat>,
                       k: nat)
    requires Evicted(s, c, t, c', k) && Evicted(t, c', u, c'', 1) && Distinct(s.lru)
    ensures Evicted(s, c, u, c'', k + 1)
  {
    hide SumOf;
    var id := s.lru[k];
    assert t.lru[..1] == [id] && s.lru[..k + 1] == s.lru[..k] + [id];
    SumAppend(s.handles, s.lru[..k], id);
    assert id !in s.lru[..k];
    assert SumOf(t.handles, [id]) == if id in t.handles then t.handles[id].charge else 0 by { SumOne(t.handles, id); }
    assert u.handles == s.handles - IdsOf(s.lru[..k + 1]);
    assert c'' == map slot | slot in c && c[slot] !in s.lru[..k + 1] :: c[slot];
  }

  lemma SumOne(handles: map<nat, Handle>, id: nat)
    ensures SumOf(handles, [id]) == if id in handles then handles[id].charge else 0
  {
    SumAppend(handles, [], id);
    assert [] + [id] == [id];
  }

  /** Evicting the oldest unused handle, which the table names by its key, frees it and touches nothing else. */
  lemma EvictOldest(s: Shard, held: map<nat, nat>, contents: map<Slot, nat>)
    requires CacheOk(s, held, contents) && s.lru != []
    ensures var id := s.lru[0];
            && id in s.handles && s.handles[id].refs == 1
            && var slot := (s.handles[id].hash, s.handles[id].key);
               && slot in contents && contents[slot] == id
               && Evicted(s, contents, FinishErase(s, id), contents - {slot}, 1)
  {
    hide SumOf, FinishErase;
    var id := s.lru[0];
    IdAt(s, held, contents, id);
    Erased(s, id);
    WithoutIs(s.inUse, id);
    WithoutIs(s.lru[1..], id);
    assert id !in s.lru[1..];
    assert Without(s.lru, id) == s.lru[1..];
    assert s.lru[..1] == [id];
    SumOne(s.handles, id);
    var slot := (s.handles[id].hash, s.handles[id].key);
    assert s.handles - IdsOf(s.lru[..1]) == s.handles - {id};
    assert contents - {slot} == map x | x in contents && contents[x] !in s.lru[..1] :: contents[x];
  }

  /** The shard and the table with the new handle in and the one it replaces out; with capacity 0 it is not cached. */
  ghost function Filled(s: Shard, contents: map<Slot, nat>, key: Bytes, hash: nat, value: nat, charge: nat,
                        capacity: nat): (Shard, map<Slot, nat>)
    requires (hash, key) in contents ==> contents[(hash, key)] in s.handles && s.handles[contents[(hash, key)]].refs > 0
  {
    if capacity > 0 then (AfterInsert(s, contents, key, hash, value, charge), contents[(hash, key) := s.nextId])
    else (AddUncached(s, key, hash, value, charge), contents)
  }

  /** A handle that a client holds outlasts every eviction. */
  lemma HeldStays(s: Shard, held: map<nat, nat>, c: map<Slot, nat>, id: nat, t: Shard, c': map<Slot, nat>, k: nat)
    requires CacheOk(s, held, c) && Held(held, id) > 0 && Evicted(s, c, t, c', k)
    ensures id in t.handles && id in s.handles && t.handles[id] == s.handles[id]
    ensures forall slot :: slot in c && c[slot] == id ==> slot in c' && c'[slot] == id
  {
    hide SumOf, SlotsOk, Distinct;
    IdAt(s, held, c, id);
    assert id !in s.lru;
  }

  // ---------- the class ----------

  class LRUCache {
    const table: HandleTable
    const capacity: nat
    var usage: int
    var lru: seq<nat>
    var inUse: seq<nat>
    var handles: map<nat, Handle>
    var deleted: seq<nat>
    var nextId: nat
    /** How many references clients hold on each handle. */
    ghost var held: map<nat, nat>

    ghost function Now(): Shard
      reads this
    {
      Shard(handles, lru, inUse, usage, deleted, nextId)
    }

    ghost predicate Ok()
      reads this, table
    {
      table.Valid() && CacheOk(Now(), held, table.contents)
    }

    constructor (cap: nat)
      ensures Ok() && fresh(table) && capacity == cap && held == map[] && handles == map[]
    {
      table := new HandleTable();
      capacity, usage, lru, inUse, handles, deleted, nextId, held := cap, 0, [], [], map[], [], 0, map[];
    }

    method Remove0(id: nat)
      modifies this`lru, this`inUse
      ensures lru == Without(old(lru), id) && inUse == Without(old(inUse), id)
    {
      lru := Without(lru, id);
      inUse := Without(inUse, id);
    }

    method RefHandle(id: nat)
      requires Ok() && id in handles
      modifies this`handles, this`lru, this`inUse
      ensures Now() == Ref(old(Now()), id)
    {
      hide CacheOk;
      if handles[id].refs == 1 && handles[id].inCache {
        lru := Without(lru, id);
        inUse := inUse + [id];
      }
      handles := handles[id := handles[id].(refs := handles[id].refs + 1)];
    }

    method UnrefHandle(id: nat)
      requires id in handles && handles[id].refs > 0
      modifies this`handles, this`lru, this`inUse, this`deleted
      ensures Now() == Unref(old(Now()), id)
    {
      var h := handles[id].(refs := handles[id].refs - 1);
      if h.refs == 0 {
        deleted := deleted + [id];
        handles := handles - {id};
      } else {
        if h.inCache && h.refs == 1 {
          inUse := Without(inUse, id);
          lru := lru + [id];
        }
        handles := handles[id := h];
      }
    }

    method FinishEraseHandle(e: Option<nat>) returns (erased: bool)
      requires e.Some? ==> e.value in handles && handles[e.value].refs > 0
      modifies this`handles, this`lru, this`inUse, this`deleted, this`usage
      ensures erased == e.Some?
      ensures Now() == if e.Some? then FinishErase(old(Now()), e.value) else old(Now())
    {
      if e.Some? {
        var id := e.value;
        Remove0(id);
        usage := usage - handles[id].charge;
        handles := handles[id := handles[id].(inCache := false)];
        UnrefHandle(id);
      }
      erased := e.Some?;
    }

    /** The cached handle of a key, held by the caller from now on. */
    method Lookup(key: Bytes, hash: nat) returns (e: Option<nat>)
      requires Ok()
      modifies this
      ensures Ok() && table.contents == old(table.contents) && usage == old(usage) && deleted == old(deleted)
      ensures e == if (hash, key) in table.contents then Some(table.contents[(hash, key)]) else None
      ensures held == if e.Some? then old(held)[e.value := Held(old(held), e.value) + 1] else old(held)
      ensures e.Some? ==> e.value in old(handles) && Now() == Ref(old(Now()), e.value)
      ensures e.None? ==> Now() == old(Now())
    {
      hide CacheOk, HandleTable.Valid;
      e := table.Lookup(key, hash);
      if e.Some? {
        SlotHandle(Now(), held, table.contents, (hash, key));
        RefOk(Now(), held, table.contents, e.value);
        RefHandle(e.value);
        held := held[e.value := Held(held, e.value) + 1];
      }
    }

    /** Gives back a reference. */
    method Release(id: nat)
      requires Ok() && Held(held, id) > 0
      modifies this
      ensures Ok() && table.contents == old(table.contents) && usage == old(usage)
      ensures held == old(held)[id := Held(old(held), id) - 1]
      ensures id in old(handles) && old(handles)[id].refs > 0 && Now() == Unref(old(Now()), id)
    {
      hide CacheOk;
      ReleaseOk(Now(), held, table.contents, id);
      UnrefHandle(id);
      held := held[id := Held(held, id) - 1];
    }

    /** Takes a key out of the cache; clients keep what they hold. */
    method Erase(key: Bytes, hash: nat)
      requires Ok()
      modifies this, table
      ensures Ok() && table.contents == old(table.contents) - {(hash, key)} && held == old(held)
      ensures (hash, key) in old(table.contents) ==>
                var id := old(table.contents)[(hash, key)];
                id in old(handles) && old(handles)[id].refs > 0 && Now() == FinishErase(old(Now()), id)
      ensures (hash, key) !in old(table.contents) ==> Now() == old(Now())
    {
      hide CacheOk, HandleTable.Valid;
      ghost var c := table.contents;
      var e := table.Remove(key, hash);
      if e.Some? {
        EraseOk(Now(), held, c, (hash, key));
      } else {
        NothingLess(c, (hash, key));
      }
      var _ := FinishEraseHandle(e);
    }

    /** Frees the oldest unused handle. */
    method EvictOne()
      requires Ok() && lru != []
      modifies this, table
      ensures Ok() && held == old(held)
      ensures Evicted(old(Now()), old(table.contents), Now(), table.contents, 1)
    {
      hide CacheOk, HandleTable.Valid, Evicted, FinishErase;
      var id := lru[0];
      ghost var c := table.contents;
      EvictOldest(Now(), held, c);
      var e := table.Remove(handles[id].key, handles[id].hash);
      EraseOk(Now(), held, c, (handles[id].hash, handles[id].key));
      var erased := FinishEraseHandle(e);
    }

    /** Frees unused handles, oldest first, until the cache is within its capacity or none is left. */
    method Shrink()
      requires Ok()
      modifies this, table
      ensures Ok() && held == old(held) && (usage <= capacity || lru == [])
      ensures exists k :: && Evicted(old(Now()), old(table.contents), Now(), table.contents, k)
                          && JustEnough(old(Now()), k, capacity)
    {
      ghost var s, c, k := Now(), table.contents, 0;
      NothingEvicted(s, c);
      assert Distinct(s.lru);
      hide Ok, CacheOk, HandleTable.Valid, SumOf;
      while usage > capacity && lru != []
        invariant Ok() && held == old(held)
        invariant Evicted(s, c, Now(), table.contents, k)
        invariant k > 0 ==> s.usage - SumOf(s.handles, s.lru[..k - 1]) > capacity
        decreases |lru|
      {
        ghost var before, c' := Now(), table.contents;
        EvictOne();
        EvictedOneMore(s, c, before, c', Now(), table.contents, k);
        k := k + 1;
      }
      assert JustEnough(s, k, capacity);
    }

    /** Caches a value, in the place of the one its key had, and hands out a reference to it.  Then unused handles
        go, oldest first, until the cache is within its capacity; with capacity 0 nothing is cached. */
    method Insert(key: Bytes, hash: nat, value: nat, charge: nat) returns (id: nat)
      requires Ok()
      modifies this, table
      ensures Ok() && id == old(nextId) && nextId == id + 1 && held == old(held)[id := 1]
      ensures id in handles
      ensures handles[id] == Handle(key, hash, value, charge, capacity > 0, if capacity > 0 then 2 else 1)
      ensures usage <= capacity || lru == []
      ensures (hash, key) in old(table.contents) ==>
                var replaced := old(table.contents)[(hash, key)];
                replaced in old(handles) && old(handles)[replaced].refs > 0
      ensures var full := Filled(old(Now()), old(table.contents), key, hash, value, charge, capacity);
              exists k :: && Evicted(full.0, full.1, Now(), table.contents, k)
                          && JustEnough(full.0, k, capacity)
    {
      hide CacheOk, HandleTable.Valid, FinishErase, AddCached, Without;
      ghost var c := table.contents;
      if (hash, key) in c {
        SlotHandle(Now(), held, c, (hash, key));
      }
      id := nextId;
      nextId := nextId + 1;
      if capacity > 0 {
        InsertOk(old(Now()), held, c, key, hash, value, charge);
        ReplacedLists(old(Now()), held, c, key, hash, value, charge);
        handles := handles[id := Handle(key, hash, value, charge, true, 2)];
        inUse := inUse + [id];
        usage := usage + charge;
        assert Now() == AddCached(old(Now()), key, hash, value, charge) by {
          Added(old(Now()), key, hash, value, charge);
        }
        var e := table.Insert(Node(key, hash, id));
        var _ := FinishEraseHandle(e);
      } else {
        AddUncachedOk(old(Now()), held, c, key, hash, value, charge);
        NextIsNew(old(Now()), held, c);
        handles := handles[id := Handle(key, hash, value, charge, false, 1)];
        assert deleted + [] == deleted;
      }
      held := held[id := 1];
      ghost var full, c' := Now(), table.contents;
      assert (full, c') == Filled(old(Now()), c, key, hash, value, charge, capacity);
      Shrink();
      ghost var k :| Evicted(full, c', Now(), table.contents, k) && JustEnough(full, k, capacity);
      HeldStays(full, held, c', id, Now(), table.contents, k);
    }

    /** Frees all unused handles. */
    method Prune()
      requires Ok()
      modifies this, table
      ensures Ok() && held == old(held) && lru == []
      ensures Evicted(old(Now()), old(table.contents), Now(), table.contents, |old(lru)|)
    {
      ghost var s, c, k := Now(), table.contents, 0;
      NothingEvicted(s, c);
      assert Distinct(s.lru);
      hide Ok, CacheOk, HandleTable.Valid, SumOf;
      while lru != []
        invariant Ok() && held == old(held)
        invariant Evicted(s, c, Now(), table.contents, k)
        decreases |lru|
      {
        ghost var before, c' := Now(), table.contents;
        EvictOne();
        EvictedOneMore(s, c, before, c', Now(), table.contents, k);
        k := k + 1;
      }
    }
  }

  lemma Added(s: Shard, key: Bytes, hash: nat, value: nat, charge: nat)
    ensures AddCached(s, key, hash, value, charge)
         == s.(handles := s.handles[s.nextId := Handle(key, hash, value, charge, true, 2)],
               inUse := s.inUse + [s.nextId], usage := s.usage + charge, nextId := s.nextId + 1)
  {
  }

  lemma SlotHandle(s: Shard, held: map<nat, nat>, contents: map<Slot, nat>, slot: Slot)
    requires CacheOk(s, held, contents) && slot in contents
    ensures contents[slot] in s.handles && s.handles[contents[slot]].refs > 0
  {
    IdAt(s, held, contents, contents[slot]);
  }
}
