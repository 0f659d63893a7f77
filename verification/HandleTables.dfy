/** `HandleTable`: the chained hash table of the block cache (util/cache.cc). */
module HandleTables {
  import opened InternalKeys

  /** A handle in a chain: its key, the hash of the key, and which handle it is. */
  datatype Node = Node(key: Bytes, hash: nat, id: nat)

  type Slot = (nat, Bytes)

  function SlotOf(n: Node): Slot {
    (n.hash, n.key)
  }

  predicate Matches(n: Node, key: Bytes, hash: nat) {
    n.hash == hash && n.key == key
  }

  /** No two nodes of a chain are for the same key. */
  ghost predicate Apart(chain: seq<Node>) {
    forall i, j :: 0 <= i < j < |chain| ==> SlotOf(chain[i]) != SlotOf(chain[j])
  }

  ghost predicate InPlace(chain: seq<Node>, length: nat, b: nat)
    requires length > 0
  {
    forall n :: n in chain ==> n.hash % length == b
  }

  ghost predicate Chains(list: seq<seq<Node>>) {
    |list| > 0 && forall b :: 0 <= b < |list| ==> Apart(list[b]) && InPlace(list[b], |list|, b)
  }

  /** The node is in the chain its hash selects. */
  predicate Chained(list: seq<seq<Node>>, n: Node)
    requires |list| > 0
  {
    n in list[n.hash % |list|]
  }

  /** The chains hold exactly the map. */
  ghost predicate Refines(list: seq<seq<Node>>, contents: map<Slot, nat>) {
    Chains(list) && forall n: Node :: Chained(list, n) <==> SlotOf(n) in contents && contents[SlotOf(n)] == n.id
  }

  predicate PowerOfTwo(n: nat) {
    n == 1 || (n > 1 && n % 2 == 0 && PowerOfTwo(n / 2))
  }

  /** The average chain is no longer than one, and the length is a power of two, so that masking a hash is taking it
      modulo the length. */
  predicate Roomy(length: nat, elems: nat) {
    length >= 4 && PowerOfTwo(length) && elems <= length
  }

  /** The least power of two from four on that has room. */
  method NewLength(elems: nat) returns (length: nat)
    ensures length >= 4 && Roomy(length, elems) && (length == 4 || length < 2 * elems)
  {
    length := 4;
    assert PowerOfTwo(length);
    hide PowerOfTwo;
    while length < elems
      invariant length >= 4 && PowerOfTwo(length) && (length == 4 || length < 2 * elems)
      decreases elems - length
    {
      DoublePower(length);
      length := length * 2;
    }
  }

  lemma DoublePower(n: nat)
    requires PowerOfTwo(n)
    ensures PowerOfTwo(2 * n)
  {
    assert (2 * n) / 2 == n && (2 * n) % 2 == 0;
  }

  class HandleTable {
    var list: seq<seq<Node>>
    var elems: nat
    ghost var contents: map<Slot, nat>

    ghost predicate Valid()
      reads this
    {
      Refines(list, contents) && elems == |contents| && Roomy(|list|, elems)
    }

    constructor ()
      ensures Valid() && contents == map[]
    {
      list, elems, contents := [[], [], [], []], 0, map[];
    }

    /** Position in the chain of a key; the length of the chain if it is not there. */
    method FindPointer(key: Bytes, hash: nat) returns (b: nat, i: nat)
      requires Valid()
      ensures b == hash % |list| < |list| && i <= |list[b]|
      ensures i < |list[b]| ==>
                Matches(list[b][i], key, hash) && (hash, key) in contents
                && contents[(hash, key)] == list[b][i].id
      ensures i == |list[b]| ==> (hash, key) !in contents
    {
      hide Refines;
      RefinesLength(list, contents);
      if (hash, key) in contents {
        Present(list, contents, key, hash);
      }
      b, i := hash % |list|, 0;
      while i < |list[b]| && (list[b][i].hash != hash || key != list[b][i].key)
        invariant 0 <= i <= |list[b]|
        invariant forall j :: 0 <= j < i ==> !Matches(list[b][j], key, hash)
      {
        i := i + 1;
      }
      if i < |list[b]| {
        Member(list, contents, b, i);
      }
    }

    method Lookup(key: Bytes, hash: nat) returns (r: Option<nat>)
      requires Valid()
      ensures r == if (hash, key) in contents then Some(contents[(hash, key)]) else None
    {
      var b, i := FindPointer(key, hash);
      r := if i < |list[b]| then Some(list[b][i].id) else None;
    }

    /** Puts a node in, in the place of one with the same key, which is returned. */
    method Insert(n: Node) returns (old_: Option<nat>)
      requires Valid()
      modifies this
      ensures Valid() && contents == old(contents)[SlotOf(n) := n.id]
      ensures old_ == if SlotOf(n) in old(contents) then Some(old(contents)[SlotOf(n)]) else None
      ensures |contents| <= |old(list)| ==> |list| == |old(list)|
      ensures |contents| > |old(list)| ==> |list| == 4 || |list| < 2 * |contents|
    {
      hide Refines;
      RefinesLength(list, contents);
      var b, i := FindPointer(n.key, n.hash);
      ghost var c := contents;
      contents := contents[SlotOf(n) := n.id];
      if i < |list[b]| {
        old_ := Some(list[b][i].id);
        Replaced(list, c, b, i, n);
        list := list[b := list[b][i := n]];
        SameSize(c, SlotOf(n), n.id);
      } else {
        old_ := None;
        Appended(list, c, b, n);
        list := list[b := list[b] + [n]];
        elems := elems + 1;
        if elems > |list| {
          Resize();
        }
      }
    }

    method Remove(key: Bytes, hash: nat) returns (r: Option<nat>)
      requires Valid()
      modifies this
      ensures Valid() && contents == old(contents) - {(hash, key)}
      ensures r == if (hash, key) in old(contents) then Some(old(contents)[(hash, key)]) else None
      ensures |list| == |old(list)|
    {
      hide Refines, Chained;
      RefinesLength(list, contents);
      var b, i := FindPointer(key, hash);
      ghost var c := contents;
      contents := contents - {(hash, key)};
      if i < |list[b]| {
        r := Some(list[b][i].id);
        Unlinked(list, c, b, i);
        list := list[b := list[b][..i] + list[b][i + 1..]];
        elems := elems - 1;
        OneLess(c, (hash, key));
      } else {
        r := None;
        NothingLess(c, (hash, key));
      }
    }

    /** Moves all nodes to a table of twice the size or more. */
    method Resize()
      requires Refines(list, contents)
      modifies this`list
      ensures Refines(list, contents) && Roomy(|list|, elems)
      ensures |list| == 4 || |list| < 2 * elems
    {
      hide Refines, Chains, Roomy;
      RefinesLength(list, contents);
      var newLength := NewLength(elems);
      var newList: seq<seq<Node>> := seq(newLength, _ => []);
      ghost var moved: map<Slot, nat> := map[];
      EmptyRefines(newLength, newList);
      var i := 0;
      while i < |list|
        invariant 0 <= i <= |list| && |newList| == newLength && Refines(newList, moved)
        invariant list == old(list) && Moved(list, contents, moved, i, 0)
      {
        var k := 0;
        while k < |list[i]|
          invariant list == old(list) && i < |list| && k <= |list[i]|
          invariant |newList| == newLength && Refines(newList, moved) && Moved(list, contents, moved, i, k)
        {
          var h := list[i][k];
          var b := h.hash % newLength;
          MoveOne(list, contents, moved, i, k);
          Prepended(newList, moved, b, h);
          newList := newList[b := [h] + newList[b]];
          moved := moved[SlotOf(h) := h.id];
          k := k + 1;
        }
        NextChain(list, contents, moved, i);
        i := i + 1;
      }
      AllMoved(list, contents, moved);
      list := newList;
    }
  }

  lemma Present(list: seq<seq<Node>>, contents: map<Slot, nat>, key: Bytes, hash: nat)
    requires Refines(list, contents) && (hash, key) in contents
    ensures |list| > 0 && exists j :: 0 <= j < |list[hash % |list|]| && Matches(list[hash % |list|][j], key, hash)
  {
    var n := Node(key, hash, contents[(hash, key)]);
    assert Chained(list, n);
    var j :| 0 <= j < |list[hash % |list|]| && list[hash % |list|][j] == n;
    assert Matches(list[hash % |list|][j], key, hash);
  }

  lemma Member(list: seq<seq<Node>>, contents: map<Slot, nat>, b: nat, i: nat)
    requires Refines(list, contents) && b < |list| && i < |list[b]|
    ensures SlotOf(list[b][i]) in contents && contents[SlotOf(list[b][i])] == list[b][i].id
  {
    assert list[b][i] in list[b];
    assert InPlace(list[b], |list|, b);
    assert Chained(list, list[b][i]);
  }

  lemma RefinesLength(list: seq<seq<Node>>, contents: map<Slot, nat>)
    requires Refines(list, contents)
    ensures |list| > 0
  {
  }

  lemma SameSize(c: map<Slot, nat>, s: Slot, v: nat)
    requires s in c
    ensures |c[s := v]| == |c|
  {
    assert c[s := v].Keys == c.Keys;
    KeyCount(c);
    KeyCount(c[s := v]);
  }

  lemma OneLess(c: map<Slot, nat>, s: Slot)
    requires s in c
    ensures |c - {s}| == |c| - 1
  {
    var d := c - {s};
    assert d.Keys == c.Keys - {s};
    KeyCount(c);
    KeyCount(d);
  }

  lemma NothingLess(c: map<Slot, nat>, s: Slot)
    requires s !in c
    ensures c - {s} == c
  {
  }

  lemma KeyCount(c: map<Slot, nat>)
    ensures |c| == |c.Keys|
  {
  }

  lemma Replaced(list: seq<seq<Node>>, c: map<Slot, nat>, b: nat, i: nat, n: Node)
    requires Refines(list, c) && b == n.hash % |list| && i < |list[b]| && SlotOf(list[b][i]) == SlotOf(n)
    ensures Refines(list[b := list[b][i := n]], c[SlotOf(n) := n.id])
  {
    var chain := list[b][i := n];
    var now := list[b := chain];
    forall m: Node
      ensures Chained(now, m) <==> SlotOf(m) in c[SlotOf(n) := n.id] && c[SlotOf(n) := n.id][SlotOf(m)] == m.id
    {
      assert Chained(list, m) <==> SlotOf(m) in c && c[SlotOf(m)] == m.id;
      if m.hash % |list| == b {
        ReplacedMember(list[b], i, n, m);
      }
    }
    ReplacedChain(list[b], |list|, b, i, n);
  }

  lemma ReplacedChain(chain: seq<Node>, length: nat, b: nat, i: nat, n: Node)
    requires length > 0 && Apart(chain) && InPlace(chain, length, b) && i < |chain| && SlotOf(chain[i]) == SlotOf(n)
    requires n.hash % length == b
    ensures Apart(chain[i := n]) && InPlace(chain[i := n], length, b)
  {
  }

  lemma ReplacedMember(chain: seq<Node>, i: nat, n: Node, m: Node)
    requires Apart(chain) && i < |chain| && SlotOf(chain[i]) == SlotOf(n)
    ensures m in chain[i := n] <==> m == n || (m in chain && SlotOf(m) != SlotOf(n))
  {
    var now := chain[i := n];
    assert now[i] == n;
    if m in chain && SlotOf(m) != SlotOf(n) {
      var j :| 0 <= j < |chain| && chain[j] == m;
      assert now[j] == m;
    }
    if m in now && m != n {
      var j :| 0 <= j < |now| && now[j] == m;
      assert j != i && chain[j] == m;
    }
  }

  lemma Appended(list: seq<seq<Node>>, c: map<Slot, nat>, b: nat, n: Node)
    requires Refines(list, c) && b == n.hash % |list| && SlotOf(n) !in c
    ensures Refines(list[b := list[b] + [n]], c[SlotOf(n) := n.id])
  {
    var now, c' := list[b := list[b] + [n]], c[SlotOf(n) := n.id];
    forall m: Node ensures Chained(now, m) <==> SlotOf(m) in c' && c'[SlotOf(m)] == m.id {
      assert Chained(list, m) <==> SlotOf(m) in c && c[SlotOf(m)] == m.id;
    }
    forall i | 0 <= i < |list[b]| ensures SlotOf(list[b][i]) != SlotOf(n) {
      assert list[b][i] in list[b];
      assert Chained(list, list[b][i]);
    }
  }

  lemma Prepended(list: seq<seq<Node>>, c: map<Slot, nat>, b: nat, n: Node)
    requires Refines(list, c) && b == n.hash % |list| && SlotOf(n) !in c
    ensures Refines(list[b := [n] + list[b]], c[SlotOf(n) := n.id])
  {
    var now, c' := list[b := [n] + list[b]], c[SlotOf(n) := n.id];
    forall m: Node ensures Chained(now, m) <==> SlotOf(m) in c' && c'[SlotOf(m)] == m.id {
      assert Chained(list, m) <==> SlotOf(m) in c && c[SlotOf(m)] == m.id;
    }
    forall i | 0 <= i < |list[b]| ensures SlotOf(list[b][i]) != SlotOf(n) {
      assert list[b][i] in list[b];
      assert Chained(list, list[b][i]);
    }
  }

  lemma Unlinked(list: seq<seq<Node>>, c: map<Slot, nat>, b: nat, i: nat)
    requires Refines(list, c) && b < |list| && i < |list[b]|
    ensures Refines(list[b := list[b][..i] + list[b][i + 1..]], c - {SlotOf(list[b][i])})
  {
    var n := list[b][i];
    var now, c' := list[b := list[b][..i] + list[b][i + 1..]], c - {SlotOf(n)};
    forall m: Node ensures Chained(now, m) <==> SlotOf(m) in c' && c'[SlotOf(m)] == m.id {
      assert Chained(list, m) <==> SlotOf(m) in c && c[SlotOf(m)] == m.id;
      UnlinkedMember(list[b], i, m);
      if SlotOf(m) == SlotOf(n) && m.hash % |list| == b {
      }
    }
  }

  lemma UnlinkedMember(chain: seq<Node>, i: nat, m: Node)
    requires Apart(chain) && i < |chain|
    ensures m in chain[..i] + chain[i + 1..] <==> m in chain && SlotOf(m) != SlotOf(chain[i])
  {
    var now := chain[..i] + chain[i + 1..];
    if m in chain && SlotOf(m) != SlotOf(chain[i]) {
      var j :| 0 <= j < |chain| && chain[j] == m;
      assert now[if j < i then j else j - 1] == m;
    }
    if m in now {
      var j :| 0 <= j < |now| && now[j] == m;
      assert chain[if j < i then j else j + 1] == m;
    }
  }

  lemma EmptyRefines(n: nat, list: seq<seq<Node>>)
    requires n > 0 && |list| == n && forall b :: 0 <= b < n ==> list[b] == []
    ensures Refines(list, map[])
  {
  }

  /** The map moved so far: that of the chains before `i` and the first `k` nodes of chain `i`. */
  ghost predicate Moved(list: seq<seq<Node>>, contents: map<Slot, nat>, moved: map<Slot, nat>, i: nat, k: nat) {
    && i <= |list| && |list| > 0 && (i < |list| ==> k <= |list[i]|)
    && (forall s :: s in moved ==> s in contents && moved[s] == contents[s])
    && (forall s :: s in contents ==>
          (s in moved <==>
              s.0 % |list| < i
              || (s.0 % |list| == i && i < |list| && Node(s.1, s.0, contents[s]) in list[i][..k])))
  }

  lemma MoveOne(list: seq<seq<Node>>, contents: map<Slot, nat>, moved: map<Slot, nat>, i: nat, k: nat)
    requires Refines(list, contents) && Moved(list, contents, moved, i, k) && i < |list| && k < |list[i]|
    ensures SlotOf(list[i][k]) !in moved
    ensures Moved(list, contents, moved[SlotOf(list[i][k]) := list[i][k].id], i, k + 1)
  {
    var h := list[i][k];
    assert h in list[i];
    assert Apart(list[i]) && InPlace(list[i], |list|, i);
    assert Chained(list, h);
    assert list[i][..k + 1] == list[i][..k] + [h];
    assert forall j :: 0 <= j < k ==> SlotOf(list[i][j]) != SlotOf(h);
  }

  lemma NextChain(list: seq<seq<Node>>, contents: map<Slot, nat>, moved: map<Slot, nat>, i: nat)
    requires Refines(list, contents) && i < |list| && Moved(list, contents, moved, i, |list[i]|)
    ensures Moved(list, contents, moved, i + 1, 0)
  {
    assert list[i][..|list[i]|] == list[i];
    forall s | s in contents && s.0 % |list| == i ensures s in moved {
      assert Chained(list, Node(s.1, s.0, contents[s]));
    }
  }

  lemma AllMoved(list: seq<seq<Node>>, contents: map<Slot, nat>, moved: map<Slot, nat>)
    requires Moved(list, contents, moved, |list|, 0)
    ensures moved == contents
  {
    forall s | s in contents ensures s in moved {
      assert s.0 % |list| < |list|;
    }
    assert moved.Keys == contents.Keys;
  }
}
