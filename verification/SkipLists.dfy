/** The skip list under a memtable (db/skiplist.h): one writer, readers without locks.

    Nodes live in an arena and are never removed; a pointer is an index into it, the head is node 0. */
module SkipLists {
  import opened InternalKeys

  const MAX_HEIGHT: nat := 12

  /** `next[l][n]` is the successor of node `n` on level `l`. */
  datatype Heap = Heap(keys: seq<InternalKey>, next: seq<seq<Option<nat>>>, maxHeight: nat)

  /** The nodes of each level in order, the head first. */
  type Lists = seq<seq<nat>>

  function At(list: seq<nat>, i: nat): Option<nat> {
    if i < |list| then Some(list[i]) else None
  }

  /** Level `l` is linked as `list` says, with strictly increasing keys. */
  ghost predicate Linked(h: Heap, l: nat, list: seq<nat>)
    requires l < |h.next| && |h.next[l]| == |h.keys|
  {
    && |list| > 0 && list[0] == 0
    && (forall i :: 0 <= i < |list| ==> list[i] < |h.keys|)
    && (forall i :: 0 <= i < |list| ==> h.next[l][list[i]] == At(list, i + 1))
    && (forall i, j :: 0 < i < j < |list| ==> Less(h.keys[list[i]], h.keys[list[j]]))
    && (forall i :: 0 < i < |list| ==> list[i] != 0)
  }

  ghost predicate Sized(h: Heap, lists: Lists) {
    && |lists| == MAX_HEIGHT && |h.next| == MAX_HEIGHT
    && 1 <= h.maxHeight <= MAX_HEIGHT
    && forall l :: 0 <= l < MAX_HEIGHT ==> |h.next[l]| == |h.keys|
  }

  /** Each level is a sublist of those below. */
  ghost predicate Nested(lists: Lists) {
    forall l, m, n :: 0 <= l < m < |lists| && n in lists[m] ==> n in lists[l]
  }

  ghost predicate Shape(h: Heap, lists: Lists) {
    && Sized(h, lists)
    && (forall l :: 0 <= l < MAX_HEIGHT ==> Linked(h, l, lists[l]))
    && Nested(lists)
    && (forall l :: h.maxHeight <= l < MAX_HEIGHT ==> lists[l] == [0])
  }

  /** The keys in the list: those of the lowest level. */
  ghost predicate Holds(h: Heap, lists: Lists, k: InternalKey)
    requires Shape(h, lists)
  {
    exists i :: 0 < i < |lists[0]| && h.keys[lists[0][i]] == k
  }

  // ---------- searching ----------

  /** Node `x` of level `l` comes before `key`. */
  ghost predicate Ahead(h: Heap, lists: Lists, key: InternalKey, l: nat, x: nat) {
    && l < |lists| && x in lists[l]
    && (x == 0 || (x < |h.keys| && Less(h.keys[x], key)))
  }

  predicate IsAfterNode(h: Heap, key: InternalKey, n: Option<nat>) {
    n.Some? && n.value < |h.keys| && Less(h.keys[n.value], key)
  }

  /** The answer of a search for the first node at or after `key`. */
  ghost predicate FirstAtOrAfter(h: Heap, lists: Lists, key: InternalKey, r: Option<nat>)
    requires Shape(h, lists)
  {
    && (r.Some? ==> r.value in lists[0] && r.value != 0 && r.value < |h.keys| && !Less(h.keys[r.value], key))
    && (forall i :: 0 < i < |lists[0]| && !Less(h.keys[lists[0][i]], key) ==>
          r.Some? && r.value < |h.keys| && (lists[0][i] == r.value || Less(h.keys[r.value], h.keys[lists[0][i]])))
  }

  /** A link followed from a node of a level leads to the next node of that level. */
  lemma Follow(h: Heap, lists: Lists, l: nat, x: nat) returns (i: nat)
    requires Shape(h, lists) && l < MAX_HEIGHT && x in lists[l]
    ensures i < |lists[l]| && lists[l][i] == x && x < |h.keys| && h.next[l][x] == At(lists[l], i + 1)
    ensures h.next[l][x].Some? ==> h.next[l][x].value < |h.keys|
  {
    assert Linked(h, l, lists[l]);
    i :| 0 <= i < |lists[l]| && lists[l][i] == x;
  }

  /** One read of a search: where it goes from node `x` of level `l`. */
  datatype Move = To(level: nat, node: nat) | Found(result: Option<nat>)

  function SearchStep(h: Heap, key: InternalKey, l: nat, x: nat): Move
    requires l < |h.next| && x < |h.next[l]|
  {
    var next := h.next[l][x];
    if IsAfterNode(h, key, next) then To(l, next.value)
    else if l == 0 then Found(next)
    else To(l - 1, x)
  }

  /** A read keeps the search before the key, or ends it with the right answer for this very state. */
  lemma SearchStepRight(h: Heap, lists: Lists, key: InternalKey, l: nat, x: nat)
    requires Shape(h, lists) && Ahead(h, lists, key, l, x)
    ensures l < |h.next| && x < |h.next[l]|
    ensures match SearchStep(h, key, l, x)
            case To(m, y) => Ahead(h, lists, key, m, y)
            case Found(r) => FirstAtOrAfter(h, lists, key, r)
  {
    var i := Follow(h, lists, l, x);
    assert Linked(h, l, lists[l]);
    var next := h.next[l][x];
    if next.Some? {
      assert lists[l][i + 1] == next.value;
    }
    if !IsAfterNode(h, key, next) && l == 0 {
      StopRight(h, lists, key, i);
    }
  }

  lemma StopRight(h: Heap, lists: Lists, key: InternalKey, i: nat)
    requires Shape(h, lists) && i < |lists[0]|
    requires i > 0 ==> lists[0][i] < |h.keys| && Less(h.keys[lists[0][i]], key)
    requires !IsAfterNode(h, key, At(lists[0], i + 1))
    ensures FirstAtOrAfter(h, lists, key, At(lists[0], i + 1))
  {
    hide Less, Nested;
    var list := lists[0];
    assert Linked(h, 0, list);
    forall j | 0 < j <= i ensures Less(h.keys[list[j]], key) {
      LessTrans(h.keys[list[j]], h.keys[list[i]], key);
    }
    hide Shape;
    if i + 1 < |list| {
      assert list[i + 1] in list;
    }
  }

  lemma LessTrans(a: InternalKey, b: InternalKey, c: InternalKey)
    ensures Less(a, b) && Less(b, c) ==> Less(a, c)
  {
  }

  // ---------- readers beside the writer ----------

  /** Between two moments the writer only added nodes, level by level. */
  ghost predicate Grows(h: Heap, lists: Lists, h': Heap, lists': Lists) {
    && |lists| == |lists'| && h.keys <= h'.keys
    && forall l, n :: 0 <= l < |lists| && n in lists[l] ==> n in lists'[l]
  }

  lemma AheadStays(h: Heap, lists: Lists, h': Heap, lists': Lists, key: InternalKey, l: nat, x: nat)
    requires Ahead(h, lists, key, l, x) && Grows(h, lists, h', lists')
    ensures Ahead(h', lists', key, l, x)
  {
  }

  /** A moment in the life of the list. */
  datatype Moment = Moment(h: Heap, lists: Lists)

  ghost predicate Life(ms: seq<Moment>) {
    && (forall i :: 0 <= i < |ms| ==> Shape(ms[i].h, ms[i].lists))
    && (forall i :: 0 <= i && i + 1 < |ms| ==> Grows(ms[i].h, ms[i].lists, ms[i + 1].h, ms[i + 1].lists))
  }

  /** A reader starts at the head on any level and makes its `i`-th read at moment `i` (moments may repeat). */
  ghost predicate Searches(ms: seq<Moment>, key: InternalKey, moves: seq<Move>) {
    && |moves| == |ms| + 1
    && moves[0].To? && moves[0].node == 0 && moves[0].level < MAX_HEIGHT
    && forall i :: 0 <= i < |ms| ==>
         moves[i].To? && moves[i].level < |ms[i].h.next| && moves[i].node < |ms[i].h.next[moves[i].level]|
         && moves[i + 1] == SearchStep(ms[i].h, key, moves[i].level, moves[i].node)
  }

  lemma {:induction false} SearchStaysAhead(ms: seq<Moment>, key: InternalKey, moves: seq<Move>, i: nat)
    requires Life(ms) && Searches(ms, key, moves) && i < |ms|
    ensures Ahead(ms[i].h, ms[i].lists, key, moves[i].level, moves[i].node)
  {
    hide Shape;
    if i == 0 {
      HeadAhead(ms[0].h, ms[0].lists, key, moves[0].level);
    } else {
      SearchStaysAhead(ms, key, moves, i - 1);
      var m := ms[i - 1];
      SearchStepRight(m.h, m.lists, key, moves[i - 1].level, moves[i - 1].node);
      AheadStays(m.h, m.lists, ms[i].h, ms[i].lists, key, moves[i].level, moves[i].node);
    }
  }

  lemma HeadAhead(h: Heap, lists: Lists, key: InternalKey, l: nat)
    requires Shape(h, lists) && l < MAX_HEIGHT
    ensures Ahead(h, lists, key, l, 0)
  {
    assert Linked(h, l, lists[l]);
    assert lists[l][0] == 0;
  }

  /** However the writer's stores fall between its reads, a search that ends has the right answer for the state
      at its last read. */
  lemma ConcurrentSearch(ms: seq<Moment>, key: InternalKey, moves: seq<Move>)
    requires Life(ms) && Searches(ms, key, moves) && ms != [] && moves[|ms|].Found?
    ensures FirstAtOrAfter(ms[|ms| - 1].h, ms[|ms| - 1].lists, key, moves[|ms|].result)
  {
    hide Shape, FirstAtOrAfter;
    var n := |ms| - 1;
    SearchStaysAhead(ms, key, moves, n);
    SearchStepRight(ms[n].h, ms[n].lists, key, moves[n].level, moves[n].node);
  }

  // ---------- the writer's stores ----------

  /** A new node, not yet linked anywhere. */
  function Allocate(h: Heap, key: InternalKey): Heap {
    h.(keys := h.keys + [key], next := seq(|h.next|, l requires 0 <= l < |h.next| => h.next[l] + [None]))
  }

  function SetNext(h: Heap, l: nat, n: nat, to: Option<nat>): Heap
    requires l < |h.next| && n < |h.next[l]|
  {
    h.(next := h.next[l := h.next[l][n := to]])
  }

  function InsertAt(list: seq<nat>, i: nat, x: nat): seq<nat>
    requires i < |list|
  {
    list[..i + 1] + [x] + list[i + 1..]
  }

  lemma AllocateKeeps(h: Heap, lists: Lists, key: InternalKey)
    requires Shape(h, lists)
    ensures Shape(Allocate(h, key), lists) && Grows(h, lists, Allocate(h, key), lists)
    ensures forall l, n :: 0 <= l < MAX_HEIGHT && n in lists[l] ==> n != |h.keys|
  {
    var h' := Allocate(h, key);
    forall l | 0 <= l < MAX_HEIGHT ensures Linked(h', l, lists[l]) {
      assert Linked(h, l, lists[l]);
    }
    forall l, n | 0 <= l < MAX_HEIGHT && n in lists[l] ensures n != |h.keys| {
      assert Linked(h, l, lists[l]);
    }
  }

  /** Raising the height shows nothing new: the levels above hold the head only. */
  lemma RaiseKeeps(h: Heap, lists: Lists, height: nat)
    requires Shape(h, lists) && h.maxHeight <= height <= MAX_HEIGHT
    ensures Shape(h.(maxHeight := height), lists) && Grows(h, lists, h.(maxHeight := height), lists)
  {
    forall l | 0 <= l < MAX_HEIGHT ensures Linked(h.(maxHeight := height), l, lists[l]) {
      assert Linked(h, l, lists[l]);
    }
  }

  /** A store into a node that is not on the level changes no list. */
  lemma FillKeeps(h: Heap, lists: Lists, l: nat, x: nat, to: Option<nat>)
    requires Shape(h, lists) && l < MAX_HEIGHT && x < |h.keys| && x !in lists[l]
    ensures Shape(SetNext(h, l, x, to), lists) && Grows(h, lists, SetNext(h, l, x, to), lists)
  {
    var h' := SetNext(h, l, x, to);
    forall m | 0 <= m < MAX_HEIGHT ensures Linked(h', m, lists[m]) {
      assert Linked(h, m, lists[m]);
      if m == l {
        forall i | 0 <= i < |lists[m]| ensures h'.next[m][lists[m][i]] == At(lists[m], i + 1) {
          assert lists[m][i] in lists[m];
        }
      }
    }
  }

  /** Position `i` of level `l` is the last one before `key`. */
  ghost predicate Gap(h: Heap, list: seq<nat>, key: InternalKey, i: nat) {
    && i < |list|
    && (forall j :: 0 < j <= i ==> list[j] < |h.keys| && Less(h.keys[list[j]], key))
    && (forall j :: i < j < |list| ==> list[j] < |h.keys| && Less(key, h.keys[list[j]]))
  }

  lemma InsertedAt(list: seq<nat>, i: nat, x: nat, j: nat)
    requires i < |list| && j <= |list|
    ensures InsertAt(list, i, x)[j] == if j <= i then list[j] else if j == i + 1 then x else list[j - 1]
  {
  }

  lemma PublishLinked(h: Heap, l: nat, list: seq<nat>, i: nat, x: nat)
    requires l < |h.next| && |h.next[l]| == |h.keys| && Linked(h, l, list)
    requires x < |h.keys| && x != 0 && x !in list && Gap(h, list, h.keys[x], i)
    requires h.next[l][x] == At(list, i + 1)
    ensures Linked(SetNext(h, l, list[i], Some(x)), l, InsertAt(list, i, x))
  {
    hide InsertAt, Less;
    var h' := SetNext(h, l, list[i], Some(x));
    var now := InsertAt(list, i, x);
    assert |now| == |list| + 1 by { InsertedLength(list, i, x); }
    forall j | 0 <= j < |now| ensures now[j] < |h.keys| && (j > 0 ==> now[j] != 0) {
      InsertedAt(list, i, x, j);
    }
    assert now[0] == 0 by { InsertedAt(list, i, x, 0); }
    forall j | 0 <= j < |now| ensures h'.next[l][now[j]] == At(now, j + 1) {
      PublishLink(h, l, list, i, x, j);
    }
    forall a, b | 0 < a < b < |now| ensures Less(h'.keys[now[a]], h'.keys[now[b]]) {
      InsertedAt(list, i, x, a);
      InsertedAt(list, i, x, b);
    }
  }

  lemma InsertedLength(list: seq<nat>, i: nat, x: nat)
    requires i < |list|
    ensures |InsertAt(list, i, x)| == |list| + 1
  {
  }

  lemma PublishLink(h: Heap, l: nat, list: seq<nat>, i: nat, x: nat, j: nat)
    requires l < |h.next| && |h.next[l]| == |h.keys| && Linked(h, l, list)
    requires x < |h.keys| && x !in list && i < |list| && j <= |list|
    requires h.next[l][x] == At(list, i + 1)
    ensures |InsertAt(list, i, x)| == |list| + 1 && InsertAt(list, i, x)[j] < |h.keys|
    ensures SetNext(h, l, list[i], Some(x)).next[l][InsertAt(list, i, x)[j]] == At(InsertAt(list, i, x), j + 1)
  {
    hide InsertAt, Less, Linked;
    InsertedLength(list, i, x);
    InsertedAt(list, i, x, j);
    if j < |list| {
      InsertedAt(list, i, x, j + 1);
    }
    LinkAt(h, l, list, i);
    if j <= i {
      LinkAt(h, l, list, j);
    } else if j > i + 1 {
      LinkAt(h, l, list, j - 1);
    }
    if j < i {
      Distinct(h, l, list, j, i);
    } else if j > i + 1 {
      Distinct(h, l, list, i, j - 1);
    }
  }

  lemma LinkAt(h: Heap, l: nat, list: seq<nat>, i: nat)
    requires l < |h.next| && |h.next[l]| == |h.keys| && Linked(h, l, list) && i < |list|
    ensures list[i] < |h.keys| && h.next[l][list[i]] == At(list, i + 1) && list[i] in list
  {
  }

  lemma Distinct(h: Heap, l: nat, list: seq<nat>, i: nat, j: nat)
    requires l < |h.next| && |h.next[l]| == |h.keys| && Linked(h, l, list) && i < j < |list|
    ensures list[i] != list[j]
  {
    if i > 0 {
      assert Less(h.keys[list[i]], h.keys[list[j]]);
      LessTotal(h.keys[list[i]], h.keys[list[i]]);
    }
  }

  /** Publishing a node on a level, its own link already set, makes it a member of exactly that level. */
  lemma PublishKeeps(h: Heap, lists: Lists, l: nat, i: nat, x: nat)
    requires Shape(h, lists) && l < h.maxHeight && x < |h.keys| && x != 0 && x !in lists[l]
    requires forall m :: 0 <= m < l ==> x in lists[m]
    requires Gap(h, lists[l], h.keys[x], i) && h.next[l][x] == At(lists[l], i + 1)
    ensures lists[l][i] < |h.keys|
    ensures var h', lists' := SetNext(h, l, lists[l][i], Some(x)), lists[l := InsertAt(lists[l], i, x)];
            Shape(h', lists') && Grows(h, lists, h', lists')
  {
    assert Linked(h, l, lists[l]);
    var list := lists[l];
    var h', lists' := SetNext(h, l, list[i], Some(x)), lists[l := InsertAt(list, i, x)];
    forall m | 0 <= m < MAX_HEIGHT ensures Linked(h', m, lists'[m]) {
      assert Linked(h, m, lists[m]);
      if m == l {
        PublishLinked(h, l, list, i, x);
      }
    }
    InsertedMembers(list, i, x);
    assert Nested(lists') by {
      forall k, m, n | 0 <= k < m < |lists'| && n in lists'[m] ensures n in lists'[k] {
        assert n in lists[m] || (m == l && n == x);
      }
    }
  }

  lemma InsertedMembers(list: seq<nat>, i: nat, x: nat)
    requires i < |list|
    ensures forall n :: n in InsertAt(list, i, x) <==> n in list || n == x
  {
    assert list == list[..i + 1] + list[i + 1..];
  }

  // ---------- the class ----------

  class SkipList {
    var keys: seq<InternalKey>
    var next: seq<seq<Option<nat>>>
    var maxHeight: nat
    ghost var lists: Lists

    ghost predicate Valid()
      reads this
    {
      Shape(Now(), lists)
    }

    function Now(): Heap
      reads this
    {
      Heap(keys, next, maxHeight)
    }

    constructor (any: InternalKey)
      ensures Valid() && forall k :: !Holds(Now(), lists, k)
    {
      keys := [any];
      next := seq(MAX_HEIGHT, _ => [None]);
      maxHeight := 1;
      lists := seq(MAX_HEIGHT, _ => [0]);
    }

    /** The first node at or after `key`, and the last node before it on each level in use. */
    method FindGreaterOrEqual(key: InternalKey) returns (r: Option<nat>, prev: seq<nat>)
      requires Valid()
      ensures FirstAtOrAfter(Now(), lists, key, r)
      ensures |prev| == maxHeight
      ensures forall l :: 0 <= l < maxHeight ==> LastBefore(Now(), lists, key, l, prev[l])
    {
      hide Shape, FirstAtOrAfter, Less, LastBefore;
      ghost var h := Now();
      SizedShape(h, lists);
      var x: nat, level: nat := 0, maxHeight - 1;
      HeadAhead(h, lists, key, level);
      ghost var i: nat := Follow(h, lists, level, x);
      prev := seq(maxHeight, _ => 0);
      while true
        invariant level < maxHeight && Ahead(h, lists, key, level, x) && |prev| == maxHeight
        invariant i < |lists[level]| && lists[level][i] == x
        invariant forall l :: level < l < maxHeight ==> LastBefore(h, lists, key, l, prev[l])
        decreases level, |lists[level]| - i
      {
        i := FollowFrom(h, lists, level, i);
        SearchStepRight(h, lists, key, level, x);
        var nextNode := next[level][x];
        if nextNode.Some? && Less(keys[nextNode.value], key) {
          x := nextNode.value;
          i := i + 1;
        } else {
          StopsBefore(h, lists, key, level, i);
          prev := prev[level := x];
          if level == 0 {
            return nextNode, prev;
          }
          level := level - 1;
          i := Follow(h, lists, level, x);
        }
      }
    }

    /** The last node before `key`; the head if there is none. */
    method FindLessThan(key: InternalKey) returns (x: nat)
      requires Valid()
      ensures LastBefore(Now(), lists, key, 0, x)
    {
      hide Shape, Less, LastBefore;
      ghost var h := Now();
      SizedShape(h, lists);
      var level: nat := maxHeight - 1;
      x := 0;
      HeadAhead(h, lists, key, level);
      ghost var i: nat := Follow(h, lists, level, x);
      while true
        invariant level < maxHeight && Ahead(h, lists, key, level, x)
        invariant i < |lists[level]| && lists[level][i] == x
        decreases level, |lists[level]| - i
      {
        i := FollowFrom(h, lists, level, i);
        SearchStepRight(h, lists, key, level, x);
        var nextNode := next[level][x];
        if nextNode.None? || !Less(keys[nextNode.value], key) {
          if level == 0 {
            StopsBefore(h, lists, key, level, i);
            return;
          }
          level := level - 1;
          i := Follow(h, lists, level, x);
        } else {
          x := nextNode.value;
          i := i + 1;
        }
      }
    }

    /** The last node; the head if the list is empty. */
    method FindLast() returns (x: nat)
      requires Valid()
      ensures lists[0] != [] && x == lists[0][|lists[0]| - 1]
    {
      hide Shape;
      ghost var h := Now();
      SizedShape(h, lists);
      var level: nat := maxHeight - 1;
      x := 0;
      HeadThere(h, lists, level);
      ghost var i: nat := Follow(h, lists, level, x);
      while true
        invariant level < maxHeight && i < |lists[level]| && lists[level][i] == x
        decreases level, |lists[level]| - i
      {
        i := FollowFrom(h, lists, level, i);
        var nextNode := next[level][x];
        if nextNode.None? {
          if level == 0 {
            return;
          }
          Below(h, lists, level, x);
          level := level - 1;
          i := Follow(h, lists, level, x);
        } else {
          x := nextNode.value;
          i := i + 1;
        }
      }
    }

    method Contains(key: InternalKey) returns (b: bool)
      requires Valid()
      ensures b <==> Holds(Now(), lists, key)
    {
      hide Less;
      var x, _ := FindGreaterOrEqual(key);
      b := x.Some? && keys[x.value] == key;
      HoldsFirst(Now(), lists, key, x);
    }

    /** Takes more levels into use; on them the head comes before every key. */
    method Raise(key: InternalKey, prev0: seq<nat>, height: nat) returns (prev: seq<nat>)
      requires Valid() && maxHeight < height <= MAX_HEIGHT && |prev0| == maxHeight
      requires forall l :: 0 <= l < maxHeight ==> LastBefore(Now(), lists, key, l, prev0[l])
      modifies this`maxHeight
      ensures Now() == old(Now()).(maxHeight := height)
      ensures Valid() && Grows(old(Now()), lists, Now(), lists)
      ensures |prev| == height && forall l :: 0 <= l < height ==> LastBefore(old(Now()), lists, key, l, prev[l])
    {
      hide Shape, LastBefore;
      ghost var h0 := Now();
      prev := prev0;
      var i := maxHeight;
      while i < height
        invariant maxHeight <= i <= height && |prev| == i && Now() == h0
        invariant forall l :: 0 <= l < i ==> LastBefore(h0, lists, key, l, prev[l])
      {
        EmptyLevel(h0, lists, key, i);
        prev := prev + [0];
        i := i + 1;
      }
      maxHeight := height;
      RaiseKeeps(h0, lists, height);
    }

    /** Inserts a key that is not in the list, with a node of any height.  `life` is every state in between that
        a reader may meet: each is well formed, and holds the old keys or the old keys and the new one. */
    method Insert(key: InternalKey, height: nat) returns (ghost life: seq<Moment>)
      requires Valid() && !Holds(Now(), lists, key) && 1 <= height <= MAX_HEIGHT
      modifies this
      ensures Valid() && forall k :: Holds(Now(), lists, k) <==> old(Holds(Now(), lists, k)) || k == key
      ensures Life(life) && |life| > 0
      ensures life[0] == Moment(old(Now()), old(lists)) && life[|life| - 1] == Moment(Now(), lists)
      ensures forall i :: 0 <= i < |life| ==>
                life[i].lists[0] == old(lists)[0] || life[i].lists[0] == lists[0]
      ensures keys == old(keys) + [key] && |lists| == |old(lists)| == MAX_HEIGHT
      ensures maxHeight == if height > old(maxHeight) then height else old(maxHeight)
      ensures forall l :: 0 <= l < MAX_HEIGHT ==>
                if l < height then InsertedInto(old(lists)[l], lists[l], |old(keys)|) else lists[l] == old(lists)[l]
    {
      hide Shape, FirstAtOrAfter, Less, LastBefore, Holds, Linked, Grows, Life, Inserting;
      ghost var h0, lists0 := Now(), lists;
      SizedShape(h0, lists0);
      var _, prev := FindGreaterOrEqual(key);
      life := [Moment(h0, lists0)];
      BirthOk(h0, lists0);
      if height > maxHeight {
        prev := Raise(key, prev, height);
        LifeGoesOn(life, Moment(Now(), lists));
        life := life + [Moment(Now(), lists)];
      }
      ghost var h1 := Now();
      var x, links := |keys|, next;
      keys := keys + [key];
      next := seq(|links|, l requires 0 <= l < |links| => links[l] + [None]);
      AllocateKeeps(h1, lists, key);
      assert Now() == Allocate(h1, key);
      LifeGoesOn(life, Moment(Now(), lists));
      life := life + [Moment(Now(), lists)];
      StartInserting(h0, lists0, h1, Now(), key, height, prev);
      var i := 0;
      while i < height
        invariant 0 <= i <= height
        invariant Inserting(h0, lists0, Now(), lists, key, x, i, height, prev) && maxHeight == h1.maxHeight
        invariant Life(life) && |life| > 0 && life[0] == Moment(h0, lists0) && life[|life| - 1] == Moment(Now(), lists)
        invariant forall j :: 0 <= j < |life| ==> |life[j].lists| == MAX_HEIGHT
        invariant forall j :: 0 <= j < |life| ==>
                    life[j].lists[0] == lists0[0] || (i > 0 && life[j].lists[0] == lists[0])
      {
        ghost var h, was := Now(), lists;
        var p := prev[i];
        ghost var q := InsertLevel(h0, lists0, h, lists, key, x, i, height, prev);
        next := next[i := next[i][x := next[i][p]]];
        assert Now() == SetNext(h, i, x, h.next[i][p]);
        LifeGoesOn(life, Moment(Now(), lists));
        life := life + [Moment(Now(), lists)];
        next := next[i := next[i][p := Some(x)]];
        lists := lists[i := InsertAt(lists[i], q, x)];
        LifeGoesOn(life, Moment(Now(), lists));
        life := life + [Moment(Now(), lists)];
        i := i + 1;
      }
      InsertedHolds(h0, lists0, Now(), lists, key, x, height, prev);
      InsertedLevels(h0, lists0, Now(), lists, key, x, height, prev);
    }
  }

  lemma BirthOk(h: Heap, lists: Lists)
    requires Shape(h, lists)
    ensures Life([Moment(h, lists)])
  {
  }

  lemma StartInserting(h0: Heap, lists0: Lists, h1: Heap, h: Heap, key: InternalKey, height: nat, prev: seq<nat>)
    requires Shape(h0, lists0) && !Holds(h0, lists0, key) && Shape(h, lists0)
    requires h1.keys == h0.keys && h.keys == h1.keys + [key] && 1 <= height <= h.maxHeight
    requires height <= |prev| && forall l :: 0 <= l < height ==> LastBefore(h0, lists0, key, l, prev[l])
    ensures Inserting(h0, lists0, h, lists0, key, |h0.keys|, 0, height, prev)
  {
    hide LastBefore, Shape, Linked;
    SizedShape(h0, lists0);
    SizedShape(h, lists0);
    forall l | 0 <= l < MAX_HEIGHT ensures OtherKeys(h0, lists0[l], key) {
      NoHeadInside(h0, lists0, l);
      forall j | 0 < j < |lists0[l]| ensures lists0[l][j] < |h0.keys| && h0.keys[lists0[l][j]] != key {
        ListedNode(h0, lists0, l, lists0[l][j]);
      }
    }
    forall l | 0 <= l < MAX_HEIGHT ensures |h0.keys| !in lists0[l] {
      if |h0.keys| in lists0[l] {
        var i := Follow(h0, lists0, l, |h0.keys|);
        assert false;
      }
    }
    HeadThere(h0, lists0, 0);
    var i := Follow(h0, lists0, 0, 0);
    assert Planned(h0, lists0, key, height, prev);
    hide Planned;
  }

  /** Every node on any level holds one of the keys. */
  lemma ListedNode(h: Heap, lists: Lists, l: nat, n: nat)
    requires Shape(h, lists) && l < MAX_HEIGHT && n > 0 && n in lists[l]
    ensures n < |h.keys| && Holds(h, lists, h.keys[n])
  {
    hide Linked;
    assert l > 0 ==> n in lists[0];
    var i := Follow(h, lists, 0, n);
    HeadFirst(h, lists);
    assert i > 0;
  }

  lemma HeadFirst(h: Heap, lists: Lists)
    requires Shape(h, lists)
    ensures |lists[0]| > 0 && lists[0][0] == 0
  {
    assert Linked(h, 0, lists[0]);
  }

  /** One level of an insertion: the node's own link, then the link to it. */
  lemma InsertLevel(h0: Heap, lists0: Lists, h: Heap, lists: Lists, key: InternalKey, x: nat, i: nat, height: nat,
                    prev: seq<nat>)
    returns (q: nat)
    requires Inserting(h0, lists0, h, lists, key, x, i, height, prev) && i < height
    ensures q < |lists[i]| && |h.next| == MAX_HEIGHT && x < |h.next[i]| && prev[i] < |h.next[i]| && prev[i] != x
    ensures var h1 := SetNext(h, i, x, h.next[i][prev[i]]);
            var h2 := SetNext(h1, i, prev[i], Some(x));
            var lists2 := lists[i := InsertAt(lists[i], q, x)];
            && Shape(h1, lists) && Grows(h, lists, h1, lists) && Shape(h2, lists2) && Grows(h1, lists, h2, lists2)
            && Inserting(h0, lists0, h2, lists2, key, x, i + 1, height, prev)
  {
    hide Shape, Linked, Grows;
    var p := prev[i];
    assert LastBefore(h0, lists0, key, i, p);
    q :| LastAt(h0, lists0[i], key, p, q);
    SizedShape(h, lists);
    q := FollowFrom(h, lists, i, q);
    assert lists[i] == lists0[i] && OtherKeys(h0, lists0[i], key);
    LastIsGap(h0, lists0, h, lists[i], key, x, i, p, q);
    FillKeeps(h, lists, i, x, h.next[i][p]);
    var h1 := SetNext(h, i, x, h.next[i][p]);
    GapFrame(h, h1, lists[i], key, q);
    NewBelow(h0, lists0, h, lists, key, x, i, height, prev);
    PublishKeeps(h1, lists, i, q, x);
    var lists2 := lists[i := InsertAt(lists[i], q, x)];
    var h2 := SetNext(h1, i, p, Some(x));
    assert lists[i][q] == p;
    assert Shape(h2, lists2) && Grows(h1, lists, h2, lists2);
    assert InsertedInto(lists0[i], lists2[i], x);
    hide InsertedInto, LastBefore, InsertAt, Planned, Gap, LastAt;
    assert Inserting(h0, lists0, h2, lists2, key, x, i + 1, height, prev);
  }

  lemma NoHeadInside(h: Heap, lists: Lists, l: nat)
    requires Shape(h, lists) && l < MAX_HEIGHT
    ensures forall j :: 0 < j < |lists[l]| ==> lists[l][j] != 0
  {
    assert Linked(h, l, lists[l]);
  }

  lemma LifeGoesOn(life: seq<Moment>, m: Moment)
    requires Life(life) && life != [] && Shape(m.h, m.lists)
    requires Grows(life[|life| - 1].h, life[|life| - 1].lists, m.h, m.lists)
    ensures Life(life + [m])
  {
    hide Shape, Grows;
  }

  lemma GapFrame(h: Heap, h': Heap, list: seq<nat>, key: InternalKey, q: nat)
    requires Gap(h, list, key, q) && h'.keys == h.keys
    ensures Gap(h', list, key, q)
  {
  }

  lemma LastIsGap(h0: Heap, lists0: Lists, h: Heap, list: seq<nat>, key: InternalKey, x: nat, l: nat, p: nat, q: nat)
    requires l < |lists0| && list == lists0[l] && LastAt(h0, list, key, p, q)
    requires h.keys == h0.keys + [key] && x == |h0.keys|
    requires OtherKeys(h0, list, key)
    ensures h.keys[x] == key && Gap(h, list, key, q)
  {
    hide Less;
    forall j | q < j < |list| ensures list[j] < |h.keys| && Less(key, h.keys[list[j]]) {
      LessTotal(key, h.keys[list[j]]);
    }
  }

  lemma NewBelow(h0: Heap, lists0: Lists, h: Heap, lists: Lists, key: InternalKey, x: nat, i: nat, height: nat,
                 prev: seq<nat>)
    requires Inserting(h0, lists0, h, lists, key, x, i, height, prev) && i <= MAX_HEIGHT
    ensures forall m :: 0 <= m < i ==> x in lists[m]
  {
    hide Shape, LastBefore;
    SizedShape(h, lists);
    forall m | 0 <= m < i ensures x in lists[m] {
      assert InsertedInto(lists0[m], lists[m], x);
      var p: nat :| p < |lists0[m]| && lists[m] == InsertAt(lists0[m], p, x);
      InsertedMembers(lists0[m], p, x);
    }
  }

  lemma InsertedHolds(h0: Heap, lists0: Lists, h: Heap, lists: Lists, key: InternalKey, x: nat, height: nat,
                      prev: seq<nat>)
    requires Shape(h0, lists0) && Inserting(h0, lists0, h, lists, key, x, height, height, prev) && 1 <= height
    ensures Shape(h, lists)
    ensures forall k :: Holds(h, lists, k) <==> Holds(h0, lists0, k) || k == key
  {
    hide LastBefore, InsertAt, Nested;
    assert InsertedInto(lists0[0], lists[0], x);
    var p: nat :| p < |lists0[0]| && lists[0] == InsertAt(lists0[0], p, x);
    assert Linked(h0, 0, lists0[0]) && Linked(h, 0, lists[0]);
    hide Shape, Inserting;
    InsertedLength(lists0[0], p, x);
    forall k ensures Holds(h, lists, k) <==> Holds(h0, lists0, k) || k == key {
      InsertedKey(h0, lists0[0], h, lists[0], key, x, p, k);
    }
  }

  lemma InsertedLevels(h0: Heap, lists0: Lists, h: Heap, lists: Lists, key: InternalKey, x: nat, height: nat,
                       prev: seq<nat>)
    requires Shape(h0, lists0) && Inserting(h0, lists0, h, lists, key, x, height, height, prev)
    ensures h.keys == h0.keys + [key] && x == |h0.keys| && |lists| == |lists0| == MAX_HEIGHT
    ensures forall l :: 0 <= l < MAX_HEIGHT ==>
              if l < height then InsertedInto(lists0[l], lists[l], x) else lists[l] == lists0[l]
  {
    hide Linked, Nested, InsertedInto, Planned;
  }

  lemma InsertedKey(h0: Heap, old0: seq<nat>, h: Heap, now: seq<nat>, key: InternalKey, x: nat, p: nat, k: InternalKey)
    requires p < |old0| && |now| == |old0| + 1 && now == InsertAt(old0, p, x) && x == |h0.keys|
    requires h.keys == h0.keys + [key]
    requires forall i :: 0 <= i < |old0| ==> old0[i] < |h0.keys|
    ensures forall i :: 0 <= i < |now| ==> now[i] < |h.keys|
    ensures (exists j :: 0 < j < |now| && h.keys[now[j]] == k)
           <==> (exists j :: 0 < j < |old0| && h0.keys[old0[j]] == k) || k == key
  {
    hide InsertAt;
    forall i | 0 <= i < |now| ensures now[i] < |h.keys| {
      InsertedAt(old0, p, x, i);
    }
    if j :| 0 < j < |now| && h.keys[now[j]] == k {
      InsertedAt(old0, p, x, j);
      assert j <= p ==> h0.keys[old0[j]] == k;
      assert j > p + 1 ==> h0.keys[old0[j - 1]] == k;
    }
    if j :| 0 < j < |old0| && h0.keys[old0[j]] == k {
      var i := if j <= p then j else j + 1;
      InsertedAt(old0, p, x, i);
      assert h.keys[now[i]] == k;
    }
    InsertedAt(old0, p, x, p + 1);
    assert h.keys[now[p + 1]] == key;
  }

  lemma SizedShape(h: Heap, lists: Lists)
    requires Shape(h, lists)
    ensures Sized(h, lists)
  {
  }

  lemma HeadThere(h: Heap, lists: Lists, l: nat)
    requires Shape(h, lists) && l < MAX_HEIGHT
    ensures 0 in lists[l]
  {
    assert Linked(h, l, lists[l]);
    assert lists[l][0] == 0;
  }

  lemma Below(h: Heap, lists: Lists, l: nat, x: nat)
    requires Shape(h, lists) && 0 < l < MAX_HEIGHT && x in lists[l]
    ensures x in lists[l - 1]
  {
  }

  /** What is read at position `i` of a level. */
  lemma FollowFrom(h: Heap, lists: Lists, l: nat, i: nat) returns (same: nat)
    requires Shape(h, lists) && l < MAX_HEIGHT && i < |lists[l]|
    ensures same == i && lists[l][i] < |h.keys| && lists[l][i] in lists[l]
    ensures h.next[l][lists[l][i]] == At(lists[l], i + 1)
    ensures h.next[l][lists[l][i]].Some? ==> h.next[l][lists[l][i]].value < |h.keys|
  {
    same := i;
    assert Linked(h, l, lists[l]);
  }

  /** Node `p` of level `l` is the last one before `key`. */
  ghost predicate LastBefore(h: Heap, lists: Lists, key: InternalKey, l: nat, p: nat) {
    && l < |lists|
    && exists i :: LastAt(h, lists[l], key, p, i)
  }

  ghost predicate LastAt(h: Heap, list: seq<nat>, key: InternalKey, p: nat, i: nat) {
    && i < |list| && list[i] == p
    && (forall j :: 0 < j <= i ==> list[j] < |h.keys| && Less(h.keys[list[j]], key))
    && (forall j :: i < j < |list| ==> list[j] < |h.keys| && !Less(h.keys[list[j]], key))
  }

  lemma StopsBefore(h: Heap, lists: Lists, key: InternalKey, l: nat, i: nat)
    requires Shape(h, lists) && l < MAX_HEIGHT && i < |lists[l]| && Ahead(h, lists, key, l, lists[l][i])
    requires !IsAfterNode(h, key, At(lists[l], i + 1))
    ensures LastBefore(h, lists, key, l, lists[l][i])
  {
    var list := lists[l];
    assert Linked(h, l, list);
    hide Less;
    forall j | 0 < j <= i ensures list[j] < |h.keys| && Less(h.keys[list[j]], key) {
      if j < i {
        LessTrans(h.keys[list[j]], h.keys[list[i]], key);
      }
    }
    forall j | i < j < |list| ensures list[j] < |h.keys| && !Less(h.keys[list[j]], key) {
      if i + 1 < j {
        LessTrans(h.keys[list[i + 1]], h.keys[list[j]], key);
      }
    }
    assert LastAt(h, list, key, list[i], i);
  }

  lemma HoldsFirst(h: Heap, lists: Lists, key: InternalKey, r: Option<nat>)
    requires Shape(h, lists) && FirstAtOrAfter(h, lists, key, r)
    ensures Holds(h, lists, key) <==> r.Some? && r.value < |h.keys| && h.keys[r.value] == key
  {
    var list := lists[0];
    assert Linked(h, 0, list);
    LessTotal(key, key);
    if i :| 0 < i < |list| && h.keys[list[i]] == key {
      LessTotal(h.keys[r.value], key);
    }
    if r.Some? {
      var i :| 0 <= i < |list| && list[i] == r.value;
      assert i > 0;
    }
  }

  lemma EmptyLevel(h: Heap, lists: Lists, key: InternalKey, l: nat)
    requires Shape(h, lists) && h.maxHeight <= l < MAX_HEIGHT
    ensures LastBefore(h, lists, key, l, 0)
  {
    assert LastAt(h, lists[l], key, 0, 0);
  }

  ghost predicate InsertedInto(list0: seq<nat>, list: seq<nat>, x: nat) {
    exists p: nat :: p < |list0| && list == InsertAt(list0, p, x)
  }

  /** What the search before an insertion found, and that the key is new. */
  ghost predicate Planned(h0: Heap, lists0: Lists, key: InternalKey, height: nat, prev: seq<nat>) {
    && |lists0| == MAX_HEIGHT && |h0.keys| > 0 && height <= |prev| && height <= MAX_HEIGHT
    && (forall l :: 0 <= l < height ==> LastBefore(h0, lists0, key, l, prev[l]))
    && (forall l :: 0 <= l < MAX_HEIGHT ==> OtherKeys(h0, lists0[l], key))
  }

  ghost predicate OtherKeys(h: Heap, list: seq<nat>, key: InternalKey) {
    forall j :: 0 < j < |list| ==> list[j] < |h.keys| && h.keys[list[j]] != key
  }

  /** The state of an insertion that has published the new node `x` on the levels below `i`. */
  ghost predicate Inserting(h0: Heap, lists0: Lists, h: Heap, lists: Lists, key: InternalKey, x: nat, i: nat,
                            height: nat, prev: seq<nat>) {
    && Planned(h0, lists0, key, height, prev)
    && Shape(h, lists) && |lists| == MAX_HEIGHT && height <= h.maxHeight
    && x == |h0.keys| && h.keys == h0.keys + [key]
    && i <= MAX_HEIGHT && (forall l :: 0 <= l < i ==> InsertedInto(lists0[l], lists[l], x))
    && (forall l :: i <= l < MAX_HEIGHT ==> lists[l] == lists0[l] && x !in lists0[l])
  }
}
