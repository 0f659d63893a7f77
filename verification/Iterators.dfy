/** Cursors over sorted runs, and the merging iterator over many of them (table/merger.cc). */
module Iterators {
  import opened InternalKeys
  import opened Files
  import opened Runs

  /** A position in a sorted run; at the length of the run the cursor is not valid. */
  datatype Cursor = Cursor(run: seq<Entry>, pos: nat)

  predicate Valid(c: Cursor) {
    c.pos < |c.run|
  }

  function Key(c: Cursor): InternalKey
    requires Valid(c)
  {
    c.run[c.pos].key
  }

  function ToFirst(c: Cursor): Cursor {
    c.(pos := 0)
  }

  function ToLast(c: Cursor): Cursor {
    c.(pos := if c.run == [] then 0 else |c.run| - 1)
  }

  function ToKey(c: Cursor, k: InternalKey): Cursor {
    c.(pos := Seek(c.run, k))
  }

  function Forth(c: Cursor): Cursor
    requires Valid(c)
  {
    c.(pos := c.pos + 1)
  }

  function Back(c: Cursor): Cursor
    requires Valid(c)
  {
    c.(pos := if c.pos == 0 then |c.run| else c.pos - 1)
  }

  // ---------- cuts of the merged run ----------

  /** The entry lies before position `p` of the merged run `m`. */
  predicate Before(m: seq<Entry>, p: nat, e: Entry) {
    p >= |m| || Less(e.key, m[p].key)
  }

  /** The child stands at its first entry that is not before `p`. */
  ghost predicate AtCut(c: Cursor, m: seq<Entry>, p: nat) {
    c.pos <= |c.run| && forall j :: 0 <= j < |c.run| ==> (j < c.pos <==> Before(m, p, c.run[j]))
  }

  /** The child stands at its last entry before `p`, or is not valid if it has none. */
  ghost predicate UnderCut(c: Cursor, m: seq<Entry>, p: nat) {
    && c.pos <= |c.run|
    && forall j :: 0 <= j < |c.run| ==> (Valid(c) && j <= c.pos <==> Before(m, p, c.run[j]))
  }

  ghost predicate Parts(children: seq<Cursor>, m: seq<Entry>) {
    && Sorted(m)
    && (forall i :: 0 <= i < |children| ==> Sorted(children[i].run))
    && (forall i, j :: 0 <= i < j < |children| ==> DisjointKeys(children[i].run, children[j].run))
    && (forall e :: e in m <==> exists i :: 0 <= i < |children| && e in children[i].run)
  }

  ghost predicate AllAt(children: seq<Cursor>, m: seq<Entry>, p: nat) {
    forall i :: 0 <= i < |children| ==> AtCut(children[i], m, p)
  }

  ghost predicate AllUnder(children: seq<Cursor>, m: seq<Entry>, p: nat) {
    forall i :: 0 <= i < |children| ==> UnderCut(children[i], m, p)
  }

  /** Only the entry at `p` itself lies between the cuts at `p` and `p + 1`. */
  lemma NextCut(m: seq<Entry>, p: nat, e: Entry)
    requires Sorted(m) && p < |m| && e in m
    ensures Before(m, p + 1, e) <==> Before(m, p, e) || e == m[p]
  {
    var x :| 0 <= x < |m| && m[x] == e;
    assert x < p ==> Less(m[x].key, m[p].key);
    assert x > p ==> Less(m[p].key, m[x].key);
    assert p + 1 < |m| && x < p + 1 ==> Less(m[x].key, m[p + 1].key);
    assert p + 1 < |m| && x > p + 1 ==> Less(m[p + 1].key, m[x].key);
  }

  lemma InMerged(children: seq<Cursor>, m: seq<Entry>, i: nat, j: nat)
    requires Parts(children, m) && i < |children| && j < |children[i].run|
    ensures children[i].run[j] in m
  {
    assert children[i].run[j] in children[i].run;
  }

  /** A position with the entry `m[p]` under it. */
  ghost predicate Holds(c: Cursor, m: seq<Entry>, p: nat) {
    Valid(c) && p < |m| && c.run[c.pos] == m[p]
  }

  /** The entry at `p` belongs to some child, and at the cut that child stands on it. */
  lemma HolderAt(children: seq<Cursor>, m: seq<Entry>, p: nat) returns (i: nat)
    requires Parts(children, m) && AllAt(children, m, p) && p < |m|
    ensures i < |children| && Holds(children[i], m, p)
  {
    assert m[p] in m;
    i :| 0 <= i < |children| && m[p] in children[i].run;
    var c := children[i];
    var j :| 0 <= j < |c.run| && c.run[j] == m[p];
    assert AtCut(c, m, p) && !Before(m, p, c.run[j]);
  }

  lemma HolderUnder(children: seq<Cursor>, m: seq<Entry>, p: nat) returns (i: nat)
    requires Parts(children, m) && AllUnder(children, m, p + 1) && p < |m|
    ensures i < |children| && Holds(children[i], m, p)
  {
    assert m[p] in m;
    i :| 0 <= i < |children| && m[p] in children[i].run;
    var c := children[i];
    var j :| 0 <= j < |c.run| && c.run[j] == m[p];
    NextCut(m, p, m[p]);
    assert UnderCut(c, m, p + 1) && Before(m, p + 1, c.run[j]);
    assert j < c.pos ==> Less(c.run[j].key, c.run[c.pos].key);
    InMerged(children, m, i, c.pos);
    NextCut(m, p, c.run[c.pos]);
  }

  /** Among children at the cut the smallest key is that of `m[p]`; none is valid at the end of the run. */
  lemma SmallestAtCut(children: seq<Cursor>, m: seq<Entry>, p: nat, i: nat)
    requires Parts(children, m) && AllAt(children, m, p) && p <= |m| && i < |children| && Valid(children[i])
    ensures p < |m| && (children[i].run[children[i].pos] == m[p] || Less(m[p].key, Key(children[i])))
  {
    var c := children[i];
    assert AtCut(c, m, p) && !Before(m, p, c.run[c.pos]);
    InMerged(children, m, i, c.pos);
    InOrder(m, p, c.run[c.pos]);
  }

  lemma InOrder(m: seq<Entry>, p: nat, e: Entry)
    requires Sorted(m) && p < |m| && e in m
    ensures e == m[p] || Less(e.key, m[p].key) || Less(m[p].key, e.key)
  {
    var x :| 0 <= x < |m| && m[x] == e;
    assert x < p ==> Less(m[x].key, m[p].key);
    assert x > p ==> Less(m[p].key, m[x].key);
  }

  lemma LargestUnderCut(children: seq<Cursor>, m: seq<Entry>, p: nat, i: nat)
    requires Parts(children, m) && AllUnder(children, m, p) && p <= |m| && i < |children| && Valid(children[i])
    ensures p > 0 && (children[i].run[children[i].pos] == m[p - 1] || Less(Key(children[i]), m[p - 1].key))
  {
    var c := children[i];
    var e := c.run[c.pos];
    assert UnderCut(c, m, p) && Before(m, p, e);
    InMerged(children, m, i, c.pos);
    var x :| 0 <= x < |m| && m[x] == e;
    assert x > p && p < |m| ==> Less(m[p].key, m[x].key);
    assert p > 0 && x < p - 1 ==> Less(m[x].key, m[p - 1].key);
  }

  /** Two children cannot hold the same entry. */
  lemma OneHolder(children: seq<Cursor>, m: seq<Entry>, p: nat, a: nat, b: nat)
    requires Parts(children, m) && a < |children| && b < |children| && Holds(children[a], m, p)
    requires Holds(children[b], m, p)
    ensures a == b
  {
  }

  // ---------- moving one child ----------

  lemma ForthCut(children: seq<Cursor>, m: seq<Entry>, p: nat, i: nat)
    requires Parts(children, m) && i < |children| && AtCut(children[i], m, p) && p < |m|
    ensures Holds(children[i], m, p) ==> AtCut(Forth(children[i]), m, p + 1)
    ensures !Holds(children[i], m, p) ==> AtCut(children[i], m, p + 1)
  {
    hide Sorted, Parts;
    var c := children[i];
    forall j | 0 <= j < |c.run|
      ensures Before(m, p + 1, c.run[j]) <==> Before(m, p, c.run[j]) || c.run[j] == m[p]
    {
      Facts(children, m, i);
      InMerged(children, m, i, j);
      NextCut(m, p, c.run[j]);
    }
    forall j | 0 <= j < |c.run| && c.run[j] == m[p] ensures j == c.pos {
      Facts(children, m, i);
      Increasing(c.run, c.pos, j);
    }
    assert Holds(c, m, p) ==> forall j :: 0 <= j < |c.run| && j != c.pos ==> c.run[j] != m[p] by {
      forall j | 0 <= j < |c.run| && j != c.pos && Holds(c, m, p) ensures c.run[j] != m[p] {
      }
    }
  }

  lemma Facts(children: seq<Cursor>, m: seq<Entry>, i: nat)
    requires Parts(children, m) && i < |children|
    ensures Sorted(m) && Sorted(children[i].run)
  {
  }

  lemma Increasing(es: seq<Entry>, a: nat, b: nat)
    requires Sorted(es) && b < |es|
    ensures a < b ==> Less(es[a].key, es[b].key)
    ensures b < a < |es| ==> Less(es[b].key, es[a].key)
  {
  }

  lemma BackCut(children: seq<Cursor>, m: seq<Entry>, p: nat, i: nat)
    requires Parts(children, m) && i < |children| && UnderCut(children[i], m, p + 1) && p < |m|
    ensures Holds(children[i], m, p) ==> UnderCut(Back(children[i]), m, p)
    ensures !Holds(children[i], m, p) ==> UnderCut(children[i], m, p)
  {
    hide Sorted, Parts;
    var c := children[i];
    forall j | 0 <= j < |c.run|
      ensures Before(m, p + 1, c.run[j]) <==> Before(m, p, c.run[j]) || c.run[j] == m[p]
      ensures c.run[j] == m[p] ==> !Before(m, p, c.run[j])
    {
      Facts(children, m, i);
      InMerged(children, m, i, j);
      NextCut(m, p, c.run[j]);
      LessTotal(m[p].key, m[p].key);
    }
    forall j | 0 <= j < |c.run| && c.run[j] == m[p] ensures j == c.pos {
      Facts(children, m, i);
      Increasing(c.run, c.pos, j);
      Above(children, m, p, i, j);
    }
  }

  /** Nothing of the child lies between the entry at `p` and the cut after it. */
  lemma Above(children: seq<Cursor>, m: seq<Entry>, p: nat, i: nat, j: nat)
    requires Parts(children, m) && i < |children| && UnderCut(children[i], m, p + 1) && p < |m|
    requires j < |children[i].run| && children[i].run[j] == m[p]
    ensures Valid(children[i]) && children[i].pos <= j
  {
    hide Parts;
    var c := children[i];
    Facts(children, m, i);
    NextCut(m, p, m[p]) by { assert m[p] in m; }
    assert Before(m, p + 1, c.run[j]);
    InMerged(children, m, i, c.pos);
    NextCut(m, p, c.run[c.pos]);
    assert Before(m, p + 1, c.run[c.pos]);
    Increasing(c.run, c.pos, j);
  }
}
