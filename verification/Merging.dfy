/** `MergingIterator`: many cursors that behave as one over the sorted union (table/merger.cc). */
module Merging {
  import opened InternalKeys
  import opened Files
  import opened Runs
  import opened Iterators

  /** The same children, moved. */
  ghost predicate Moved(before: seq<Cursor>, now: seq<Cursor>) {
    |now| == |before| && forall i :: 0 <= i < |now| ==> now[i].run == before[i].run
  }

  lemma MovedParts(before: seq<Cursor>, now: seq<Cursor>, m: seq<Entry>)
    requires Parts(before, m) && Moved(before, now)
    ensures Parts(now, m)
  {
    hide Sorted, DisjointKeys;
    forall e ensures e in m <==> exists i :: 0 <= i < |now| && e in now[i].run {
      if e in m {
        var i :| 0 <= i < |before| && e in before[i].run;
        assert e in now[i].run;
      }
      if i :| 0 <= i < |now| && e in now[i].run {
        assert e in before[i].run;
      }
    }
  }

  lemma SeekCut(children: seq<Cursor>, m: seq<Entry>, i: nat, k: InternalKey)
    requires Parts(children, m) && i < |children|
    ensures AtCut(ToKey(children[i], k), m, Seek(m, k))
  {
    hide Parts, Seek;
    Facts(children, m, i);
    var p := Seek(m, k);
    var run := children[i].run;
    var q := Seek(run, k);
    forall j | 0 <= j < |run| ensures j < q <==> Before(m, p, run[j]) {
      InMerged(children, m, i, j);
      SeekSplits(run, k, j);
      var x :| 0 <= x < |m| && m[x] == run[j];
      SeekSplits(m, k, x);
      if p < |m| {
        Increasing(m, p, x);
      }
    }
  }

  lemma SeekSplits(es: seq<Entry>, k: InternalKey, j: nat)
    requires Sorted(es) && j < |es|
    ensures j < Seek(es, k) <==> Less(es[j].key, k)
  {
    hide Seek;
    var i := Seek(es, k);
    if i < |es| {
      Increasing(es, i, j);
    }
  }

  lemma FirstCut(children: seq<Cursor>, m: seq<Entry>, i: nat)
    requires Parts(children, m) && i < |children|
    ensures AtCut(ToFirst(children[i]), m, 0)
  {
    hide Parts;
    Facts(children, m, i);
    var run := children[i].run;
    forall j | 0 <= j < |run| ensures !Before(m, 0, run[j]) {
      InMerged(children, m, i, j);
      var x :| 0 <= x < |m| && m[x] == run[j];
      Increasing(m, 0, x);
    }
  }

  /** The first entry after `k`: a seek, and a step if it lands on `k` itself. */
  function PastKey(c: Cursor, k: InternalKey): Cursor {
    var s := ToKey(c, k);
    if Valid(s) && Key(s) == k then Forth(s) else s
  }

  /** Seeking the key at `p` from another child: there is nothing at the key itself, so the child is at the
      cut, and one step back is under it. */
  lemma SeekBack(children: seq<Cursor>, m: seq<Entry>, p: nat, c: nat, i: nat)
    requires Parts(children, m) && c < |children| && i < |children| && i != c && Holds(children[c], m, p)
    ensures AtCut(PastKey(children[i], m[p].key), m, p)
    ensures var s := ToKey(children[i], m[p].key);
            && (Valid(s) ==> Key(s) != m[p].key && UnderCut(Back(s), m, p + 1))
            && (!Valid(s) ==> UnderCut(ToLast(s), m, p + 1))
    ensures forall j :: 0 <= j < |children[i].run| ==> children[i].run[j].key != m[p].key
  {
    hide Parts, Seek;
    var k := m[p].key;
    var run := children[i].run;
    var s := ToKey(children[i], k);
    NotMine(children, m, p, c, i);
    Facts(children, m, i);
    forall j | 0 <= j < |run|
      ensures j < s.pos <==> Before(m, p, run[j])
      ensures Before(m, p + 1, run[j]) <==> Before(m, p, run[j])
    {
      SeekSplits(run, k, j);
      InMerged(children, m, i, j);
      NextCut(m, p, run[j]);
    }
  }

  lemma NotMine(children: seq<Cursor>, m: seq<Entry>, p: nat, c: nat, i: nat)
    requires Parts(children, m) && c < |children| && i < |children| && i != c && Holds(children[c], m, p)
    ensures forall j :: 0 <= j < |children[i].run| ==> children[i].run[j].key != m[p].key
  {
    hide Sorted;
    forall j | 0 <= j < |children[i].run| ensures children[i].run[j].key != m[p].key {
      if c < i {
        assert DisjointKeys(children[c].run, children[i].run);
      } else {
        assert DisjointKeys(children[i].run, children[c].run);
      }
      assert children[i].run[j] in children[i].run && m[p] in children[c].run;
    }
  }

  /** The holder of `m[p]` stands at the cut at `p` and under the one at `p + 1`. */
  lemma HolderCuts(children: seq<Cursor>, m: seq<Entry>, p: nat, c: nat)
    requires Parts(children, m) && c < |children| && Holds(children[c], m, p)
    ensures AtCut(children[c], m, p) && UnderCut(children[c], m, p + 1)
  {
    hide Parts;
    Facts(children, m, c);
    var run, pos := children[c].run, children[c].pos;
    forall j | 0 <= j < |run|
      ensures j < pos <==> Before(m, p, run[j])
      ensures j <= pos <==> Before(m, p + 1, run[j])
    {
      InMerged(children, m, c, j);
      NextCut(m, p, run[j]);
      Increasing(run, pos, j);
      LessTotal(run[j].key, m[p].key);
    }
  }

  // ---------- children that grow ----------

  function RunsOf(children: seq<Cursor>): (rs: seq<seq<Entry>>)
    ensures |rs| == |children| && forall i :: 0 <= i < |rs| ==> rs[i] == children[i].run
  {
    seq(|children|, i requires 0 <= i < |children| => children[i].run)
  }

  ghost predicate Apart(children: seq<Cursor>) {
    && (forall i :: 0 <= i < |children| ==> Sorted(children[i].run))
    && (forall i, j :: 0 <= i < j < |children| ==> DisjointKeys(children[i].run, children[j].run))
  }

  /** The sorted union of the children. */
  lemma Union(children: seq<Cursor>) returns (m: seq<Entry>)
    requires Apart(children)
    ensures Parts(children, m) && m == MergeAll(RunsOf(children))
  {
    hide Sorted, DisjointKeys, Merge, MergeAll;
    var runs := RunsOf(children);
    MergeAllSorted(runs);
    m := MergeAll(runs);
    forall e ensures e in m <==> exists i :: 0 <= i < |children| && e in children[i].run {
      if e in m {
        var i :| 0 <= i < |runs| && e in runs[i];
        assert e in children[i].run;
      }
      if i :| 0 <= i < |children| && e in children[i].run {
        assert e in runs[i];
      }
    }
  }

  /** A run has gained entries above a sequence number. */
  ghost predicate GrewRun(es: seq<Entry>, now: seq<Entry>, bound: nat) {
    && (forall e :: e in es ==> e in now)
    && (forall e :: e in now ==> e in es || e.key.sequence > bound)
  }

  /** And a cursor over it has stayed where it was. */
  ghost predicate Grew(c: Cursor, now: Cursor, bound: nat) {
    && GrewRun(c.run, now.run, bound) && (Valid(c) <==> Valid(now))
    && (Valid(c) ==> now.run[now.pos] == c.run[c.pos])
  }

  /** What the merging iterator takes a child for: the same without some entries above the bound. */
  ghost predicate TakenFor(c: Cursor, s: Cursor, bound: nat) {
    Sorted(c.run) && GrewRun(s.run, c.run, bound)
  }

  /** In the direction of travel there is no difference. */
  ghost predicate SameAhead(c: Cursor, s: Cursor, forward: bool) {
    && c.pos <= |c.run| && s.pos <= |s.run| && (Valid(c) <==> Valid(s))
    && (Valid(c) ==>
          if forward then c.run[c.pos..] == s.run[s.pos..]
          else c.run[..c.pos + 1] == s.run[..s.pos + 1])
  }

  ghost predicate AllTaken(children: seq<Cursor>, seen: seq<Cursor>, bound: nat) {
    |seen| == |children| && forall i :: 0 <= i < |children| ==> TakenFor(children[i], seen[i], bound)
  }

  ghost predicate AllSame(children: seq<Cursor>, seen: seq<Cursor>, forward: bool) {
    |seen| == |children| && forall i :: 0 <= i < |children| ==> SameAhead(children[i], seen[i], forward)
  }

  lemma SameUnder(c: Cursor, s: Cursor, forward: bool)
    requires SameAhead(c, s, forward)
    ensures Valid(c) <==> Valid(s)
    ensures Valid(c) ==> c.run[c.pos] == s.run[s.pos]
    ensures Valid(c) && forward ==> SameAhead(Forth(c), Forth(s), true)
    ensures Valid(c) && !forward ==> SameAhead(Back(c), Back(s), false)
  {
    if Valid(c) {
      if forward {
        assert c.run[c.pos..][0] == c.run[c.pos] && s.run[s.pos..][0] == s.run[s.pos];
        assert c.run[c.pos..][1..] == c.run[c.pos + 1..] && s.run[s.pos..][1..] == s.run[s.pos + 1..];
        assert |c.run[c.pos..]| == |s.run[s.pos..]|;
      } else {
        assert |c.run[..c.pos + 1]| == |s.run[..s.pos + 1]|;
        assert c.run[..c.pos + 1][c.pos] == c.run[c.pos] && s.run[..s.pos + 1][s.pos] == s.run[s.pos];
        assert c.run[..c.pos + 1][..c.pos] == c.run[..c.pos] && s.run[..s.pos + 1][..s.pos] == s.run[..s.pos];
      }
    }
  }

  /** Taken as they are, the children give a run that has grown. */
  lemma UnionGrew(children: seq<Cursor>, seen: seq<Cursor>, m: seq<Entry>, now: seq<Entry>, bound: nat)
    requires AllTaken(children, seen, bound) && Parts(seen, m) && Parts(children, now)
    ensures GrewRun(m, now, bound)
  {
    hide Sorted, DisjointKeys;
    forall e | e in m ensures e in now {
      var i :| 0 <= i < |seen| && e in seen[i].run;
      assert TakenFor(children[i], seen[i], bound);
    }
    forall e | e in now ensures e in m || e.key.sequence > bound {
      var i :| 0 <= i < |children| && e in children[i].run;
      assert TakenFor(children[i], seen[i], bound);
    }
  }

  lemma TakenAsTheyAre(children: seq<Cursor>, bound: nat)
    requires Apart(children)
    ensures AllTaken(children, children, bound)
  {
    hide Sorted, DisjointKeys;
  }

  lemma MovedApart(before: seq<Cursor>, now: seq<Cursor>)
    requires Apart(before) && Moved(before, now)
    ensures Apart(now)
  {
    hide Sorted, DisjointKeys;
  }

  lemma SameAsItself(children: seq<Cursor>, forward: bool)
    requires forall i :: 0 <= i < |children| ==> children[i].pos <= |children[i].run|
    ensures AllSame(children, children, forward)
  {
  }

  lemma CutsInRange(children: seq<Cursor>, m: seq<Entry>, p: nat)
    requires AllAt(children, m, p) || AllUnder(children, m, p)
    ensures forall i :: 0 <= i < |children| ==> children[i].pos <= |children[i].run|
  {
    if AllAt(children, m, p) {
      forall i | 0 <= i < |children| ensures children[i].pos <= |children[i].run| {
        assert AtCut(children[i], m, p);
      }
    } else {
      forall i | 0 <= i < |children| ensures children[i].pos <= |children[i].run| {
        assert UnderCut(children[i], m, p);
      }
    }
  }

  class MergingIterator {
    /** Entries above this sequence number may join the children. */
    const bound: nat
    var children: seq<Cursor>
    var current: Option<nat>
    var forward: bool
    /** What the children are taken for, their sorted union, and where this iterator stands in it. */
    ghost var seen: seq<Cursor>
    ghost var merged: seq<Entry>
    ghost var at: nat

    ghost predicate Ok()
      reads this
    {
      && Apart(children) && AllTaken(children, seen, bound)
      && Parts(seen, merged) && at <= |merged|
      && (current.None? ==> at == |merged|)
      && (current.Some? ==>
            && current.value < |children| && Holds(seen[current.value], merged, at)
            && AllSame(children, seen, forward)
            && (if forward then AllAt(seen, merged, at) else AllUnder(seen, merged, at + 1)))
    }

    predicate IsValid()
      reads this
    {
      current.Some?
    }

    lemma ValidIs()
      requires Ok()
      ensures IsValid() <==> Valid(Whole())
      ensures at <= |merged| && Parts(seen, merged) && AllTaken(children, seen, bound) && Sorted(merged)
    {
    }

    /** The one cursor this iterator stands for. */
    ghost function Whole(): Cursor
      reads this
    {
      Cursor(merged, at)
    }

    constructor (runs: seq<seq<Entry>>, bound: nat)
      requires DisjointRuns(runs) && forall i :: 0 <= i < |runs| ==> Sorted(runs[i])
      ensures Ok() && Whole() == Cursor(MergeAll(runs), |MergeAll(runs)|) && this.bound == bound
      ensures RunsOf(children) == runs
    {
      hide Sorted, DisjointKeys, Merge, MergeAll;
      var cs := seq(|runs|, i requires 0 <= i < |runs| => Cursor(runs[i], |runs[i]|));
      assert RunsOf(cs) == runs;
      var m := Union(cs);
      this.bound, children, current, forward := bound, cs, None, true;
      seen, merged, at := cs, m, |m|;
      new;
      TakenAsTheyAre(cs, bound);
    }

    /** A write inserts an entry into a child.  The child stays on its entry, so the new one may be passed over until
        the children are sought again; which makes no difference up to the bound. */
    method Grow(c: nat, n: nat, e: Entry)
      requires Ok() && c < |children| && n <= |children[c].run| && e.key.sequence > bound
      requires Sorted(children[c].run[..n] + [e] + children[c].run[n..])
      requires forall i, x :: 0 <= i < |children| && x in children[i].run ==> x.key != e.key
      modifies this`children, this`seen, this`merged, this`at
      ensures Ok() && Grew(old(Whole()), Whole(), bound)
      ensures RunsOf(children) == old(RunsOf(children)[c := children[c].run[..n] + [e] + children[c].run[n..]])
    {
      hide Parts, AllTaken, AllSame, AllAt, AllUnder, Holds, Sorted;
      var was := children[c];
      var now := Cursor(was.run[..n] + [e] + was.run[n..], if n <= was.pos then was.pos + 1 else was.pos);
      ghost var before := children;
      children := children[c := now];
      GrownApart(before, c, n, e, children);
      if current.None? {
        GrownTaken(before, seen, c, n, e, children, bound);
        ghost var m := Union(children);
        UnionGrew(children, seen, merged, m, bound);
        seen, merged, at := children, m, |m|;
        TakenAsTheyAre(children, bound);
      } else if (if forward then n <= was.pos else !Valid(was) || n > was.pos) {
        GrownTaken(before, seen, c, n, e, children, bound);
        assert AllSame(children, seen, forward) by { PassedSame(before, seen, c, n, e, children, forward); }
        GrewNot(Whole(), bound);
      } else {
        seen, merged, at := Joined(before, seen, merged, at, current.value, c, n, e, forward, children, bound);
      }
    }

    /** Key and value are those of the one cursor. */
    method Read() returns (e: Option<Entry>)
      requires Ok()
      ensures e == if Valid(Whole()) then Some(merged[at]) else None
    {
      if current.Some? {
        SameUnder(children[current.value], seen[current.value], forward);
        e := Some(children[current.value].run[children[current.value].pos]);
      } else {
        e := None;
      }
    }

    method FindSmallest(ghost p: nat)
      requires Parts(seen, merged) && AllAt(seen, merged, p) && p <= |merged| && AllSame(children, seen, true)
      modifies this`current, this`at
      ensures at == p && (current.None? <==> p == |merged|)
      ensures current.Some? ==> current.value < |children| && Holds(seen[current.value], merged, at)
    {
      hide Parts, AllAt, SameAhead;
      forall i | 0 <= i < |children|
        ensures Valid(children[i]) <==> Valid(seen[i])
        ensures Valid(children[i]) ==> Key(children[i]) == Key(seen[i])
      {
        SameUnder(children[i], seen[i], true);
      }
      var smallest: Option<nat> := None;
      var i := 0;
      while i < |children|
        invariant 0 <= i <= |children|
        invariant smallest.Some? ==> smallest.value < i && Valid(children[smallest.value])
        invariant forall j :: 0 <= j < i && Valid(children[j]) ==>
                    smallest.Some? && !Less(Key(children[j]), Key(children[smallest.value]))
      {
        if Valid(children[i]) {
          LessTotal(Key(children[i]), Key(children[i]));
          if smallest.None? {
            smallest := Some(i);
          } else if Less(Key(children[i]), Key(children[smallest.value])) {
            smallest := Some(i);
          }
        }
        i := i + 1;
      }
      current, at := smallest, p;
      if p < |merged| {
        var h := HolderAt(seen, merged, p);
        SmallestAtCut(seen, merged, p, smallest.value);
      } else if smallest.Some? {
        SmallestAtCut(seen, merged, p, smallest.value);
      }
    }

    method FindLargest(ghost p: nat)
      requires Parts(seen, merged) && AllUnder(seen, merged, p) && p <= |merged| && AllSame(children, seen, false)
      modifies this`current, this`at
      ensures p == 0 ==> at == |merged| && current.None?
      ensures p > 0 ==> at == p - 1 && current.Some? && current.value < |children|
      ensures p > 0 ==> Holds(seen[current.value], merged, at)
    {
      hide Parts, AllUnder, SameAhead;
      forall i | 0 <= i < |children|
        ensures Valid(children[i]) <==> Valid(seen[i])
        ensures Valid(children[i]) ==> Key(children[i]) == Key(seen[i])
      {
        SameUnder(children[i], seen[i], false);
      }
      var largest: Option<nat> := None;
      var i := |children|;
      while i > 0
        invariant 0 <= i <= |children|
        invariant largest.Some? ==> i <= largest.value < |children| && Valid(children[largest.value])
        invariant forall j :: i <= j < |children| && Valid(children[j]) ==>
                    largest.Some? && !Less(Key(children[largest.value]), Key(children[j]))
      {
        i := i - 1;
        if Valid(children[i]) {
          LessTotal(Key(children[i]), Key(children[i]));
          if largest.None? {
            largest := Some(i);
          } else if Less(Key(children[largest.value]), Key(children[i])) {
            largest := Some(i);
          }
        }
      }
      current := largest;
      at := if p == 0 then |merged| else p - 1;
      if p > 0 {
        var h := HolderUnder(seen, merged, p - 1);
        LargestUnderCut(seen, merged, p, largest.value);
      } else if largest.Some? {
        LargestUnderCut(seen, merged, p, largest.value);
      }
    }

    /** Takes the children as they are. */
    ghost method TakeAll(was: seq<Cursor>, m: seq<Entry>)
      requires Apart(was) && Moved(was, children) && Parts(was, m)
      modifies this`seen, this`merged
      ensures Apart(children) && AllTaken(children, seen, bound) && seen == children && merged == m && Parts(seen, m)
    {
      hide Parts, Apart, AllTaken;
      MovedApart(was, children);
      MovedParts(was, children, m);
      TakenAsTheyAre(children, bound);
      seen, merged := children, m;
    }

    method SeekToFirst()
      requires Ok()
      modifies this
      ensures Ok() && GrewRun(old(merged), merged, bound) && Whole() == ToFirst(Whole())
      ensures RunsOf(children) == old(RunsOf(children)) && (Valid(Whole()) ==> forward)
    {
      hide Parts, Apart, AllTaken, AllAt, AllSame, GrewRun;
      ghost var was := children;
      ghost var m := Union(children);
      UnionGrew(children, seen, merged, m, bound);
      var i := 0;
      while i < |children|
        invariant 0 <= i <= |children| && Moved(was, children)
        invariant forall j :: 0 <= j < i ==> AtCut(children[j], m, 0)
      {
        FirstCut(was, m, i);
        children := children[i := ToFirst(children[i])];
        i := i + 1;
      }
      TakeAll(was, m);
      AllAtCut(children, m, 0);
      FindSmallest(0);
      forward := true;
    }

    method SeekToLast()
      requires Ok()
      modifies this
      ensures Ok() && GrewRun(old(merged), merged, bound) && Whole() == ToLast(Whole())
      ensures RunsOf(children) == old(RunsOf(children)) && (Valid(Whole()) ==> !forward)
    {
      hide Parts, Apart, AllTaken, AllUnder, AllSame, GrewRun;
      ghost var was := children;
      ghost var m := Union(children);
      UnionGrew(children, seen, merged, m, bound);
      var i := 0;
      while i < |children|
        invariant 0 <= i <= |children| && Moved(was, children)
        invariant forall j :: 0 <= j < i ==> UnderCut(children[j], m, |m|)
      {
        children := children[i := ToLast(children[i])];
        i := i + 1;
      }
      TakeAll(was, m);
      AllUnderCut(children, m, |m|);
      FindLargest(|m|);
      forward := false;
    }

    method SeekTo(k: InternalKey)
      requires Ok()
      modifies this
      ensures Ok() && GrewRun(old(merged), merged, bound) && Whole() == ToKey(Whole(), k)
      ensures RunsOf(children) == old(RunsOf(children)) && (Valid(Whole()) ==> forward)
    {
      hide Parts, Apart, AllTaken, AllAt, AllSame, GrewRun, Seek;
      ghost var was := children;
      ghost var m := Union(children);
      UnionGrew(children, seen, merged, m, bound);
      ghost var p := Seek(m, k);
      var i := 0;
      while i < |children|
        invariant 0 <= i <= |children| && Moved(was, children)
        invariant forall j :: 0 <= j < i ==> AtCut(children[j], m, p)
      {
        SeekCut(was, m, i, k);
        children := children[i := ToKey(children[i], k)];
        i := i + 1;
      }
      TakeAll(was, m);
      AllAtCut(children, m, p);
      FindSmallest(p);
      forward := true;
    }

    /** One entry forward, in the run as it is taken from the turn on. */
    method Next() returns (ghost from: Cursor)
      requires Ok() && current.Some?
      modifies this
      ensures Ok() && Grew(old(Whole()), from, bound) && (old(forward) ==> from == old(Whole()))
      ensures Whole() == Forth(from) && forward && RunsOf(children) == old(RunsOf(children))
    {
      hide Parts, Seek, Apart, AllTaken, AllAt, GrewRun, SameAhead, TakenFor;
      var c := current.value;
      if !forward {
        TurnForward();
      } else {
        GrewNot(Whole(), bound);
      }
      from := Whole();
      ghost var p, now, before := at, seen, children;
      SameUnder(children[c], seen[c], true);
      children := children[c := Forth(children[c])];
      seen := seen[c := Forth(seen[c])];
      forall i | 0 <= i < |seen| ensures AtCut(seen[i], merged, p + 1) {
        assert AtCut(now[i], merged, p) by { AtCutOf(now, merged, p, i); }
        ForthCut(now, merged, p, i);
        if i != c && Holds(now[i], merged, p) {
          OneHolder(now, merged, p, i, c);
        }
      }
      MovedParts(now, seen, merged);
      MovedApart(before, children);
      MovedTaken(before, children, now, seen, bound);
      AllAtCutOf(seen, merged, p + 1);
      FindSmallest(p + 1);
    }

    /** Puts every child but the current one after the current key. */
    method TurnForward()
      requires Ok() && current.Some? && !forward
      modifies this`children, this`forward, this`seen, this`merged, this`at
      ensures Ok() && forward && Grew(old(Whole()), Whole(), bound) && RunsOf(children) == old(RunsOf(children))
    {
      hide Parts, Seek, Holds, Apart, AllTaken, AllAt, AllUnder, AllSame, GrewRun;
      var c := current.value;
      ghost var was := children;
      ghost var m, p := WholeTaken(children, seen, merged, at, c, forward, bound);
      HolderCuts(was, m, p, c);
      HolderKey(was, m, p, c);
      var i := 0;
      while i < |children|
        invariant 0 <= i <= |children| && Moved(was, children) && children[c] == was[c]
        invariant forall j :: 0 <= j < i ==> AtCut(children[j], m, p)
      {
        if i != c {
          SeekBack(was, m, p, c, i);
          children := children[i := PastKey(children[i], Key(children[c]))];
        }
        i := i + 1;
      }
      TakeAll(was, m);
      at := p;
      AllAtCut(children, m, p);
      forward := true;
    }

    /** One entry back, likewise. */
    method Prev() returns (ghost from: Cursor)
      requires Ok() && current.Some?
      modifies this
      ensures Ok() && Grew(old(Whole()), from, bound) && (!old(forward) ==> from == old(Whole()))
      ensures Whole() == Back(from) && !forward && RunsOf(children) == old(RunsOf(children))
    {
      hide Parts, Seek, Apart, AllTaken, AllUnder, GrewRun, SameAhead, TakenFor;
      var c := current.value;
      if forward {
        TurnBack();
      } else {
        GrewNot(Whole(), bound);
      }
      from := Whole();
      ghost var p, now, before := at, seen, children;
      SameUnder(children[c], seen[c], false);
      children := children[c := Back(children[c])];
      seen := seen[c := Back(seen[c])];
      forall i | 0 <= i < |seen| ensures UnderCut(seen[i], merged, p) {
        assert UnderCut(now[i], merged, p + 1) by { UnderCutOf(now, merged, p + 1, i); }
        BackCut(now, merged, p, i);
        if i != c && Holds(now[i], merged, p) {
          OneHolder(now, merged, p, i, c);
        }
      }
      MovedParts(now, seen, merged);
      MovedApart(before, children);
      MovedTaken(before, children, now, seen, bound);
      AllUnderCutOf(seen, merged, p);
      FindLargest(p);
    }

    /** Puts every child but the current one before the current key. */
    method TurnBack()
      requires Ok() && current.Some? && forward
      modifies this`children, this`forward, this`seen, this`merged, this`at
      ensures Ok() && !forward && Grew(old(Whole()), Whole(), bound) && RunsOf(children) == old(RunsOf(children))
    {
      hide Parts, Seek, Holds, Apart, AllTaken, AllAt, AllUnder, AllSame, GrewRun;
      var c := current.value;
      ghost var was := children;
      ghost var m, p := WholeTaken(children, seen, merged, at, c, forward, bound);
      HolderCuts(was, m, p, c);
      HolderKey(was, m, p, c);
      var i := 0;
      while i < |children|
        invariant 0 <= i <= |children| && Moved(was, children) && children[c] == was[c]
        invariant forall j :: 0 <= j < i ==> UnderCut(children[j], m, p + 1)
      {
        if i != c {
          SeekBack(was, m, p, c, i);
          children := children[i := ToKey(children[i], Key(children[c]))];
          if Valid(children[i]) {
            children := children[i := Back(children[i])];
          } else {
            children := children[i := ToLast(children[i])];
          }
        }
        i := i + 1;
      }
      TakeAll(was, m);
      at := p;
      AllUnderCut(children, m, p + 1);
      forward := false;
    }
  }

  lemma AtCutOf(children: seq<Cursor>, m: seq<Entry>, p: nat, i: nat)
    requires AllAt(children, m, p) && i < |children|
    ensures AtCut(children[i], m, p)
  {
  }

  lemma UnderCutOf(children: seq<Cursor>, m: seq<Entry>, p: nat, i: nat)
    requires AllUnder(children, m, p) && i < |children|
    ensures UnderCut(children[i], m, p)
  {
  }

  lemma AllAtCutOf(children: seq<Cursor>, m: seq<Entry>, p: nat)
    requires forall i :: 0 <= i < |children| ==> AtCut(children[i], m, p)
    ensures AllAt(children, m, p)
  {
    hide AtCut;
  }

  lemma AllUnderCutOf(children: seq<Cursor>, m: seq<Entry>, p: nat)
    requires forall i :: 0 <= i < |children| ==> UnderCut(children[i], m, p)
    ensures AllUnder(children, m, p)
  {
    hide UnderCut;
  }

  lemma AllAtCut(children: seq<Cursor>, m: seq<Entry>, p: nat)
    requires forall i :: 0 <= i < |children| ==> AtCut(children[i], m, p)
    ensures AllAt(children, m, p) && AllSame(children, children, true)
  {
    CutsInRange(children, m, p);
    SameAsItself(children, true);
  }

  lemma AllUnderCut(children: seq<Cursor>, m: seq<Entry>, p: nat)
    requires forall i :: 0 <= i < |children| ==> UnderCut(children[i], m, p)
    ensures AllUnder(children, m, p) && AllSame(children, children, false)
  {
    CutsInRange(children, m, p);
    SameAsItself(children, false);
  }

  lemma HolderKey(children: seq<Cursor>, m: seq<Entry>, p: nat, c: nat)
    requires c < |children| && Holds(children[c], m, p)
    ensures Valid(children[c]) && p < |m| && Key(children[c]) == m[p].key
  {
  }

  lemma GrewNot(c: Cursor, bound: nat)
    ensures Grew(c, c, bound)
  {
  }

  lemma MovedTaken(before: seq<Cursor>, now: seq<Cursor>, seen: seq<Cursor>, seen': seq<Cursor>, bound: nat)
    requires AllTaken(before, seen, bound) && Moved(before, now) && Moved(seen, seen')
    ensures AllTaken(now, seen', bound)
  {
    hide GrewRun, Sorted;
    forall i | 0 <= i < |now| ensures TakenFor(now[i], seen'[i], bound) {
      assert TakenFor(before[i], seen[i], bound);
    }
  }

  /** The current entry among the children as they are. */
  lemma WholeTaken(children: seq<Cursor>, seen: seq<Cursor>, merged: seq<Entry>, at: nat, c: nat, forward: bool,
                   bound: nat) returns (m: seq<Entry>, p: nat)
    requires Apart(children) && AllTaken(children, seen, bound) && Parts(seen, merged)
    requires c < |children| && AllSame(children, seen, forward) && Holds(seen[c], merged, at)
    ensures Parts(children, m) && p < |m| && Holds(children[c], m, p)
    ensures Grew(Cursor(merged, at), Cursor(m, p), bound)
  {
    hide Parts, Apart, AllTaken, GrewRun;
    m := Union(children);
    UnionGrew(children, seen, merged, m, bound);
    SameUnder(children[c], seen[c], forward);
    InMerged(children, m, c, children[c].pos);
    p :| 0 <= p < |m| && m[p] == children[c].run[children[c].pos];
  }

  // ---------- one entry joins a child ----------

  lemma GrownApart(before: seq<Cursor>, c: nat, n: nat, e: Entry, children: seq<Cursor>)
    requires Apart(before) && c < |before| && n <= |before[c].run|
    requires |children| == |before| && children == before[c := children[c]]
    requires children[c].run == before[c].run[..n] + [e] + before[c].run[n..] && Sorted(children[c].run)
    requires forall i, x :: 0 <= i < |before| && x in before[i].run ==> x.key != e.key
    ensures Apart(children)
  {
    hide Sorted;
    forall x | x in children[c].run ensures x in before[c].run || x == e {
    }
    forall i, j | 0 <= i < j < |children| ensures DisjointKeys(children[i].run, children[j].run) {
      assert DisjointKeys(before[i].run, before[j].run);
    }
  }

  lemma InsertedMembers(es: seq<Entry>, n: nat, e: Entry)
    requires n <= |es|
    ensures forall x :: x in es[..n] + [e] + es[n..] <==> x in es || x == e
  {
    assert es == es[..n] + es[n..];
  }

  lemma GrownTaken(before: seq<Cursor>, seen: seq<Cursor>, c: nat, n: nat, e: Entry, children: seq<Cursor>, bound: nat)
    requires AllTaken(before, seen, bound) && c < |before| && n <= |before[c].run| && e.key.sequence > bound
    requires |children| == |before| && children == before[c := children[c]]
    requires children[c].run == before[c].run[..n] + [e] + before[c].run[n..] && Sorted(children[c].run)
    ensures AllTaken(children, seen, bound)
  {
    hide Sorted;
    InsertedMembers(before[c].run, n, e);
    forall i | 0 <= i < |children| ensures TakenFor(children[i], seen[i], bound) {
      assert TakenFor(before[i], seen[i], bound);
    }
  }

  /** An entry behind the child, in its direction, is passed over. */
  lemma PassedSame(before: seq<Cursor>, seen: seq<Cursor>, c: nat, n: nat, e: Entry, children: seq<Cursor>,
                   forward: bool)
    requires AllSame(before, seen, forward) && c < |before| && n <= |before[c].run|
    requires if forward then n <= before[c].pos else !Valid(before[c]) || n > before[c].pos
    requires children == before[c := Cursor(before[c].run[..n] + [e] + before[c].run[n..],
                                            if n <= before[c].pos then before[c].pos + 1 else before[c].pos)]
    ensures AllSame(children, seen, forward)
  {
    hide SameAhead;
    assert SameAhead(before[c], seen[c], forward);
    PassedOne(before[c], seen[c], n, e, forward);
    forall i | 0 <= i < |children| ensures SameAhead(children[i], seen[i], forward) {
      assert SameAhead(before[i], seen[i], forward);
    }
  }

  lemma PassedOne(c: Cursor, s: Cursor, n: nat, e: Entry, forward: bool)
    requires SameAhead(c, s, forward) && n <= |c.run|
    requires if forward then n <= c.pos else !Valid(c) || n > c.pos
    ensures SameAhead(Cursor(c.run[..n] + [e] + c.run[n..], if n <= c.pos then c.pos + 1 else c.pos), s, forward)
  {
    var now := c.run[..n] + [e] + c.run[n..];
    if Valid(c) {
      if forward {
        assert now[c.pos + 1..] == c.run[c.pos..];
      } else {
        assert now[..c.pos + 1] == c.run[..c.pos + 1];
      }
    }
  }

  /** An entry ahead of the child joins what it is taken for. */
  function JoinedAt(c: Cursor, s: Cursor, n: nat, forward: bool): nat
    requires forward ==> c.pos <= n
  {
    if forward then s.pos + (n - c.pos) else n
  }

  /** The entry is ahead of the child in the direction of travel. */
  predicate AheadOf(c: Cursor, n: nat, forward: bool) {
    Valid(c) && n <= |c.run| && if forward then c.pos < n else n <= c.pos
  }

  lemma JoinedPlace(c: Cursor, s: Cursor, n: nat, forward: bool)
    requires SameAhead(c, s, forward) && AheadOf(c, n, forward)
    ensures Valid(s) && JoinedAt(c, s, n, forward) <= |s.run|
    ensures if forward then s.pos < JoinedAt(c, s, n, forward) else n <= s.pos == c.pos
    ensures forward ==> forall j :: c.pos <= j < |c.run| ==> s.pos + (j - c.pos) < |s.run|
                                                             && s.run[s.pos + (j - c.pos)] == c.run[j]
    ensures forward ==> |s.run| - s.pos == |c.run| - c.pos
    ensures !forward ==> forall j :: 0 <= j <= c.pos ==> s.run[j] == c.run[j]
  {
    if forward {
      assert |c.run[c.pos..]| == |s.run[s.pos..]|;
      forall j | c.pos <= j < |c.run| ensures s.run[s.pos + (j - c.pos)] == c.run[j] {
        assert c.run[c.pos..][j - c.pos] == c.run[j] && s.run[s.pos..][j - c.pos] == s.run[s.pos + (j - c.pos)];
      }
    } else {
      assert |c.run[..c.pos + 1]| == |s.run[..s.pos + 1]|;
      forall j | 0 <= j <= c.pos ensures s.run[j] == c.run[j] {
        assert c.run[..c.pos + 1][j] == c.run[j] && s.run[..s.pos + 1][j] == s.run[j];
      }
    }
  }

  /** The child taken with the entry in it. */
  function WithEntry(s: Cursor, k: nat, e: Entry, forward: bool): Cursor
    requires k <= |s.run|
  {
    Cursor(s.run[..k] + [e] + s.run[k..], if forward then s.pos else s.pos + 1)
  }

  lemma EntryAt(es: seq<Entry>, k: nat, e: Entry, j: nat)
    requires k <= |es| && j <= |es|
    ensures (es[..k] + [e] + es[k..])[j] == if j < k then es[j] else if j == k then e else es[j - 1]
  {
  }

  /** What is before the place is before the entry, and what is behind it behind. */
  lemma JoinedOrder(c: Cursor, s: Cursor, n: nat, e: Entry, forward: bool, bound: nat)
    requires TakenFor(c, s, bound) && SameAhead(c, s, forward) && AheadOf(c, n, forward) && Sorted(s.run)
    requires Sorted(c.run[..n] + [e] + c.run[n..])
    ensures var k := JoinedAt(c, s, n, forward);
            && k <= |s.run|
            && (forall j :: 0 <= j < k ==> Less(s.run[j].key, e.key))
            && (forall j :: k <= j < |s.run| ==> Less(e.key, s.run[j].key))
  {
    hide Sorted, GrewRun;
    JoinedPlace(c, s, n, forward);
    var k, now := JoinedAt(c, s, n, forward), c.run[..n] + [e] + c.run[n..];
    EntryAt(c.run, n, e, n);
    forall j | 0 <= j < |c.run|
      ensures j < n ==> Less(c.run[j].key, e.key)
      ensures n <= j ==> Less(e.key, c.run[j].key)
    {
      EntryAt(c.run, n, e, if j < n then j else j + 1);
      Increasing(now, n, if j < n then j else j + 1);
    }
    forall j | 0 <= j < k ensures Less(s.run[j].key, e.key) {
      if forward {
        if j < s.pos {
          Increasing(s.run, j, s.pos);
          assert Less(s.run[s.pos].key, e.key);
        } else {
          assert s.run[j] == c.run[c.pos + (j - s.pos)];
        }
      }
    }
    forall j | k <= j < |s.run| ensures Less(e.key, s.run[j].key) {
      if forward {
        assert s.run[j] == c.run[c.pos + (j - s.pos)];
      } else if j > s.pos {
        Increasing(s.run, s.pos, j);
        assert Less(e.key, s.run[s.pos].key);
      }
    }
  }

  lemma JoinedChild(c: Cursor, s: Cursor, n: nat, e: Entry, forward: bool, bound: nat)
    requires TakenFor(c, s, bound) && SameAhead(c, s, forward) && AheadOf(c, n, forward) && Sorted(s.run)
    requires Sorted(c.run[..n] + [e] + c.run[n..]) && e.key.sequence > bound
    ensures JoinedAt(c, s, n, forward) <= |s.run|
    ensures var s' := WithEntry(s, JoinedAt(c, s, n, forward), e, forward);
            var c' := Cursor(c.run[..n] + [e] + c.run[n..], if forward then c.pos else c.pos + 1);
            Sorted(s'.run) && TakenFor(c', s', bound) && SameAhead(c', s', forward)
  {
    JoinedPlace(c, s, n, forward);
    JoinedOrder(c, s, n, e, forward, bound);
    var k := JoinedAt(c, s, n, forward);
    var s' := WithEntry(s, k, e, forward);
    var c' := Cursor(c.run[..n] + [e] + c.run[n..], if forward then c.pos else c.pos + 1);
    JoinedSorted(s.run, k, e);
    InsertedMembers(c.run, n, e);
    InsertedMembers(s.run, k, e);
    hide Sorted, Less;
    JoinedAhead(c, s, n, e, forward);
  }

  lemma JoinedSorted(es: seq<Entry>, k: nat, e: Entry)
    requires Sorted(es) && k <= |es|
    requires (forall j :: 0 <= j < k ==> Less(es[j].key, e.key))
    requires (forall j :: k <= j < |es| ==> Less(e.key, es[j].key))
    ensures Sorted(es[..k] + [e] + es[k..])
  {
    hide Less;
    var now := es[..k] + [e] + es[k..];
    forall i, j | 0 <= i < j < |now| ensures Less(now[i].key, now[j].key) {
      EntryAt(es, k, e, i);
      EntryAt(es, k, e, j);
    }
  }

  lemma JoinedAhead(c: Cursor, s: Cursor, n: nat, e: Entry, forward: bool)
    requires SameAhead(c, s, forward) && AheadOf(c, n, forward) && JoinedAt(c, s, n, forward) <= |s.run|
    ensures SameAhead(Cursor(c.run[..n] + [e] + c.run[n..], if forward then c.pos else c.pos + 1),
                      WithEntry(s, JoinedAt(c, s, n, forward), e, forward), forward)
  {
    JoinedPlace(c, s, n, forward);
    var k := JoinedAt(c, s, n, forward);
    var cs, ss := c.run[..n] + [e] + c.run[n..], s.run[..k] + [e] + s.run[k..];
    if forward {
      var a, b := cs[c.pos..], ss[s.pos..];
      assert |a| == |b|;
      forall j | 0 <= j < |a| ensures a[j] == b[j] {
        EntryAt(c.run, n, e, c.pos + j);
        EntryAt(s.run, k, e, s.pos + j);
      }
      assert a == b;
    } else {
      var a, b := cs[..c.pos + 2], ss[..s.pos + 2];
      forall j | 0 <= j < |a| ensures a[j] == b[j] {
        EntryAt(c.run, n, e, j);
        EntryAt(s.run, k, e, j);
      }
      assert a == b;
    }
  }

  /** An entry ahead of a child joins what the children are taken for. */
  lemma JoinedTaken(before: seq<Cursor>, seen: seq<Cursor>, merged: seq<Entry>, c: nat, n: nat, e: Entry, forward: bool,
                    children: seq<Cursor>, s: Cursor, bound: nat)
    requires Apart(before) && Apart(children) && AllTaken(before, seen, bound) && Parts(seen, merged)
    requires AllSame(before, seen, forward) && c < |before| == |children| && e.key.sequence > bound
    requires AheadOf(before[c], n, forward) && JoinedAt(before[c], seen[c], n, forward) <= |seen[c].run|
    requires children == before[c := Cursor(before[c].run[..n] + [e] + before[c].run[n..],
                                            if forward then before[c].pos else before[c].pos + 1)]
    requires s == WithEntry(seen[c], JoinedAt(before[c], seen[c], n, forward), e, forward)
    ensures AllTaken(children, seen[c := s], bound) && AllSame(children, seen[c := s], forward) && Apart(seen[c := s])
  {
    hide Sorted, DisjointKeys, Parts, SameAhead, GrewRun, WithEntry, JoinedAt;
    assert TakenFor(before[c], seen[c], bound) && SameAhead(before[c], seen[c], forward);
    assert Sorted(children[c].run);
    Facts(seen, merged, c);
    JoinedChild(before[c], seen[c], n, e, forward, bound);
    var seen' := seen[c := s];
    forall i | 0 <= i < |children|
      ensures TakenFor(children[i], seen'[i], bound) && SameAhead(children[i], seen'[i], forward)
      ensures Sorted(seen'[i].run)
    {
      Facts(seen, merged, i);
      assert TakenFor(before[i], seen[i], bound) && SameAhead(before[i], seen[i], forward);
    }
    TakenApart(children, seen', bound);
  }

  /** An entry ahead of a child joins the union; everything stays where it is in relation to the current entry. */
  lemma Joined(before: seq<Cursor>, seen: seq<Cursor>, merged: seq<Entry>, at: nat, cur: nat, c: nat, n: nat, e: Entry,
               forward: bool, children: seq<Cursor>, bound: nat) returns (seen': seq<Cursor>, m: seq<Entry>, q: nat)
    requires Apart(before) && Apart(children) && AllTaken(before, seen, bound) && Parts(seen, merged)
    requires cur < |before| && Holds(seen[cur], merged, at) && AllSame(before, seen, forward)
    requires c < |before| == |children|
    requires if forward then AllAt(seen, merged, at) else AllUnder(seen, merged, at + 1)
    requires AheadOf(before[c], n, forward) && e.key.sequence > bound
    requires children == before[c := Cursor(before[c].run[..n] + [e] + before[c].run[n..],
                                            if forward then before[c].pos else before[c].pos + 1)]
    ensures AllTaken(children, seen', bound) && Parts(seen', m) && AllSame(children, seen', forward)
    ensures |seen'| == |children| && Holds(seen'[cur], m, q) && Grew(Cursor(merged, at), Cursor(m, q), bound)
    ensures q < |m| && if forward then AllAt(seen', m, q) else AllUnder(seen', m, q + 1)
  {
    hide Sorted, DisjointKeys, Parts, AllAt, AllUnder, Less, SameAhead, Apart, AllTaken, AllSame, TakenFor;
    assert |seen| == |before| && SameAhead(before[c], seen[c], forward) by { SameOf(before, seen, c, forward); }
    JoinedPlace(before[c], seen[c], n, forward);
    var k := JoinedAt(before[c], seen[c], n, forward);
    var s := WithEntry(seen[c], k, e, forward);
    seen' := seen[c := s];
    JoinedTaken(before, seen, merged, c, n, e, forward, children, s, bound);
    m := Union(seen');
    InsertedMembers(seen[c].run, k, e);
    JoinedMembers(seen, merged, c, e, seen', m);
    InMerged(seen, merged, cur, seen[cur].pos);
    q :| 0 <= q < |m| && m[q] == merged[at];
    if cur == c {
      EntryAt(seen[c].run, k, e, s.pos);
    }
    assert Sorted(children[c].run) by { SortedOf(children, c); }
    JoinedCuts(before, seen, merged, at, c, n, e, forward, seen', m, q, bound);
  }

  lemma SortedOf(children: seq<Cursor>, i: nat)
    requires Apart(children) && i < |children|
    ensures Sorted(children[i].run)
  {
    hide Sorted, DisjointKeys;
  }

  lemma SameOf(children: seq<Cursor>, seen: seq<Cursor>, i: nat, forward: bool)
    requires AllSame(children, seen, forward) && i < |children|
    ensures |seen| == |children| && SameAhead(children[i], seen[i], forward)
  {
    hide SameAhead;
  }

  lemma JoinedCuts(before: seq<Cursor>, seen: seq<Cursor>, merged: seq<Entry>, at: nat, c: nat, n: nat, e: Entry,
                   forward: bool, seen': seq<Cursor>, m: seq<Entry>, q: nat, bound: nat)
    requires AllTaken(before, seen, bound) && AllSame(before, seen, forward) && c < |before|
    requires Apart(before) && Parts(seen, merged) && Parts(seen', m) && AheadOf(before[c], n, forward)
    requires Sorted(before[c].run[..n] + [e] + before[c].run[n..])
    requires at < |merged| && q < |m| && m[q] == merged[at]
    requires if forward then AllAt(seen, merged, at) else AllUnder(seen, merged, at + 1)
    requires JoinedAt(before[c], seen[c], n, forward) <= |seen[c].run|
    requires seen' == seen[c := WithEntry(seen[c], JoinedAt(before[c], seen[c], n, forward), e, forward)]
    requires forall x :: x in m <==> x in merged || x == e
    ensures if forward then AllAt(seen', m, q) else AllUnder(seen', m, q + 1)
  {
    hide Sorted, Parts, AllAt, AllUnder, Less, AtCut, UnderCut, SameAhead, GrewRun, WithEntry;
    assert TakenFor(before[c], seen[c], bound) && SameAhead(before[c], seen[c], forward);
    Facts(seen, merged, c);
    JoinedOrder(before[c], seen[c], n, e, forward, bound);
    JoinedPlace(before[c], seen[c], n, forward);
    var k := JoinedAt(before[c], seen[c], n, forward);
    MergedSorted(seen, merged);
    MergedSorted(seen', m);
    if forward {
      forall i | 0 <= i < |seen'| ensures AtCut(seen'[i], m, q) {
        AtCutOf(seen, merged, at, i);
        if i == c {
          JoinedAtCut(seen[c], k, e, merged, at, m, q);
        } else {
          SameAtCut(seen[i], merged, at, m, q);
        }
      }
      AllAtCutOf(seen', m, q);
    } else {
      forall i | 0 <= i < |seen'| ensures UnderCut(seen'[i], m, q + 1) {
        UnderCutOf(seen, merged, at + 1, i);
        forall x | x in seen[i].run ensures x in merged && x in m {
          MemberOf(seen, merged, i, x);
        }
        if i == c {
          JoinedUnderCut(seen[c], k, e, merged, at, m, q);
        } else {
          SameUnderCut(seen[i], merged, at, m, q);
        }
      }
      AllUnderCutOf(seen', m, q + 1);
    }
  }

  lemma MergedSorted(children: seq<Cursor>, m: seq<Entry>)
    requires Parts(children, m)
    ensures Sorted(m)
  {
  }

  lemma MemberOf(children: seq<Cursor>, m: seq<Entry>, i: nat, x: Entry)
    requires Parts(children, m) && i < |children| && x in children[i].run
    ensures x in m
  {
  }

  lemma TakenApart(children: seq<Cursor>, seen: seq<Cursor>, bound: nat)
    requires Apart(children) && AllTaken(children, seen, bound)
    requires forall i :: 0 <= i < |seen| ==> Sorted(seen[i].run)
    ensures Apart(seen)
  {
    hide Sorted;
    forall i, j | 0 <= i < j < |seen| ensures DisjointKeys(seen[i].run, seen[j].run) {
      assert TakenFor(children[i], seen[i], bound) && TakenFor(children[j], seen[j], bound);
      assert DisjointKeys(children[i].run, children[j].run);
    }
  }

  lemma JoinedMembers(seen: seq<Cursor>, merged: seq<Entry>, c: nat, e: Entry, seen': seq<Cursor>, m: seq<Entry>)
    requires Parts(seen, merged) && Parts(seen', m) && c < |seen| == |seen'|
    requires seen' == seen[c := seen'[c]]
    requires forall x :: x in seen'[c].run <==> x in seen[c].run || x == e
    ensures forall x :: x in m <==> x in merged || x == e
  {
    hide Sorted, DisjointKeys;
    forall x ensures x in m <==> x in merged || x == e {
      if x in m {
        var i :| 0 <= i < |seen'| && x in seen'[i].run;
        assert i != c ==> x in seen[i].run;
      }
      if x in merged {
        var i :| 0 <= i < |seen| && x in seen[i].run;
        assert x in seen'[i].run;
      }
      if x == e {
        assert x in seen'[c].run;
      }
    }
  }

  lemma SameAtCut(s: Cursor, merged: seq<Entry>, at: nat, m: seq<Entry>, q: nat)
    requires AtCut(s, merged, at) && at < |merged| && q < |m| && m[q] == merged[at]
    ensures AtCut(s, m, q)
  {
    hide Less;
  }

  lemma JoinedAtCut(s: Cursor, k: nat, e: Entry, merged: seq<Entry>, at: nat, m: seq<Entry>, q: nat)
    requires AtCut(s, merged, at) && at < |merged| && q < |m| && m[q] == merged[at]
    requires Valid(s) && s.pos < k <= |s.run| && Less(s.run[s.pos].key, e.key)
    ensures AtCut(WithEntry(s, k, e, true), m, q)
  {
    var now := WithEntry(s, k, e, true);
    assert !Less(s.run[s.pos].key, m[q].key);
    assert !Less(e.key, m[q].key);
    hide Less;
    forall j | 0 <= j < |now.run| ensures j < now.pos <==> Before(m, q, now.run[j]) {
      EntryAt(s.run, k, e, j);
    }
  }

  lemma SameUnderCut(s: Cursor, merged: seq<Entry>, at: nat, m: seq<Entry>, q: nat)
    requires UnderCut(s, merged, at + 1) && at < |merged| && q < |m| && m[q] == merged[at]
    requires Sorted(merged) && Sorted(m) && forall x :: x in s.run ==> x in merged && x in m
    ensures UnderCut(s, m, q + 1)
  {
    hide Less, Sorted;
    forall j | 0 <= j < |s.run| ensures Before(m, q + 1, s.run[j]) <==> Before(merged, at + 1, s.run[j]) {
      NextCut(m, q, s.run[j]);
      NextCut(merged, at, s.run[j]);
    }
  }

  lemma JoinedUnderCut(s: Cursor, k: nat, e: Entry, merged: seq<Entry>, at: nat, m: seq<Entry>, q: nat)
    requires UnderCut(s, merged, at + 1) && at < |merged| && q < |m| && m[q] == merged[at]
    requires Sorted(merged) && Sorted(m) && e in m && forall x :: x in s.run ==> x in merged && x in m
    requires Valid(s) && k <= s.pos && Less(e.key, s.run[k].key)
    ensures UnderCut(WithEntry(s, k, e, false), m, q + 1)
  {
    hide Sorted;
    var now := WithEntry(s, k, e, false);
    SameUnderCut(s, merged, at, m, q);
    NextCut(m, q, s.run[k]);
    NextCut(m, q, e);
    assert Before(m, q + 1, s.run[k]) && Before(m, q + 1, e);
    hide Less;
    forall j | 0 <= j < |now.run| ensures Valid(now) && j <= now.pos <==> Before(m, q + 1, now.run[j]) {
      EntryAt(s.run, k, e, j);
    }
  }
}
