/** A database iterator shows the history: the children that `NewInternalIterator` collects, merged, hold exactly
    the entries of the database, so what `DBIter` shows at a snapshot is what the operations up to it left. */
module IteratorMeaning {
  import opened InternalKeys
  import opened Meaning
  import opened Files
  import opened Versions
  import opened InputSelection
  import opened Runs
  import opened Edits
  import opened Installing
  import opened Flushing
  import opened Engine
  import opened EngineInvariant
  import opened Database
  import opened Iterators
  import opened Merging
  import opened DbIterator

  /** One run for every level from `l` on that has files. */
  function LevelRuns(v: Version, l: nat): seq<seq<Entry>>
    decreases |v| - l
  {
    if l >= |v| then []
    else if v[l] == [] then LevelRuns(v, l + 1)
    else [Concat(EntriesOf(v[l]))] + LevelRuns(v, l + 1)
  }

  /** The children: memtables, each level-0 file, each deeper level. */
  function InternalRuns(st: State): seq<seq<Entry>> {
    [st.mem] + (if st.imm.Some? then [st.imm.value] else [])
      + (if st.version == [] then [] else EntriesOf(st.version[0])) + LevelRuns(st.version, 1)
  }

  ghost predicate InRuns(runs: seq<seq<Entry>>, e: Entry) {
    exists i :: 0 <= i < |runs| && e in runs[i]
  }

  ghost predicate RunsSorted(runs: seq<seq<Entry>>) {
    forall i :: 0 <= i < |runs| ==> Sorted(runs[i])
  }

  lemma InBoth(a: seq<seq<Entry>>, b: seq<seq<Entry>>, e: Entry)
    ensures InRuns(a + b, e) <==> InRuns(a, e) || InRuns(b, e)
  {
    if i :| 0 <= i < |a| && e in a[i] {
      assert e in (a + b)[i];
    }
    if i :| 0 <= i < |b| && e in b[i] {
      assert e in (a + b)[|a| + i];
    }
    if i :| 0 <= i < |a + b| && e in (a + b)[i] {
      assert if i < |a| then e in a[i] else e in b[i - |a|];
    }
  }

  /** Disjoint and sorted runs side by side. */
  lemma Together(a: seq<seq<Entry>>, b: seq<seq<Entry>>)
    requires DisjointRuns(a) && DisjointRuns(b) && RunsSorted(a) && RunsSorted(b)
    requires forall x, y :: InRuns(a, x) && InRuns(b, y) ==> x.key != y.key
    ensures DisjointRuns(a + b) && RunsSorted(a + b)
  {
    hide Sorted;
    forall i, j | 0 <= i < j < |a + b| ensures DisjointKeys((a + b)[i], (a + b)[j]) {
      if i < |a| <= j {
        forall x, y | x in a[i] && y in b[j - |a|] ensures x.key != y.key {
          assert InRuns(a, x) && InRuns(b, y);
        }
      } else if j < |a| {
        assert DisjointKeys(a[i], a[j]);
      } else {
        assert DisjointKeys(b[i - |a|], b[j - |a|]);
      }
    }
    forall i | 0 <= i < |a + b| ensures Sorted((a + b)[i]) {
      assert (a + b)[i] == if i < |a| then a[i] else b[i - |a|];
    }
  }

  // ---------- the runs of a version ----------

  /** The entries of levels `l` and deeper. */
  ghost predicate InDeeper(v: Version, l: nat, e: Entry) {
    exists m, f :: l <= m && InLevel(v, m, f) && e in f.entries
  }

  lemma {:induction false} LevelRunsHold(v: Version, l: nat, e: Entry)
    ensures InRuns(LevelRuns(v, l), e) <==> InDeeper(v, l, e)
    decreases |v| - l
  {
    hide Concat, EntriesOf;
    if l < |v| {
      LevelRunsHold(v, l + 1, e);
      var first := if v[l] == [] then [] else [Concat(EntriesOf(v[l]))];
      assert LevelRuns(v, l) == first + LevelRuns(v, l + 1);
      InBoth(first, LevelRuns(v, l + 1), e);
      LevelHolds(v[l], e);
      OneRun(v[l], e);
      if f :| f in v[l] && e in f.entries {
        assert InLevel(v, l, f);
      }
      if InDeeper(v, l, e) && !InDeeper(v, l + 1, e) {
        var m, f :| l <= m && InLevel(v, m, f) && e in f.entries;
        assert m == l;
      }
    }
  }

  lemma LevelHolds(files: seq<FileMeta>, e: Entry)
    ensures e in Concat(EntriesOf(files)) <==> exists f :: f in files && e in f.entries
  {
    hide Concat;
    InConcat(EntriesOf(files), e);
    if i :| 0 <= i < |files| && e in EntriesOf(files)[i] {
      assert files[i] in files;
    }
    if f :| f in files && e in f.entries {
      var i :| 0 <= i < |files| && files[i] == f;
      assert e in EntriesOf(files)[i];
    }
  }

  lemma OneRun(files: seq<FileMeta>, e: Entry)
    ensures InRuns(if files == [] then [] else [Concat(EntriesOf(files))], e) <==> e in Concat(EntriesOf(files))
  {
    if files != [] {
      var run := Concat(EntriesOf(files));
      assert [run][0] == run;
    }
  }

  lemma {:induction false} LevelRunsApart(v: Version, l: nat)
    requires VersionOk(v) && 1 <= l
    ensures DisjointRuns(LevelRuns(v, l)) && RunsSorted(LevelRuns(v, l))
    decreases |v| - l
  {
    hide Concat, EntriesOf, Sorted, VersionOk;
    if l < |v| {
      LevelRunsApart(v, l + 1);
      if v[l] != [] {
        var run := Concat(EntriesOf(v[l]));
        LevelSorted(v, l);
        forall x: Entry, y: Entry | InRuns([run], x) && InRuns(LevelRuns(v, l + 1), y) ensures x.key != y.key {
          LevelHolds(v[l], x);
          LevelRunsHold(v, l + 1, y);
          ShallowerApart(v, l, x, y);
        }
        assert DisjointRuns([run]) && RunsSorted([run]);
        Together([run], LevelRuns(v, l + 1));
      }
    }
  }

  lemma LevelSorted(v: Version, l: nat)
    requires VersionOk(v) && 1 <= l < |v|
    ensures Sorted(Concat(EntriesOf(v[l])))
  {
    hide Concat, EntriesOf, Sorted, LevelOrder, UniqueNumbers, Functional;
    ConcatSortedLevel(v[l]);
  }

  lemma ShallowerApart(v: Version, l: nat, x: Entry, y: Entry)
    requires VersionOk(v) && l < |v| && (exists f :: f in v[l] && x in f.entries) && InDeeper(v, l + 1, y)
    ensures x.key != y.key
  {
    hide UniqueNumbers, Functional, SortedLevel, ValidFiles;
    var f :| f in v[l] && x in f.entries;
    var m, g :| l + 1 <= m && InLevel(v, m, g) && y in g.entries;
    assert InLevel(v, l, f) && SearchedBefore(l, f, m, g);
    assert Newer(f, g);
  }

  lemma LevelZeroApart(v: Version)
    requires VersionOk(v)
    ensures DisjointRuns(EntriesOf(v[0])) && RunsSorted(EntriesOf(v[0]))
  {
    hide Functional, SortedLevel, Newer;
    var runs := EntriesOf(v[0]);
    forall i | 0 <= i < |runs| ensures Sorted(runs[i]) {
      assert ValidFile(v[0][i]);
    }
    forall i, j | 0 <= i < j < |runs| ensures DisjointKeys(runs[i], runs[j]) {
      var f, g := v[0][i], v[0][j];
      assert InLevel(v, 0, f) && InLevel(v, 0, g) && f != g;
      if f.number > g.number {
        assert SearchedBefore(0, f, 0, g);
        KeysDiffer(f, g);
      } else {
        assert SearchedBefore(0, g, 0, f);
        KeysDiffer(g, f);
      }
    }
  }

  lemma KeysDiffer(f: FileMeta, g: FileMeta)
    requires Newer(f, g)
    ensures DisjointKeys(f.entries, g.entries) && DisjointKeys(g.entries, f.entries)
  {
  }

  ghost predicate VersionRunsRight(v: Version, runs: seq<seq<Entry>>) {
    && DisjointRuns(runs) && RunsSorted(runs)
    && forall e :: InRuns(runs, e) <==> e in VersionEntries(v)
  }

  lemma VersionRuns(v: Version)
    requires VersionOk(v)
    ensures VersionRunsRight(v, EntriesOf(v[0]) + LevelRuns(v, 1))
  {
    hide VersionOk, EntriesOf, LevelRuns, Sorted, VersionEntries, Newer, DisjointRuns;
    assert |v| > 0 by { VersionSize(v); }
    LevelZeroApart(v);
    LevelRunsApart(v, 1);
    var a, b := EntriesOf(v[0]), LevelRuns(v, 1);
    forall e ensures InRuns(a, e) <==> exists f :: f in v[0] && e in f.entries {
      LevelHolds(v[0], e);
      InConcat(a, e);
    }
    forall x, y | InRuns(a, x) && InRuns(b, y) ensures x.key != y.key {
      LevelRunsHold(v, 1, y);
      ShallowerApart(v, 0, x, y);
    }
    Together(a, b);
    forall e ensures InRuns(a + b, e) <==> e in VersionEntries(v) {
      InBoth(a, b, e);
      LevelRunsHold(v, 1, e);
      InVersion(v, e);
      if l: nat, f :| InLevel(v, l, f) && e in f.entries {
        assert l == 0 ==> f in v[0];
      }
      if f :| f in v[0] && e in f.entries {
        assert InLevel(v, 0, f);
      }
    }
  }

  lemma VersionSize(v: Version)
    requires VersionOk(v)
    ensures |v| == NUM_LEVELS
  {
  }

  // ---------- the whole database ----------

  lemma DatabaseRuns(st: State)
    requires Layered(st)
    ensures DisjointRuns(InternalRuns(st)) && RunsSorted(InternalRuns(st))
    ensures forall e :: InRuns(InternalRuns(st), e) <==> e in Entries(st)
  {
    hide VersionOk, EntriesOf, LevelRuns, Sorted, VersionEntries, AllOrdered, Authentic, UpTo, DisjointKeys;
    var v := st.version;
    VersionSize(v);
    var deep := EntriesOf(v[0]) + LevelRuns(v, 1);
    VersionRuns(v);
    var imm := if st.imm.Some? then [st.imm.value] else [];
    OneMemTable(imm, ImmEntries(st));
    forall x, y | InRuns(imm, x) && InRuns(deep, y) ensures x.key != y.key {
      assert x in ImmEntries(st) && y in VersionEntries(v);
    }
    Together(imm, deep);
    OneMemTable([st.mem], Contents(st.mem));
    forall e ensures InRuns(imm + deep, e) <==> e in ImmEntries(st) + VersionEntries(v) {
      InBoth(imm, deep, e);
    }
    forall x, y | InRuns([st.mem], x) && InRuns(imm + deep, y) ensures x.key != y.key {
      assert x in Contents(st.mem);
    }
    Together([st.mem], imm + deep);
    assert InternalRuns(st) == [st.mem] + (imm + deep);
    forall e ensures InRuns(InternalRuns(st), e) <==> e in Entries(st) {
      InBoth([st.mem], imm + deep, e);
    }
  }

  lemma OneMemTable(runs: seq<seq<Entry>>, es: set<Entry>)
    requires |runs| <= 1 && (runs == [] ==> es == {}) && (runs != [] ==> Sorted(runs[0]) && es == Contents(runs[0]))
    ensures DisjointRuns(runs) && RunsSorted(runs) && forall e :: InRuns(runs, e) <==> e in es
  {
    hide Sorted;
    forall e ensures InRuns(runs, e) <==> e in es {
      if e in es {
        assert e in runs[0];
      }
    }
  }

  /** Over the merged children of any reachable state, an iterator at a readable snapshot shows for every user
      key the last of the operations up to that snapshot. */
  lemma IteratorShowsHistory(st: State, s: nat, u: UserKey)
    requires Inv(st) && st.floor <= s <= LastSequence(st)
    ensures RunOk(MergeAll(InternalRuns(st)))
    ensures View(MergeAll(InternalRuns(st)), s, u) == SpecRead(st.history, u, s)
  {
    hide Layered, Entries, MergeAll, InternalRuns, RunOk;
    MergedRun(st);
  }

  lemma EntriesFunctional(st: State)
    requires Layered(st)
    ensures Functional(Entries(st))
  {
    hide Entries, VersionOk, VersionEntries, AllOrdered;
    AuthenticFunctional(Entries(st), Ops(st));
  }

  /** The same in every reachable state, for the last sequence and every live snapshot. */
  lemma IteratorsShowHistoryInRuns(run: seq<State>, steps: seq<Step>, i: nat, s: nat, u: UserKey)
    requires IsRun(run, steps) && i < |run| && (s in run[i].snapshots || s == LastSequence(run[i]))
    ensures s <= LastSequence(run[i]) && RunOk(MergeAll(InternalRuns(run[i])))
    ensures View(MergeAll(InternalRuns(run[i])), s, u) == SpecRead(run[i].history, u, s)
  {
    hide Layered, MergeAll, InternalRuns, RunOk, JobFits, GroupOk, ReadsRight;
    RunsKeepInv(run, steps, i);
    IteratorShowsHistory(run[i], s, u);
  }

  // ---------- iterators over a memtable that grows ----------

  lemma {:induction false} HistoryInRun(run: seq<State>, steps: seq<Step>, i: nat, j: nat)
    requires IsRun(run, steps) && i <= j < |run|
    ensures run[i].history <= run[j].history && run[i].nextFile <= run[j].nextFile
  {
    hide Inv;
    if i < j {
      HistoryInRun(run, steps, i, j - 1);
      StepLeaves(run[j - 1], steps[j - 1], run[j]);
    }
  }

  lemma StepLeaves(st: State, step: Step, st': State)
    requires Next(st, step, st')
    ensures st.history <= st'.history && st.nextFile <= st'.nextFile
  {
    hide OutputsOk, OutputsClear, Replaced, NoResurrection, Ready, Applied, Added, PlacedClear, ValidFile;
  }

  /** What an iterator pinned in `st` walks over when its memtable has become that of `now`. */
  function PinnedState(st: State, now: State): State {
    State(now.history, st.floor, now.mem, st.imm, st.version, now.nextFile, [], now.inflight, None)
  }

  lemma PinnedLayers(st: State, now: State)
    requires Layered(st) && Layered(now) && st.history <= now.history && st.nextFile <= now.nextFile
    requires Grown(st.mem, now.mem, LastSequence(st))
    ensures Layered(PinnedState(st, now))
  {
    hide VersionOk, AllOrdered, VersionEntries, Sorted;
    var p := PinnedState(st, now);
    assert Ops(p) == Ops(now) && ImmEntries(p) == ImmEntries(st) && Inserted(p) == Inserted(now);
    forall x, y | x in Contents(p.mem) && y in ImmEntries(p) + VersionEntries(p.version)
      ensures x.key.sequence > y.key.sequence
    {
      if x in Contents(st.mem) {
        assert y in ImmEntries(st) + VersionEntries(st.version);
      }
    }
    forall e | e in Entries(p)
      ensures 1 <= e.key.sequence <= |Ops(p)| && e == EntryOf(Ops(p)[e.key.sequence - 1], e.key.sequence)
    {
      if e in Contents(p.mem) {
        assert e in Entries(now);
      } else {
        assert e in Entries(st) && e.key.sequence <= LastSequence(st);
        assert Ops(st)[e.key.sequence - 1] == Ops(p)[e.key.sequence - 1];
      }
    }
  }

  /** An iterator that pinned its memtables and version at state `i` shows, over the memtable as it is at any later
      state `j` before that memtable is switched out, what a read at state `i` finds. */
  lemma IteratorsDuringRun(run: seq<State>, steps: seq<Step>, i: nat, j: nat, s: nat, u: UserKey)
    requires IsRun(run, steps) && i <= j < |run| && (forall k :: i <= k < j ==> !steps[k].SwitchMemTable?)
    requires s in run[i].snapshots || s == LastSequence(run[i])
    ensures s <= LastSequence(run[i])
    ensures var m := MergeAll(InternalRuns(PinnedState(run[i], run[j])));
            RunOk(m) && View(m, s, u) == SpecRead(run[i].history, u, s)
  {
    hide Layered, MergeAll, InternalRuns, RunOk, JobFits, GroupOk, IsRun, Functional, Grown, Entries;
    RunsKeepInv(run, steps, i);
    RunsKeepInv(run, steps, j);
    MemTableGrows(run, steps, i, j);
    HistoryInRun(run, steps, i, j);
    PinnedLayers(run[i], run[j]);
    var p := PinnedState(run[i], run[j]);
    MergedRun(p);
    SameVisible(run[i], run[j], u, s);
  }

  /** The merged children are one run, with the entries of the state. */
  lemma MergedRun(st: State)
    requires Layered(st)
    ensures RunOk(MergeAll(InternalRuns(st))) && Contents(MergeAll(InternalRuns(st))) == Entries(st)
  {
    hide Layered, Entries, MergeAll, InternalRuns, Sorted, Functional, DisjointRuns;
    var runs := InternalRuns(st);
    DatabaseRuns(st);
    MergeAllSorted(runs);
    var m := MergeAll(runs);
    forall e ensures e in Contents(m) <==> e in Entries(st) {
      assert e in m <==> InRuns(runs, e);
    }
    assert Contents(m) == Entries(st);
    EntriesFunctional(st);
  }

  lemma SameVisible(st: State, now: State, u: UserKey, s: nat)
    requires Layered(st) && Layered(PinnedState(st, now)) && Grown(st.mem, now.mem, LastSequence(st))
    requires s <= LastSequence(st)
    ensures Read(Entries(PinnedState(st, now)), u, s) == Read(Entries(st), u, s)
  {
    hide VersionEntries, Functional;
    EntriesFunctional(st);
    EntriesFunctional(PinnedState(st, now));
    assert ImmEntries(PinnedState(st, now)) == ImmEntries(st);
    ReadAgrees(Entries(PinnedState(st, now)), Entries(st), u, s);
  }

  // ---------- the iterator itself ----------

  /** The children hold the entries of the state. */
  lemma ChildrenHold(st: State)
    requires Layered(st)
    ensures DisjointRuns(InternalRuns(st)) && RunsSorted(InternalRuns(st)) && Members(InternalRuns(st)) == Entries(st)
    ensures Functional(Entries(st))
  {
    hide Layered, Entries, InternalRuns, Functional, DisjointRuns, RunsSorted;
    DatabaseRuns(st);
    EntriesFunctional(st);
    forall e ensures e in Members(InternalRuns(st)) <==> e in Entries(st) {
      assert e in Members(InternalRuns(st)) <==> InRuns(InternalRuns(st), e);
    }
  }

  /** `NewIterator`: a merging iterator over the children of the state, and the user's view of it. */
  method NewIterator(st: State, s: nat) returns (it: DBIter)
    requires Inv(st) && st.floor <= s <= LastSequence(st)
    ensures it.Ok() && !it.valid && it.sequence == s && RunsOf(it.source.children) == InternalRuns(st)
    ensures fresh(it) && fresh(it.source)
    ensures forall u :: it.Shown(u) == SpecRead(st.history, u, s)
  {
    hide Entries, InternalRuns, Functional, DisjointRuns, MergeAll, Sorted, Members, RunOk, View, SpecRead;
    assert Layered(st) by { hide Layered; }
    hide Layered;
    ChildrenHold(st);
    it := new DBIter(InternalRuns(st), s);
    forall u ensures it.Shown(u) == SpecRead(st.history, u, s) {
      IteratorShowsHistory(st, s, u);
    }
  }

  /** A write after the iterator pinned its state, and before the memtable is switched out, is one the iterator allows:
      it inserts an entry above its sequence number into its first child. */
  lemma InsertGrows(run: seq<State>, steps: seq<Step>, i: nat, j: nat, s: nat)
    requires IsRun(run, steps) && i <= j < |steps| && (forall k :: i <= k <= j ==> !steps[k].SwitchMemTable?)
    requires (s in run[i].snapshots || s == LastSequence(run[i])) && steps[j].InsertOne?
    ensures run[j].inflight.Some? && run[j].inflight.value.inserted < |run[j].inflight.value.ops|
    ensures var g := run[j].inflight.value;
            var e := EntryOf(g.ops[g.inserted], |run[j].history| + 1 + g.inserted);
            var n := Seek(run[j].mem, e.key);
            var rs := InternalRuns(PinnedState(run[i], run[j]));
            var grown := rs[0][..n] + [e] + rs[0][n..];
            && n <= |rs[0]| && e.key.sequence > s && Sorted(grown) && Functional(Members(rs) + {e})
            && (forall k, x :: 0 <= k < |rs| && x in rs[k] ==> x.key != e.key)
            && InternalRuns(PinnedState(run[i], run[j + 1])) == rs[0 := grown]
  {
    hide Layered, InternalRuns, JobFits, GroupOk, IsRun, Functional, Grown, Entries, Sorted, DisjointRuns, Seek;
    hide ReadsRight;
    StepOf(run, steps, j);
    RunsKeepInv(run, steps, i);
    RunsKeepInv(run, steps, j);
    RunsKeepInv(run, steps, j + 1);
    MemTableGrows(run, steps, i, j);
    MemTableGrows(run, steps, i, j + 1);
    HistoryInRun(run, steps, i, j);
    HistoryInRun(run, steps, i, j + 1);
    PinnedLayers(run[i], run[j]);
    PinnedLayers(run[i], run[j + 1]);
    var p, p' := PinnedState(run[i], run[j]), PinnedState(run[i], run[j + 1]);
    ChildrenHold(p');
    var g := run[j].inflight.value;
    var e := EntryOf(g.ops[g.inserted], |run[j].history| + 1 + g.inserted);
    assert LastSequence(run[i]) <= LastSequence(run[j]);
    GrownRuns(p, p', e);
  }

  lemma StepOf(run: seq<State>, steps: seq<Step>, j: nat)
    requires IsRun(run, steps) && j < |steps|
    ensures |run| == |steps| + 1 && Next(run[j], steps[j], run[j + 1])
  {
  }

  /** One entry more in the memtable, among children that are disjoint. */
  lemma GrownRuns(p: State, p': State, e: Entry)
    requires p'.mem == MemInsert(p.mem, e) && p'.imm == p.imm && p'.version == p.version
    requires DisjointRuns(InternalRuns(p')) && RunsSorted(InternalRuns(p'))
    requires Functional(Entries(p')) && Members(InternalRuns(p')) == Entries(p')
    ensures var rs := InternalRuns(p);
            var n := Seek(p.mem, e.key);
            && n <= |rs[0]| && Sorted(rs[0][..n] + [e] + rs[0][n..]) && Functional(Members(rs) + {e})
            && (forall k, x :: 0 <= k < |rs| && x in rs[k] ==> x.key != e.key)
            && InternalRuns(p') == rs[0 := rs[0][..n] + [e] + rs[0][n..]]
  {
    hide Functional, Sorted, Seek, LevelRuns, EntriesOf, Entries;
    var rs, rs', n := InternalRuns(p), InternalRuns(p'), Seek(p.mem, e.key);
    assert rs[0] == p.mem && rs' == rs[0 := p'.mem];
    assert p'.mem == p.mem[..n] + [e] + p.mem[n..];
    MoreMembers(rs, 0, n, e);
    assert Sorted(rs'[0]);
    forall k, x | 0 <= k < |rs| && x in rs[k] ensures x.key != e.key {
      assert e == rs'[0][n];
      if k == 0 {
        OthersDiffer(p.mem, n, e, x);
      } else {
        assert DisjointKeys(rs'[0], rs'[k]);
      }
    }
  }

  lemma OthersDiffer(es: seq<Entry>, n: nat, e: Entry, x: Entry)
    requires n <= |es| && Sorted(es[..n] + [e] + es[n..]) && x in es
    ensures x.key != e.key
  {
    hide Sorted;
    var now := es[..n] + [e] + es[n..];
    var j :| 0 <= j < |es| && es[j] == x;
    var k := if j < n then j else j + 1;
    EntryAt(es, n, e, k);
    EntryAt(es, n, e, n);
    Increasing(now, n, k);
    LessTotal(x.key, e.key);
    LessTotal(e.key, e.key);
  }
}
